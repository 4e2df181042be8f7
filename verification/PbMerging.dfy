/** What becomes of a structure when a message is decoded on top of it: Protocol Buffers
    encoding, section "Last One Wins", and updating of messages. */
module PbMerging {
  import opened Coding
  import opened PbMessages
  import opened PbDecoding

  // ---------------------------------------------------------------- what fits

  /** A message has one member of each union at most. */
  ghost predicate UnionsOk(fields: seq<Field>, v: seq<seq<Value>>)
    requires |v| == |fields|
  {
    forall i, j :: 0 <= i < j < |fields| && fields[i].rule.Oneof? && fields[i].rule == fields[j].rule ==> v[i] == [] || v[j] == []
  }

  /** The value has room in its place, with the terminator a string needs there, and its
      length fits 32 bits. */
  ghost predicate Roomy(k: Kind, v: Value)
    requires WellTyped(k, v)
    decreases k
  {
    if Packable(k) then true
    else if k.Message? then RoomyFields(k.fields, v.slots) && |EncodeFields(k.fields, v.slots)| < MAX_UINT32
    else |v.b| < MAX_UINT32 && (k.Blob? ==> |v.b| <= k.max) && (k.Text? ==> |v.b| < k.size)
  }

  ghost predicate RoomyFields(fields: seq<Field>, slots: seq<seq<Value>>)
    requires SlotsOk(fields, slots)
    decreases fields
  {
    UnionsOk(fields, slots) && forall i :: 0 <= i < |fields| ==> RoomyField(fields[i], slots[i])
  }

  ghost predicate RoomyField(f: Field, items: seq<Value>)
    requires SlotOk(f, items)
    decreases f
  {
    && (forall v :: v in items ==> Roomy(f.kind, v))
    && (f.rule.Repeated? ==> |items| <= f.rule.max && (Packable(f.kind) ==> |EncodePacked(f.kind, items)| < MAX_UINT32))
  }

  // ---------------------------------------------------------------- merging

  /** The encoding of a field is not empty. */
  predicate Sets(f: Field, items: seq<Value>)
    requires SlotOk(f, items)
  {
    items != [] && !(f.rule.Singular? && IsZero(f.kind, items[0]))
  }

  /** Another member of the same union. */
  predicate Sibling(fields: seq<Field>, i: nat, j: nat)
    requires i < |fields| && j < |fields|
  {
    i != j && fields[i].rule.Oneof? && fields[i].rule == fields[j].rule
  }

  function BaseSlots(fields: seq<Field>, base: Value): (r: seq<seq<Value>>)
    ensures |r| == |fields|
  {
    if base.Struct? && |base.slots| == |fields| then base.slots else Defaults(fields)
  }

  function BaseOf(f: Field, base: seq<Value>): Value {
    if base == [] then Default(f.kind) else base[0]
  }

  /** A message is merged field by field; of other values the new one stands. */
  function MergeValue(k: Kind, base: Value, v: Value): Value
    requires WellTyped(k, v)
    decreases k
  {
    if k.Message? then Struct(MergeFields(k.fields, BaseSlots(k.fields, base), v.slots)) else v
  }

  /** The items of a repeated field are appended. */
  function MergeItems(f: Field, base: seq<Value>, items: seq<Value>): seq<Value>
    requires SlotOk(f, items)
    decreases f
  {
    if f.rule.Repeated? then base + items
    else if !Sets(f, items) then base
    else [MergeValue(f.kind, BaseOf(f, base), items[0])]
  }

  /** One of the first `n` fields sets another member of the union of field `j`. */
  predicate Overridden(fields: seq<Field>, v: seq<seq<Value>>, n: nat, j: nat)
    requires SlotsOk(fields, v) && n <= |fields| && j < |fields|
  {
    exists i :: 0 <= i < n && Sibling(fields, i, j) && Sets(fields[i], v[i])
  }

  function MergedSlot(fields: seq<Field>, base: seq<seq<Value>>, v: seq<seq<Value>>, n: nat, j: nat): seq<Value>
    requires SlotsOk(fields, v) && |base| == |fields| && n <= |fields| && j < |fields|
    decreases fields, 0
  {
    if j < n && Sets(fields[j], v[j]) then MergeItems(fields[j], base[j], v[j])
    else if Overridden(fields, v, n, j) then [] else base[j]
  }

  /** What the first `n` fields of a message make of a structure. */
  function MergedUpTo(fields: seq<Field>, base: seq<seq<Value>>, v: seq<seq<Value>>, n: nat): (r: seq<seq<Value>>)
    requires SlotsOk(fields, v) && |base| == |fields| && n <= |fields|
    ensures |r| == |fields|
    decreases fields, 1
  {
    seq(|fields|, j requires 0 <= j < |fields| => MergedSlot(fields, base, v, n, j))
  }

  function MergeFields(fields: seq<Field>, base: seq<seq<Value>>, v: seq<seq<Value>>): (r: seq<seq<Value>>)
    requires SlotsOk(fields, v) && |base| == |fields|
    ensures |r| == |fields|
    decreases fields, 2
  {
    MergedUpTo(fields, base, v, |fields|)
  }

  /** Repeated fields have room for what is appended. */
  ghost predicate FitsIn(k: Kind, base: Value, v: Value)
    requires WellTyped(k, v)
    decreases k
  {
    k.Message? ==> FitFields(k.fields, BaseSlots(k.fields, base), v.slots)
  }

  ghost predicate FitFields(fields: seq<Field>, base: seq<seq<Value>>, v: seq<seq<Value>>)
    requires SlotsOk(fields, v) && |base| == |fields|
    decreases fields
  {
    forall i :: 0 <= i < |fields| ==> FitItems(fields[i], base[i], v[i])
  }

  ghost predicate FitItems(f: Field, base: seq<Value>, items: seq<Value>)
    requires SlotOk(f, items)
    decreases f
  {
    Sets(f, items) ==>
      if f.rule.Repeated? then |base| + |items| <= f.rule.max else FitsIn(f.kind, BaseOf(f, base), items[0])
  }

  lemma FitAt(fields: seq<Field>, base: seq<seq<Value>>, v: seq<seq<Value>>, i: nat)
    requires SlotsOk(fields, v) && |base| == |fields| && FitFields(fields, base, v) && i < |fields|
    ensures FitItems(fields[i], base[i], v[i])
  {
    hide FitItems, SlotOk;
  }

  /** One field more. */
  lemma MergedNext(fields: seq<Field>, base: seq<seq<Value>>, v: seq<seq<Value>>, n: nat)
    requires SlotsOk(fields, v) && |base| == |fields| && n < |fields| && UnionsOk(fields, v)
    ensures var m, next := MergedUpTo(fields, base, v, n), MergedUpTo(fields, base, v, n + 1);
      if Sets(fields[n], v[n]) then
        m[n] == base[n] && next == ClearUnion(fields, m, n)[n := MergeItems(fields[n], base[n], v[n])]
      else next == m
  {
    hide SlotOk, MergeItems, Sets;
    var m, next := MergedUpTo(fields, base, v, n), MergedUpTo(fields, base, v, n + 1);
    forall j | 0 <= j < |fields|
      ensures next[j] == if !Sets(fields[n], v[n]) then m[j]
                         else if j == n then MergeItems(fields[n], base[n], v[n])
                         else if Sibling(fields, n, j) then [] else m[j]
    {
      assert m[j] == MergedSlot(fields, base, v, n, j) && next[j] == MergedSlot(fields, base, v, n + 1, j);
      OverriddenNext(fields, v, n, j);
      if Sets(fields[n], v[n]) && Sibling(fields, n, j) { OneIsSet(fields, v, n, j); }
    }
    if Sets(fields[n], v[n]) {
      OneIsSet(fields, v, n, n);
      hide MergedUpTo;
    }
  }

  lemma NothingMerged(fields: seq<Field>, base: seq<seq<Value>>, v: seq<seq<Value>>)
    requires SlotsOk(fields, v) && |base| == |fields|
    ensures MergedUpTo(fields, base, v, 0) == base
  {
  }

  lemma OverriddenNext(fields: seq<Field>, v: seq<seq<Value>>, n: nat, j: nat)
    requires SlotsOk(fields, v) && n < |fields| && j < |fields|
    ensures Overridden(fields, v, n + 1, j) <==> Overridden(fields, v, n, j) || (Sibling(fields, n, j) && Sets(fields[n], v[n]))
  {
    hide Sets, Sibling, SlotsOk;
  }

  lemma OneIsSet(fields: seq<Field>, v: seq<seq<Value>>, n: nat, j: nat)
    requires SlotsOk(fields, v) && n < |fields| && j < |fields| && UnionsOk(fields, v) && Sets(fields[n], v[n])
    ensures Sibling(fields, n, j) ==> !Sets(fields[j], v[j])
    ensures j == n ==> !Overridden(fields, v, n, j)
  {
  }

  // ---------------------------------------------------------------- into defaults

  /** A value that is left out of the encoding is the one a structure starts with. */
  lemma {:induction false} ZeroIsDefault(k: Kind, v: Value)
    requires WellTyped(k, v) && IsZero(k, v)
    ensures v == Default(k)
    decreases k
  {
    if k.Message? {
      DefaultsAt(k.fields);
      forall i | 0 <= i < |k.fields| ensures v.slots[i] == Defaults(k.fields)[i] {
        ZeroIsDefaultField(k.fields[i], v.slots[i]);
      }
    }
  }

  lemma {:induction false} ZeroIsDefaultField(f: Field, items: seq<Value>)
    requires SlotOk(f, items) && IsZeroField(f, items)
    ensures items == DefaultSlot(f)
    decreases f
  {
    if f.rule.Singular? {
      ZeroIsDefault(f.kind, items[0]);
    }
  }

  lemma {:induction false} DefaultsAt(fields: seq<Field>)
    ensures forall i :: 0 <= i < |fields| ==> Defaults(fields)[i] == DefaultSlot(fields[i])
    decreases |fields|
  {
    hide DefaultSlot;
    if fields != [] {
      DefaultsAt(fields[1..]);
    }
  }

  /** A message merged into defaults is the message. */
  lemma {:induction false} IntoDefaults(fields: seq<Field>, v: seq<seq<Value>>)
    requires SlotsOk(fields, v) && RoomyFields(fields, v)
    ensures MergeFields(fields, Defaults(fields), v) == v && FitFields(fields, Defaults(fields), v)
    decreases fields
  {
    DefaultsAt(fields);
    hide SlotOk, DefaultSlot, Sets, MergeItems, FitItems, RoomyField, Overridden;
    var m := MergedUpTo(fields, Defaults(fields), v, |fields|);
    assert MergeFields(fields, Defaults(fields), v) == m;
    forall i | 0 <= i < |fields| ensures m[i] == v[i] && FitItems(fields[i], Defaults(fields)[i], v[i]) {
      assert m[i] == MergedSlot(fields, Defaults(fields), v, |fields|, i);
      IntoDefaultSlot(fields[i], v[i]);
      if Overridden(fields, v, |fields|, i) { NoneByDefault(fields, v, i); }
    }
  }

  lemma NoneByDefault(fields: seq<Field>, v: seq<seq<Value>>, j: nat)
    requires SlotsOk(fields, v) && UnionsOk(fields, v) && j < |fields| && Overridden(fields, v, |fields|, j)
    ensures v[j] == []
  {
  }

  lemma {:induction false} IntoDefaultSlot(f: Field, items: seq<Value>)
    requires SlotOk(f, items) && RoomyField(f, items)
    ensures FitItems(f, DefaultSlot(f), items)
    ensures Sets(f, items) ==> MergeItems(f, DefaultSlot(f), items) == items
    ensures !Sets(f, items) ==> DefaultSlot(f) == items
    decreases f
  {
    hide FitsIn, Roomy, WellTyped, IsZero, MergeValue, Default;
    if f.rule.Repeated? {
      assert [] + items == items;
    } else if Sets(f, items) {
      assert items == [items[0]] && items[0] in items;
      IntoDefault(f.kind, items[0]);
    } else if items != [] {
      ZeroIsDefault(f.kind, items[0]);
      assert items == [items[0]];
    }
  }

  lemma {:induction false} IntoDefault(k: Kind, v: Value)
    requires WellTyped(k, v) && Roomy(k, v)
    ensures MergeValue(k, Default(k), v) == v && FitsIn(k, Default(k), v)
    decreases k
  {
    hide MergeFields, FitFields, RoomyFields, SlotsOk;
    if k.Message? {
      IntoDefaults(k.fields, v.slots);
      assert v == Struct(v.slots);
    }
  }
}
