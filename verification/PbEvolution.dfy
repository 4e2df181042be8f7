/** Bytes that the encoder of these descriptors does not write: fields of other versions of a
    message, repeated numbers with a tag each, fields that come more than once. */
module PbEvolution {
  import opened DbFormat
  import opened Coding
  import opened PbMessages
  import opened PbDecoding
  import opened PbMerging
  import opened PbRoundTrip

  // ---------------------------------------------------------------- unknown fields

  /** What is measured has a length of 32 bits. */
  predicate Measured(k: Kind, v: Value)
    requires WellTyped(k, v)
  {
    !Packable(k) ==> |if k.Message? then EncodeFields(k.fields, v.slots) else v.b| < MAX_UINT32
  }

  lemma {:induction false} VarintIsSkipped(n: nat, rest: bytes)
    ensures SkipVarint(Varint(n) + rest) == Some(rest)
  {
    VarintHead(n, rest);
    if n >= 128 { VarintIsSkipped(n / 128, rest); }
  }

  lemma NumberIsSkipped(k: Kind, n: int, rest: bytes)
    requires Packable(k) && NumberOk(k, n)
    ensures SkipField(WireType(k), EncodeNumber(k, n) + rest) == Some(rest)
  {
    hide Varint, SkipVarint, Fixed, Pow;
    if k.Fixed32? || k.Fixed64? {
      FixedIsSkipped(n, if k.Fixed32? then 4 else 8, rest);
    } else {
      if !k.Bool? { WordRoundTrip(k, n); }
      VarintIsSkipped(WordOf(k, n), rest);
    }
  }

  lemma FixedIsSkipped(n: nat, w: nat, rest: bytes)
    ensures |Fixed(n, w)| == w && (Fixed(n, w) + rest)[w..] == rest
  {
  }

  lemma ValueIsSkipped(k: Kind, v: Value, rest: bytes)
    requires WellTyped(k, v) && Measured(k, v)
    ensures SkipField(WireType(k), EncodeValue(k, v) + rest) == Some(rest)
  {
    hide EncodeNumber, NumberOk, PutLengthPrefixed, Substream, EncodeFields, SkipVarint, SlotsOk;
    if Packable(k) {
      NumberIsSkipped(k, v.n, rest);
    } else {
      SubstreamRoundTrip(if k.Message? then EncodeFields(k.fields, v.slots) else v.b, rest);
    }
  }

  lemma {:induction false} NotFound(fields: seq<Field>, tag: nat)
    requires forall i :: 0 <= i < |fields| ==> fields[i].tag != tag
    ensures Find(fields, tag) == |fields|
  {
  }

  /** A key that no descriptor has is skipped with its value. */
  lemma KeySkipped(fields: seq<Field>, tag: nat, wireType: nat, s: bytes, slots: seq<seq<Value>>, seen: set<nat>)
    requires |slots| == |fields| && 1 <= tag < 0x2000_0000 && wireType < 8
    requires forall i :: 0 <= i < |fields| ==> fields[i].tag != tag
    ensures DecodeFields(fields, EncodeTag(tag, wireType) + s, slots, seen) ==
            match SkipField(wireType, s) case None => None case Some(rest) => DecodeFields(fields, rest, slots, seen)
  {
    hide DecodeVarint32, Varint, PbDecoding.DecodeField, Find, Finished, SkipField;
    var key := tag * 8 + wireType;
    Varint32RoundTrips(key, s);
    NotFound(fields, tag);
    assert key / 8 == tag && key % 8 == wireType;
    assert EncodeTag(tag, wireType) + s != [];
  }

  /** A value whose tag no descriptor has leaves the structure as it is. */
  lemma UnknownIsSkipped(fields: seq<Field>, tag: nat, k: Kind, v: Value, rest: bytes, slots: seq<seq<Value>>, seen: set<nat>)
    requires |slots| == |fields| && 1 <= tag < 0x2000_0000 && forall i :: 0 <= i < |fields| ==> fields[i].tag != tag
    requires WellTyped(k, v) && Measured(k, v)
    ensures DecodeFields(fields, EncodeTag(tag, WireType(k)) + EncodeValue(k, v) + rest, slots, seen) ==
            DecodeFields(fields, rest, slots, seen)
  {
    hide DecodeFields, EncodeTag, EncodeValue, SkipField, WellTyped, Measured;
    Behind(EncodeTag(tag, WireType(k)), EncodeValue(k, v), rest);
    KeySkipped(fields, tag, WireType(k), EncodeValue(k, v) + rest, slots, seen);
    ValueIsSkipped(k, v, rest);
  }

  lemma Behind(a: bytes, b: bytes, c: bytes)
    ensures a + b + c == a + (b + c)
  {
  }

  lemma {:induction false} UnknownItemsSkipped(fields: seq<Field>, tag: nat, k: Kind, items: seq<Value>, rest: bytes,
                                               slots: seq<seq<Value>>, seen: set<nat>)
    requires |slots| == |fields| && 1 <= tag < 0x2000_0000 && forall i :: 0 <= i < |fields| ==> fields[i].tag != tag
    requires forall v :: v in items ==> WellTyped(k, v) && Measured(k, v)
    ensures DecodeFields(fields, EncodeTagged(tag, k, items) + rest, slots, seen) == DecodeFields(fields, rest, slots, seen)
    decreases items
  {
    hide DecodeFields, EncodeTag, EncodeValue, WellTyped, Measured;
    if items == [] {
      assert EncodeTagged(tag, k, items) + rest == rest;
    } else {
      assert items[0] in items;
      var one, more := EncodeTag(tag, WireType(k)) + EncodeValue(k, items[0]), EncodeTagged(tag, k, items[1..]);
      assert EncodeTagged(tag, k, items) == one + more;
      Behind(one, more, rest);
      UnknownIsSkipped(fields, tag, k, items[0], more + rest, slots, seen);
      UnknownItemsSkipped(fields, tag, k, items[1..], rest, slots, seen);
    }
  }

  /** A whole field that no descriptor has, packed or not. */
  lemma UnknownFieldIsSkipped(fields: seq<Field>, f: Field, items: seq<Value>, rest: bytes, slots: seq<seq<Value>>, seen: set<nat>)
    requires |slots| == |fields| && 1 <= f.tag < 0x2000_0000 && forall i :: 0 <= i < |fields| ==> fields[i].tag != f.tag
    requires SlotOk(f, items) && RoomyField(f, items)
    ensures DecodeFields(fields, EncodeField(f, items) + rest, slots, seen) == DecodeFields(fields, rest, slots, seen)
  {
    hide DecodeFields, EncodeTagged, EncodePacked, WellTyped, Roomy, EncodeTag, IsZero, PutLengthPrefixed, SkipField, Measured;
    if !Sets(f, items) {
      assert EncodeField(f, items) + rest == rest;
    } else if f.rule.Repeated? && Packable(f.kind) {
      var b := EncodePacked(f.kind, items);
      Behind(EncodeTag(f.tag, WT_STRING), PutLengthPrefixed(b), rest);
      KeySkipped(fields, f.tag, WT_STRING, PutLengthPrefixed(b) + rest, slots, seen);
      BytesAreSkipped(b, rest);
    } else {
      forall v | v in items ensures Measured(f.kind, v) { RoomyIsMeasured(f.kind, v); }
      UnknownItemsSkipped(fields, f.tag, f.kind, items, rest, slots, seen);
    }
  }

  lemma BytesAreSkipped(b: bytes, rest: bytes)
    requires |b| < MAX_UINT32
    ensures SkipField(WT_STRING, PutLengthPrefixed(b) + rest) == Some(rest)
  {
    SubstreamRoundTrip(b, rest);
    hide Substream, PutLengthPrefixed, SkipVarint;
  }

  lemma RoomyIsMeasured(k: Kind, v: Value)
    requires WellTyped(k, v) && Roomy(k, v)
    ensures Measured(k, v)
  {
    hide EncodeFields, RoomyFields, SlotsOk;
  }

  /** An unknown field of a wire type without a length is an error; a tag of zero ends the
      message, whatever follows. */
  lemma StrayKeys(fields: seq<Field>, tag: nat, wireType: nat, s: bytes, slots: seq<seq<Value>>, seen: set<nat>)
    requires |slots| == |fields| && 1 <= tag < 0x2000_0000 && wireType < 8
    requires forall i :: 0 <= i < |fields| ==> fields[i].tag != tag
    ensures wireType !in {0, 1, 2, 5} ==> DecodeFields(fields, EncodeTag(tag, wireType) + s, slots, seen) == None
    ensures DecodeFields(fields, [0] + s, slots, seen) == DecodeFields(fields, [], slots, seen)
  {
    KeySkipped(fields, tag, wireType, s, slots, seen);
    hide PbDecoding.DecodeField, Find, Finished, Varint, Substream, SkipVarint;
    assert ([0] + s)[1..] == s;
  }

  // ---------------------------------------------------------------- older readers

  /** The older descriptors are some of the newer ones, in their order. */
  ghost predicate Selects(older: seq<Field>, newer: seq<Field>, at: seq<nat>) {
    && |at| == |older| && (forall m :: 0 <= m < |at| ==> at[m] < |newer| && older[m] == newer[at[m]])
    && forall m, n :: 0 <= m < n < |at| ==> at[m] < at[n]
  }

  /** What of a message an older reader knows. */
  function Picked(v: seq<seq<Value>>, at: seq<nat>): (w: seq<seq<Value>>)
    requires forall m :: 0 <= m < |at| ==> at[m] < |v|
    ensures |w| == |at| && forall m :: 0 <= m < |at| ==> w[m] == v[at[m]]
  {
    seq(|at|, m requires 0 <= m < |at| => v[at[m]])
  }

  lemma PickedIsRoomy(older: seq<Field>, newer: seq<Field>, at: seq<nat>, v: seq<seq<Value>>)
    requires Selects(older, newer, at) && SlotsOk(newer, v) && RoomyFields(newer, v) && Descriptors(newer)
    ensures SlotsOk(older, Picked(v, at)) && RoomyFields(older, Picked(v, at)) && Descriptors(older)
  {
    hide SlotOk, RoomyField, GoodField;
  }

  /** Of the older descriptors, the first `m` are among the first `i` newer ones. */
  ghost predicate Reached(at: seq<nat>, i: nat, m: nat) {
    m <= |at| && (forall n :: 0 <= n < m ==> at[n] < i) && forall n :: m <= n < |at| ==> i <= at[n]
  }

  /** The field is one of those the older reader knows, or none of them has its tag. */
  lemma KnownOrNot(older: seq<Field>, newer: seq<Field>, at: seq<nat>, i: nat, m: nat)
    requires Selects(older, newer, at) && Descriptors(newer) && i < |newer| && Reached(at, i, m)
    ensures (m < |at| && at[m] == i) || forall n :: 0 <= n < |older| ==> older[n].tag != newer[i].tag
    ensures 1 <= newer[i].tag < 0x2000_0000
    ensures Reached(at, i + 1, if m < |at| && at[m] == i then m + 1 else m)
  {
    var known := m < |at| && at[m] == i;
    ReachedNext(at, i, m);
    OtherTags(newer, i);
    hide Descriptors, Reached;
    forall n | 0 <= n < |older| && !known ensures older[n].tag != newer[i].tag {
      assert at[n] != i;
    }
  }

  lemma OtherTags(newer: seq<Field>, i: nat)
    requires Descriptors(newer) && i < |newer|
    ensures 1 <= newer[i].tag < 0x2000_0000
    ensures forall n :: 0 <= n < |newer| && n != i ==> newer[n].tag != newer[i].tag
  {
    hide GoodField;
  }

  lemma ReachedNext(at: seq<nat>, i: nat, m: nat)
    requires Reached(at, i, m) && forall m, n :: 0 <= m < n < |at| ==> at[m] < at[n]
    ensures Reached(at, i + 1, if m < |at| && at[m] == i then m + 1 else m)
    ensures !(m < |at| && at[m] == i) ==> forall n :: 0 <= n < |at| ==> at[n] != i
  {
    if m < |at| && at[m] != i {
      forall n | m < n < |at| ensures i < at[n] { assert at[m] < at[n]; }
    }
  }

  lemma NewerFacts(newer: seq<Field>, v: seq<seq<Value>>, i: nat)
    requires SlotsOk(newer, v) && RoomyFields(newer, v) && i < |newer|
    ensures SlotOk(newer[i], v[i]) && RoomyField(newer[i], v[i]) && SlotsOk(newer[i..], v[i..]) && SlotsOk(newer[i + 1..], v[i + 1..])
    ensures EncodeFields(newer[i..], v[i..]) == EncodeField(newer[i], v[i]) + EncodeFields(newer[i + 1..], v[i + 1..])
  {
    hide SlotOk, RoomyField, EncodeField;
    assert newer[i..][1..] == newer[i + 1..] && v[i..][1..] == v[i + 1..];
  }

  lemma OneOlder(older: seq<Field>, newer: seq<Field>, at: seq<nat>, v: seq<seq<Value>>, base: seq<seq<Value>>,
                 i: nat, m: nat, seen: set<nat>, rest: bytes) returns (m': nat, seen': set<nat>)
    requires Selects(older, newer, at) && SlotsOk(newer, v) && RoomyFields(newer, v) && Descriptors(newer)
    requires SlotsOk(older, Picked(v, at)) && |base| == |older| && FitFields(older, base, Picked(v, at))
    requires i < |newer| && Reached(at, i, m)
    ensures Reached(at, i + 1, m') && m <= m' <= m + 1 && seen <= seen' && (m < m' && older[m].rule.Required? ==> m in seen')
    ensures SlotOk(newer[i], v[i])
    ensures DecodeFields(older, EncodeField(newer[i], v[i]) + rest, MergedUpTo(older, base, Picked(v, at), m), seen) ==
            DecodeFields(older, rest, MergedUpTo(older, base, Picked(v, at), m'), seen')
  {
    var w := Picked(v, at);
    assert m < |at| ==> newer[at[m]] == older[m] && v[at[m]] == w[m];
    PickedIsRoomy(older, newer, at, v);
    NewerFacts(newer, v, i);
    KnownOrNot(older, newer, at, i, m);
    hide *;
    if m < |at| && at[m] == i {
      FitAt(older, base, w, m);
      m' := m + 1;
      seen' := OneMerges(older, base, w, m, seen, rest);
    } else {
      m', seen' := m, seen;
      UnknownFieldIsSkipped(older, newer[i], v[i], rest, MergedUpTo(older, base, w, m), seen);
    }
  }

  lemma {:induction false} OlderFromHere(older: seq<Field>, newer: seq<Field>, at: seq<nat>, v: seq<seq<Value>>, base: seq<seq<Value>>,
                                         i: nat, m: nat, seen: set<nat>, rest: bytes) returns (seen': set<nat>)
    requires Selects(older, newer, at) && SlotsOk(newer, v) && RoomyFields(newer, v) && Descriptors(newer)
    requires SlotsOk(older, Picked(v, at)) && |base| == |older| && FitFields(older, base, Picked(v, at))
    requires i <= |newer| && Reached(at, i, m)
    requires forall j :: 0 <= j < m && older[j].rule.Required? ==> j in seen
    ensures SlotsOk(newer[i..], v[i..])
    ensures forall j :: 0 <= j < |older| && older[j].rule.Required? ==> j in seen'
    ensures DecodeFields(older, EncodeFields(newer[i..], v[i..]) + rest, MergedUpTo(older, base, Picked(v, at), m), seen) ==
            DecodeFields(older, rest, MergeFields(older, base, Picked(v, at)), seen')
    decreases |newer| - i
  {
    hide DecodeFields, EncodeField, Descriptors, RoomyFields, FitFields, MergedUpTo, SlotOk, EncodeFields;
    if i == |newer| {
      AtTheEnd(newer, v, rest);
      assert m == |older|;
      assert MergeFields(older, base, Picked(v, at)) == MergedUpTo(older, base, Picked(v, at), m);
      seen' := seen;
    } else {
      NewerFacts(newer, v, i);
      hide *;
      var more := EncodeFields(newer[i + 1..], v[i + 1..]);
      Behind(EncodeField(newer[i], v[i]), more, rest);
      var m', next := OneOlder(older, newer, at, v, base, i, m, seen, more + rest);
      seen' := OlderFromHere(older, newer, at, v, base, i + 1, m', next, rest);
    }
  }

  lemma AtTheEnd(newer: seq<Field>, v: seq<seq<Value>>, rest: bytes)
    requires SlotsOk(newer, v)
    ensures SlotsOk(newer[|newer|..], v[|newer|..]) && EncodeFields(newer[|newer|..], v[|newer|..]) + rest == rest
  {
  }

  /** A reader with fewer fields, wherever the missing ones were, gets of a newer message what
      it knows of it. */
  lemma OlderReads(older: seq<Field>, newer: seq<Field>, at: seq<nat>, v: seq<seq<Value>>)
    requires Selects(older, newer, at) && SlotsOk(newer, v) && RoomyFields(newer, v) && Descriptors(newer)
    ensures DecodeFields(older, EncodeFields(newer, v), Defaults(older), {}) == Some(Picked(v, at))
  {
    var w := Picked(v, at);
    hide DecodeFields, EncodeFields, Descriptors, RoomyFields, SlotsOk, FitFields, MergeFields, MergedUpTo;
    PickedIsRoomy(older, newer, at, v);
    IntoDefaults(older, w);
    NothingMerged(older, Defaults(older), w);
    var seen := OlderFromHere(older, newer, at, v, Defaults(older), 0, 0, {}, []);
    assert newer[0..] == newer && v[0..] == v && EncodeFields(newer, v) + [] == EncodeFields(newer, v);
    AllThere(older, w, seen);
  }

  // ---------------------------------------------------------------- any order

  /** The fields of a message, written in some order. */
  function Ordered(fields: seq<Field>, v: seq<seq<Value>>, order: seq<nat>): bytes
    requires SlotsOk(fields, v) && forall k :: 0 <= k < |order| ==> order[k] < |fields|
    decreases order
  {
    if order == [] then [] else EncodeField(fields[order[0]], v[order[0]]) + Ordered(fields, v, order[1..])
  }

  /** A message of which only some fields are set. */
  function Given(fields: seq<Field>, v: seq<seq<Value>>, given: set<nat>): (r: seq<seq<Value>>)
    requires |v| == |fields|
    ensures |r| == |fields|
  {
    seq(|fields|, i requires 0 <= i < |fields| => if i in given then v[i] else DefaultSlot(fields[i]))
  }

  lemma GivenOne(fields: seq<Field>, v: seq<seq<Value>>, given: set<nat>, i: nat)
    requires SlotsOk(fields, v) && RoomyFields(fields, v) && Descriptors(fields) && i < |fields| && i !in given
    ensures var was := Given(fields, v, given);
      && SlotOk(fields[i], v[i]) && FitItems(fields[i], was[i], v[i])
      && Given(fields, v, given + {i}) ==
         if Sets(fields[i], v[i]) then ClearUnion(fields, was, i)[i := MergeItems(fields[i], was[i], v[i])] else was
  {
    FieldFacts(fields, v, i);
    hide Descriptors, RoomyField, GoodKind, SlotOk;
    IntoDefaultSlot(fields[i], v[i]);
    hide MergeItems, FitItems, DefaultSlot;
    var was := Given(fields, v, given);
    assert was[i] == DefaultSlot(fields[i]);
    if Sets(fields[i], v[i]) {
      UnionIsFree(fields, v, given, i);
    }
    hide Sets;
    assert Given(fields, v, given + {i}) == was[i := v[i]];
  }

  lemma UnionIsFree(fields: seq<Field>, v: seq<seq<Value>>, given: set<nat>, i: nat)
    requires |v| == |fields| && UnionsOk(fields, v) && i < |fields| && v[i] != []
    ensures ClearUnion(fields, Given(fields, v, given), i) == Given(fields, v, given)
  {
    var was := Given(fields, v, given);
    if fields[i].rule.Oneof? {
      forall j | 0 <= j < |fields| && j != i && fields[j].rule == fields[i].rule ensures was[j] == [] {
        assert v[j] == [];
      }
      assert ClearUnion(fields, was, i) == was;
    }
  }

  lemma {:induction false} OrderedFromHere(fields: seq<Field>, v: seq<seq<Value>>, order: seq<nat>, given: set<nat>, seen: set<nat>)
    returns (seen': set<nat>)
    requires SlotsOk(fields, v) && RoomyFields(fields, v) && Descriptors(fields)
    requires forall k :: 0 <= k < |order| ==> order[k] < |fields| && order[k] !in given
    requires forall k, l :: 0 <= k < l < |order| ==> order[k] != order[l]
    requires seen <= given && forall j :: j in given && j < |fields| && fields[j].rule.Required? ==> j in seen
    ensures var all := given + Places(order);
      && seen' <= all && (forall j :: j in all && j < |fields| && fields[j].rule.Required? ==> j in seen')
      && DecodeFields(fields, Ordered(fields, v, order), Given(fields, v, given), seen) == DecodeFields(fields, [], Given(fields, v, all), seen')
    decreases |order|
  {
    hide DecodeFields, EncodeField, Descriptors, RoomyFields, SlotsOk, Given;
    if order == [] {
      assert given + Places(order) == given;
      seen' := seen;
    } else {
      var i, more := order[0], order[1..];
      assert {i} + Places(more) == Places(order) && given + {i} + Places(more) == given + Places(order);
      var next := OneOfOrder(fields, v, i, given, seen, Ordered(fields, v, more));
      seen' := OrderedFromHere(fields, v, more, given + {i}, next);
    }
  }

  function Places(order: seq<nat>): set<nat> { set n | n in order }

  lemma OneOfOrder(fields: seq<Field>, v: seq<seq<Value>>, i: nat, given: set<nat>, seen: set<nat>, rest: bytes) returns (seen': set<nat>)
    requires SlotsOk(fields, v) && RoomyFields(fields, v) && Descriptors(fields) && i < |fields| && i !in given
    ensures seen <= seen' <= seen + {i} && (fields[i].rule.Required? ==> i in seen')
    ensures SlotOk(fields[i], v[i])
    ensures DecodeFields(fields, EncodeField(fields[i], v[i]) + rest, Given(fields, v, given), seen) ==
            DecodeFields(fields, rest, Given(fields, v, given + {i}), seen')
  {
    FieldFacts(fields, v, i);
    GivenOne(fields, v, given, i);
    hide *;
    seen' := FieldMerges(fields, i, v[i], Given(fields, v, given), seen, rest);
  }

  /** Fields may come in any order, and may be left out: what is left out has its default, and
      it is an error exactly if that is one of the first 64 required fields. */
  lemma AnyOrder(fields: seq<Field>, v: seq<seq<Value>>, order: seq<nat>)
    requires SlotsOk(fields, v) && RoomyFields(fields, v) && Descriptors(fields)
    requires forall k :: 0 <= k < |order| ==> order[k] < |fields|
    requires forall k, l :: 0 <= k < l < |order| ==> order[k] != order[l]
    ensures DecodeFields(fields, Ordered(fields, v, order), Defaults(fields), {}) ==
            if exists i :: 0 <= i < |fields| && fields[i].rule.Required? && RequiredUpTo(fields, i) < 64 && i !in order then None
            else Some(Given(fields, v, Places(order)))
  {
    DefaultsAt(fields);
    assert Given(fields, v, {}) == Defaults(fields);
    hide Descriptors, RoomyFields, SlotsOk, Defaults, DefaultSlot, Given, DecodeFields, Ordered;
    var seen := OrderedFromHere(fields, v, order, {}, {});
    assert {} + Places(order) == Places(order);
    AtTheEndOf(fields, Given(fields, v, Places(order)), seen);
    forall i | 0 <= i < |fields| ensures RequiredUpTo(fields, i) == NumberOf(fields, i) { UpToIsNumber(fields, i); }
    hide NumberOf, RequiredUpTo;
  }

  lemma AtTheEndOf(fields: seq<Field>, slots: seq<seq<Value>>, seen: set<nat>)
    requires |slots| == |fields|
    ensures DecodeFields(fields, [], slots, seen) == if RequiredSeen(fields, seen) then Some(slots) else None
  {
  }

  /** How many of the first `n` fields are required. */
  function RequiredUpTo(fields: seq<Field>, n: nat): nat
    requires n <= |fields|
  {
    if n == 0 then 0 else (if fields[n - 1].rule.Required? then 1 else 0) + RequiredUpTo(fields, n - 1)
  }

  lemma {:induction false} UpToIsNumber(fields: seq<Field>, n: nat)
    requires n <= |fields|
    ensures RequiredUpTo(fields, n) == NumberOf(fields, n)
  {
    if n > 0 { UpToIsNumber(fields, n - 1); }
  }

  // ---------------------------------------------------------------- other widths

  /** The number with the same low 32 bits. */
  function Low32(n: int): int {
    (n + 0x8000_0000) % 0x1_0000_0000 - 0x8000_0000
  }

  predicate SameNumbers(k: Kind, other: Kind) {
    || (k.Int? && other.Int? && Width(other.width))
    || (k.UInt? && other.UInt? && Width(other.width))
    || (k.SInt? && other.SInt? && Width(other.width))
  }

  /** A number is read into a field of any other width, or is an error if it does not fit;
      only of plain signed integers the upper half is cut off first. */
  lemma OtherWidth(k: Kind, other: Kind, n: int, rest: bytes)
    requires SameNumbers(k, other) && NumberOk(k, n)
    ensures var m := if k.Int? && other.width < 8 then Low32(n) else n;
      PbDecoding.DecodeNumber(other, EncodeNumber(k, n) + rest) == if NumberOk(other, m) then Some(Parsed(m, rest)) else None
  {
    hide Varint, GetVarint64, DecodeVarint32, DecodeInt, Range;
    WordRoundTrip(k, n);
    Varint64RoundTrip(WordOf(k, n), rest);
    WordOtherWidth(k, other, n);
  }

  lemma WordOtherWidth(k: Kind, other: Kind, n: int)
    requires SameNumbers(k, other) && NumberOk(k, n)
    ensures 0 <= WordOf(k, n) < MAX_UINT64
    ensures var m := if k.Int? && other.width < 8 then Low32(n) else n;
      DecodeInt(other, WordOf(k, n)) == if NumberOk(other, m) then Some(m) else None
  {
    WordRoundTrip(k, n);
    if k.Int? {
      SignedIsLow(n, WordOf(k, n));
      RangeOf(k.width);
      RangeOf(other.width);
      hide Range, Signed, Low32;
    } else if k.SInt? {
      ZigZagRoundTrip(n);
      hide UnZigZag, ZigZag, Range, Low32;
    } else {
      hide Range, Low32;
    }
  }

  lemma SignedIsLow(n: int, v: int)
    requires -MAX_UINT64 <= 2 * n < MAX_UINT64 && v == if n < 0 then n + MAX_UINT64 else n
    ensures Signed(v % MAX_UINT32, MAX_UINT32) == Low32(n) && Signed(v, MAX_UINT64) == n
  {
    assert v % MAX_UINT32 == n % MAX_UINT32;
  }

  lemma RangeOf(w: nat)
    ensures Range(w) <= MAX_UINT64 && (w == 8 ==> Range(w) == MAX_UINT64) && (Width(w) && w < 8 ==> Range(w) <= MAX_UINT32)
  {
  }

  // ---------------------------------------------------------------- more than once

  /** A repeated number that comes with a tag each time is appended as a packed one is. */
  lemma TaggedLikePacked(fields: seq<Field>, i: nat, items: seq<Value>, slots: seq<seq<Value>>, seen: set<nat>, rest: bytes)
    requires |slots| == |fields| && i < |fields| && Descriptors(fields)
    requires fields[i].rule.Repeated? && Packable(fields[i].kind) && items != []
    requires |slots[i]| + |items| <= fields[i].rule.max && forall v :: v in items ==> WellTyped(fields[i].kind, v)
    requires |EncodePacked(fields[i].kind, items)| < MAX_UINT32
    ensures var after := DecodeFields(fields, rest, slots[i := slots[i] + items], seen + {i});
      && DecodeFields(fields, EncodeTagged(fields[i].tag, fields[i].kind, items) + rest, slots, seen) == after
      && DecodeFields(fields, EncodeTag(fields[i].tag, WT_STRING) + PutLengthPrefixed(EncodePacked(fields[i].kind, items)) + rest, slots, seen) == after
  {
    hide DecodeFields, EncodeTagged, Descriptors, WellTyped, EncodeTag, EncodePacked, PutLengthPrefixed;
    assert items[..0] == [] && items[0..] == items && slots[i] + [] == slots[i];
    TaggedItems(fields, i, slots[i], items, 0, slots, seen, rest);
    PackedField(fields, i, items, slots, seen, rest);
  }

  /** Of two messages, one behind the other: repeated fields are appended, of a single field
      the last value stands, with messages merged, and of a union only the last member. It is
      an error exactly if there is no room for what is appended to a repeated field. */
  lemma LastOneWins(fields: seq<Field>, a: seq<seq<Value>>, b: seq<seq<Value>>)
    requires SlotsOk(fields, a) && RoomyFields(fields, a) && SlotsOk(fields, b) && RoomyFields(fields, b) && Descriptors(fields)
    ensures var r := DecodeFields(fields, EncodeFields(fields, a) + EncodeFields(fields, b), Defaults(fields), {});
      && (r.Some? <==> FitFields(fields, a, b))
      && (r.Some? ==> forall i :: 0 <= i < |fields| ==> LastWins(fields, a, b, r.value, i))
  {
    ConcatenationMerges(fields, a, b);
    hide DecodeFields, EncodeFields, Descriptors, FitFields, LastWins, MergeFields;
    forall i | 0 <= i < |fields| ensures LastWins(fields, a, b, MergeFields(fields, a, b), i) {
      MergedMeans(fields, a, b, i);
    }
  }

  /** What field `i` of `m` holds if `b` came after `a`. */
  ghost predicate LastWins(fields: seq<Field>, a: seq<seq<Value>>, b: seq<seq<Value>>, m: seq<seq<Value>>, i: nat)
    requires SlotsOk(fields, a) && SlotsOk(fields, b) && |m| == |fields| && i < |fields|
  {
    var f := fields[i];
    if f.rule.Repeated? then m[i] == a[i] + b[i]
    else if Sets(f, b[i]) then
      && m[i] == [MergeValue(f.kind, if a[i] == [] then Default(f.kind) else a[i][0], b[i][0])]
      && (!f.kind.Message? ==> m[i] == b[i])
      && (f.rule.Oneof? ==> forall j :: 0 <= j < |fields| && j != i && fields[j].rule == f.rule ==> m[j] == [])
    else if f.rule.Oneof? && exists j :: 0 <= j < |fields| && fields[j].rule == f.rule && b[j] != [] then m[i] == []
    else m[i] == a[i]
  }

  lemma MergedMeans(fields: seq<Field>, a: seq<seq<Value>>, b: seq<seq<Value>>, i: nat)
    requires SlotsOk(fields, a) && SlotsOk(fields, b) && i < |fields| && UnionsOk(fields, b)
    ensures LastWins(fields, a, b, MergeFields(fields, a, b), i)
  {
    var m, f := MergedUpTo(fields, a, b, |fields|), fields[i];
    assert MergeFields(fields, a, b) == m;
    hide SlotOk, IsZero, WellTyped, Default;
    forall j | 0 <= j < |fields| ensures m[j] == MergedSlot(fields, a, b, |fields|, j) { }
    assert SlotOk(f, b[i]);
    hide MergedUpTo;
    if Sets(f, b[i]) && !f.rule.Repeated? {
      SingleIs(f, a[i], b[i]);
      if f.rule.Oneof? {
        forall j | 0 <= j < |fields| && j != i && fields[j].rule == f.rule ensures m[j] == [] {
          assert b[j] == [];
          assert Sibling(fields, i, j);
        }
      }
    } else if f.rule.Repeated? {
      RepeatedIs(f, a[i], b[i]);
      assert !Overridden(fields, b, |fields|, i);
    } else if f.rule.Oneof? && exists j :: 0 <= j < |fields| && fields[j].rule == f.rule && b[j] != [] {
      assert b[i] == [];
      var j :| 0 <= j < |fields| && fields[j].rule == f.rule && b[j] != [];
      assert Sibling(fields, j, i) && Sets(fields[j], b[j]);
    }
  }

  lemma RepeatedIs(f: Field, base: seq<Value>, items: seq<Value>)
    requires SlotOk(f, items) && f.rule.Repeated?
    ensures MergeItems(f, base, items) == base + items && (!Sets(f, items) ==> base == base + items)
  {
  }

  lemma SingleIs(f: Field, base: seq<Value>, items: seq<Value>)
    requires SlotOk(f, items) && Sets(f, items) && !f.rule.Repeated?
    ensures items[0] in items && MergeItems(f, base, items) == [MergeValue(f.kind, if base == [] then Default(f.kind) else base[0], items[0])]
    ensures !f.kind.Message? ==> MergeItems(f, base, items) == items
  {
  }
}
