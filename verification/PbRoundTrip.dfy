/** Decoding what was encoded gives back the message, and uses up exactly its bytes. */
module PbRoundTrip {
  import opened DbFormat
  import opened Coding
  import opened PbMessages
  import opened PbDecoding
  import opened PbMerging

  // ---------------------------------------------------------------- what fits

  /** Descriptors as the generator makes them: tags are distinct and fit a 32-bit key. */
  ghost predicate Descriptors(fields: seq<Field>)
    decreases fields
  {
    && (forall i :: 0 <= i < |fields| ==> 1 <= fields[i].tag < 0x2000_0000)
    && (forall i, j :: 0 <= i < j < |fields| ==> fields[i].tag != fields[j].tag)
    && forall i :: 0 <= i < |fields| ==> GoodField(fields[i])
  }

  ghost predicate GoodField(f: Field)
    decreases f
  {
    GoodKind(f.kind)
  }

  ghost predicate GoodKind(k: Kind)
    decreases k
  {
    k.Message? ==> Descriptors(k.fields)
  }

  // ---------------------------------------------------------------- numbers

  lemma Varint32RoundTrips(v: nat, rest: bytes)
    requires v < MAX_UINT32
    ensures DecodeVarint32(Varint(v) + rest) == Some(Parsed(v, rest))
  {
    var s := Varint(v) + rest;
    if v < 128 {
      assert s[1..] == rest;
    } else {
      assert s[1..] == Varint(v / 128) + rest;
      WordPower();
      hide Varint32Rest, Varint, Shifted;
      SplitFirst(v);
      RestRoundTrips(v / 128, 7, v % 128, rest);
    }
  }

  lemma SplitFirst(v: nat)
    requires v < MAX_UINT32
    ensures v % 128 < Pow(2, 7) && v % 128 + Shifted(v / 128, 7) == v
  {
    WordPower();
    hide Pow;
    assert v / 128 * Pow(2, 7) == v / 128 * 128;
  }

  /** What is behind the first byte of a value goes on from what has been read. */
  lemma {:induction false} RestRoundTrips(v: nat, bitpos: nat, result: nat, rest: bytes)
    requires bitpos in {7, 14, 21, 28} && result < Pow(2, bitpos) && result + Shifted(v, bitpos) < MAX_UINT32
    ensures Varint32Rest(Varint(v) + rest, bitpos, result) == Some(Parsed(result + Shifted(v, bitpos), rest))
    decreases 35 - bitpos
  {
    hide Varint, Varint32Rest, Joined, Or, Pow, Shifted;
    var s, b: byte := Varint(v) + rest, if v < 128 then v else v % 128 + 128;
    VarintHead(v, rest);
    Varint32Step(s, bitpos, result);
    Split(v, bitpos, result);
    JoinedIs(b, bitpos, result);
    if v >= 128 {
      RestRoundTrips(v / 128, bitpos + 7, result + Shifted(v % 128, bitpos), rest);
    }
  }

  lemma VarintHead(v: nat, rest: bytes)
    ensures (Varint(v) + rest)[0] == if v < 128 then v else v % 128 + 128
    ensures (Varint(v) + rest)[1..] == if v < 128 then rest else Varint(v / 128) + rest
  {
  }

  lemma JoinedIs(b: byte, bitpos: nat, result: nat)
    requires bitpos in {7, 14, 21, 28} && result < Pow(2, bitpos) && result + Shifted(b % 128, bitpos) < MAX_UINT32
    ensures Joined(b, bitpos, result) == result + Shifted(b % 128, bitpos)
  {
    hide Pow, Or, Shifted;
    OrDisjoint(result, bitpos, b % 128);
  }

  /** A word that ends before a bit position, or-ed with one that begins there. */
  lemma {:induction false} OrDisjoint(a: nat, k: nat, c: nat)
    requires a < Pow(2, k)
    ensures Or(a, Shifted(c, k)) == a + Shifted(c, k)
  {
    if k > 0 {
      OrDisjoint(a / 2, k - 1, c);
      ShiftedOnce(c, k);
      hide Shifted;
    }
  }

  lemma ShiftedOnce(c: nat, k: nat)
    requires k > 0
    ensures Shifted(c, k) == 2 * Shifted(c, k - 1)
  {
    Associates(c, 2, Pow(2, k - 1));
    Associates(2, c, Pow(2, k - 1));
  }

  /** Seven bits at a position and the others seven positions further on. */
  lemma Split(v: nat, bitpos: nat, result: nat)
    requires bitpos in {7, 14, 21, 28} && result < Pow(2, bitpos) && result + Shifted(v, bitpos) < MAX_UINT32
    ensures bitpos == 28 ==> v < 16
    ensures result + Shifted(v % 128, bitpos) < MAX_UINT32
    ensures v < 128 ==> v % 128 == v
    ensures v >= 128 ==> result + Shifted(v % 128, bitpos) < Pow(2, bitpos + 7)
    ensures v >= 128 ==> Shifted(v % 128, bitpos) + Shifted(v / 128, bitpos + 7) == Shifted(v, bitpos)
  {
    WordPower();
    if bitpos == 7 { Constants(v, 7, 0x80); Constants(v / 128, 14, 0x4000); }
    else if bitpos == 14 { Constants(v, 14, 0x4000); Constants(v / 128, 21, 0x20_0000); }
    else if bitpos == 21 { Constants(v, 21, 0x20_0000); Constants(v / 128, 28, 0x1000_0000); }
    else { Constants(v, 28, 0x1000_0000); }
    hide Pow, Shifted;
  }

  lemma Constants(v: nat, k: nat, p: nat)
    requires Pow(2, k) == p
    ensures Shifted(v, k) == v * p && Shifted(v % 128, k) == v % 128 * p
  {
  }

  lemma ZigZagRoundTrip(n: int)
    ensures UnZigZag(ZigZag(n)) == n
  {
  }

  lemma FixedReads(n: nat, w: nat, rest: bytes)
    requires n < Pow(256, w)
    ensures DecodeFixed(Fixed(n, w) + rest, w) == Some(Parsed(n, rest))
  {
    FixedRoundTrip(n, w);
    assert (Fixed(n, w) + rest)[..w] == Fixed(n, w) && (Fixed(n, w) + rest)[w..] == rest;
  }

  lemma NumberRoundTrip(k: Kind, n: int, rest: bytes)
    requires Packable(k) && NumberOk(k, n)
    ensures PbDecoding.DecodeNumber(k, EncodeNumber(k, n) + rest) == Some(Parsed(n, rest))
    ensures |EncodeNumber(k, n)| >= 1
  {
    hide Varint, GetVarint64, DecodeVarint32, Fixed, DecodeFixed, Pow, DecodeInt, Range;
    if k.Bool? {
      Varint32RoundTrips(n, rest);
    } else if k.Fixed32? || k.Fixed64? {
      FixedNumberRoundTrip(k, n, rest);
    } else {
      WordRoundTrip(k, n);
      Varint64RoundTrip(WordOf(k, n), rest);
    }
  }

  /** The word that is written for a number. */
  function WordOf(k: Kind, n: int): int {
    match k
    case Int(_) => if n < 0 then n + MAX_UINT64 else n
    case SInt(_) => ZigZag(n)
    case _ => n
  }

  lemma WordRoundTrip(k: Kind, n: int)
    requires (k.Int? || k.UInt? || k.SInt?) && NumberOk(k, n)
    ensures 0 <= WordOf(k, n) < MAX_UINT64 && DecodeInt(k, WordOf(k, n)) == Some(n)
  {
    ZigZagRoundTrip(n);
    hide UnZigZag;
  }

  lemma FixedNumberRoundTrip(k: Kind, n: int, rest: bytes)
    requires (k.Fixed32? || k.Fixed64?) && NumberOk(k, n)
    ensures PbDecoding.DecodeNumber(k, EncodeNumber(k, n) + rest) == Some(Parsed(n, rest))
    ensures |EncodeNumber(k, n)| >= 1
  {
    hide Varint, GetVarint64, DecodeVarint32, Fixed, DecodeFixed, Pow;
    Fixed32Fits();
    FixedReads(n, if k.Fixed32? then 4 else 8, rest);
  }

  lemma SubstreamRoundTrip(b: bytes, rest: bytes)
    requires |b| < MAX_UINT32
    ensures Substream(PutLengthPrefixed(b) + rest) == Some(Parsed(b, rest))
  {
    assert PutLengthPrefixed(b) + rest == Varint(|b|) + (b + rest);
    Varint32RoundTrips(|b|, b + rest);
    hide DecodeVarint32, Varint;
  }

  lemma OctetsRoundTrip(k: Kind, b: bytes, rest: bytes)
    requires !Packable(k) && !k.Message? && WellTyped(k, Octets(b)) && Roomy(k, Octets(b))
    ensures DecodeOctets(k, PutLengthPrefixed(b) + rest) == Some(Parsed(Octets(b), rest))
  {
    assert PutLengthPrefixed(b) + rest == Varint(|b|) + (b + rest);
    Varint32RoundTrips(|b|, b + rest);
    hide DecodeVarint32, Varint;
    assert (b + rest)[..|b|] == b && (b + rest)[|b|..] == rest;
    assert k.FixedBlob? && |b| == 0 ==> Zeros(k.size) == b;
  }

  lemma {:induction false} PackedRoundTrip(k: Kind, items: seq<Value>, had: seq<Value>, max: nat)
    requires Packable(k) && (forall v :: v in items ==> WellTyped(k, v)) && |had| + |items| <= max
    ensures DecodePacked(k, EncodePacked(k, items), had, max) == Some(had + items)
    decreases items
  {
    hide EncodeNumber, PbDecoding.DecodeNumber, NumberOk;
    if items == [] {
      assert had + items == had;
    } else {
      assert items[0] in items && WellTyped(k, items[0]);
      var n := items[0].n;
      NumberRoundTrip(k, n, EncodePacked(k, items[1..]));
      PackedRoundTrip(k, items[1..], had + [items[0]], max);
      assert had + [items[0]] + items[1..] == had + items;
      assert items[0] == Number(n);
    }
  }

  // ---------------------------------------------------------------- one field

  /** A key is read, and its field decoded. */
  lemma KeyStep(fields: seq<Field>, i: nat, wireType: nat, s: bytes, slots: seq<seq<Value>>, seen: set<nat>)
    requires |slots| == |fields| && i < |fields| && Descriptors(fields) && wireType < 8
    ensures DecodeFields(fields, EncodeTag(fields[i].tag, wireType) + s, slots, seen) ==
            match DecodeField(fields, i, wireType, s, slots)
            case None => None
            case Some(p) => DecodeFields(fields, p.rest, p.value, seen + {i})
  {
    hide DecodeVarint32, Varint, DecodeField, Find, GoodKind, Finished;
    var key := fields[i].tag * 8 + wireType;
    Varint32RoundTrips(key, s);
    FindIs(fields, i);
    hide Descriptors;
    assert key / 8 == fields[i].tag && key % 8 == wireType;
    assert EncodeTag(fields[i].tag, wireType) + s != [];
  }

  lemma {:induction false} FindIs(fields: seq<Field>, i: nat)
    requires i < |fields| && Descriptors(fields)
    ensures Find(fields, fields[i].tag) == i
  {
  }

  // ---------------------------------------------------------------- the induction

  lemma FieldFacts(fields: seq<Field>, v: seq<seq<Value>>, i: nat)
    requires SlotsOk(fields, v) && RoomyFields(fields, v) && Descriptors(fields) && i < |fields|
    ensures SlotOk(fields[i], v[i]) && RoomyField(fields[i], v[i]) && GoodKind(fields[i].kind) && UnionsOk(fields, v)
  {
    assert GoodField(fields[i]);
  }

  /** A value is decoded into its place, and nothing after it is used. */
  lemma {:induction false} ValueMerges(k: Kind, v: Value, base: Value, rest: bytes)
    requires WellTyped(k, v) && Roomy(k, v) && GoodKind(k) && FitsIn(k, base, v)
    ensures DecodeValue(k, EncodeValue(k, v) + rest, base) == Some(Parsed(MergeValue(k, base, v), rest))
    decreases k, 0
  {
    hide EncodeNumber, PbDecoding.DecodeNumber, NumberOk, PutLengthPrefixed, Substream, DecodeFields, DecodeOctets, EncodeFields, MergeFields, FitFields;
    if Packable(k) {
      NumberRoundTrip(k, v.n, rest);
      assert v == Number(v.n);
    } else if k.Message? {
      var b := EncodeFields(k.fields, v.slots);
      SubstreamRoundTrip(b, rest);
      FieldsMerge(k.fields, BaseSlots(k.fields, base), v.slots);
    } else {
      OctetsRoundTrip(k, v.b, rest);
      assert v == Octets(v.b);
    }
  }

  lemma {:induction false} ItemMerges(f: Field, v: Value, base: Value, rest: bytes)
    requires WellTyped(f.kind, v) && Roomy(f.kind, v) && GoodKind(f.kind) && FitsIn(f.kind, base, v)
    ensures DecodeValue(f.kind, EncodeValue(f.kind, v) + rest, base) == Some(Parsed(MergeValue(f.kind, base, v), rest))
    decreases f
  {
    ValueMerges(f.kind, v, base, rest);
  }

  /** The items of a repeated field that come with a tag each, from the `j`-th on, are appended
      one by one. */
  lemma {:induction false} TaggedItems(fields: seq<Field>, i: nat, had: seq<Value>, items: seq<Value>, j: nat,
                                       slots: seq<seq<Value>>, seen: set<nat>, rest: bytes)
    requires |slots| == |fields| && i < |fields| && Descriptors(fields) && GoodKind(fields[i].kind)
    requires fields[i].rule.Repeated? && j <= |items| && |had| + |items| <= fields[i].rule.max
    requires forall v :: v in items ==> WellTyped(fields[i].kind, v) && Roomy(fields[i].kind, v)
    requires slots[i] == had + items[..j]
    ensures DecodeFields(fields, EncodeTagged(fields[i].tag, fields[i].kind, items[j..]) + rest, slots, seen) ==
            DecodeFields(fields, rest, slots[i := had + items], if j == |items| then seen else seen + {i})
    decreases fields, 0, |items| - j
  {
    hide DecodeFields, EncodeValue, DecodeValue, Descriptors, WellTyped, Roomy, GoodKind, EncodeTag, Default, MergeValue, FitsIn;
    var f := fields[i];
    if j == |items| {
      assert EncodeTagged(f.tag, f.kind, items[j..]) + rest == rest;
      assert items[..j] == items && slots[i := had + items] == slots;
    } else {
      var more := EncodeTagged(f.tag, f.kind, items[j + 1..]) + rest;
      assert items[j..][0] == items[j] && items[j..][1..] == items[j + 1..];
      assert items[j] in items;
      assert EncodeTagged(f.tag, f.kind, items[j..]) + rest
          == EncodeTag(f.tag, WireType(f.kind)) + (EncodeValue(f.kind, items[j]) + more);
      KeyStep(fields, i, WireType(f.kind), EncodeValue(f.kind, items[j]) + more, slots, seen);
      IntoDefault(f.kind, items[j]);
      ItemMerges(f, items[j], Default(f.kind), more);
      var next := slots[i := had + items[..j] + [items[j]]];
      assert had + items[..j] + [items[j]] == had + items[..j + 1];
      TaggedItems(fields, i, had, items, j + 1, next, seen + {i}, rest);
      assert next[i := had + items] == slots[i := had + items];
      assert seen + {i} + {i} == seen + {i};
    }
  }

  /** One item of a field that is not repeated is stored in its place. */
  lemma SingleItem(fields: seq<Field>, i: nat, v: Value, slots: seq<seq<Value>>, seen: set<nat>, rest: bytes)
    requires |slots| == |fields| && i < |fields| && Descriptors(fields) && GoodKind(fields[i].kind) && !fields[i].rule.Repeated?
    requires WellTyped(fields[i].kind, v) && Roomy(fields[i].kind, v) && FitsIn(fields[i].kind, BaseOf(fields[i], slots[i]), v)
    ensures DecodeFields(fields, EncodeTagged(fields[i].tag, fields[i].kind, [v]) + rest, slots, seen) ==
            DecodeFields(fields, rest, ClearUnion(fields, slots, i)[i := [MergeValue(fields[i].kind, BaseOf(fields[i], slots[i]), v)]], seen + {i})
    decreases fields, 0, 0
  {
    hide DecodeFields, EncodeValue, DecodeValue, Descriptors, WellTyped, Roomy, GoodKind, EncodeTag, Default, ClearUnion, MergeValue, FitsIn;
    var f := fields[i];
    assert [v][1..] == [] && EncodeTagged(f.tag, f.kind, []) == [];
    assert EncodeTagged(f.tag, f.kind, [v]) + rest == EncodeTag(f.tag, WireType(f.kind)) + (EncodeValue(f.kind, v) + rest);
    KeyStep(fields, i, WireType(f.kind), EncodeValue(f.kind, v) + rest, slots, seen);
    ItemMerges(f, v, BaseOf(f, slots[i]), rest);
  }

  /** The items of a packed field are appended. */
  lemma PackedField(fields: seq<Field>, i: nat, items: seq<Value>, slots: seq<seq<Value>>, seen: set<nat>, rest: bytes)
    requires |slots| == |fields| && i < |fields| && Descriptors(fields)
    requires fields[i].rule.Repeated? && Packable(fields[i].kind)
    requires |slots[i]| + |items| <= fields[i].rule.max && forall v :: v in items ==> WellTyped(fields[i].kind, v)
    requires |EncodePacked(fields[i].kind, items)| < MAX_UINT32
    ensures DecodeFields(fields, EncodeTag(fields[i].tag, WT_STRING) + PutLengthPrefixed(EncodePacked(fields[i].kind, items)) + rest, slots, seen) ==
            DecodeFields(fields, rest, slots[i := slots[i] + items], seen + {i})
  {
    hide DecodeFields, Descriptors, EncodeTag, EncodePacked, DecodePacked, PutLengthPrefixed, Substream;
    var f := fields[i];
    var b := EncodePacked(f.kind, items);
    assert EncodeTag(f.tag, WT_STRING) + PutLengthPrefixed(b) + rest == EncodeTag(f.tag, WT_STRING) + (PutLengthPrefixed(b) + rest);
    KeyStep(fields, i, WT_STRING, PutLengthPrefixed(b) + rest, slots, seen);
    SubstreamRoundTrip(b, rest);
    PackedRoundTrip(f.kind, items, slots[i], f.rule.max);
  }

  /** What one field of a message does to a structure. */
  lemma FieldMerges(fields: seq<Field>, i: nat, items: seq<Value>, slots: seq<seq<Value>>, seen: set<nat>, rest: bytes)
    returns (seen': set<nat>)
    requires |slots| == |fields| && Descriptors(fields) && i < |fields| && GoodKind(fields[i].kind)
    requires SlotOk(fields[i], items) && RoomyField(fields[i], items) && FitItems(fields[i], slots[i], items)
    ensures seen <= seen' <= seen + {i} && (fields[i].rule.Required? ==> i in seen')
    ensures DecodeFields(fields, EncodeField(fields[i], items) + rest, slots, seen) ==
            DecodeFields(fields, rest,
                         if Sets(fields[i], items) then ClearUnion(fields, slots, i)[i := MergeItems(fields[i], slots[i], items)] else slots, seen')
    decreases fields, 1, 0
  {
    hide DecodeFields, EncodeTagged, EncodePacked, Descriptors, WellTyped, Roomy, GoodKind, EncodeTag, IsZero, Default, FitsIn, MergeValue;
    var f := fields[i];
    seen' := seen;
    if !Sets(f, items) {
      assert EncodeField(f, items) + rest == rest;
    } else {
      seen' := seen + {i};
      if f.rule.Repeated? && Packable(f.kind) {
        PackedField(fields, i, items, slots, seen, rest);
      } else if f.rule.Repeated? {
        assert items[..0] == [] && items[0..] == items && slots[i] + [] == slots[i];
        TaggedItems(fields, i, slots[i], items, 0, slots, seen, rest);
      } else {
        assert items == [items[0]] && items[0] in items;
        SingleItem(fields, i, items[0], slots, seen, rest);
      }
    }
  }

  lemma {:induction false} SuffixMerges(fields: seq<Field>, base: seq<seq<Value>>, v: seq<seq<Value>>, i: nat, seen: set<nat>, rest: bytes)
    returns (seen': set<nat>)
    requires SlotsOk(fields, v) && RoomyFields(fields, v) && Descriptors(fields) && i <= |fields|
    requires |base| == |fields| && FitFields(fields, base, v)
    requires forall j :: 0 <= j < i && fields[j].rule.Required? ==> j in seen
    ensures SlotsOk(fields[i..], v[i..])
    ensures seen <= seen' && forall j :: 0 <= j < |fields| && fields[j].rule.Required? ==> j in seen'
    ensures DecodeFields(fields, EncodeFields(fields[i..], v[i..]) + rest, MergedUpTo(fields, base, v, i), seen) ==
            DecodeFields(fields, rest, MergeFields(fields, base, v), seen')
    decreases fields, 2, |fields| - i
  {
    hide DecodeFields, EncodeField, Descriptors, RoomyFields, SlotOk, FitItems, MergedUpTo;
    if i == |fields| {
      assert MergeFields(fields, base, v) == MergedUpTo(fields, base, v, i);
      assert EncodeFields(fields[i..], v[i..]) + rest == rest;
      seen' := seen;
    } else {
      assert fields[i..][1..] == fields[i + 1..] && v[i..][1..] == v[i + 1..];
      var more := EncodeFields(fields[i + 1..], v[i + 1..]) + rest;
      var next := OneMerges(fields, base, v, i, seen, more);
      assert EncodeFields(fields[i..], v[i..]) + rest == EncodeField(fields[i], v[i]) + more;
      seen' := SuffixMerges(fields, base, v, i + 1, next, rest);
    }
  }

  lemma OneMerges(fields: seq<Field>, base: seq<seq<Value>>, v: seq<seq<Value>>, i: nat, seen: set<nat>, rest: bytes)
    returns (seen': set<nat>)
    requires SlotsOk(fields, v) && RoomyFields(fields, v) && Descriptors(fields) && i < |fields|
    requires |base| == |fields| && FitItems(fields[i], base[i], v[i])
    ensures seen <= seen' && (fields[i].rule.Required? ==> i in seen') && SlotOk(fields[i], v[i])
    ensures DecodeFields(fields, EncodeField(fields[i], v[i]) + rest, MergedUpTo(fields, base, v, i), seen) ==
            DecodeFields(fields, rest, MergedUpTo(fields, base, v, i + 1), seen')
    decreases fields, 1, 1
  {
    FieldFacts(fields, v, i);
    MergedNext(fields, base, v, i);
    FitInPlace(fields[i], base[i], MergedUpTo(fields, base, v, i)[i], v[i]);
    hide DecodeFields, EncodeField, Descriptors, RoomyFields, SlotOk, MergedUpTo, MergeItems, RoomyField, GoodKind, UnionsOk, ClearUnion, FitItems;
    seen' := FieldMerges(fields, i, v[i], MergedUpTo(fields, base, v, i), seen, rest);
  }

  lemma FitInPlace(f: Field, base: seq<Value>, place: seq<Value>, items: seq<Value>)
    requires SlotOk(f, items) && (Sets(f, items) ==> place == base)
    ensures FitItems(f, base, items) <==> FitItems(f, place, items)
  {
    hide FitsIn;
  }

  /** A message is merged into the structure it is decoded into, and whatever follows it is
      left to be read: it uses exactly its own bytes. */
  lemma MessageMerges(fields: seq<Field>, base: seq<seq<Value>>, v: seq<seq<Value>>, seen: set<nat>, rest: bytes)
    returns (seen': set<nat>)
    requires SlotsOk(fields, v) && RoomyFields(fields, v) && Descriptors(fields) && |base| == |fields| && FitFields(fields, base, v)
    ensures seen <= seen' && forall j :: 0 <= j < |fields| && fields[j].rule.Required? ==> j in seen'
    ensures DecodeFields(fields, EncodeFields(fields, v) + rest, base, seen) ==
            DecodeFields(fields, rest, MergeFields(fields, base, v), seen')
    decreases fields, 3
  {
    NothingMerged(fields, base, v);
    hide DecodeFields, EncodeFields, Descriptors, RoomyFields, FitFields, MergeFields, MergedUpTo;
    seen' := SuffixMerges(fields, base, v, 0, seen, rest);
    assert fields[0..] == fields && v[0..] == v;
  }

  lemma {:induction false} FieldsMerge(fields: seq<Field>, base: seq<seq<Value>>, v: seq<seq<Value>>)
    requires SlotsOk(fields, v) && RoomyFields(fields, v) && Descriptors(fields) && |base| == |fields| && FitFields(fields, base, v)
    ensures DecodeFields(fields, EncodeFields(fields, v), base, {}) == Some(MergeFields(fields, base, v))
    decreases fields, 4
  {
    var seen := MessageMerges(fields, base, v, {}, []);
    hide EncodeFields, Descriptors, RoomyFields, NumberOf, FitFields, MergeFields;
    assert EncodeFields(fields, v) + [] == EncodeFields(fields, v);
  }

  // ---------------------------------------------------------------- no room

  lemma {:induction false} PackedFails(k: Kind, items: seq<Value>, had: seq<Value>, max: nat)
    requires Packable(k) && (forall v :: v in items ==> WellTyped(k, v)) && items != [] && |had| + |items| > max
    ensures DecodePacked(k, EncodePacked(k, items), had, max) == None
    decreases items
  {
    hide EncodeNumber, PbDecoding.DecodeNumber, NumberOk;
    assert items[0] in items && WellTyped(k, items[0]);
    NumberRoundTrip(k, items[0].n, EncodePacked(k, items[1..]));
    if |had| < max {
      PackedFails(k, items[1..], had + [items[0]], max);
      assert items[0] == Number(items[0].n);
    }
  }

  lemma {:induction false} TaggedFails(fields: seq<Field>, i: nat, items: seq<Value>, slots: seq<seq<Value>>, seen: set<nat>, rest: bytes)
    requires |slots| == |fields| && i < |fields| && Descriptors(fields) && GoodKind(fields[i].kind)
    requires fields[i].rule.Repeated? && items != [] && |slots[i]| + |items| > fields[i].rule.max
    requires forall v :: v in items ==> WellTyped(fields[i].kind, v) && Roomy(fields[i].kind, v)
    ensures DecodeFields(fields, EncodeTagged(fields[i].tag, fields[i].kind, items) + rest, slots, seen) == None
    decreases |items|
  {
    hide DecodeFields, EncodeValue, DecodeValue, Descriptors, WellTyped, Roomy, GoodKind, EncodeTag, Default, MergeValue, FitsIn;
    var f := fields[i];
    var more := EncodeTagged(f.tag, f.kind, items[1..]) + rest;
    assert items[0] in items;
    assert EncodeTagged(f.tag, f.kind, items) + rest == EncodeTag(f.tag, WireType(f.kind)) + (EncodeValue(f.kind, items[0]) + more);
    KeyStep(fields, i, WireType(f.kind), EncodeValue(f.kind, items[0]) + more, slots, seen);
    if |slots[i]| < f.rule.max {
      IntoDefault(f.kind, items[0]);
      ItemMerges(f, items[0], Default(f.kind), more);
      TaggedFails(fields, i, items[1..], slots[i := slots[i] + [items[0]]], seen + {i}, rest);
    }
  }

  lemma {:induction false} ValueFails(k: Kind, v: Value, base: Value, rest: bytes)
    requires WellTyped(k, v) && Roomy(k, v) && GoodKind(k) && !FitsIn(k, base, v)
    ensures DecodeValue(k, EncodeValue(k, v) + rest, base) == None
    decreases k, 0
  {
    hide PutLengthPrefixed, Substream, DecodeFields, EncodeFields, FitFields;
    SubstreamRoundTrip(EncodeFields(k.fields, v.slots), rest);
    FieldsFail(k.fields, BaseSlots(k.fields, base), v.slots);
  }

  lemma {:induction false} ItemFails(f: Field, v: Value, base: Value, rest: bytes)
    requires WellTyped(f.kind, v) && Roomy(f.kind, v) && GoodKind(f.kind) && !FitsIn(f.kind, base, v)
    ensures DecodeValue(f.kind, EncodeValue(f.kind, v) + rest, base) == None
    decreases f
  {
    ValueFails(f.kind, v, base, rest);
  }

  lemma {:induction false} FieldFails(fields: seq<Field>, i: nat, items: seq<Value>, slots: seq<seq<Value>>, seen: set<nat>, rest: bytes)
    requires |slots| == |fields| && Descriptors(fields) && i < |fields| && GoodKind(fields[i].kind)
    requires SlotOk(fields[i], items) && RoomyField(fields[i], items) && !FitItems(fields[i], slots[i], items)
    ensures DecodeFields(fields, EncodeField(fields[i], items) + rest, slots, seen) == None
    decreases fields, 1, 0
  {
    hide DecodeFields, EncodePacked, Descriptors, WellTyped, Roomy, GoodKind, EncodeTag, IsZero, Default, FitsIn, MergeValue,
      EncodeValue, DecodeValue, DecodePacked, PutLengthPrefixed, Substream;
    var f := fields[i];
    if f.rule.Repeated? && Packable(f.kind) {
      var b := EncodePacked(f.kind, items);
      assert EncodeTag(f.tag, WT_STRING) + PutLengthPrefixed(b) + rest == EncodeTag(f.tag, WT_STRING) + (PutLengthPrefixed(b) + rest);
      KeyStep(fields, i, WT_STRING, PutLengthPrefixed(b) + rest, slots, seen);
      SubstreamRoundTrip(b, rest);
      PackedFails(f.kind, items, slots[i], f.rule.max);
    } else if f.rule.Repeated? {
      TaggedFails(fields, i, items, slots, seen, rest);
    } else {
      assert items == [items[0]] && items[0] in items;
      SingleFails(fields, i, items[0], slots, seen, rest);
    }
  }

  lemma {:induction false} SingleFails(fields: seq<Field>, i: nat, v: Value, slots: seq<seq<Value>>, seen: set<nat>, rest: bytes)
    requires |slots| == |fields| && i < |fields| && Descriptors(fields) && GoodKind(fields[i].kind) && !fields[i].rule.Repeated?
    requires WellTyped(fields[i].kind, v) && Roomy(fields[i].kind, v) && !FitsIn(fields[i].kind, BaseOf(fields[i], slots[i]), v)
    ensures DecodeFields(fields, EncodeTagged(fields[i].tag, fields[i].kind, [v]) + rest, slots, seen) == None
    decreases fields, 0
  {
    hide DecodeFields, EncodeValue, DecodeValue, Descriptors, WellTyped, Roomy, GoodKind, EncodeTag, Default, ClearUnion, FitsIn;
    var f := fields[i];
    assert [v][1..] == [] && EncodeTagged(f.tag, f.kind, []) == [];
    assert EncodeTagged(f.tag, f.kind, [v]) + rest == EncodeTag(f.tag, WireType(f.kind)) + (EncodeValue(f.kind, v) + rest);
    KeyStep(fields, i, WireType(f.kind), EncodeValue(f.kind, v) + rest, slots, seen);
    ItemFails(f, v, BaseOf(f, slots[i]), rest);
  }

  lemma {:induction false} SuffixFails(fields: seq<Field>, base: seq<seq<Value>>, v: seq<seq<Value>>, i: nat, seen: set<nat>, rest: bytes)
    requires SlotsOk(fields, v) && RoomyFields(fields, v) && Descriptors(fields) && i <= |fields|
    requires |base| == |fields| && exists j :: i <= j < |fields| && !FitItems(fields[j], base[j], v[j])
    ensures SlotsOk(fields[i..], v[i..])
    ensures DecodeFields(fields, EncodeFields(fields[i..], v[i..]) + rest, MergedUpTo(fields, base, v, i), seen) == None
    decreases fields, 2, |fields| - i
  {
    hide DecodeFields, EncodeField, Descriptors, RoomyFields, SlotOk, FitItems, MergedUpTo;
    assert fields[i..][1..] == fields[i + 1..] && v[i..][1..] == v[i + 1..];
    var more := EncodeFields(fields[i + 1..], v[i + 1..]) + rest;
    assert EncodeFields(fields[i..], v[i..]) + rest == EncodeField(fields[i], v[i]) + more;
    if FitItems(fields[i], base[i], v[i]) {
      var next := OneMerges(fields, base, v, i, seen, more);
      SuffixFails(fields, base, v, i + 1, next, rest);
    } else {
      OneFails(fields, base, v, i, seen, more);
    }
  }

  lemma {:induction false} OneFails(fields: seq<Field>, base: seq<seq<Value>>, v: seq<seq<Value>>, i: nat, seen: set<nat>, rest: bytes)
    requires SlotsOk(fields, v) && RoomyFields(fields, v) && Descriptors(fields) && i < |fields|
    requires |base| == |fields| && !FitItems(fields[i], base[i], v[i])
    ensures DecodeFields(fields, EncodeField(fields[i], v[i]) + rest, MergedUpTo(fields, base, v, i), seen) == None
    decreases fields, 1, 1
  {
    FieldFacts(fields, v, i);
    MergedNext(fields, base, v, i);
    FitInPlace(fields[i], base[i], MergedUpTo(fields, base, v, i)[i], v[i]);
    hide DecodeFields, EncodeField, Descriptors, RoomyFields, SlotOk, MergedUpTo, MergeItems, RoomyField, GoodKind, UnionsOk, ClearUnion, FitItems;
    FieldFails(fields, i, v[i], MergedUpTo(fields, base, v, i), seen, rest);
  }

  /** Decoding on top of a structure fails if there is no room for the items of a repeated
      field, at any depth. */
  lemma {:induction false} FieldsFail(fields: seq<Field>, base: seq<seq<Value>>, v: seq<seq<Value>>)
    requires SlotsOk(fields, v) && RoomyFields(fields, v) && Descriptors(fields) && |base| == |fields| && !FitFields(fields, base, v)
    ensures forall seen :: DecodeFields(fields, EncodeFields(fields, v), base, seen) == None
    decreases fields, 3
  {
    NothingMerged(fields, base, v);
    hide DecodeFields, EncodeFields, Descriptors, RoomyFields, FitItems, MergedUpTo, SlotOk;
    assert fields[0..] == fields && v[0..] == v && EncodeFields(fields, v) + [] == EncodeFields(fields, v);
    forall seen: set<nat> ensures DecodeFields(fields, EncodeFields(fields, v), base, seen) == None {
      SuffixFails(fields, base, v, 0, seen, []);
    }
  }

  // ---------------------------------------------------------------- round trips

  /** A value in the place of a default is decoded, and nothing after it is used. */
  lemma ValueRoundTrip(k: Kind, v: Value, rest: bytes)
    requires WellTyped(k, v) && Roomy(k, v) && GoodKind(k)
    ensures DecodeValue(k, EncodeValue(k, v) + rest, Default(k)) == Some(Parsed(v, rest))
  {
    hide *;
    IntoDefault(k, v);
    ValueMerges(k, v, Default(k), rest);
  }

  lemma MessageIsUsedUp(fields: seq<Field>, slots: seq<seq<Value>>, rest: bytes) returns (seen: set<nat>)
    requires SlotsOk(fields, slots) && RoomyFields(fields, slots) && Descriptors(fields)
    ensures forall j :: 0 <= j < |fields| && fields[j].rule.Required? ==> j in seen
    ensures DecodeFields(fields, EncodeFields(fields, slots) + rest, Defaults(fields), {}) == DecodeFields(fields, rest, slots, seen)
  {
    hide *;
    IntoDefaults(fields, slots);
    seen := MessageMerges(fields, Defaults(fields), slots, {}, rest);
  }

  /** Round trip: a message decoded into a structure of defaults. */
  lemma FieldsRoundTrip(fields: seq<Field>, slots: seq<seq<Value>>)
    requires SlotsOk(fields, slots) && RoomyFields(fields, slots) && Descriptors(fields)
    ensures DecodeFields(fields, EncodeFields(fields, slots), Defaults(fields), {}) == Some(slots)
  {
    hide *;
    IntoDefaults(fields, slots);
    FieldsMerge(fields, Defaults(fields), slots);
  }

  /** Messages that stand one behind the other are merged, if there is room. */
  lemma ConcatenationMerges(fields: seq<Field>, a: seq<seq<Value>>, b: seq<seq<Value>>)
    requires SlotsOk(fields, a) && RoomyFields(fields, a) && SlotsOk(fields, b) && RoomyFields(fields, b) && Descriptors(fields)
    ensures DecodeFields(fields, EncodeFields(fields, a) + EncodeFields(fields, b), Defaults(fields), {}) ==
            if FitFields(fields, a, b) then Some(MergeFields(fields, a, b)) else None
  {
    hide DecodeFields, EncodeFields, Descriptors, RoomyFields, FitFields, MergeFields;
    var seen := MessageIsUsedUp(fields, a, EncodeFields(fields, b));
    if FitFields(fields, a, b) {
      var all := MessageMerges(fields, a, b, seen, []);
      assert EncodeFields(fields, b) + [] == EncodeFields(fields, b);
      AllThere(fields, MergeFields(fields, a, b), all);
    } else {
      FieldsFail(fields, a, b);
    }
  }

  lemma AllThere(fields: seq<Field>, slots: seq<seq<Value>>, seen: set<nat>)
    requires |slots| == |fields| && forall j :: 0 <= j < |fields| && fields[j].rule.Required? ==> j in seen
    ensures DecodeFields(fields, [], slots, seen) == Some(slots)
  {
    hide NumberOf;
  }
}
