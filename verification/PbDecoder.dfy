/** The decoder: a stream of which each nested value gets a part, and the field iterator. */
module PbDecoder {
  import opened DbFormat
  import opened Coding
  import opened PbMessages
  import opened PbDecoding
  import PbFields

  /** Tags are distinct and not zero; messages of a message too. */
  ghost predicate Tagged(fields: seq<Field>)
    decreases fields
  {
    && (forall i :: 0 <= i < |fields| ==> fields[i].tag != 0)
    && (forall i, j :: 0 <= i < j < |fields| ==> fields[i].tag != fields[j].tag)
    && forall i :: 0 <= i < |fields| ==> TaggedField(fields[i])
  }

  ghost predicate TaggedField(f: Field)
    decreases f
  {
    TaggedKind(f.kind)
  }

  ghost predicate TaggedKind(k: Kind)
    decreases k
  {
    k.Message? ==> Tagged(k.fields)
  }

  lemma DescribedAreTerminated(fields: seq<Field>)
    requires Tagged(fields)
    ensures PbFields.Terminated(DescribeAll(fields))
  {
  }

  /** Whatever field the search starts with, it finds the one field with the tag. */
  lemma FoundIsFind(fields: seq<Field>, tag: nat, found: bool, pos: nat)
    requires Tagged(fields) && PbFields.Terminated(DescribeAll(fields))
    requires found <==> exists i :: 0 <= i < |fields| + 1 && PbFields.IsField(DescribeAll(fields), i) && PbFields.Matches(DescribeAll(fields)[i], tag)
    requires found ==> pos <= |fields| && PbFields.Matches(DescribeAll(fields)[pos], tag) && (fields != [] ==> pos < |fields|)
    ensures found <==> Find(fields, tag) < |fields| || (fields == [] && tag == 0)
    ensures found && fields != [] ==> pos == Find(fields, tag)
  {
    PbFields.FoundIffField(DescribeAll(fields), tag);
    var i := Find(fields, tag);
    hide TaggedField;
    if i < |fields| {
      assert PbFields.Matches(DescribeAll(fields)[i], tag);
    }
    assert found && fields != [] ==> fields[pos].tag == tag && i <= pos;
  }

  /** The numbers, among the required fields, of those seen: only the first 64 are kept. */
  ghost function Numbered(fields: seq<Field>, seen: set<nat>): set<nat>
    requires forall i :: i in seen ==> i < |fields|
  {
    set i | i in seen && fields[i].rule.Required? && NumberOf(fields, i) < PbFields.MAX_REQUIRED_FIELDS :: NumberOf(fields, i)
  }

  lemma {:induction false} CountGrows(fields: seq<Field>, i: nat, j: nat)
    requires i <= j <= |fields|
    ensures NumberOf(fields, i) <= NumberOf(fields, j)
    ensures i < j && fields[i].rule.Required? ==> NumberOf(fields, i) < NumberOf(fields, j)
    decreases j - i
  {
    if i < j { CountGrows(fields, i, j - 1); }
  }

  lemma {:induction false} NthRequired(fields: seq<Field>, n: nat, r: nat) returns (i: nat)
    requires n <= |fields| && r < NumberOf(fields, n)
    ensures i < n && fields[i].rule.Required? && NumberOf(fields, i) == r
  {
    i := n - 1;
    if !fields[i].rule.Required? || NumberOf(fields, i) != r {
      i := NthRequired(fields, n - 1, r);
    }
  }

  /** Counting numbers and looking at fields is the same check. */
  lemma SeenIffNumbered(fields: seq<Field>, seen: set<nat>)
    requires forall i :: i in seen ==> i < |fields|
    ensures RequiredSeen(fields, seen) <==>
            forall r :: 0 <= r < NumberOf(fields, |fields|) && r < PbFields.MAX_REQUIRED_FIELDS ==> r in Numbered(fields, seen)
  {
    hide NumberOf;
    var total := NumberOf(fields, |fields|);
    if RequiredSeen(fields, seen) {
      forall r | 0 <= r < total && r < PbFields.MAX_REQUIRED_FIELDS ensures r in Numbered(fields, seen) {
        var i := NthRequired(fields, |fields|, r);
        assert i in seen;
      }
    }
    if forall r :: 0 <= r < total && r < PbFields.MAX_REQUIRED_FIELDS ==> r in Numbered(fields, seen) {
      forall i | 0 <= i < |fields| && fields[i].rule.Required? && NumberOf(fields, i) < PbFields.MAX_REQUIRED_FIELDS ensures i in seen {
        CountGrows(fields, i, |fields|);
        var r := NumberOf(fields, i);
        assert r in Numbered(fields, seen);
        var j :| j in seen && fields[j].rule.Required? && NumberOf(fields, j) == r;
        if i < j { CountGrows(fields, i, j); } else if j < i { CountGrows(fields, j, i); }
      }
    }
  }

  lemma NumberedGrows(fields: seq<Field>, seen: set<nat>, i: nat)
    requires (forall j :: j in seen ==> j < |fields|) && i < |fields|
    ensures Numbered(fields, seen + {i}) ==
            if fields[i].rule.Required? && NumberOf(fields, i) < PbFields.MAX_REQUIRED_FIELDS
            then Numbered(fields, seen) + {NumberOf(fields, i)} else Numbered(fields, seen)
  {
    hide NumberOf;
  }

  // ---------------------------------------------------------------- the stream

  class IStream {
    const data: bytes
    var state: nat
    var bytesLeft: nat

    constructor (data: bytes)
      ensures Valid() && Rest() == data
    {
      this.data := data;
      state, bytesLeft := 0, |data|;
      new;
      assert data[0..|data|] == data;
    }

    /** A part of another stream. */
    constructor Part(data: bytes, state: nat, bytesLeft: nat)
      requires state + bytesLeft <= |data|
      ensures Valid() && this.data == data && this.state == state && this.bytesLeft == bytesLeft
    {
      this.data := data;
      this.state, this.bytesLeft := state, bytesLeft;
    }

    predicate Valid()
      reads this
    {
      state + bytesLeft <= |data|
    }

    function Rest(): bytes
      reads this
      requires Valid()
    {
      data[state..state + bytesLeft]
    }

    method Advance(n: nat)
      requires Valid() && n <= bytesLeft
      modifies this
      ensures Valid() && Rest() == old(Rest())[n..] && bytesLeft == old(bytesLeft) - n && state == old(state) + n
      ensures state + bytesLeft == old(state + bytesLeft)
    {
      state, bytesLeft := state + n, bytesLeft - n;
    }

    method Read(n: nat) returns (b: Option<bytes>)
      requires Valid()
      modifies this
      ensures Valid() && state + bytesLeft == old(state + bytesLeft)
      ensures b == if n <= |old(Rest())| then Some(old(Rest())[..n]) else None
      ensures b.Some? ==> Rest() == old(Rest())[n..]
    {
      if bytesLeft < n {
        return None;
      }
      b := Some(data[state..state + n]);
      assert data[state..state + n] == Rest()[..n];
      Advance(n);
    }

    method ReadByte() returns (b: Option<byte>)
      requires Valid()
      modifies this
      ensures Valid() && state + bytesLeft == old(state + bytesLeft)
      ensures b == None <==> old(Rest()) == []
      ensures b.Some? ==> b.value == old(Rest())[0] && Rest() == old(Rest())[1..] && bytesLeft == old(bytesLeft) - 1
    {
      if bytesLeft == 0 {
        return None;
      }
      b := Some(data[state]);
      Advance(1);
    }

    method DecodeVarint() returns (r: Option<nat>)
      requires Valid()
      modifies this
      ensures Valid() && state + bytesLeft == old(state + bytesLeft)
      ensures var p := GetVarint64(old(Rest()));
        if p == None then r == None else r == Some(p.value.value) && Rest() == p.value.rest
    {
      hide ReadVarint;
      var v := GetVarintPtr(Rest(), 10);
      if v == None {
        return None;
      }
      Advance(v.value.1);
      r := Some(v.value.0 % MAX_UINT64);
    }

    method DecodeVarint32() returns (r: Option<nat>)
      requires Valid()
      modifies this
      ensures Valid() && state + bytesLeft == old(state + bytesLeft)
      ensures var p := PbDecoding.DecodeVarint32(old(Rest()));
        if p == None then r == None else r == Some(p.value.value) && Rest() == p.value.rest
    {
      hide Varint32Rest, Or, Overflows, LosesBits, Joined;
      var first := ReadByte();
      if first == None {
        return None;
      }
      var b: byte, result: nat, bitpos: nat := first.value, first.value % 128, 7;
      if b < 128 {
        return Some(b);
      }
      ghost var total := PbDecoding.DecodeVarint32(old(Rest()));
      while b >= 128
        invariant Valid() && state + bytesLeft == old(state + bytesLeft) && result < MAX_UINT32 && bitpos < 256
        invariant b >= 128 ==> total == Varint32Rest(Rest(), bitpos, result)
        invariant b < 128 ==> total == if LosesBits(b, bitpos) then None else Some(Parsed(result, Rest()))
        decreases bytesLeft, b
      {
        Varint32Step(Rest(), bitpos, result);
        var next := ReadByte();
        if next == None || Overflows(next.value, bitpos, result) {
          return None;
        }
        b := next.value;
        result, bitpos := Joined(b, bitpos, result), (bitpos + 7) % 256;
      }
      r := if LosesBits(b, bitpos) then None else Some(result);
    }

    /** A substream of the declared length; this stream goes on after it. */
    method MakeSubstream() returns (sub: IStream?)
      requires Valid()
      modifies this
      ensures Valid() && state + bytesLeft == old(state + bytesLeft)
      ensures sub == null <==> Substream(old(Rest())) == None
      ensures sub != null ==> fresh(sub) && sub.Valid() && sub.Rest() == Substream(old(Rest())).value.value
      ensures sub != null ==> Rest() == Substream(old(Rest())).value.rest
    {
      hide PbDecoding.DecodeVarint32;
      var size := DecodeVarint32();
      if size == None || bytesLeft < size.value {
        return null;
      }
      sub := new IStream.Part(data, state, size.value);
      Advance(size.value);
    }

    method DecodeNumber(k: Kind) returns (r: Option<int>)
      requires Valid() && Packable(k)
      modifies this
      ensures Valid() && state + bytesLeft == old(state + bytesLeft)
      ensures var p := PbDecoding.DecodeNumber(k, old(Rest()));
        if p == None then r == None else r == Some(p.value.value) && Rest() == p.value.rest
    {
      hide GetVarint64, PbDecoding.DecodeVarint32, ReadFixed, DecodeInt;
      if k.Bool? {
        var v := DecodeVarint32();
        r := if v == None then None else Some(if v.value != 0 then 1 else 0);
      } else if k.Fixed32? {
        var b := Read(4);
        r := if b == None then None else Some(ReadFixed(b.value));
      } else if k.Fixed64? {
        var b := Read(8);
        r := if b == None then None else Some(ReadFixed(b.value));
      } else {
        var v := DecodeVarint();
        if v == None {
          return None;
        }
        r := DecodeInt(k, v.value);
      }
    }

    method DecodeOctets(k: Kind) returns (r: Option<bytes>)
      requires Valid() && !Packable(k) && !k.Message?
      modifies this
      ensures Valid() && state + bytesLeft == old(state + bytesLeft)
      ensures var p := PbDecoding.DecodeOctets(k, old(Rest()));
        if p == None then r == None else r.Some? && Octets(r.value) == p.value.value && Rest() == p.value.rest
    {
      hide PbDecoding.DecodeVarint32;
      var size := DecodeVarint32();
      if size == None {
        return None;
      }
      if k.FixedBlob? && size.value == 0 {
        return Some(Zeros(k.size));
      }
      if (k.Blob? && size.value > k.max) || (k.Text? && size.value + 1 > k.size) || (k.FixedBlob? && size.value != k.size) {
        return None;
      }
      r := Read(size.value);
    }

    method Skip(wireType: nat) returns (ok: bool)
      requires Valid()
      modifies this
      ensures Valid() && state + bytesLeft == old(state + bytesLeft)
      ensures var p := SkipField(wireType, old(Rest())); (ok <==> p.Some?) && (ok ==> Rest() == p.value)
    {
      hide Substream;
      if wireType == WT_VARINT {
        ok := SkipOneVarint();
      } else if wireType == WT_64BIT {
        var b := Read(8);
        ok := b.Some?;
      } else if wireType == WT_32BIT {
        var b := Read(4);
        ok := b.Some?;
      } else if wireType == WT_STRING {
        var sub := MakeSubstream();
        ok := sub != null;
      } else {
        ok := false;
      }
    }

    method SkipOneVarint() returns (ok: bool)
      requires Valid()
      modifies this
      ensures Valid() && state + bytesLeft == old(state + bytesLeft)
      ensures var p := SkipVarint(old(Rest())); (ok <==> p.Some?) && (ok ==> Rest() == p.value)
    {
      while true
        invariant Valid() && state + bytesLeft == old(state + bytesLeft)
        invariant SkipVarint(Rest()) == SkipVarint(old(Rest()))
        decreases bytesLeft
      {
        if bytesLeft == 0 {
          return false;
        }
        var last := data[state] < 128;
        Advance(1);
        if last {
          return true;
        }
      }
    }

    /** A value, decoded into a place that holds `base`. */
    method DecodeValue(k: Kind, base: Value) returns (r: Option<Value>)
      requires Valid() && TaggedKind(k)
      modifies this
      ensures Valid() && state + bytesLeft == old(state + bytesLeft)
      ensures var p := PbDecoding.DecodeValue(k, old(Rest()), base);
        if p == None then r == None else r == Some(p.value.value) && Rest() == p.value.rest
      decreases bytesLeft, 0
    {
      hide PbDecoding.DecodeNumber, PbDecoding.DecodeOctets, Substream, PbDecoding.DecodeFields, Defaults, Tagged;
      if Packable(k) {
        var n := DecodeNumber(k);
        r := if n == None then None else Some(Number(n.value));
      } else if !k.Message? {
        var b := DecodeOctets(k);
        r := if b == None then None else Some(Octets(b.value));
      } else {
        var sub := MakeSubstream();
        if sub == null {
          return None;
        }
        var slots := if base.Struct? && |base.slots| == |k.fields| then base.slots else Defaults(k.fields);
        var decoded := sub.DecodeStruct(k.fields, slots);
        r := if decoded == None then None else Some(Struct(decoded.value));
      }
    }

    /** The items of a packed array: this stream holds just them. */
    method DecodeItems(k: Kind, had: seq<Value>, max: nat) returns (r: Option<seq<Value>>)
      requires Valid() && Packable(k)
      modifies this
      ensures r == DecodePacked(k, old(Rest()), had, max)
    {
      hide PbDecoding.DecodeNumber;
      var items := had;
      while bytesLeft > 0 && |items| < max
        invariant Valid() && DecodePacked(k, Rest(), items, max) == DecodePacked(k, old(Rest()), had, max)
        decreases bytesLeft
      {
        var n := DecodeNumber(k);
        if n == None {
          return None;
        }
        items := items + [Number(n.value)];
      }
      r := if bytesLeft != 0 then None else Some(items);
    }

    /** The value of a field that was found. */
    method DecodeField(fields: seq<Field>, i: nat, wireType: nat, slots: seq<seq<Value>>) returns (r: Option<seq<seq<Value>>>)
      requires Valid() && |slots| == |fields| && i < |fields| && TaggedField(fields[i])
      modifies this
      ensures Valid() && state + bytesLeft == old(state + bytesLeft)
      ensures var p := PbDecoding.DecodeField(fields, i, wireType, old(Rest()), slots);
        if p == None then r == None else r == Some(p.value.value) && Rest() == p.value.rest
      decreases bytesLeft, 1
    {
      hide PbDecoding.DecodeValue, DecodePacked, Substream, Default, ClearUnion;
      var f, items := fields[i], slots[i];
      if f.rule.Repeated? && wireType == WT_STRING && Packable(f.kind) {
        var sub := MakeSubstream();
        if sub == null {
          return None;
        }
        var more := sub.DecodeItems(f.kind, items, f.rule.max);
        r := if more == None then None else Some(slots[i := more.value]);
      } else if f.rule.Repeated? {
        if |items| >= f.rule.max {
          return None;
        }
        var v := DecodeValue(f.kind, Default(f.kind));
        r := if v == None then None else Some(slots[i := items + [v.value]]);
      } else {
        var v := DecodeValue(f.kind, if items == [] then Default(f.kind) else items[0]);
        r := if v == None then None else Some(ClearUnion(fields, slots, i)[i := [v.value]]);
      }
    }

    /** All fields of a message, in whatever order they come. */
    method DecodeStruct(fields: seq<Field>, slots: seq<seq<Value>>) returns (r: Option<seq<seq<Value>>>)
      requires Valid() && |slots| == |fields| && Tagged(fields)
      modifies this
      ensures Valid() && state + bytesLeft == old(state + bytesLeft)
      ensures r == DecodeFields(fields, old(Rest()), slots, {})
      decreases bytesLeft, 3
    {
      hide PbDecoding.DecodeField, PbDecoding.DecodeVarint32, SkipField, Tagged, TaggedField, Numbered, Finished, DescribeAll,
        PbFields.Terminated, DecodeFields, PbFields.RequiredBefore, FieldStep, PbFields.Records;
      DescribedAreTerminated(fields);
      var iter := new PbFields.FieldIter(DescribeAll(fields));
      var words := [0, 0];
      var current := slots;
      ghost var seen: set<nat>, marked: set<nat> := {}, {};
      ghost var stopped := false;
      NothingSeen(fields);
      while bytesLeft > 0
        invariant Valid() && state + bytesLeft == old(state + bytesLeft) && bytesLeft <= old(bytesLeft)
        invariant iter.Valid() && fresh(iter) && iter.fields == DescribeAll(fields)
        invariant |current| == |fields| && (forall j :: j in seen ==> j < |fields|)
        invariant PbFields.Records(words, marked) && (fields != [] ==> marked == Numbered(fields, seen))
        invariant !stopped
        invariant DecodeFields(fields, Rest(), current, seen) == DecodeFields(fields, old(Rest()), slots, {})
        decreases bytesLeft
      {
        KeyIsNext(fields, Rest(), current, seen);
        var key := DecodeVarint32();
        if key == None {
          return None;
        }
        if key.value == 0 {
          stopped := true;
          break;
        }
        var next;
        next, words, seen, marked := HandleField(fields, iter, key.value, current, words, seen, marked);
        if next == None {
          return None;
        }
        current := next.value;
      }
      if !stopped {
        assert Rest() == [];
        NothingLeft(fields, current, seen);
      }
      CompleteIs(fields, current, seen);
      NumberedAreRequired(fields, seen);
      SeenIffNumbered(fields, seen);
      var complete := PbFields.AllSeen(iter, words, marked);
      r := if complete then Some(current) else None;
    }

    /** What the decoding loop does once it has a key. */
    method HandleField(fields: seq<Field>, iter: PbFields.FieldIter, key: nat, current: seq<seq<Value>>, words: seq<nat>,
                       ghost seen: set<nat>, ghost marked: set<nat>)
      returns (r: Option<seq<seq<Value>>>, words': seq<nat>, ghost seen': set<nat>, ghost marked': set<nat>)
      requires Valid() && |current| == |fields| && Tagged(fields) && PbFields.Terminated(DescribeAll(fields))
      requires iter.Valid() && iter.fields == DescribeAll(fields) && forall j :: j in seen ==> j < |fields|
      requires PbFields.Records(words, marked) && (fields != [] ==> marked == Numbered(fields, seen))
      modifies this, iter
      ensures Valid() && state + bytesLeft == old(state + bytesLeft) && iter.Valid() && (r.Some? ==> bytesLeft <= old(bytesLeft))
      ensures (forall j :: j in seen' ==> j < |fields|)
      ensures PbFields.Records(words', marked') && (fields != [] ==> marked' == Numbered(fields, seen'))
      ensures var step := FieldStep(fields, key, old(Rest()), current, seen);
        (r == None <==> step == None) && (r.Some? ==> |r.value| == |fields| && step.value == (r.value, Rest(), seen'))
      decreases bytesLeft, 2
    {
      hide PbDecoding.DecodeField, PbDecoding.DecodeVarint32, SkipField, Tagged, TaggedField, Numbered, DescribeAll,
        PbFields.Terminated, PbFields.RequiredBefore, PbFields.Records;
      var tag, wireType := key / 8, key % 8;
      words', seen', marked' := words, seen, marked;
      var found := iter.Find(tag);
      FoundIsFind(fields, tag, found, iter.pos);
      if !found {
        var ok := Skip(wireType);
        r := if ok then Some(current) else None;
        return;
      }
      words' := PbFields.MarkSeen(words, iter.requiredFieldIndex, iter.fields[iter.pos].presence == PbFields.Required, marked);
      if fields == [] {
        marked' := if iter.requiredFieldIndex < PbFields.MAX_REQUIRED_FIELDS then marked + {iter.requiredFieldIndex} else marked;
        // The end mark of an empty message is taken for a bool; where it goes is not modelled.
        var ignored := DecodeVarint32();
        r := if ignored.Some? then Some(current) else None;
      } else {
        var i := iter.pos;
        NumberedGrows(fields, seen, i);
        TaggedAt(fields, i);
        PresenceIs(fields, i);
        seen' := seen + {i};
        marked' := Numbered(fields, seen');
        r := DecodeField(fields, i, wireType, current);
      }
    }
  }

  lemma PresenceIs(fields: seq<Field>, i: nat)
    requires i < |fields|
    ensures DescribeAll(fields)[i].presence == PbFields.Required <==> fields[i].rule.Required?
  {
  }

  lemma NothingLeft(fields: seq<Field>, slots: seq<seq<Value>>, seen: set<nat>)
    requires |slots| == |fields|
    ensures DecodeFields(fields, [], slots, seen) == Finished(fields, slots, seen)
  {
  }

  lemma CompleteIs(fields: seq<Field>, slots: seq<seq<Value>>, seen: set<nat>)
    ensures Finished(fields, slots, seen) == if RequiredSeen(fields, seen) then Some(slots) else None
    ensures fields == [] ==> RequiredSeen(fields, seen) && NumberOf(fields, |fields|) == 0
  {
  }

  lemma TaggedAt(fields: seq<Field>, i: nat)
    requires Tagged(fields) && i < |fields|
    ensures TaggedField(fields[i])
  {
  }

  lemma NothingSeen(fields: seq<Field>)
    ensures Numbered(fields, {}) == {} && PbFields.Records([0, 0], {})
  {
    NoBits(0, 32);
    NoBits(32, 32);
  }

  lemma {:induction false} NoBits(base: nat, n: nat)
    ensures PbFields.WordOf({}, base, n) == 0
    decreases n
  {
    if n > 0 { NoBits(base + 1, n - 1); }
  }

  lemma NumberedAreRequired(fields: seq<Field>, seen: set<nat>)
    requires forall i :: i in seen ==> i < |fields|
    ensures forall r :: r in Numbered(fields, seen) ==> r < NumberOf(fields, |fields|) && r < PbFields.MAX_REQUIRED_FIELDS
  {
    forall r | r in Numbered(fields, seen) ensures r < NumberOf(fields, |fields|) {
      var i :| i in seen && fields[i].rule.Required? && NumberOf(fields, i) == r;
      CountGrows(fields, i, |fields|);
    }
  }

  /** What decoding does next, by the key in front. */
  lemma KeyIsNext(fields: seq<Field>, s: bytes, slots: seq<seq<Value>>, seen: set<nat>)
    requires |slots| == |fields| && s != []
    ensures var key := PbDecoding.DecodeVarint32(s);
      if key == None then DecodeFields(fields, s, slots, seen) == None
      else if key.value.value == 0 then DecodeFields(fields, s, slots, seen) == Finished(fields, slots, seen)
      else
        match FieldStep(fields, key.value.value, key.value.rest, slots, seen)
        case None => DecodeFields(fields, s, slots, seen) == None
        case Some(n) => |n.0| == |fields| && DecodeFields(fields, s, slots, seen) == DecodeFields(fields, n.1, n.0, n.2)
  {
    hide PbDecoding.DecodeField, PbDecoding.DecodeVarint32, SkipField, Finished;
  }

  /** What a key and the bytes after it do to the structure: the new structure, what is left,
      and the fields seen. */
  ghost function FieldStep(fields: seq<Field>, key: nat, s: bytes, slots: seq<seq<Value>>, seen: set<nat>)
    : Option<(seq<seq<Value>>, bytes, set<nat>)>
    requires |slots| == |fields|
  {
    var i := Find(fields, key / 8);
    if i < |fields| then
      match PbDecoding.DecodeField(fields, i, key % 8, s, slots)
      case None => None
      case Some(p) => Some((p.value, p.rest, seen + {i}))
    else if fields == [] && key / 8 == 0 then
      match PbDecoding.DecodeVarint32(s) case None => None case Some(p) => Some((slots, p.rest, seen))
    else
      match SkipField(key % 8, s) case None => None case Some(rest) => Some((slots, rest, seen))
  }

  /** Decodes a whole message from a buffer into a structure of defaults. */
  method DecodeMessage(fields: seq<Field>, b: bytes) returns (r: Option<seq<seq<Value>>>)
    requires Tagged(fields)
    ensures r == DecodeFields(fields, b, Defaults(fields), {})
  {
    var stream := new IStream(b);
    r := stream.DecodeStruct(fields, Defaults(fields));
  }
}
