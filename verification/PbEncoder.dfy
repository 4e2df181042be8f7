/** The encoder: every nested message is encoded twice, once to learn its size. */
module PbEncoder {
  import opened Coding
  import opened PbMessages

  datatype Problem = NoProblem | StreamFull | ArrayTooLong | BlobTooLong

  /** What the encoder checks itself, beyond what the C types ensure. */
  ghost predicate Accepted(k: Kind, v: Value)
    requires WellTyped(k, v)
    decreases k
  {
    if Packable(k) then true
    else if k.Message? then AcceptedFields(k.fields, v.slots)
    else k.Blob? ==> |v.b| <= k.max
  }

  ghost predicate AcceptedFields(fields: seq<Field>, slots: seq<seq<Value>>)
    requires SlotsOk(fields, slots)
    decreases fields
  {
    forall i :: 0 <= i < |fields| ==> AcceptedField(fields[i], slots[i])
  }

  /** What is left out is not looked at. */
  ghost predicate AcceptedField(f: Field, items: seq<Value>)
    requires SlotOk(f, items)
    decreases f
  {
    || (f.rule.Singular? && IsZero(f.kind, items[0]))
    || ((f.rule.Repeated? ==> |items| <= f.rule.max) && forall v :: v in items ==> Accepted(f.kind, v))
  }

  lemma NumbersAccepted(k: Kind, items: seq<Value>)
    requires Packable(k) && forall v :: v in items ==> WellTyped(k, v)
    ensures forall v :: v in items ==> Accepted(k, v)
  {
  }

  lemma {:induction false} FixedSize(k: Kind, items: seq<Value>)
    requires (k.Fixed32? || k.Fixed64?) && forall v :: v in items ==> WellTyped(k, v)
    ensures |EncodePacked(k, items)| == (if k.Fixed32? then 4 else 8) * |items|
    decreases items
  {
    if items != [] {
      assert items[0] in items;
      FixedSize(k, items[1..]);
    }
  }

  /** An output stream. One that only counts has no place to write to, and no limit. */
  class OStream {
    const writing: bool
    const maxSize: nat
    var out: bytes
    var bytesWritten: nat
    var problem: Problem
    /** All that was written or counted. */
    ghost var sent: bytes

    constructor (writing: bool, maxSize: nat)
      ensures Valid() && sent == [] && problem == NoProblem && this.writing == writing && this.maxSize == maxSize
    {
      this.writing, this.maxSize := writing, maxSize;
      out, bytesWritten, problem, sent := [], 0, NoProblem, [];
    }

    ghost predicate Valid()
      reads this
    {
      && bytesWritten == |sent| && out == (if writing then sent else [])
      && (writing ==> bytesWritten <= maxSize)
    }

    /** There is room for `n` more bytes. */
    ghost predicate Room(n: nat)
      reads this
    {
      writing ==> |sent| + n <= maxSize
    }

    method Write(b: bytes) returns (ok: bool)
      requires Valid()
      modifies this
      ensures Valid() && (ok <==> old(Room(|b|))) && sent == if ok then old(sent) + b else old(sent)
    {
      if |b| > 0 && writing {
        if bytesWritten + |b| > maxSize {
          problem := StreamFull;
          return false;
        }
        out := out + b;
      }
      sent := sent + b;
      bytesWritten := bytesWritten + |b|;
      ok := true;
    }

    /** Counts bytes that are not at hand. */
    method Count(size: nat, ghost b: bytes)
      requires Valid() && !writing && |b| == size
      modifies this
      ensures Valid() && sent == old(sent) + b
    {
      sent := sent + b;
      bytesWritten := bytesWritten + size;
    }

    /** Seven bits a byte, into a buffer; the last byte has its top bit cleared. */
    method WriteVarint(value: nat) returns (ok: bool)
      requires Valid()
      modifies this
      ensures Valid() && (ok <==> old(Room(|Varint(value)|))) && sent == if ok then old(sent) + Varint(value) else old(sent)
    {
      if value <= 0x7f {
        ok := Write([value]);
        return;
      }
      var buffer: bytes := [];
      var left := value;
      while left > 0
        invariant left >= 0 && (left == 0 ==> buffer != [])
        invariant left > 0 ==> buffer + Varint(left) == Varint(value)
        invariant left == 0 ==> buffer[|buffer| - 1] >= 128 && buffer[..|buffer| - 1] + [buffer[|buffer| - 1] - 128] == Varint(value)
      {
        assert left >= 128 ==> Varint(left) == [left % 128 + 128] + Varint(left / 128);
        assert left >= 128 ==> buffer + Varint(left) == (buffer + [left % 128 + 128]) + Varint(left / 128);
        buffer := buffer + [left % 128 + 128];
        left := left / 128;
      }
      buffer := buffer[..|buffer| - 1] + [buffer[|buffer| - 1] - 128];
      ok := Write(buffer);
    }

    method WriteTag(tag: nat, wireType: nat) returns (ok: bool)
      requires Valid()
      modifies this
      ensures Valid() && (ok <==> old(Room(|EncodeTag(tag, wireType)|)))
      ensures ok ==> sent == old(sent) + EncodeTag(tag, wireType)
    {
      ok := WriteVarint(tag * 8 + wireType);
    }

    method WriteOctets(b: bytes) returns (ok: bool)
      requires Valid()
      modifies this
      ensures Valid() && (ok <==> old(Room(|PutLengthPrefixed(b)|)))
      ensures ok ==> sent == old(sent) + PutLengthPrefixed(b)
    {
      hide Varint, PutLengthPrefixed;
      OctetsAfter(sent, b);
      ok := WriteVarint(|b|);
      if ok {
        ok := Write(b);
      }
    }

    static lemma OctetsAfter(before: bytes, b: bytes)
      ensures before + PutLengthPrefixed(b) == before + Varint(|b|) + b
      ensures |PutLengthPrefixed(b)| == |Varint(|b|)| + |b|
    {
      hide Varint;
    }

    method WriteNumber(k: Kind, n: int) returns (ok: bool)
      requires Valid() && Packable(k) && NumberOk(k, n)
      modifies this
      ensures Valid() && (ok <==> old(Room(|EncodeNumber(k, n)|)))
      ensures ok ==> sent == old(sent) + EncodeNumber(k, n)
    {
      hide Varint, Fixed;
      match k
      case Bool => ok := WriteVarint(n);
      case Int(_) => ok := WriteVarint(if n < 0 then n + MAX_UINT64 else n);
      case UInt(_) => ok := WriteVarint(n);
      case SInt(_) => ok := WriteVarint(ZigZag(n));
      case Fixed32 => ok := Write(Fixed(n, 4));
      case Fixed64 => ok := Write(Fixed(n, 8));
    }

    method WriteValue(k: Kind, v: Value) returns (ok: bool)
      requires Valid() && WellTyped(k, v)
      modifies this
      ensures Valid() && (ok <==> Accepted(k, v) && old(Room(|EncodeValue(k, v)|)))
      ensures ok ==> sent == old(sent) + EncodeValue(k, v)
      decreases k, 0
    {
      hide EncodeNumber, NumberOk, PutLengthPrefixed, EncodeFields, Varint;
      if Packable(k) {
        ok := WriteNumber(k, v.n);
      } else if k.Message? {
        ok := WriteSubmessage(k.fields, v.slots);
      } else {
        if k.Blob? && |v.b| > k.max {
          problem := BlobTooLong;
          return false;
        }
        ok := WriteOctets(v.b);
      }
    }

    /** The size is counted first, and the message written then. */
    method WriteSubmessage(fields: seq<Field>, slots: seq<seq<Value>>) returns (ok: bool)
      requires Valid() && SlotsOk(fields, slots)
      modifies this
      ensures Valid() && (ok <==> AcceptedFields(fields, slots) && old(Room(|PutLengthPrefixed(EncodeFields(fields, slots))|)))
      ensures ok ==> sent == old(sent) + PutLengthPrefixed(EncodeFields(fields, slots))
      decreases fields, 4
    {
      hide EncodeFields, AcceptedFields, SlotsOk, Varint;
      ghost var message := EncodeFields(fields, slots);
      var sizing := new OStream(false, 0);
      ok := sizing.WriteFields(fields, slots);
      if !ok {
        problem := sizing.problem;
        return;
      }
      var size := sizing.bytesWritten;
      assert size == |message|;
      ghost var start := sent;
      ok := WriteVarint(size);
      if !ok {
        return;
      }
      assert sent + message == start + PutLengthPrefixed(message);
      if !writing {
        Count(size, message);
        return;
      }
      ok := WriteCounted(fields, slots, size);
    }

    /** The second pass, into a stream that has room for the size that was counted. */
    method WriteCounted(fields: seq<Field>, slots: seq<seq<Value>>, size: nat) returns (ok: bool)
      requires Valid() && writing && SlotsOk(fields, slots) && AcceptedFields(fields, slots) && size == |EncodeFields(fields, slots)|
      modifies this
      ensures Valid() && (ok <==> old(Room(size))) && (ok ==> sent == old(sent) + EncodeFields(fields, slots))
      decreases fields, 3
    {
      hide EncodeFields, AcceptedFields, SlotsOk;
      if bytesWritten + size > maxSize {
        problem := StreamFull;
        return false;
      }
      var substream := new OStream(true, size);
      ok := substream.WriteFields(fields, slots);
      bytesWritten := bytesWritten + substream.bytesWritten;
      out := out + substream.out;
      sent := sent + substream.sent;
      problem := substream.problem;
      if substream.bytesWritten != size {
        // The source reports that the size has changed. Without callbacks it never does.
        assert false;
      }
    }

    /** A repeated field: packed if its items are numbers, with the size counted first. */
    method WriteArray(f: Field, items: seq<Value>) returns (ok: bool)
      requires Valid() && SlotOk(f, items) && f.rule.Repeated?
      modifies this
      ensures Valid() && (ok <==> AcceptedField(f, items) && old(Room(|EncodeField(f, items)|)))
      ensures ok ==> sent == old(sent) + EncodeField(f, items)
      decreases f, 1
    {
      hide EncodeTag, EncodePacked, EncodeTagged, WellTyped, Accepted, Varint;
      if items == [] {
        return true;
      }
      if |items| > f.rule.max {
        problem := ArrayTooLong;
        return false;
      }
      if Packable(f.kind) {
        NumbersAccepted(f.kind, items);
        ok := WritePacked(f, items);
      } else {
        ok := WriteTagged(f, items);
      }
    }

    /** The size of a packed array: known for fixed-width items, otherwise counted. */
    static method PackedSize(k: Kind, items: seq<Value>) returns (size: nat)
      requires Packable(k) && forall v :: v in items ==> WellTyped(k, v)
      ensures size == |EncodePacked(k, items)|
    {
      if k.Fixed32? {
        FixedSize(k, items);
        size := 4 * |items|;
      } else if k.Fixed64? {
        FixedSize(k, items);
        size := 8 * |items|;
      } else {
        var sizing := new OStream(false, 0);
        var ok := sizing.WriteItems(k, items);
        size := sizing.bytesWritten;
      }
    }

    method WritePacked(f: Field, items: seq<Value>) returns (ok: bool)
      requires Valid() && Packable(f.kind) && forall v :: v in items ==> WellTyped(f.kind, v)
      modifies this
      ensures Valid()
      ensures var b := EncodeTag(f.tag, WT_STRING) + PutLengthPrefixed(EncodePacked(f.kind, items));
        (ok <==> old(Room(|b|))) && (ok ==> sent == old(sent) + b)
    {
      hide EncodeTag, WellTyped, Varint, EncodePacked;
      ghost var packed, start := EncodePacked(f.kind, items), sent;
      ok := WriteTag(f.tag, WT_STRING);
      if !ok {
        return;
      }
      var size := PackedSize(f.kind, items);
      ok := WriteVarint(size);
      if !ok {
        return;
      }
      assert sent + packed == start + (EncodeTag(f.tag, WT_STRING) + PutLengthPrefixed(packed));
      if !writing {
        Count(size, packed);
        return;
      }
      ok := WriteItems(f.kind, items);
    }

    static lemma NoItems(k: Kind, tag: nat)
      ensures Packable(k) ==> EncodePacked(k, []) == []
      ensures EncodeTagged(tag, k, []) == []
    {
    }

    static lemma PackedStep(k: Kind, items: seq<Value>, i: nat, before: bytes)
      requires Packable(k) && i < |items| && forall v :: v in items ==> WellTyped(k, v)
      ensures items[i] in items && WellTyped(k, items[i])
      ensures before + EncodePacked(k, items[i..]) == before + EncodeNumber(k, items[i].n) + EncodePacked(k, items[i + 1..])
    {
      hide EncodeNumber, NumberOk;
      assert items[i..][0] == items[i] && items[i..][1..] == items[i + 1..];
    }

    static lemma TaggedStep(f: Field, items: seq<Value>, i: nat, before: bytes)
      requires i < |items| && forall v :: v in items ==> WellTyped(f.kind, v)
      ensures items[i] in items && WellTyped(f.kind, items[i])
      ensures before + EncodeTagged(f.tag, f.kind, items[i..]) ==
              before + EncodeTag(f.tag, WireType(f.kind)) + EncodeValue(f.kind, items[i]) + EncodeTagged(f.tag, f.kind, items[i + 1..])
    {
      hide EncodeTag, EncodeValue, WellTyped;
      assert items[i..][0] == items[i] && items[i..][1..] == items[i + 1..];
    }

    method WriteItems(k: Kind, items: seq<Value>) returns (ok: bool)
      requires Valid() && Packable(k) && forall v :: v in items ==> WellTyped(k, v)
      modifies this
      ensures Valid() && (ok <==> old(Room(|EncodePacked(k, items)|))) && (ok ==> sent == old(sent) + EncodePacked(k, items))
    {
      hide EncodeNumber, NumberOk, EncodePacked;
      var i := 0;
      assert items[0..] == items;
      NoItems(k, 0);
      while i < |items|
        invariant 0 <= i <= |items| && Valid()
        invariant sent + EncodePacked(k, items[i..]) == old(sent) + EncodePacked(k, items)
      {
        assert items[i] in items;
        PackedStep(k, items, i, sent);
        ok := WriteNumber(k, items[i].n);
        if !ok {
          return;
        }
        i := i + 1;
      }
      assert sent + [] == sent;
      ok := true;
    }

    method WriteTagged(f: Field, items: seq<Value>) returns (ok: bool)
      requires Valid() && forall v :: v in items ==> WellTyped(f.kind, v)
      modifies this
      ensures Valid()
      ensures ok <==> (forall v :: v in items ==> Accepted(f.kind, v)) && old(Room(|EncodeTagged(f.tag, f.kind, items)|))
      ensures ok ==> sent == old(sent) + EncodeTagged(f.tag, f.kind, items)
      decreases f, 0
    {
      hide EncodeTag, EncodeValue, WellTyped, Accepted, EncodeTagged;
      var i := 0;
      assert items[0..] == items;
      NoItems(f.kind, f.tag);
      while i < |items|
        invariant 0 <= i <= |items| && Valid()
        invariant forall v :: v in items[..i] ==> Accepted(f.kind, v)
        invariant sent + EncodeTagged(f.tag, f.kind, items[i..]) == old(sent) + EncodeTagged(f.tag, f.kind, items)
      {
        assert items[i] in items;
        TaggedStep(f, items, i, sent);
        ok := WriteTag(f.tag, WireType(f.kind));
        if !ok {
          return;
        }
        ok := WriteValue(f.kind, items[i]);
        if !ok {
          return;
        }
        assert items[..i + 1] == items[..i] + [items[i]];
        i := i + 1;
      }
      assert items[..i] == items && sent + [] == sent;
      ok := true;
    }

    method WriteField(f: Field, items: seq<Value>) returns (ok: bool)
      requires Valid() && SlotOk(f, items)
      modifies this
      ensures Valid() && (ok <==> AcceptedField(f, items) && old(Room(|EncodeField(f, items)|)))
      ensures ok ==> sent == old(sent) + EncodeField(f, items)
      decreases f, 2
    {
      hide EncodeTag, EncodePacked, EncodeTagged, WellTyped, Accepted, IsZero;
      match f.rule
      case Repeated(_) =>
        ok := WriteArray(f, items);
      case Singular =>
        if IsZero(f.kind, items[0]) {
          ok := true;
        } else {
          ok := WriteTagged(f, items);
        }
      case _ =>
        ok := true;
        if items != [] {
          ok := WriteTagged(f, items);
        }
    }

    /** All fields in the order of their descriptors. */
    method WriteFields(fields: seq<Field>, slots: seq<seq<Value>>) returns (ok: bool)
      requires Valid() && SlotsOk(fields, slots)
      modifies this
      ensures Valid() && (ok <==> AcceptedFields(fields, slots) && old(Room(|EncodeFields(fields, slots)|)))
      ensures ok ==> sent == old(sent) + EncodeFields(fields, slots)
      decreases fields, 2
    {
      hide EncodeField, SlotOk, AcceptedField;
      var i := 0;
      assert fields[0..] == fields && slots[0..] == slots;
      while i < |fields|
        invariant 0 <= i <= |fields| && Valid() && SlotsOk(fields[i..], slots[i..])
        invariant forall j :: 0 <= j < i ==> AcceptedField(fields[j], slots[j])
        invariant sent + EncodeFields(fields[i..], slots[i..]) == old(sent) + EncodeFields(fields, slots)
      {
        assert fields[i..][1..] == fields[i + 1..] && slots[i..][1..] == slots[i + 1..];
        ghost var b, before := EncodeFields(fields[i + 1..], slots[i + 1..]), sent;
        assert before + EncodeFields(fields[i..], slots[i..]) == before + EncodeField(fields[i], slots[i]) + b;
        ok := WriteField(fields[i], slots[i]);
        if !ok {
          return;
        }
        i := i + 1;
      }
      assert sent + [] == sent;
      ok := true;
    }
  }

  /** The size a message will take, without writing it. */
  method GetEncodedSize(fields: seq<Field>, slots: seq<seq<Value>>) returns (ok: bool, size: nat)
    requires SlotsOk(fields, slots)
    ensures (ok <==> AcceptedFields(fields, slots)) && (ok ==> size == |EncodeFields(fields, slots)|)
  {
    var stream := new OStream(false, 0);
    ok := stream.WriteFields(fields, slots);
    size := stream.bytesWritten;
  }

  /** Encodes into a buffer of some size. It fails only if the message does not fit, or has a
      part that is longer than its descriptor allows. */
  method EncodeMessage(fields: seq<Field>, slots: seq<seq<Value>>, bufferSize: nat) returns (ok: bool, b: bytes)
    requires SlotsOk(fields, slots)
    ensures ok <==> AcceptedFields(fields, slots) && |EncodeFields(fields, slots)| <= bufferSize
    ensures ok ==> b == EncodeFields(fields, slots)
  {
    var stream := new OStream(true, bufferSize);
    ok := stream.WriteFields(fields, slots);
    b := stream.out;
  }
}
