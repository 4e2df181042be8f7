/** Encoder and decoder together. */
module PbCodec {
  import opened DbFormat
  import opened PbMessages
  import opened PbDecoding
  import opened PbMerging
  import opened PbRoundTrip
  import opened PbEncoder
  import PbDecoder

  /** What a decoder has room for, the encoder does not reject. */
  lemma {:induction false} RoomyIsAccepted(k: Kind, v: Value)
    requires WellTyped(k, v) && Roomy(k, v)
    ensures Accepted(k, v)
    decreases k
  {
    if k.Message? {
      RoomyFieldsAccepted(k.fields, v.slots);
    }
  }

  lemma {:induction false} RoomyFieldsAccepted(fields: seq<Field>, slots: seq<seq<Value>>)
    requires SlotsOk(fields, slots) && RoomyFields(fields, slots)
    ensures AcceptedFields(fields, slots)
    decreases fields
  {
    hide RoomyField, AcceptedField, SlotOk;
    forall i | 0 <= i < |fields| ensures AcceptedField(fields[i], slots[i]) {
      RoomyFieldAccepted(fields[i], slots[i]);
    }
  }

  lemma {:induction false} RoomyFieldAccepted(f: Field, items: seq<Value>)
    requires SlotOk(f, items) && RoomyField(f, items)
    ensures AcceptedField(f, items)
    decreases f
  {
    hide Roomy, Accepted, WellTyped, IsZero;
    forall v | v in items ensures Accepted(f.kind, v) {
      RoomyIsAccepted(f.kind, v);
    }
  }

  lemma {:induction false} DescriptorsAreTagged(fields: seq<Field>)
    requires Descriptors(fields)
    ensures PbDecoder.Tagged(fields)
    decreases fields
  {
    hide GoodField, PbDecoder.TaggedField;
    forall i | 0 <= i < |fields| ensures PbDecoder.TaggedField(fields[i]) {
      FieldIsTagged(fields[i]);
    }
  }

  lemma {:induction false} FieldIsTagged(f: Field)
    requires GoodField(f)
    ensures PbDecoder.TaggedField(f)
    decreases f
  {
    if f.kind.Message? {
      DescriptorsAreTagged(f.kind.fields);
    }
  }

  /** A message that is written to a large enough buffer and read back is unchanged. */
  method EncodeAndDecode(fields: seq<Field>, slots: seq<seq<Value>>, bufferSize: nat) returns (ok: bool, r: Option<seq<seq<Value>>>)
    requires SlotsOk(fields, slots) && RoomyFields(fields, slots) && Descriptors(fields)
    ensures ok <==> |EncodeFields(fields, slots)| <= bufferSize
    ensures ok ==> r == Some(slots)
  {
    hide RoomyFields, Descriptors, AcceptedFields, EncodeFields, DecodeFields, PbDecoder.Tagged;
    RoomyFieldsAccepted(fields, slots);
    DescriptorsAreTagged(fields);
    FieldsRoundTrip(fields, slots);
    var b;
    ok, b := EncodeMessage(fields, slots, bufferSize);
    r := None;
    if ok {
      r := PbDecoder.DecodeMessage(fields, b);
    }
  }
}
