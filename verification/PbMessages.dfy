/** Messages and their wire format: Protocol Buffers encoding, sections "Base 128 Varints",
    "Signed Integers", "Length-Delimited Records" and "Packed Repeated Fields". */
module PbMessages {
  import opened Coding

  /** How the data of a field is stored and encoded. Numbers have a width in bytes. */
  datatype Kind =
    | Bool
    | Int(width: nat)
    | UInt(width: nat)
    | SInt(width: nat)
    | Fixed32
    | Fixed64
    | Blob(max: nat)
    | Text(size: nat)
    | FixedBlob(size: nat)
    | Message(fields: seq<Field>)

  /** When a field is present. A `Singular` field has no flag: it is present if it is not zero.
      At most one of the fields of a `Oneof` is. */
  datatype Rule = Required | Optional | Singular | Repeated(max: nat) | Oneof(which: nat)

  datatype Field = Field(tag: nat, rule: Rule, kind: Kind)

  /** A structure has the values of each of its fields, if any. */
  datatype Value = Number(n: int) | Octets(b: bytes) | Struct(slots: seq<seq<Value>>)

  predicate Packable(k: Kind) {
    k.Bool? || k.Int? || k.UInt? || k.SInt? || k.Fixed32? || k.Fixed64?
  }

  predicate Width(w: nat) { w in {1, 2, 4, 8} }

  /** The number of values of a `w`-byte word. */
  function Range(w: nat): (n: int)
    ensures n > 0 && n % 2 == 0
  {
    if w == 1 then 0x100 else if w == 2 then 0x1_0000 else if w == 4 then MAX_UINT32 else MAX_UINT64
  }

  predicate NumberOk(k: Kind, n: int)
    requires Packable(k)
  {
    match k
    case Bool => n == 0 || n == 1
    case Int(w) => Width(w) && -Range(w) <= 2 * n < Range(w)
    case SInt(w) => Width(w) && -Range(w) <= 2 * n < Range(w)
    case UInt(w) => Width(w) && 0 <= n < Range(w)
    case Fixed32 => 0 <= n < MAX_UINT32
    case Fixed64 => 0 <= n < MAX_UINT64
  }

  /** What the C types of a structure and its descriptors ensure of its contents. */
  predicate WellTyped(k: Kind, v: Value)
    decreases k
  {
    if Packable(k) then v.Number? && NumberOk(k, v.n)
    else if k.Message? then v.Struct? && SlotsOk(k.fields, v.slots)
    else v.Octets? && (k.Text? ==> |v.b| <= k.size && 0 !in v.b) && (k.FixedBlob? ==> |v.b| == k.size)
  }

  predicate SlotsOk(fields: seq<Field>, slots: seq<seq<Value>>)
    decreases fields
  {
    |slots| == |fields| && forall i :: 0 <= i < |fields| ==> SlotOk(fields[i], slots[i])
  }

  predicate SlotOk(f: Field, items: seq<Value>)
    decreases f
  {
    && (f.rule.Required? || f.rule.Singular? ==> |items| == 1)
    && (f.rule.Optional? || f.rule.Oneof? ==> |items| <= 1)
    && forall v :: v in items ==> WellTyped(f.kind, v)
  }

  // ---------------------------------------------------------------- encoding

  const WT_VARINT := 0
  const WT_64BIT := 1
  const WT_STRING := 2
  const WT_32BIT := 5

  function WireType(k: Kind): nat {
    match k
    case Fixed32 => WT_32BIT
    case Fixed64 => WT_64BIT
    case Bool => WT_VARINT
    case Int(_) => WT_VARINT
    case UInt(_) => WT_VARINT
    case SInt(_) => WT_VARINT
    case _ => WT_STRING
  }

  function EncodeTag(tag: nat, wireType: nat): bytes {
    Varint(tag * 8 + wireType)
  }

  function ZigZag(n: int): nat {
    if n < 0 then -2 * n - 1 else 2 * n
  }

  function UnZigZag(z: nat): int {
    if z % 2 == 1 then -(z / 2) - 1 else z / 2
  }

  function EncodeNumber(k: Kind, n: int): bytes
    requires Packable(k) && NumberOk(k, n)
  {
    match k
    case Bool => Varint(n)
    case Int(_) => Varint(if n < 0 then n + MAX_UINT64 else n)
    case UInt(_) => Varint(n)
    case SInt(_) => Varint(ZigZag(n))
    case Fixed32 => Fixed(n, 4)
    case Fixed64 => Fixed(n, 8)
  }

  function EncodeValue(k: Kind, v: Value): bytes
    requires WellTyped(k, v)
    decreases k, 0
  {
    if Packable(k) then EncodeNumber(k, v.n)
    else PutLengthPrefixed(if k.Message? then EncodeFields(k.fields, v.slots) else v.b)
  }

  /** All items without tags. */
  function EncodePacked(k: Kind, items: seq<Value>): bytes
    requires Packable(k) && forall v :: v in items ==> WellTyped(k, v)
    decreases k, 1, items
  {
    if items == [] then [] else EncodeValue(k, items[0]) + EncodePacked(k, items[1..])
  }

  /** Each item with the field's tag. */
  function EncodeTagged(tag: nat, k: Kind, items: seq<Value>): bytes
    requires forall v :: v in items ==> WellTyped(k, v)
    decreases k, 1, items
  {
    if items == [] then []
    else EncodeTag(tag, WireType(k)) + EncodeValue(k, items[0]) + EncodeTagged(tag, k, items[1..])
  }

  /** A field that has no flag is left out if it is zero. */
  predicate IsZero(k: Kind, v: Value)
    requires WellTyped(k, v)
    decreases k
  {
    if Packable(k) then v.n == 0 else if k.Message? then AllZero(k.fields, v.slots) else v.b == []
  }

  predicate AllZero(fields: seq<Field>, slots: seq<seq<Value>>)
    requires SlotsOk(fields, slots)
    decreases fields
  {
    forall i :: 0 <= i < |fields| ==> IsZeroField(fields[i], slots[i])
  }

  predicate IsZeroField(f: Field, items: seq<Value>)
    requires SlotOk(f, items)
    decreases f
  {
    match f.rule
    case Required => false
    case Singular => IsZero(f.kind, items[0])
    case _ => items == []
  }

  function EncodeField(f: Field, items: seq<Value>): bytes
    requires SlotOk(f, items)
    decreases f
  {
    if items == [] || (f.rule.Singular? && IsZero(f.kind, items[0])) then []
    else if f.rule.Repeated? && Packable(f.kind) then
      EncodeTag(f.tag, WT_STRING) + PutLengthPrefixed(EncodePacked(f.kind, items))
    else EncodeTagged(f.tag, f.kind, items)
  }

  function EncodeFields(fields: seq<Field>, slots: seq<seq<Value>>): bytes
    requires SlotsOk(fields, slots)
    decreases fields
  {
    if fields == [] then [] else EncodeField(fields[0], slots[0]) + EncodeFields(fields[1..], slots[1..])
  }
}
