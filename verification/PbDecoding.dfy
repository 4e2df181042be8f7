/** What decoding gives, as a function of the bytes and of the structure decoded into. */
module PbDecoding {
  import opened DbFormat
  import opened Coding
  import opened PbMessages
  import PbFields

  // ---------------------------------------------------------------- numbers

  /** `a | b` */
  function Or(a: nat, b: nat): nat {
    if a == 0 then b else if b == 0 then a
    else (if a % 2 == 1 || b % 2 == 1 then 1 else 0) + 2 * Or(a / 2, b / 2)
  }

  /** `v << bitpos` */
  function Shifted(v: nat, bitpos: nat): nat { v * Pow(2, bitpos) }

  /** A 32-bit value. One that goes on beyond the word must do so with zeros or with the sign of
      a negative number; only the fifth byte, where it is the last, is checked for lost bits. */
  function DecodeVarint32(s: bytes): (r: Option<Parsed<nat>>)
    ensures r.Some? ==> r.value.value < MAX_UINT32 && |r.value.rest| < |s|
  {
    if s == [] then None
    else if s[0] < 128 then Some(Parsed(s[0], s[1..]))
    else Varint32Rest(s[1..], 7, s[0] - 128)
  }

  /** The bytes behind the first. The bit position is kept in eight bits. */
  function Varint32Rest(s: bytes, bitpos: nat, result: nat): (r: Option<Parsed<nat>>)
    requires result < MAX_UINT32
    ensures r.Some? ==> r.value.value < MAX_UINT32 && |r.value.rest| < |s|
    decreases |s|
  {
    if s == [] || Overflows(s[0], bitpos, result) then None
    else
      OrIsWord(result, Shifted(s[0] % 128, bitpos) % MAX_UINT32);
      var more, next := Joined(s[0], bitpos, result), (bitpos + 7) % 256;
      if s[0] >= 128 then Varint32Rest(s[1..], next, more)
      else if LosesBits(s[0], next) then None
      else Some(Parsed(more, s[1..]))
  }

  predicate Overflows(b: byte, bitpos: nat, result: nat) {
    bitpos >= 32 && b % 128 != 0 && (result < 0x8000_0000 || b != if bitpos < 63 then 0xff else 1)
  }

  predicate LosesBits(last: byte, bitpos: nat) {
    bitpos == 35 && last % 128 / 16 != 0
  }

  function Joined(b: byte, bitpos: nat, result: nat): nat {
    if bitpos < 32 then Or(result, Shifted(b % 128, bitpos) % MAX_UINT32) else result
  }

  lemma {:induction false} OrFits(a: nat, b: nat, n: nat)
    requires a < Pow(2, n) && b < Pow(2, n)
    ensures Or(a, b) < Pow(2, n)
  {
    if n > 0 && a != 0 && b != 0 { OrFits(a / 2, b / 2, n - 1); }
  }

  lemma OrIsWord(a: nat, b: nat)
    requires a < MAX_UINT32 && b < MAX_UINT32
    ensures Or(a, b) < MAX_UINT32
  {
    hide Or;
    WordPower();
    OrFits(a, b, 32);
  }

  lemma WordPower()
    ensures Pow(2, 7) == 0x80 && Pow(2, 14) == 0x4000 && Pow(2, 21) == 0x20_0000 && Pow(2, 28) == 0x1000_0000
    ensures Pow(2, 32) == MAX_UINT32
  {
    assert Pow(2, 3) == 8 && Pow(2, 7) == 0x80 && Pow(2, 11) == 0x800 && Pow(2, 14) == 0x4000 && Pow(2, 18) == 0x4_0000;
    assert Pow(2, 21) == 0x20_0000 && Pow(2, 25) == 0x200_0000 && Pow(2, 28) == 0x1000_0000;
  }

  lemma Varint32Step(s: bytes, bitpos: nat, result: nat)
    requires result < MAX_UINT32
    ensures s == [] || Overflows(s[0], bitpos, result) ==> Varint32Rest(s, bitpos, result) == None
    ensures s != [] && !Overflows(s[0], bitpos, result) ==>
      var more, next := Joined(s[0], bitpos, result), (bitpos + 7) % 256;
      && more < MAX_UINT32
      && Varint32Rest(s, bitpos, result) ==
         if s[0] >= 128 then Varint32Rest(s[1..], next, more) else if LosesBits(s[0], next) then None else Some(Parsed(more, s[1..]))
  {
    if s != [] { OrIsWord(result, Shifted(s[0] % 128, bitpos) % MAX_UINT32); }
    hide Or, Shifted, Overflows, LosesBits;
  }

  /** The value of an `n`-valued word as a signed number. */
  function Signed(v: nat, n: int): int {
    if 2 * v < n then v else v - n
  }

  predicate Fits(w: nat, n: int) {
    Width(w) && -Range(w) <= 2 * n < Range(w)
  }

  function DecodeInt(k: Kind, v: nat): Option<int>
    requires v < MAX_UINT64
  {
    match k
    case Int(w) => (var n := if w == 8 then Signed(v, MAX_UINT64) else Signed(v % MAX_UINT32, MAX_UINT32);
                    if Fits(w, n) then Some(n) else None)
    case SInt(w) => if Fits(w, UnZigZag(v)) then Some(UnZigZag(v)) else None
    case UInt(w) => if Width(w) && v < Range(w) then Some(v) else None
    case _ => None
  }

  function DecodeFixed(s: bytes, n: nat): (r: Option<Parsed<int>>)
    ensures r.Some? ==> |r.value.rest| <= |s|
  {
    if |s| < n then None else Some(Parsed(ReadFixed(s[..n]), s[n..]))
  }

  function DecodeNumber(k: Kind, s: bytes): (r: Option<Parsed<int>>)
    requires Packable(k)
    ensures r.Some? ==> |r.value.rest| < |s|
  {
    match k
    case Bool =>
      (match DecodeVarint32(s) case None => None case Some(p) => Some(Parsed(if p.value != 0 then 1 else 0, p.rest)))
    case Fixed32 => DecodeFixed(s, 4)
    case Fixed64 => DecodeFixed(s, 8)
    case _ =>
      match GetVarint64(s)
      case None => None
      case Some(p) => match DecodeInt(k, p.value) case None => None case Some(n) => Some(Parsed(n, p.rest))
  }

  // ---------------------------------------------------------------- defaults

  function Default(k: Kind): Value
    decreases k
  {
    if Packable(k) then Number(0)
    else if k.Message? then Struct(Defaults(k.fields))
    else Octets(if k.FixedBlob? then Zeros(k.size) else [])
  }

  function DefaultSlot(f: Field): seq<Value>
    decreases f
  {
    if f.rule.Required? || f.rule.Singular? then [Default(f.kind)] else []
  }

  function Defaults(fields: seq<Field>): (slots: seq<seq<Value>>)
    ensures |slots| == |fields|
    decreases fields
  {
    if fields == [] then [] else [DefaultSlot(fields[0])] + Defaults(fields[1..])
  }

  // ---------------------------------------------------------------- fields

  /** The bytes of a length-delimited value, and what follows them. */
  function Substream(s: bytes): (r: Option<Parsed<bytes>>)
    ensures r.Some? ==> |r.value.value| + |r.value.rest| < |s|
  {
    match DecodeVarint32(s)
    case None => None
    case Some(p) => if |p.rest| < p.value then None else Some(Parsed(p.rest[..p.value], p.rest[p.value..]))
  }

  function DecodeOctets(k: Kind, s: bytes): (r: Option<Parsed<Value>>)
    requires !Packable(k) && !k.Message?
    ensures r.Some? ==> |r.value.rest| < |s|
  {
    match DecodeVarint32(s)
    case None => None
    case Some(p) =>
      if k.FixedBlob? && p.value == 0 then Some(Parsed(Octets(Zeros(k.size)), p.rest))
      else if (k.Blob? && p.value > k.max) || (k.Text? && p.value + 1 > k.size) || (k.FixedBlob? && p.value != k.size) then None
      else if |p.rest| < p.value then None
      else Some(Parsed(Octets(p.rest[..p.value]), p.rest[p.value..]))
  }

  /** Decodes into a place that holds `base`: a message's fields are merged into it. */
  function DecodeValue(k: Kind, s: bytes, base: Value): (r: Option<Parsed<Value>>)
    ensures r.Some? ==> |r.value.rest| < |s|
    decreases |s|, 0
  {
    if Packable(k) then
      match DecodeNumber(k, s) case None => None case Some(p) => Some(Parsed(Number(p.value), p.rest))
    else if !k.Message? then DecodeOctets(k, s)
    else
      match Substream(s)
      case None => None
      case Some(p) =>
        var slots := if base.Struct? && |base.slots| == |k.fields| then base.slots else Defaults(k.fields);
        match DecodeFields(k.fields, p.value, slots, {})
        case None => None
        case Some(slots') => Some(Parsed(Struct(slots'), p.rest))
  }

  /** The items of a packed array, as many as there is room for; more is an error. */
  function DecodePacked(k: Kind, s: bytes, items: seq<Value>, max: nat): Option<seq<Value>>
    requires Packable(k)
    decreases |s|
  {
    if s == [] then Some(items)
    else if |items| >= max then None
    else
      match DecodeNumber(k, s)
      case None => None
      case Some(p) => DecodePacked(k, p.rest, items + [Number(p.value)], max)
  }

  /** Setting a member of a union unsets the others. */
  function ClearUnion(fields: seq<Field>, slots: seq<seq<Value>>, i: nat): (r: seq<seq<Value>>)
    requires |slots| == |fields| && i < |fields|
    ensures |r| == |fields|
  {
    if !fields[i].rule.Oneof? then slots
    else seq(|fields|, j requires 0 <= j < |fields| =>
                         if j != i && fields[j].rule == fields[i].rule then [] else slots[j])
  }

  /** A field with index `i` was met; its value follows. */
  function DecodeField(fields: seq<Field>, i: nat, wireType: nat, s: bytes, slots: seq<seq<Value>>)
    : (r: Option<Parsed<seq<seq<Value>>>>)
    requires |slots| == |fields| && i < |fields|
    ensures r.Some? ==> |r.value.value| == |fields| && |r.value.rest| < |s|
    decreases |s|, 1
  {
    var f, items := fields[i], slots[i];
    if f.rule.Repeated? && wireType == WT_STRING && Packable(f.kind) then
      match Substream(s)
      case None => None
      case Some(p) =>
        (match DecodePacked(f.kind, p.value, items, f.rule.max)
         case None => None
         case Some(more) => Some(Parsed(slots[i := more], p.rest)))
    else if f.rule.Repeated? then
      if |items| >= f.rule.max then None
      else
        match DecodeValue(f.kind, s, Default(f.kind))
        case None => None
        case Some(p) => Some(Parsed(slots[i := items + [p.value]], p.rest))
    else
      match DecodeValue(f.kind, s, if items == [] then Default(f.kind) else items[0])
      case None => None
      case Some(p) => Some(Parsed(ClearUnion(fields, slots, i)[i := [p.value]], p.rest))
  }

  function SkipVarint(s: bytes): (r: Option<bytes>)
    ensures r.Some? ==> |r.value| < |s|
  {
    if s == [] then None else if s[0] < 128 then Some(s[1..]) else SkipVarint(s[1..])
  }

  function SkipField(wireType: nat, s: bytes): (r: Option<bytes>)
    ensures r.Some? ==> |r.value| <= |s|
  {
    if wireType == WT_VARINT then SkipVarint(s)
    else if wireType == WT_64BIT then (if |s| < 8 then None else Some(s[8..]))
    else if wireType == WT_32BIT then (if |s| < 4 then None else Some(s[4..]))
    else if wireType == WT_STRING then
      match Substream(s) case None => None case Some(p) => Some(p.rest)
    else None
  }

  function Find(fields: seq<Field>, tag: nat): (i: nat)
    ensures i <= |fields| && (i < |fields| ==> fields[i].tag == tag)
    ensures forall j :: 0 <= j < i ==> fields[j].tag != tag
  {
    if fields == [] || fields[0].tag == tag then 0 else 1 + Find(fields[1..], tag)
  }

  function Presence(r: Rule): PbFields.Presence {
    match r
    case Required => PbFields.Required
    case Repeated(_) => PbFields.Repeated
    case Oneof(_) => PbFields.Oneof
    case _ => PbFields.Optional
  }

  function Describe(f: Field): PbFields.Descriptor {
    PbFields.Descriptor(f.tag, Presence(f.rule), PbFields.Static, false, 0, 0, 0, 0)
  }

  const END := PbFields.Descriptor(0, PbFields.Required, PbFields.Static, false, 0, 0, 0, 0)

  function DescribeAll(fields: seq<Field>): (d: seq<PbFields.Descriptor>)
    ensures |d| == |fields| + 1 && d[|fields|] == END
    ensures forall i :: 0 <= i < |fields| ==> d[i] == Describe(fields[i])
  {
    if fields == [] then [END] else [Describe(fields[0])] + DescribeAll(fields[1..])
  }

  /** How many required fields come before field `n`. */
  function NumberOf(fields: seq<Field>, n: nat): nat
    requires n <= |fields|
  {
    PbFields.RequiredBefore(DescribeAll(fields), n)
  }

  /** Presence is checked for the first 64 required fields only. */
  predicate RequiredSeen(fields: seq<Field>, seen: set<nat>) {
    forall i :: 0 <= i < |fields| && fields[i].rule.Required? && NumberOf(fields, i) < PbFields.MAX_REQUIRED_FIELDS ==> i in seen
  }

  /** Fields until the end of the bytes, or until a tag of zero. */
  function DecodeFields(fields: seq<Field>, s: bytes, slots: seq<seq<Value>>, seen: set<nat>): (r: Option<seq<seq<Value>>>)
    requires |slots| == |fields|
    ensures r.Some? ==> |r.value| == |fields|
    decreases |s|, 2
  {
    if s == [] then Finished(fields, slots, seen)
    else
      match DecodeVarint32(s)
      case None => None
      case Some(t) =>
        if t.value == 0 then Finished(fields, slots, seen)
        else
          var i := Find(fields, t.value / 8);
          if i < |fields| then
            match DecodeField(fields, i, t.value % 8, t.rest, slots)
            case None => None
            case Some(p) => DecodeFields(fields, p.rest, p.value, seen + {i})
          else if fields == [] && t.value / 8 == 0 then
            // The end mark of an empty message is taken for a bool with tag zero.
            match DecodeVarint32(t.rest) case None => None case Some(p) => DecodeFields(fields, p.rest, slots, seen)
          else
            match SkipField(t.value % 8, t.rest)
            case None => None
            case Some(rest) => DecodeFields(fields, rest, slots, seen)
  }

  function Finished(fields: seq<Field>, slots: seq<seq<Value>>, seen: set<nat>): (r: Option<seq<seq<Value>>>)
    ensures r.Some? ==> r.value == slots
  {
    if RequiredSeen(fields, seen) then Some(slots) else None
  }
}
