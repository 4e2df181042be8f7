/** Blocks of a table: entries in key order, each key stored as what it adds to the one
    before, with full keys at restart points and a trailing array of their offsets. */
module Blocks {
  import opened DbFormat
  import opened Coding

  datatype Pair = Pair(key: bytes, value: bytes)

  /** The comparator, as "comes before". */
  type Before = (bytes, bytes) -> bool

  ghost predicate Transitive(lt: Before) {
    forall a, b, c :: lt(a, b) && lt(b, c) ==> lt(a, c)
  }

  ghost predicate Ascending(lt: Before, entries: seq<Pair>) {
    forall i, j :: 0 <= i < j < |entries| ==> lt(entries[i].key, entries[j].key)
  }

  // ---------------------------------------------------------------- the format

  function EntryBytes(shared: nat, delta: bytes, value: bytes): bytes {
    Varint(shared) + Varint(|delta|) + Varint(|value|) + delta + value
  }

  /** The three lengths an entry starts with, and the bytes they take. */
  datatype Header = Header(shared: nat, nonShared: nat, valueLength: nat, size: nat)

  function DecodeLengths(s: bytes): (r: Option<Header>)
    ensures r.Some? ==> 3 <= r.value.size <= |s|
  {
    match GetVarint32(s)
    case None => None
    case Some(a) =>
      match GetVarint32(a.rest)
      case None => None
      case Some(b) =>
        match GetVarint32(b.rest)
        case None => None
        case Some(c) => Some(Header(a.value, b.value, c.value, |s| - |c.rest|))
  }

  /** With a short cut for three lengths of one byte. */
  function DecodeHeader(s: bytes): (r: Option<Header>)
    ensures r.Some? ==> 3 <= r.value.size <= |s|
  {
    if |s| < 3 then None
    else if s[0] < 128 && s[1] < 128 && s[2] < 128 then Some(Header(s[0], s[1], s[2], 3))
    else DecodeLengths(s)
  }

  /** Decodes the entry at the start of `s`; the rest of the block's entries may follow. The
      source compares 32-bit words: the sum of the lengths of key rest and value loses what is
      above the word, so a header may be accepted although they reach past the end of `s`. */
  function DecodeEntry(s: bytes): (r: Option<Header>)
    ensures r.Some? ==> 3 <= r.value.size <= |s|
  {
    var h := DecodeHeader(s);
    if h == None || (|s| - h.value.size) % MAX_UINT32 < (h.value.nonShared + h.value.valueLength) % MAX_UINT32 then None
    else h
  }

  /** Key rest and value of the entry at the start of `s` end within `s`. */
  predicate EndsWithin(h: Header, s: bytes) {
    h.size + h.nonShared + h.valueLength <= |s|
  }

  /** The sum of the two lengths does not fit a word, and what is left of it fits into `s`. */
  predicate SumWraps(h: Header, s: bytes) {
    h.nonShared + h.valueLength >= MAX_UINT32 && h.size + h.nonShared + h.valueLength - MAX_UINT32 <= |s|
  }

  /** A header is accepted exactly if its entry ends within `s` or its sum wraps; an accepted
      one ends within `s` exactly if its sum does not wrap. */
  lemma AcceptedIff(s: bytes, h: Header)
    requires |s| < MAX_UINT32 && DecodeHeader(s) == Some(h)
    ensures DecodeEntry(s) == Some(h) <==> EndsWithin(h, s) || SumWraps(h, s)
    ensures DecodeEntry(s) == Some(h) ==> (EndsWithin(h, s) <==> !SumWraps(h, s))
  {
    LengthsAreWords(s);
    hide DecodeLengths;
    var sum := h.nonShared + h.valueLength;
    assert sum >= MAX_UINT32 ==> sum % MAX_UINT32 == sum - MAX_UINT32;
  }

  lemma LengthsAreWords(s: bytes)
    ensures var h := DecodeLengths(s);
      h.Some? ==> h.value.shared < MAX_UINT32 && h.value.nonShared < MAX_UINT32 && h.value.valueLength < MAX_UINT32
  {
  }

  /** Lengths of 4294967295 and 1 after a shared length of 0: their sum wraps to 0. */
  const WRAPPING: bytes := [0, 0xff, 0xff, 0xff, 0xff, 0x0f, 1]

  lemma WrappedHeaderIsAccepted()
    ensures var h := Header(0, MAX_UINT32 - 1, 1, 7);
      DecodeEntry(WRAPPING) == Some(h) && SumWraps(h, WRAPPING) && !EndsWithin(h, WRAPPING)
  {
    var s := WRAPPING;
    var lengths := Varint(0) + Varint(MAX_UINT32 - 1) + Varint(1);
    WideVarint();
    assert s == lengths + [];
    HeaderRoundTrip(0, MAX_UINT32 - 1, 1, []);
    hide DecodeHeader, Varint;
  }

  lemma WideVarint()
    ensures Varint(0) == [0] && Varint(1) == [1] && Varint(MAX_UINT32 - 1) == [0xff, 0xff, 0xff, 0xff, 0x0f]
  {
    assert Varint(15) == [0x0f];
    assert Varint(0x7ff) == [0xff, 0x0f];
    assert Varint(0x3_ffff) == [0xff, 0xff, 0x0f];
    assert Varint(0x1ff_ffff) == [0xff, 0xff, 0xff, 0x0f];
  }

  /** The short cut for one-byte lengths decodes what the general way does. */
  lemma FastPathIsGeneral(s: bytes)
    requires |s| >= 3 && s[0] < 128 && s[1] < 128 && s[2] < 128
    ensures DecodeLengths(s) == Some(Header(s[0], s[1], s[2], 3))
  {
    assert GetVarint32(s) == Some(Parsed(s[0], s[1..]));
    assert GetVarint32(s[1..]) == Some(Parsed(s[1], s[1..][1..]));
    assert s[1..][1..] == s[2..];
    assert GetVarint32(s[2..]) == Some(Parsed(s[2], s[2..][1..]));
    assert |s[2..][1..]| == |s| - 3;
  }

  lemma LengthsRoundTrip(shared: uint32, nonShared: uint32, valueLength: uint32, rest: bytes)
    ensures var s := Varint(shared) + Varint(nonShared) + Varint(valueLength);
      DecodeLengths(s + rest) == Some(Header(shared, nonShared, valueLength, |s|))
  {
    hide *;
    var x, y, z := Varint(shared), Varint(nonShared), Varint(valueLength);
    Regroup(x, y, z, rest);
    LengthsDecode(shared, nonShared, valueLength, x + y + z + rest, rest);
  }

  lemma Regroup(x: bytes, y: bytes, z: bytes, rest: bytes)
    ensures x + y + z + rest == x + (y + (z + rest))
    ensures |x + y + z + rest| - |rest| == |x + y + z|
  {
  }

  lemma LengthsDecode(shared: uint32, nonShared: uint32, valueLength: uint32, s: bytes, rest: bytes)
    requires s == Varint(shared) + (Varint(nonShared) + (Varint(valueLength) + rest))
    ensures DecodeLengths(s) == Some(Header(shared, nonShared, valueLength, |s| - |rest|))
  {
    hide GetVarint32, Varint;
    Varint32RoundTrip(shared, Varint(nonShared) + (Varint(valueLength) + rest));
    Varint32RoundTrip(nonShared, Varint(valueLength) + rest);
    Varint32RoundTrip(valueLength, rest);
  }

  lemma EntryRoundTrip(shared: nat, delta: bytes, value: bytes, rest: bytes)
    requires shared < MAX_UINT32 && |delta| + |value| + |rest| < MAX_UINT32
    ensures var b := EntryBytes(shared, delta, value);
      var size := |b| - |delta| - |value|;
      && |b| >= 3 + |delta| + |value|
      && DecodeEntry(b + rest) == Some(Header(shared, |delta|, |value|, size))
      && b[size..size + |delta|] == delta && b[size + |delta|..] == value
  {
    var lengths := Varint(shared) + Varint(|delta|) + Varint(|value|);
    assert EntryBytes(shared, delta, value) == lengths + delta + value;
    hide *;
    HeaderRoundTrip(shared, |delta|, |value|, delta + value + rest);
    EntrySlices(lengths, delta, value, rest);
    var s := EntryBytes(shared, delta, value) + rest;
    HeaderIsAccepted(s, Header(shared, |delta|, |value|, |lengths|));
  }

  lemma EntrySlices(lengths: bytes, delta: bytes, value: bytes, rest: bytes)
    ensures var b := lengths + delta + value;
      && b[|lengths|..|lengths| + |delta|] == delta && b[|lengths| + |delta|..] == value
      && b + rest == lengths + (delta + value + rest) && |b + rest| == |lengths| + |delta| + |value| + |rest|
  {
  }

  lemma HeaderIsAccepted(s: bytes, h: Header)
    requires DecodeHeader(s) == Some(h) && |s| - h.size < MAX_UINT32
    requires h.size + h.nonShared + h.valueLength <= |s|
    ensures DecodeEntry(s) == Some(h)
  {
    hide DecodeHeader;
  }

  lemma HeaderRoundTrip(shared: uint32, nonShared: uint32, valueLength: uint32, rest: bytes)
    ensures var s := Varint(shared) + Varint(nonShared) + Varint(valueLength);
      |s| >= 3 && DecodeHeader(s + rest) == Some(Header(shared, nonShared, valueLength, |s|))
  {
    LengthsRoundTrip(shared, nonShared, valueLength, rest);
    var s := Varint(shared) + Varint(nonShared) + Varint(valueLength) + rest;
    hide Varint, DecodeLengths;
    if s[0] < 128 && s[1] < 128 && s[2] < 128 {
      FastPathIsGeneral(s);
    }
  }

  /** Where everything is in a block that holds `entries`: how much of each key is shared
      with the one before, where each entry starts, and which entries are restart points. */
  datatype Layout = Layout(entries: seq<Pair>, shared: seq<nat>, offsets: seq<nat>, restarts: seq<nat>)

  ghost predicate SharedOk(l: Layout, i: nat)
    requires i < |l.entries| == |l.shared|
  {
    var key, s := l.entries[i].key, l.shared[i];
    && s <= |key|
    && (s > 0 ==> i > 0 && s <= |l.entries[i - 1].key| && key[..s] == l.entries[i - 1].key[..s])
  }

  ghost predicate EntryAt(area: bytes, l: Layout, i: nat)
    requires i < |l.entries| == |l.shared| && |l.offsets| == |l.entries| + 1
  {
    && SharedOk(l, i) && l.offsets[i] <= l.offsets[i + 1] <= |area|
    && area[l.offsets[i]..l.offsets[i + 1]] == EntryBytes(l.shared[i], l.entries[i].key[l.shared[i]..], l.entries[i].value)
  }

  ghost predicate LaidOut(area: bytes, l: Layout) {
    && |l.shared| == |l.entries| && |l.offsets| == |l.entries| + 1
    && l.offsets[0] == 0 && l.offsets[|l.entries|] == |area|
    && forall i :: 0 <= i < |l.entries| ==> EntryAt(area, l, i)
  }

  /** The first entry is a restart point even if there is none. */
  ghost predicate RestartsOk(l: Layout) {
    && |l.shared| == |l.entries| && |l.restarts| > 0 && l.restarts[0] == 0
    && (forall r, q :: 0 <= r < q < |l.restarts| ==> l.restarts[r] < l.restarts[q])
    && (forall r :: 0 < r < |l.restarts| ==> l.restarts[r] < |l.entries|)
    && forall r :: 0 <= r < |l.restarts| && l.restarts[r] < |l.entries| ==> l.shared[l.restarts[r]] == 0
  }

  /** Lengths and offsets fit the 32-bit words they are stored in. */
  ghost predicate Small(l: Layout) {
    && (forall i :: 0 <= i < |l.entries| ==> |l.entries[i].key| < MAX_UINT32 && |l.entries[i].value| < MAX_UINT32)
    && (forall i :: 0 <= i < |l.offsets| ==> l.offsets[i] < MAX_UINT32)
    && |l.restarts| < MAX_UINT32
  }

  function RestartPoint(data: bytes, restarts: nat, r: nat): nat
    requires restarts + 4 * r + 4 <= |data|
  {
    ReadFixed(data[restarts + 4 * r..restarts + 4 * r + 4])
  }

  /** `data`, whose restart array starts at `restarts`, is the block with layout `l`. */
  ghost predicate Describes(data: bytes, restarts: nat, l: Layout) {
    && restarts + 4 * |l.restarts| <= |data| && LaidOut(data[..restarts], l) && RestartsOk(l) && Small(l)
    && forall r :: 0 <= r < |l.restarts| ==> RestartPoint(data, restarts, r) == l.offsets[l.restarts[r]]
  }

  lemma {:induction false} OffsetsAscend(area: bytes, l: Layout, i: nat, j: nat)
    requires LaidOut(area, l) && i <= j <= |l.entries|
    ensures l.offsets[i] + 3 * (j - i) <= l.offsets[j] <= |area|
    decreases j - i
  {
    if i < j {
      OffsetsAscend(area, l, i + 1, j);
      EntryIsLong(area, l, i);
    } else if i < |l.entries| {
      EntryIsLong(area, l, i);
    }
  }

  lemma EntryIsLong(area: bytes, l: Layout, i: nat)
    requires LaidOut(area, l) && i < |l.entries|
    ensures l.offsets[i] + 3 <= l.offsets[i + 1] <= |area|
  {
    assert EntryAt(area, l, i);
  }
}
