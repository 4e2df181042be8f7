/** Bytes and the integer codings the file formats share. */
module Coding {
  import opened DbFormat

  type byte = x: int | 0 <= x < 256
  type bytes = seq<byte>

  const MAX_UINT32 := 0x1_0000_0000
  const MAX_UINT64 := 0x1_0000_0000_0000_0000
  type uint32 = x: int | 0 <= x < MAX_UINT32
  type uint64 = x: int | 0 <= x < MAX_UINT64

  // ---------------------------------------------------------------- fixed width

  /** The `n` low bytes of `v`, the least significant first. */
  function Fixed(v: nat, n: nat): (b: bytes)
    ensures |b| == n
  {
    if n == 0 then [] else [v % 256] + Fixed(v / 256, n - 1)
  }

  function ReadFixed(s: bytes): nat {
    if s == [] then 0 else s[0] + 256 * ReadFixed(s[1..])
  }

  function Pow(b: nat, n: nat): nat {
    if n == 0 then 1 else b * Pow(b, n - 1)
  }

  lemma {:induction false} FixedRoundTrip(v: nat, n: nat)
    requires v < Pow(256, n)
    ensures ReadFixed(Fixed(v, n)) == v
  {
    if n > 0 {
      FixedRoundTrip(v / 256, n - 1);
      assert Fixed(v, n)[1..] == Fixed(v / 256, n - 1);
    }
  }

  lemma Fixed32Fits()
    ensures Pow(256, 4) == MAX_UINT32 && Pow(256, 8) == MAX_UINT64
  {
    assert Pow(256, 0) == 1 && Pow(256, 1) == 256 && Pow(256, 2) == 0x1_0000 && Pow(256, 3) == 0x100_0000;
    assert Pow(256, 5) == 0x100_0000_0000 && Pow(256, 6) == 0x1_0000_0000_0000 && Pow(256, 7) == 0x100_0000_0000_0000;
  }

  lemma {:induction false} ReadFixedFits(s: bytes)
    ensures ReadFixed(s) < Pow(256, |s|)
  {
    if s != [] { ReadFixedFits(s[1..]); }
  }

  lemma StoredFits(s: bytes)
    requires |s| == 4
    ensures ReadFixed(s) < MAX_UINT32
  {
    hide ReadFixed;
    ReadFixedFits(s);
    Fixed32Fits();
  }

  function Zeros(n: nat): (b: bytes)
    ensures |b| == n
  {
    seq(n, _ => 0)
  }

  lemma SliceOfSlice(s: bytes, i: nat, j: nat, a: nat, b: nat)
    requires i <= j <= |s| && a <= b <= j - i
    ensures s[i..j][a..b] == s[i + a..i + b]
  {
    assert forall k :: a <= k < b ==> s[i..j][k] == s[i + k];
  }

  // ---------------------------------------------------------------- varints

  /** Seven bits a byte, low bits first; all bytes but the last have their high bit set. */
  function Varint(v: nat): (b: bytes)
    ensures |b| >= 1
  {
    if v < 128 then [v] else [v % 128 + 128] + Varint(v / 128)
  }

  /** The number at the start of `s`, read from at most `n` bytes, and how many it takes. */
  function ReadVarint(s: bytes, n: nat): (r: Option<(nat, nat)>)
    ensures r.Some? ==> 1 <= r.value.1 <= n && r.value.1 <= |s|
  {
    if n == 0 || s == [] then None
    else if s[0] < 128 then Some((s[0], 1))
    else match ReadVarint(s[1..], n - 1)
      case None => None
      case Some(p) => Some((s[0] - 128 + 128 * p.0, p.1 + 1))
  }

  lemma {:induction false} VarintRoundTrip(v: nat, n: nat, rest: bytes)
    requires n > 0 && v < Pow(128, n)
    ensures ReadVarint(Varint(v) + rest, n) == Some((v, |Varint(v)|))
  {
    if v >= 128 {
      assert n > 1 by { assert Pow(128, 1) == 128 * Pow(128, 0); }
      VarintRoundTrip(v / 128, n - 1, rest);
      assert (Varint(v) + rest)[1..] == Varint(v / 128) + rest;
    }
  }

  lemma Varint32Fits()
    ensures MAX_UINT32 <= Pow(128, 5) && MAX_UINT64 <= Pow(128, 10)
  {
    assert Pow(128, 2) == 0x4000 && Pow(128, 3) == 0x20_0000 && Pow(128, 4) == 0x1000_0000;
    assert Pow(128, 5) == 0x8_0000_0000 && Pow(128, 6) == 0x400_0000_0000 && Pow(128, 7) == 0x2_0000_0000_0000;
    assert Pow(128, 8) == 0x100_0000_0000_0000 && Pow(128, 9) == 0x8000_0000_0000_0000;
    assert Pow(128, 10) == 0x40_0000_0000_0000_0000;
  }

  /** A cursor at the front of some bytes: what is left after reading from them. */
  datatype Parsed<+T> = Parsed(value: T, rest: bytes)

  /** The source shifts each group into a 32-bit word, so what a fifth byte has above the
      word is lost. */
  function GetVarint32(s: bytes): (r: Option<Parsed<nat>>)
    ensures r.Some? ==> r.value.value < MAX_UINT32 && |r.value.rest| < |s|
  {
    match ReadVarint(s, 5)
    case None => None
    case Some(p) => Some(Parsed(p.0 % MAX_UINT32, s[p.1..]))
  }

  function GetVarint64(s: bytes): (r: Option<Parsed<nat>>)
    ensures r.Some? ==> r.value.value < MAX_UINT64 && |r.value.rest| < |s|
  {
    match ReadVarint(s, 10)
    case None => None
    case Some(p) => Some(Parsed(p.0 % MAX_UINT64, s[p.1..]))
  }

  function PutLengthPrefixed(b: bytes): bytes {
    Varint(|b|) + b
  }

  function GetLengthPrefixed(s: bytes): (r: Option<Parsed<bytes>>)
    ensures r.Some? ==> |r.value.rest| < |s|
  {
    match GetVarint32(s)
    case None => None
    case Some(p) =>
      if |p.rest| >= p.value then Some(Parsed(p.rest[..p.value], p.rest[p.value..])) else None
  }

  lemma Varint32RoundTrip(v: uint32, rest: bytes)
    ensures GetVarint32(Varint(v) + rest) == Some(Parsed(v, rest))
  {
    hide Pow, Varint, ReadVarint;
    Varint32Fits();
    VarintRoundTrip(v, 5, rest);
    assert (Varint(v) + rest)[|Varint(v)|..] == rest;
  }

  lemma Varint64RoundTrip(v: uint64, rest: bytes)
    ensures GetVarint64(Varint(v) + rest) == Some(Parsed(v, rest))
  {
    hide Pow, Varint, ReadVarint;
    Varint32Fits();
    VarintRoundTrip(v, 10, rest);
    assert (Varint(v) + rest)[|Varint(v)|..] == rest;
  }

  lemma LengthPrefixedRoundTrip(b: bytes, rest: bytes)
    requires |b| < MAX_UINT32
    ensures GetLengthPrefixed(PutLengthPrefixed(b) + rest) == Some(Parsed(b, rest))
  {
    assert PutLengthPrefixed(b) + rest == Varint(|b|) + (b + rest);
    Varint32RoundTrip(|b|, b + rest);
  }

  // ---------------------------------------------------------------- the loops

  /** The writer of a varint: while more than seven bits are left it emits the low seven. */
  method EncodeVarint64(v: nat) returns (b: bytes)
    ensures b == Varint(v)
  {
    b := [];
    var left := v;
    while left >= 128
      invariant left >= 0 && b + Varint(left) == Varint(v)
    {
      ghost var was := b;
      assert Varint(left) == [left % 128 + 128] + Varint(left / 128);
      b := b + [left % 128 + 128];
      assert b + Varint(left / 128) == was + Varint(left);
      left := left / 128;
    }
    assert Varint(left) == [left];
    b := b + [left];
  }

  /** A number read from the bytes `s[p..]` continues one whose low part is `low`. */
  ghost function Continued(low: nat, scale: nat, p: nat, r: Option<(nat, nat)>): Option<(nat, nat)> {
    match r
    case None => None
    case Some(v) => Some((low + scale * v.0, p + v.1))
  }

  lemma ContinuedByOne(s: bytes, p: nat, n: nat, low: nat, scale: nat)
    requires p < |s| && n > 0 && s[p] >= 128
    ensures Continued(low, scale, p, ReadVarint(s[p..], n)) ==
            Continued(low + scale * (s[p] - 128), scale * 128, p + 1, ReadVarint(s[p + 1..], n - 1))
  {
    assert s[p..][1..] == s[p + 1..];
    var r := ReadVarint(s[p + 1..], n - 1);
    if r.Some? {
      var v, c := r.value.0, s[p] - 128;
      calc {
        low + scale * (c + 128 * v);
      == { Distributes(scale, c, 128 * v); }
        low + scale * c + scale * (128 * v);
      == { Associates(scale, 128, v); }
        low + scale * c + scale * 128 * v;
      }
    }
  }

  lemma Distributes(a: int, b: int, c: int)
    ensures a * (b + c) == a * b + a * c
  {
  }

  lemma Associates(a: int, b: int, c: int)
    ensures a * (b * c) == a * b * c
  {
  }

  /** The reader of a varint of at most `n` bytes, before its word drops high bits. */
  method GetVarintPtr(s: bytes, n: nat) returns (r: Option<(nat, nat)>)
    ensures r == ReadVarint(s, n)
  {
    hide ReadVarint, Continued;
    var result: nat, scale: nat, p: nat := 0, 1, 0;
    ContinuedFromStart(s, n);
    while p < n && p < |s|
      invariant p <= n && p <= |s|
      invariant ReadVarint(s, n) == Continued(result, scale, p, ReadVarint(s[p..], n - p))
    {
      var b := s[p];
      if b >= 128 {
        ContinuedByOne(s, p, n - p, result, scale);
        Scaled(scale, b - 128);
        result, scale, p := result + scale * (b - 128), scale * 128, p + 1;
      } else {
        ContinuedToEnd(s, p, n - p, result, scale);
        Scaled(scale, b);
        return Some((result + scale * b, p + 1));
      }
    }
    ContinuedToNothing(s, p, n - p, result, scale);
    return None;
  }

  lemma ContinuedFromStart(s: bytes, n: nat)
    ensures Continued(0, 1, 0, ReadVarint(s[0..], n - 0)) == ReadVarint(s, n)
  {
    hide ReadVarint;
    assert s[0..] == s;
  }

  lemma ContinuedToEnd(s: bytes, p: nat, n: nat, low: nat, scale: nat)
    requires p < |s| && n > 0 && s[p] < 128
    ensures Continued(low, scale, p, ReadVarint(s[p..], n)) == Some((low + scale * s[p], p + 1))
  {
    assert s[p..][0] == s[p];
  }

  lemma ContinuedToNothing(s: bytes, p: nat, n: nat, low: nat, scale: nat)
    requires p <= |s| && (n == 0 || p == |s|)
    ensures Continued(low, scale, p, ReadVarint(s[p..], n)) == None
  {
  }

  lemma Scaled(scale: nat, b: nat)
    ensures scale * b >= 0
  {
  }
}
