/** Which 64-bit varints are taken for 32-bit values. */
module PbVarints {
  import opened DbFormat
  import opened Coding
  import opened PbDecoding
  import opened PbRoundTrip

  /** All zeros or all ones. */
  predicate Uniform(group: nat) { group == 0 || group == 127 }

  /** A number beyond 32 bits that passes for the sign extension of a negative one: the sign bits
      of both widths are set, and of each byte from the sixth on the bits are the same. Three of
      the bits in between, those of the fifth byte, are not looked at. */
  predicate PassesForNegative(v: nat) {
    && v / 0x8000_0000 % 2 == 1
    && Uniform(v / 0x8_0000_0000 % 128) && Uniform(v / 0x400_0000_0000 % 128)
    && Uniform(v / 0x2_0000_0000_0000 % 128) && Uniform(v / 0x100_0000_0000_0000 % 128)
    && v / 0x8000_0000_0000_0000 == 1
  }

  /** What is left from some bit position on, as the bytes of a varint. */
  predicate TailPasses(w: nat, bitpos: nat)
    decreases w
  {
    if w < 128 then bitpos == 63 && w == 1 else bitpos < 63 && Uniform(w % 128) && TailPasses(w / 128, bitpos + 7)
  }

  lemma TailIs(v: nat)
    requires v < MAX_UINT64
    ensures v >= MAX_UINT32 && v / 0x8000_0000 % 2 == 1 && TailPasses(v / 0x8_0000_0000, 35) <==> PassesForNegative(v)
  {
    var w := v / 0x8_0000_0000;
    var x, y, z, last := w / 128, w / 128 / 128, w / 128 / 128 / 128, w / 128 / 128 / 128 / 128;
    assert v / 0x400_0000_0000 == x && v / 0x2_0000_0000_0000 == y && v / 0x100_0000_0000_0000 == z && v / 0x8000_0000_0000_0000 == last;
    TailUnfolds(w, 35);
    TailUnfolds(x, 42);
    TailUnfolds(y, 49);
    TailUnfolds(z, 56);
    TailUnfolds(last, 63);
    hide TailPasses, Uniform;
  }

  lemma TailUnfolds(w: nat, bitpos: nat)
    ensures TailPasses(w, bitpos) ==
            if w < 128 then bitpos == 63 && w == 1 else bitpos < 63 && Uniform(w % 128) && TailPasses(w / 128, bitpos + 7)
  {
  }

  /** Beyond 32 bits nothing is added any more, and each byte is checked alone. */
  lemma {:induction false} BeyondWord(w: nat, bitpos: nat, result: nat, rest: bytes)
    requires bitpos in {35, 42, 49, 56, 63} && result < MAX_UINT32 && w > 0 && (bitpos == 63 ==> w < 2)
    requires bitpos == 56 ==> w < 256
    requires bitpos == 49 ==> w < 256 * 128
    requires bitpos == 42 ==> w < 256 * 128 * 128
    requires bitpos == 35 ==> w < 256 * 128 * 128 * 128
    ensures Varint32Rest(Varint(w) + rest, bitpos, result) ==
            if result >= 0x8000_0000 && TailPasses(w, bitpos) then Some(Parsed(result, rest)) else None
    decreases 63 - bitpos
  {
    hide Varint, Varint32Rest, Or, Shifted;
    var b: byte := if w < 128 then w else w % 128 + 128;
    VarintHead(w, rest);
    Varint32Step(Varint(w) + rest, bitpos, result);
    TailUnfolds(w, bitpos);
    hide TailPasses;
    if w >= 128 && !Overflows(b, bitpos, result) {
      BeyondWord(w / 128, bitpos + 7, result, rest);
    }
  }

  /** What decoding gives of a number. */
  function Word32(t: nat, rest: bytes): Option<Parsed<nat>> {
    if t < MAX_UINT32 || PassesForNegative(t) then Some(Parsed(t % MAX_UINT32, rest)) else None
  }

  /** The fifth byte: its upper three bits are lost, which is an error only where it is the last. */
  lemma FifthByte(v: nat, result: nat, rest: bytes)
    requires result < 0x1000_0000 && v < 0x10_0000_0000 && v > 0
    ensures Varint32Rest(Varint(v) + rest, 28, result) == Word32(result + v * 0x1000_0000, rest)
  {
    hide Varint, Varint32Rest, Joined, Shifted, PassesForNegative, TailPasses, Or;
    var b: byte := if v < 128 then v else v % 128 + 128;
    var more := result + v % 16 * 0x1000_0000;
    var t := result + v * 0x1000_0000;
    VarintHead(v, rest);
    Varint32Step(Varint(v) + rest, 28, result);
    FifthJoins(b, result);
    FifthParts(v, result);
    FifthChecks(v, b, result);
    hide Overflows, LosesBits;
    if v >= 128 {
      BeyondWord(v / 128, 35, more, rest);
      TailIs(t);
    }
  }

  lemma FifthChecks(v: nat, b: byte, result: nat)
    requires b == if v < 128 then v else v % 128 + 128
    ensures !Overflows(b, 28, result) && b % 16 == v % 16 && (v < 128 ==> (LosesBits(b, 35) <==> v / 16 != 0))
  {
    LowFour(v);
  }

  lemma LowFour(v: nat)
    ensures (v % 128 + 128) % 16 == v % 16
  {
    var q, r := v / 128, v % 128;
    assert v == 16 * (8 * q + r / 16) + r % 16;
    assert r + 128 == 16 * (8 + r / 16) + r % 16;
  }

  lemma FifthJoins(b: byte, result: nat)
    requires result < 0x1000_0000
    ensures Joined(b, 28, result) == result + b % 16 * 0x1000_0000
  {
    WordPower();
    Constants(b, 28, 0x1000_0000);
    Constants(b % 16, 28, 0x1000_0000);
    hide Pow, Or, Shifted;
    assert b % 128 * 0x1000_0000 % MAX_UINT32 == b % 16 * 0x1000_0000;
    OrDisjoint(result, 28, b % 16);
  }

  lemma FifthParts(v: nat, result: nat)
    requires result < 0x1000_0000 && v < 0x10_0000_0000
    ensures var more, t := result + v % 16 * 0x1000_0000, result + v * 0x1000_0000;
      && t < MAX_UINT64 && t % MAX_UINT32 == more && t / 0x8_0000_0000 == v / 128
      && (more >= 0x8000_0000 <==> t / 0x8000_0000 % 2 == 1)
      && (v < 128 ==> !PassesForNegative(t) && (t < MAX_UINT32 <==> v / 16 == 0))
      && (v >= 128 ==> t >= MAX_UINT32)
  {
    ByParts(v, result, 16, MAX_UINT32);
    ByParts(v, result, 8, 0x8000_0000);
    ByParts(v, result, 128, 0x8_0000_0000);
    EighthBit(v, result);
    hide PassesForNegative;
    if v < 128 { Small(result + v * 0x1000_0000); }
  }

  lemma EighthBit(v: nat, result: nat)
    requires result < 0x1000_0000
    ensures result + v % 16 * 0x1000_0000 >= 0x8000_0000 <==> v / 8 % 2 == 1
  {
    assert v % 16 == v / 8 % 2 * 8 + v % 8;
  }

  lemma ByParts(v: nat, result: nat, k: nat, m: nat)
    requires result < 0x1000_0000 && k > 0 && m == k * 0x1000_0000
    ensures (result + v * 0x1000_0000) / m == v / k && (result + v * 0x1000_0000) % m == result + v % k * 0x1000_0000
  {
    var q := v / k;
    Associates(q, k, 0x1000_0000);
    assert v == q * k + v % k;
    Divided(result + v * 0x1000_0000, m, q, result + v % k * 0x1000_0000);
  }

  lemma Small(t: nat)
    requires t < 0x8_0000_0000
    ensures !PassesForNegative(t)
  {
    assert t / 0x8000_0000_0000_0000 == 0;
    hide Uniform;
  }

  lemma Divided(t: nat, m: nat, q: nat, r: nat)
    requires t == r + q * m && r < m
    ensures t / m == q && t % m == r
  {
    if t / m < q { Product(m, t / m + 1, q); } else if t / m > q { Product(m, q + 1, t / m); }
  }

  lemma Product(m: nat, a: nat, b: nat)
    requires a <= b
    ensures m * a <= m * b
  {
  }

  /** The value of a number whose first bits have been read. */
  function Whole(v: nat, bitpos: nat, result: nat): nat { result + Shifted(v, bitpos) }

  lemma {:induction false} RestIs(v: nat, bitpos: nat, result: nat, rest: bytes)
    requires bitpos in {7, 14, 21, 28} && result < Pow(2, bitpos) && v > 0 && Whole(v, bitpos, result) < MAX_UINT64
    ensures Varint32Rest(Varint(v) + rest, bitpos, result) == Word32(Whole(v, bitpos, result), rest)
    decreases 35 - bitpos
  {
    hide Varint, Varint32Rest, Joined, Or, Pow, Shifted, PassesForNegative;
    WordPower();
    if bitpos == 28 {
      Constants(v, 28, 0x1000_0000);
      FifthByte(v, result, rest);
    } else {
      var b: byte := if v < 128 then v else v % 128 + 128;
      VarintHead(v, rest);
      Varint32Step(Varint(v) + rest, bitpos, result);
      Splits(v, bitpos, result);
      JoinedIs(b, bitpos, result);
      if v >= 128 {
        RestIs(v / 128, bitpos + 7, result + Shifted(v % 128, bitpos), rest);
      }
    }
  }

  lemma Splits(v: nat, bitpos: nat, result: nat)
    requires bitpos in {7, 14, 21} && result < Pow(2, bitpos)
    ensures result + Shifted(v % 128, bitpos) < Pow(2, bitpos + 7) < MAX_UINT32
    ensures v < 128 ==> v % 128 == v
    ensures v >= 128 ==> Whole(v / 128, bitpos + 7, result + Shifted(v % 128, bitpos)) == Whole(v, bitpos, result)
  {
    WordPower();
    if bitpos == 7 { Constants(v, 7, 0x80); Constants(v / 128, 14, 0x4000); }
    else if bitpos == 14 { Constants(v, 14, 0x4000); Constants(v / 128, 21, 0x20_0000); }
    else { Constants(v, 21, 0x20_0000); Constants(v / 128, 28, 0x1000_0000); }
    hide Pow, Shifted;
  }

  /** Of all 64-bit numbers, exactly those of 32 bits and those that pass for the sign extension
      of a negative one are read as 32-bit values, cut to their low 32 bits. */
  lemma Decodes32Iff(v: uint64, rest: bytes)
    ensures DecodeVarint32(Varint(v) + rest) ==
            if v < MAX_UINT32 || PassesForNegative(v) then Some(Parsed(v % MAX_UINT32, rest)) else None
  {
    if v < 128 {
      Varint32RoundTrips(v, rest);
    } else {
      hide Varint32Rest, Varint, PassesForNegative, Shifted, Pow;
      VarintHead(v, rest);
      WordPower();
      Constants(v / 128, 7, 0x80);
      RestIs(v / 128, 7, v % 128, rest);
    }
  }

  /** A negative 32-bit number, written in ten bytes as its 64-bit form, reads as its word. */
  lemma NegativeReads(n: int, rest: bytes)
    requires -0x8000_0000 <= n < 0
    ensures DecodeVarint32(Varint(n + MAX_UINT64) + rest) == Some(Parsed(n + MAX_UINT32, rest))
  {
    hide DecodeVarint32, Varint;
    Decodes32Iff(n + MAX_UINT64, rest);
    var v := n + MAX_UINT64;
    assert v % MAX_UINT32 == n + MAX_UINT32;
  }
}
