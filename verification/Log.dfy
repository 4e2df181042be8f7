/** The log format: records cut into fragments that never cross a 32 KB block. */
module Logs {
  import opened Coding

  const BLOCK := 32768
  const HEADER := 7

  const ZERO := 0
  const FULL := 1
  const FIRST := 2
  const MIDDLE := 3
  const LAST := 4

  /** What reading a fragment gives besides the types above. */
  const EOF := 5
  const BAD := 6

  /** The checksum of some bytes. Nothing here depends on how it is computed. */
  type Crc = bytes -> uint32

  const MASK_DELTA := 0xa282ead8

  /** Rotates right by 15 bits and adds a constant. */
  function Mask(crc: uint32): uint32 {
    (crc / 0x8000 + crc % 0x8000 * 0x2_0000 + MASK_DELTA) % MAX_UINT32
  }

  function Unmask(masked: uint32): uint32 {
    var rot := (masked - MASK_DELTA) % MAX_UINT32;
    rot / 0x2_0000 + rot % 0x2_0000 * 0x8000
  }

  lemma UnmaskMask(crc: uint32)
    ensures Unmask(Mask(crc)) == crc
  {
    var high, low := crc / 0x8000, crc % 0x8000;
    var rot := high + low * 0x2_0000;
    Unshifted(rot);
    assert rot / 0x2_0000 == low && rot % 0x2_0000 == high;
  }

  lemma Unshifted(rot: uint32)
    ensures ((rot + MASK_DELTA) % MAX_UINT32 - MASK_DELTA) % MAX_UINT32 == rot
  {
  }

  // ---------------------------------------------------------------- writing

  /** The bytes of one fragment. */
  function Physical(crc: Crc, typ: byte, payload: bytes): (b: bytes)
    requires |payload| < 0x1_0000
    ensures |b| == HEADER + |payload|
  {
    Fixed(Mask(crc([typ] + payload)), 4) + [|payload| % 256, |payload| / 256, typ] + payload
  }

  /** The rest of a block that is too short for a header is left empty. */
  function Pad(at: nat): nat {
    if BLOCK - at % BLOCK < HEADER then BLOCK - at % BLOCK else 0
  }

  /** Room for payload in the first fragment written at `at`. */
  function Avail(at: nat): (n: nat)
    ensures n + HEADER <= BLOCK
  {
    BLOCK - (at + Pad(at)) % BLOCK - HEADER
  }

  function FragmentType(begin: bool, end: bool): byte {
    if begin && end then FULL else if begin then FIRST else if end then LAST else MIDDLE
  }

  function Min(a: nat, b: nat): nat { if a < b then a else b }

  /** The first fragment of what is left of a record, with the padding before it. */
  function FirstFragment(crc: Crc, at: nat, data: bytes, begin: bool): (b: bytes)
    ensures |b| == Pad(at) + HEADER + Min(|data|, Avail(at))
  {
    var n := Min(|data|, Avail(at));
    Zeros(Pad(at)) + Physical(crc, FragmentType(begin, n == |data|), data[..n])
  }

  /** What a record, or the rest of one, becomes in a file that is `at` bytes long. A
      fragment is empty if the header just fills the block; then the next one is not. */
  ghost function Encode(crc: Crc, at: nat, data: bytes, begin: bool): bytes
    decreases |data|, if Avail(at) == 0 then 1 else 0
  {
    var n := Min(|data|, Avail(at));
    FirstFragment(crc, at, data, begin) +
    if n == |data| then [] else Encode(crc, at + Pad(at) + HEADER + n, data[n..], false)
  }

  ghost function EncodeAll(crc: Crc, at: nat, records: seq<bytes>): bytes
    decreases records
  {
    if records == [] then []
    else var b := Encode(crc, at, records[0], true); b + EncodeAll(crc, at + |b|, records[1..])
  }

  class Writer {
    const crc: Crc
    var dest: bytes
    var blockOffset: nat

    /** Appends to a file that may hold something already. */
    constructor (crc: Crc, dest: bytes)
      ensures Valid() && this.dest == dest && this.crc == crc
    {
      this.crc := crc;
      this.dest := dest;
      blockOffset := |dest| % BLOCK;
    }

    ghost predicate Valid()
      reads this
    {
      blockOffset <= BLOCK && blockOffset % BLOCK == |dest| % BLOCK
    }

    method AddRecord(record: bytes)
      requires Valid()
      modifies this
      ensures Valid()
      ensures dest == old(dest) + Encode(crc, |old(dest)|, record, true)
    {
      hide Encode, FirstFragment, Physical, Pad, Avail, Fixed, Zeros;
      var left := record;
      var begin := true;
      while true
        invariant Valid()
        invariant dest + Encode(crc, |dest|, left, begin) == old(dest) + Encode(crc, |old(dest)|, record, true)
        decreases |left|, if Avail(|dest|) == 0 then 1 else 0
      {
        ghost var was := dest;
        var leftover := BLOCK - blockOffset;
        if leftover < HEADER {
          dest := dest + Zeros(leftover);
          blockOffset := 0;
        }
        PadIsLeftover(|was|, leftover);
        var avail := BLOCK - blockOffset - HEADER;
        var length := Min(|left|, avail);
        var end := |left| == length;
        EmitPhysicalRecord(FragmentType(begin, end), left[..length]);
        FragmentIs(crc, was, left, begin, dest);
        EncodeStep(crc, was, left, begin);
        EmptyOnce(|was|, |dest|, length);
        left := left[length..];
        begin := false;
        if left == [] {
          return;
        }
      }
    }

    method EmitPhysicalRecord(typ: byte, payload: bytes)
      requires Valid() && blockOffset + HEADER + |payload| <= BLOCK
      modifies this
      ensures Valid() && dest == old(dest) + Physical(crc, typ, payload)
      ensures blockOffset == old(blockOffset) + HEADER + |payload|
    {
      hide Fixed, Mask;
      var header := Fixed(Mask(crc([typ] + payload)), 4) + [|payload| % 256, |payload| / 256, typ];
      ghost var was := dest;
      SameOffset(blockOffset, |dest|, HEADER + |payload|);
      dest := dest + header;
      dest := dest + payload;
      assert dest == was + (header + payload);
      blockOffset := blockOffset + HEADER + |payload|;
    }
  }

  lemma SameOffset(a: nat, b: nat, n: nat)
    requires a % BLOCK == b % BLOCK
    ensures (a + n) % BLOCK == (b + n) % BLOCK
  {
  }

  lemma PadIsLeftover(at: nat, leftover: nat)
    requires leftover <= BLOCK && (BLOCK - leftover) % BLOCK == at % BLOCK
    ensures Pad(at) == if leftover < HEADER then leftover else 0
    ensures Avail(at) == if leftover < HEADER then BLOCK - HEADER else leftover - HEADER
  {
    assert at % BLOCK == if leftover == 0 then 0 else BLOCK - leftover;
    if leftover < HEADER {
      assert (at + Pad(at)) % BLOCK == 0;
    } else {
      assert Pad(at) == 0;
    }
  }

  /** After an empty fragment a whole block is free. */
  lemma EmptyOnce(at: nat, next: nat, n: nat)
    requires next == at + Pad(at) + HEADER + n && n <= Avail(at)
    ensures Avail(at) == 0 ==> Avail(next) > 0
  {
  }

  lemma FragmentIs(crc: Crc, was: bytes, data: bytes, begin: bool, dest: bytes)
    requires var n := Min(|data|, Avail(|was|));
      dest == (if Pad(|was|) > 0 then was + Zeros(Pad(|was|)) else was) + Physical(crc, FragmentType(begin, |data| == n), data[..n])
    ensures dest == was + FirstFragment(crc, |was|, data, begin)
    ensures |dest| == |was| + Pad(|was|) + HEADER + Min(|data|, Avail(|was|))
  {
    hide Physical, Pad;
  }

  lemma EncodeUnfolds(crc: Crc, at: nat, data: bytes, begin: bool)
    ensures var n := Min(|data|, Avail(at));
      Encode(crc, at, data, begin) == FirstFragment(crc, at, data, begin) +
        if n == |data| then [] else Encode(crc, at + Pad(at) + HEADER + n, data[n..], false)
  {
    hide Physical, Pad, Avail, FirstFragment;
  }

  lemma EncodeStep(crc: Crc, dest: bytes, data: bytes, begin: bool)
    ensures var n := Min(|data|, Avail(|dest|));
      var more := dest + FirstFragment(crc, |dest|, data, begin);
      dest + Encode(crc, |dest|, data, begin) ==
      if n == |data| then more else more + Encode(crc, |more|, data[n..], false)
  {
    hide Physical, Pad, Avail, FirstFragment, Encode;
    EncodeUnfolds(crc, |dest|, data, begin);
    var first := FirstFragment(crc, |dest|, data, begin);
    assert |dest + first| == |dest| + |first|;
  }
}
