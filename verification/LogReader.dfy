/** Reading a log back, from its start. */
module LogReaders {
  import opened DbFormat
  import opened Coding
  import opened Logs

  /** How far the file has been used: bytes before `at` are consumed, bytes before `end` are
      in the buffer or consumed. */
  datatype Cursor = Cursor(at: nat, end: nat, eof: bool)

  /** One fragment, or `EOF` or `BAD`, and what was reported as dropped on the way. */
  datatype Fragment = Fragment(typ: nat, payload: bytes, next: Cursor, drops: seq<nat>)

  datatype Outcome = Outcome(record: Option<bytes>, next: Cursor, drops: seq<nat>)

  predicate Fits(file: bytes, c: Cursor) {
    c.at <= c.end <= |file|
  }

  function Refilled(file: bytes, c: Cursor): (r: Cursor)
    requires Fits(file, c)
    ensures Fits(file, r) && r.at == c.end
  {
    var got := Min(BLOCK, |file| - c.end);
    Cursor(c.end, c.end + got, got < BLOCK)
  }

  function PayloadLength(file: bytes, at: nat): nat
    requires at + HEADER <= |file|
  {
    TwoBytes(file[at + 4], file[at + 5])
  }

  function TwoBytes(low: nat, high: nat): nat { low + 256 * high }

  /** The fragment whose header is in the buffer. A header that points past the buffer is a
      fragment the writer did not finish if the file ends there. */
  function ParseFragment(crc: Crc, checksum: bool, file: bytes, c: Cursor): (r: Fragment)
    requires Fits(file, c) && c.end - c.at >= HEADER
    ensures Fits(file, r.next) && (r.typ != EOF ==> c.at < r.next.at)
  {
    var left, length, typ := c.end - c.at, PayloadLength(file, c.at), file[c.at + 6];
    var dropped := c.(at := c.end);
    if HEADER + length > left then
      if c.eof then Fragment(EOF, [], dropped, []) else Fragment(BAD, [], dropped, [left])
    else if typ == ZERO && length == 0 then Fragment(BAD, [], dropped, [])
    else if checksum && crc(file[c.at + 6..c.at + HEADER + length]) != Unmask(Stored(file, c.at)) then
      Fragment(BAD, [], dropped, [left])
    else
      Fragment(typ, file[c.at + HEADER..c.at + HEADER + length], c.(at := c.at + HEADER + length), [])
  }

  /** A whole fragment is buffered, and its checksum is right or not looked at. */
  predicate Intact(crc: Crc, checksum: bool, file: bytes, d: Cursor)
    requires Fits(file, d)
  {
    && d.end - d.at >= HEADER && HEADER + PayloadLength(file, d.at) <= d.end - d.at
    && (checksum ==> crc(file[d.at + 6..d.at + HEADER + PayloadLength(file, d.at)]) == Unmask(Stored(file, d.at)))
  }

  /** A fragment depends on the buffered bytes only. */
  lemma FragmentOfBytes(crc: Crc, checksum: bool, file: bytes, c: Cursor, b: bytes)
    requires Fits(file, c) && c.end - c.at >= HEADER && b == file[c.at..c.end]
    ensures |b[..4]| == 4 && ReadFixed(b[..4]) < MAX_UINT32
    ensures var length := TwoBytes(b[4], b[5]);
      ParseFragment(crc, checksum, file, c) ==
      if HEADER + length > |b| then
        if c.eof then Fragment(EOF, [], c.(at := c.end), []) else Fragment(BAD, [], c.(at := c.end), [|b|])
      else if b[6] == ZERO && length == 0 then Fragment(BAD, [], c.(at := c.end), [])
      else if checksum && crc(b[6..HEADER + length]) != Unmask(ReadFixed(b[..4])) then Fragment(BAD, [], c.(at := c.end), [|b|])
      else Fragment(b[6], b[HEADER..HEADER + length], c.(at := c.at + HEADER + length), [])
  {
    StoredFits(b[..4]);
    SliceOfSlice(file, c.at, c.end, 0, 4);
    var length := TwoBytes(b[4], b[5]);
    assert b[4] == file[c.at + 4] && b[5] == file[c.at + 5] && b[6] == file[c.at + 6];
    hide ReadFixed, Unmask, TwoBytes;
    if HEADER + length <= |b| {
      SliceOfSlice(file, c.at, c.end, 6, HEADER + length);
      SliceOfSlice(file, c.at, c.end, HEADER, HEADER + length);
    }
  }

  function Stored(file: bytes, at: nat): uint32
    requires at + HEADER <= |file|
  {
    StoredFits(file[at..at + 4]);
    ReadFixed(file[at..at + 4])
  }

  function NextFragment(crc: Crc, checksum: bool, file: bytes, c: Cursor): (r: Fragment)
    requires Fits(file, c)
    ensures Fits(file, r.next) && c.at <= r.next.at && (r.typ != EOF ==> c.at < r.next.at)
    decreases !c.eof, if c.end - c.at < HEADER then 1 else 0
  {
    if c.end - c.at >= HEADER then ParseFragment(crc, checksum, file, c)
    else if !c.eof then NextFragment(crc, checksum, file, Refilled(file, c))
    else Fragment(EOF, [], c.(at := c.end), [])
  }

  lemma NextFragmentStep(crc: Crc, checksum: bool, file: bytes, c: Cursor)
    requires Fits(file, c)
    ensures NextFragment(crc, checksum, file, c) ==
            if c.end - c.at >= HEADER then ParseFragment(crc, checksum, file, c)
            else if !c.eof then NextFragment(crc, checksum, file, Refilled(file, c))
            else Fragment(EOF, [], c.(at := c.end), [])
  {
    hide ParseFragment;
  }

  /** Puts a record together from fragments. `partial` is what was gathered of a record whose
      first fragment was seen. */
  function NextRecord(crc: Crc, checksum: bool, file: bytes, c: Cursor, partial: Option<bytes>): (r: Outcome)
    requires Fits(file, c)
    ensures Fits(file, r.next) && c.at <= r.next.at && (r.record.Some? ==> c.at < r.next.at)
    decreases |file| - c.at
  {
    var f := NextFragment(crc, checksum, file, c);
    var broken := if partial.Some? && partial.value != [] then [|partial.value|] else [];
    if f.typ == FULL then Outcome(Some(f.payload), f.next, f.drops + broken)
    else if f.typ == LAST && partial.Some? then Outcome(Some(partial.value + f.payload), f.next, f.drops)
    else if f.typ == EOF then Outcome(None, f.next, f.drops)
    else
      var step := Gathered(f, partial);
      var more := NextRecord(crc, checksum, file, f.next, step.0);
      more.(drops := f.drops + step.1 + more.drops)
  }

  /** What a fragment that does not end a record does to the record being put together, and
      what is reported. */
  function Gathered(f: Fragment, partial: Option<bytes>): (Option<bytes>, seq<nat>) {
    var size := if partial.Some? then |partial.value| else 0;
    if f.typ == FIRST then (Some(f.payload), if size > 0 then [size] else [])
    else if f.typ == MIDDLE && partial.Some? then (Some(partial.value + f.payload), [])
    else if f.typ == MIDDLE || f.typ == LAST then (None, [|f.payload|])
    else if f.typ == BAD then (None, if partial.Some? then [size] else [])
    else (None, [|f.payload| + size])
  }

  /** All the records a log holds, and all that was reported as dropped. */
  ghost function ReadAll(crc: Crc, checksum: bool, file: bytes, c: Cursor): (seq<bytes>, seq<nat>)
    requires Fits(file, c)
    decreases |file| - c.at
  {
    var r := NextRecord(crc, checksum, file, c, None);
    if r.record == None then ([], r.drops)
    else var more := ReadAll(crc, checksum, file, r.next); ([r.record.value] + more.0, r.drops + more.1)
  }

  class Reader {
    const crc: Crc
    const checksum: bool
    const file: bytes
    var pos: nat
    var buffer: bytes
    var eof: bool
    /** What the reporter was told. */
    var drops: seq<nat>

    constructor (crc: Crc, checksum: bool, file: bytes)
      ensures Valid() && At() == Cursor(0, 0, false) && drops == []
      ensures this.crc == crc && this.checksum == checksum && this.file == file
    {
      this.crc, this.checksum, this.file := crc, checksum, file;
      pos, buffer, eof, drops := 0, [], false, [];
    }

    ghost predicate Valid()
      reads `pos, `buffer
    {
      |buffer| <= pos <= |file| && buffer == file[pos - |buffer|..pos]
    }

    ghost function At(): (c: Cursor)
      reads `pos, `buffer, `eof
      requires Valid()
      ensures Fits(file, c) && c.at <= |file|
    {
      Cursor(pos - |buffer|, pos, eof)
    }

    method ReadPhysicalRecord() returns (typ: nat, result: bytes)
      requires Valid()
      modifies this
      ensures Valid()
      ensures var f := NextFragment(crc, checksum, file, old(At()));
        typ == f.typ && At() == f.next && drops == old(drops) + f.drops && (typ != EOF && typ != BAD ==> result == f.payload)
    {
      hide ParseFragment, NextFragment, Valid, At, Fits, Refilled;
      while |buffer| < HEADER
        invariant Valid() && drops == old(drops)
        invariant NextFragment(crc, checksum, file, At()) == NextFragment(crc, checksum, file, old(At()))
        decreases !eof, if |buffer| < HEADER then 1 else 0
      {
        AtIsBuffer();
        NextFragmentStep(crc, checksum, file, At());
        if !eof {
          FillBuffer();
        } else {
          ClearBuffer();
          return EOF, [];
        }
      }
      AtIsBuffer();
      NextFragmentStep(crc, checksum, file, At());
      typ, result := ParseHeader();
    }

    lemma AtIsBuffer()
      requires Valid()
      ensures Fits(file, At()) && At().end - At().at == |buffer| && At().eof == eof
    {
    }

    method FillBuffer()
      requires Valid() && !eof
      modifies `pos, `buffer, `eof
      ensures Valid() && At() == Refilled(file, old(At())) && (eof || |buffer| >= HEADER)
    {
      var got := Min(BLOCK, |file| - pos);
      buffer := file[pos..pos + got];
      pos := pos + got;
      if |buffer| < BLOCK {
        eof := true;
      }
    }

    method ClearBuffer()
      requires Valid()
      modifies `buffer
      ensures Valid() && At() == old(At()).(at := old(At()).end)
    {
      buffer := [];
    }

    method RemovePrefix(n: nat)
      requires Valid() && n <= |buffer|
      modifies `buffer
      ensures Valid() && At() == old(At()).(at := old(At()).at + n)
    {
      buffer := buffer[n..];
    }

    /** The part of `ReadPhysicalRecord` after its buffer holds a header. */
    method ParseHeader() returns (typ: nat, result: bytes)
      requires Valid() && |buffer| >= HEADER
      modifies `buffer, `drops
      ensures Valid()
      ensures var f := ParseFragment(crc, checksum, file, old(At()));
        typ == f.typ && At() == f.next && drops == old(drops) + f.drops && (typ != EOF && typ != BAD ==> result == f.payload)
    {
      AtIsBuffer();
      BufferHasFragment();
      hide ReadFixed, Unmask, StoredCrc, Valid, At, Fits, ParseFragment;
      result := [];
      var length := TwoBytes(buffer[4], buffer[5]);
      typ := buffer[6];
      var size := |buffer|;
      if HEADER + length > |buffer| {
        ClearBuffer();
        if !eof {
          drops := drops + [size];
          typ := BAD;
        } else {
          typ := EOF;
        }
      } else if typ == ZERO && length == 0 {
        ClearBuffer();
        typ := BAD;
      } else if checksum && crc(buffer[6..HEADER + length]) != StoredCrc() {
        ClearBuffer();
        drops := drops + [size];
        typ := BAD;
      } else {
        result := buffer[HEADER..HEADER + length];
        RemovePrefix(HEADER + length);
      }
    }

    function StoredCrc(): uint32
      requires |buffer| >= HEADER
      reads this
    {
      StoredFits(buffer[..4]);
      Unmask(ReadFixed(buffer[..4]))
    }

    method ReportCorruption(size: nat)
      modifies `drops
      ensures drops == old(drops) + [size]
    {
      drops := drops + [size];
    }

    /** The fragment at the cursor, from the buffer alone. */
    lemma BufferHasFragment()
      requires Valid() && |buffer| >= HEADER
      ensures Fits(file, At()) && At().end - At().at == |buffer|
      ensures var length, c := TwoBytes(buffer[4], buffer[5]), At();
        ParseFragment(crc, checksum, file, c) ==
        if HEADER + length > |buffer| then
          if eof then Fragment(EOF, [], c.(at := c.end), []) else Fragment(BAD, [], c.(at := c.end), [|buffer|])
        else if buffer[6] == ZERO && length == 0 then Fragment(BAD, [], c.(at := c.end), [])
        else if checksum && crc(buffer[6..HEADER + length]) != StoredCrc() then Fragment(BAD, [], c.(at := c.end), [|buffer|])
        else Fragment(buffer[6], buffer[HEADER..HEADER + length], c.(at := c.at + HEADER + length), [])
    {
      AtIsBuffer();
      assert buffer == file[At().at..At().end];
      hide Valid, At, ParseFragment;
      FragmentOfBytes(crc, checksum, file, At(), buffer);
    }

    method ReadRecord() returns (r: Option<bytes>)
      requires Valid()
      modifies this
      ensures Valid()
      ensures Outcome(r, At(), drops) == Then(old(drops), NextRecord(crc, checksum, file, old(At()), None))
    {
      hide NextFragment, NextRecord, ParseFragment, Valid, At, Fits, Gathered;
      var scratch: bytes := [];
      var inFragmented := false;
      ghost var goal := Then(drops, NextRecord(crc, checksum, file, At(), None));
      while true
        invariant Valid() && (!inFragmented ==> scratch == [])
        invariant Then(drops, NextRecord(crc, checksum, file, At(), Partial(inFragmented, scratch))) == goal
        decreases |file| - At().at
      {
        ghost var c, partial, said := At(), Partial(inFragmented, scratch), drops;
        NextRecordStep(crc, checksum, file, c, partial, said);
        var typ, fragment := ReadPhysicalRecord();
        ghost var f := NextFragment(crc, checksum, file, c);
        if typ == FULL {
          if inFragmented && scratch != [] {
            ReportCorruption(|scratch|);
          }
          return Some(fragment);
        } else if typ == LAST && inFragmented {
          scratch := scratch + fragment;
          return Some(scratch);
        } else if typ == EOF {
          return None;
        }
        inFragmented, scratch := Gather(f, typ, fragment, inFragmented, scratch);
      }
    }

    /** The cases of `ReadRecord` that go on to the next fragment. */
    method Gather(ghost f: Fragment, typ: nat, fragment: bytes, wasFragmented: bool, wasScratch: bytes)
      returns (inFragmented: bool, scratch: bytes)
      requires typ == f.typ && (typ != BAD ==> fragment == f.payload)
      requires typ != FULL && typ != EOF && !(typ == LAST && wasFragmented) && (!wasFragmented ==> wasScratch == [])
      modifies `drops
      ensures var step := Gathered(f, Partial(wasFragmented, wasScratch));
        Partial(inFragmented, scratch) == step.0 && drops == old(drops) + step.1 && (!inFragmented ==> scratch == [])
    {
      inFragmented, scratch := wasFragmented, wasScratch;
      if typ == FIRST {
        if inFragmented && scratch != [] {
          ReportCorruption(|scratch|);
        }
        scratch := fragment;
        inFragmented := true;
      } else if typ == MIDDLE {
        if !inFragmented {
          ReportCorruption(|fragment|);
        } else {
          scratch := scratch + fragment;
        }
      } else if typ == LAST {
        ReportCorruption(|fragment|);
      } else if typ == BAD {
        if inFragmented {
          ReportCorruption(|scratch|);
          inFragmented, scratch := false, [];
        }
      } else {
        ReportCorruption(|fragment| + if inFragmented then |scratch| else 0);
        inFragmented, scratch := false, [];
      }
    }
  }

  /** The record being put together, as the two variables of the loop hold it. */
  function Partial(inFragmented: bool, scratch: bytes): Option<bytes> {
    if inFragmented then Some(scratch) else None
  }

  /** An outcome that was preceded by some reports. */
  function Then(said: seq<nat>, o: Outcome): Outcome {
    o.(drops := said + o.drops)
  }

  lemma Regroup(a: seq<nat>, b: seq<nat>, c: seq<nat>)
    ensures a + (b + c) == a + b + c
  {
  }

  lemma NextRecordStep(crc: Crc, checksum: bool, file: bytes, c: Cursor, partial: Option<bytes>, said: seq<nat>)
    requires Fits(file, c)
    ensures var f := NextFragment(crc, checksum, file, c);
      var broken := if partial.Some? && partial.value != [] then [|partial.value|] else [];
      Then(said, NextRecord(crc, checksum, file, c, partial)) ==
      if f.typ == FULL then Outcome(Some(f.payload), f.next, said + f.drops + broken)
      else if f.typ == LAST && partial.Some? then Outcome(Some(partial.value + f.payload), f.next, said + f.drops)
      else if f.typ == EOF then Outcome(None, f.next, said + f.drops)
      else var step := Gathered(f, partial);
        Then(said + f.drops + step.1, NextRecord(crc, checksum, file, f.next, step.0))
  {
    var f := NextFragment(crc, checksum, file, c);
    hide NextFragment, Gathered;
    var broken := if partial.Some? && partial.value != [] then [|partial.value|] else [];
    Regroup(said, f.drops, broken);
    if f.typ != FULL && f.typ != EOF && !(f.typ == LAST && partial.Some?) {
      var step := Gathered(f, partial);
      var more := NextRecord(crc, checksum, file, f.next, step.0);
      Regroup(said, f.drops + step.1, more.drops);
      Regroup(said, f.drops, step.1);
    }
  }
}
