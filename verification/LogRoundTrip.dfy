/** What was logged is read back; a log cut off by a crash gives exactly the records that
    were written completely. */
module LogRoundTrip {
  import opened DbFormat
  import opened Coding
  import opened Logs
  import opened LogReaders

  /** The reader has consumed the first `a` bytes. The bytes it has buffered end with a block
      or with the file. */
  ghost predicate Sync(file: bytes, c: Cursor, a: nat) {
    && c.at == a <= c.end <= |file| && c.end - (a - a % BLOCK) <= BLOCK
    && if c.eof then c.end == |file| else c.end % BLOCK == 0 && (a % BLOCK == 0 ==> c.end == a)
  }

  // ---------------------------------------------------------------- one fragment

  /** The header in the buffer is the one the writer wrote at `b`. */
  lemma HeaderIs(crc: Crc, file: bytes, b: nat, typ: byte, payload: bytes)
    requires |payload| < 0x1_0000 && b + HEADER <= |file|
    requires file[b..b + HEADER] == Physical(crc, typ, payload)[..HEADER]
    ensures PayloadLength(file, b) == |payload| && file[b + 6] == typ
    ensures Unmask(Stored(file, b)) == crc([typ] + payload)
  {
    var p := Physical(crc, typ, payload);
    var check := Fixed(Mask(crc([typ] + payload)), 4);
    assert p[..4] == check;
    assert p[4] == |payload| % 256 && p[5] == |payload| / 256 && p[6] == typ;
    hide Physical;
    assert forall i :: 0 <= i < HEADER ==> file[b + i] == file[b..b + HEADER][i] == p[i];
    assert file[b..b + 4] == check;
    Fixed32Fits();
    FixedRoundTrip(Mask(crc([typ] + payload)), 4);
    UnmaskMask(crc([typ] + payload));
  }

  /** A fragment the writer wrote, all of which is in the buffer. */
  lemma WrittenIsIntact(crc: Crc, checksum: bool, file: bytes, c: Cursor, typ: byte, payload: bytes)
    requires Fits(file, c) && |payload| < 0x1_0000
    requires c.at + HEADER + |payload| <= c.end
    requires file[c.at..c.at + HEADER + |payload|] == Physical(crc, typ, payload)
    ensures Intact(crc, checksum, file, c) && file[c.at + 6] == typ && PayloadLength(file, c.at) == |payload|
    ensures file[c.at + HEADER..c.at + HEADER + |payload|] == payload
  {
    var b, n := c.at, |payload|;
    var p := Physical(crc, typ, payload);
    assert p[HEADER..] == payload && p[6] == typ;
    hide Physical;
    assert file[b..b + HEADER] == p[..HEADER] by {
      assert file[b..b + HEADER] == file[b..b + HEADER + n][..HEADER];
    }
    HeaderIs(crc, file, b, typ, payload);
    assert file[b + HEADER..b + HEADER + n] == payload by {
      assert file[b + HEADER..b + HEADER + n] == file[b..b + HEADER + n][HEADER..];
    }
    assert file[b + 6..b + HEADER + n] == [typ] + payload by {
      assert file[b + 6..b + HEADER + n] == [file[b + 6]] + file[b + HEADER..b + HEADER + n];
    }
  }

  lemma ParsesWhole(crc: Crc, checksum: bool, file: bytes, c: Cursor, typ: byte, payload: bytes)
    requires Fits(file, c) && |payload| < 0x1_0000 && typ != ZERO
    requires c.at + HEADER + |payload| <= c.end
    requires file[c.at..c.at + HEADER + |payload|] == Physical(crc, typ, payload)
    ensures ParseFragment(crc, checksum, file, c) == Fragment(typ, payload, c.(at := c.at + HEADER + |payload|), [])
  {
    hide Physical, Stored, Unmask, PayloadLength;
    WrittenIsIntact(crc, checksum, file, c, typ, payload);
  }

  /** Parsing one that the file ends within. */
  lemma ParsesCut(crc: Crc, checksum: bool, file: bytes, c: Cursor, typ: byte, payload: bytes)
    requires Fits(file, c) && |payload| < 0x1_0000 && c.eof && c.end == |file|
    requires c.at + HEADER <= c.end < c.at + HEADER + |payload|
    requires file[c.at..] == Physical(crc, typ, payload)[..|file| - c.at]
    ensures ParseFragment(crc, checksum, file, c) == Fragment(EOF, [], c.(at := c.end), [])
  {
    var p := Physical(crc, typ, payload);
    hide Physical;
    assert file[c.at..c.at + HEADER] == p[..HEADER] by {
      assert file[c.at..c.at + HEADER] == file[c.at..][..HEADER];
    }
    HeaderIs(crc, file, c.at, typ, payload);
  }

  /** The part of `whole` that a file cut at some byte still holds from `b` on. */
  ghost predicate Holds(file: bytes, b: nat, whole: bytes) {
    b <= |file| ==> file[b..Min(|file|, b + |whole|)] == whole[..Min(|file|, b + |whole|) - b]
  }

  lemma HoldsCut(file: bytes, b: nat, whole: bytes)
    requires Holds(file, b, whole) && b <= |file| <= b + |whole|
    ensures file[b..] == whole[..|file| - b]
  {
    assert file[b..|file|] == file[b..];
  }

  /** Where the next fragment starts, and which bytes are buffered when it is parsed. */
  lemma Positioned(file: bytes, c: Cursor, a: nat)
    requires Sync(file, c, a)
    ensures c.end - c.at >= HEADER ==> Pad(a) == 0 && c.end <= a - a % BLOCK + BLOCK
    ensures c.end - c.at >= HEADER && !c.eof ==> c.end == a - a % BLOCK + BLOCK
    ensures c.end - c.at < HEADER && !c.eof ==> c.end == a + Pad(a) && (a + Pad(a)) % BLOCK == 0
  {
  }

  /** The buffer a whole fragment is parsed from: the one there is, or the next block. */
  lemma Buffered(file: bytes, c: Cursor, a: nat, n: nat) returns (d: Cursor)
    requires Sync(file, c, a) && n <= Avail(a) && a + Pad(a) + HEADER + n <= |file|
    ensures Fits(file, c) && Fits(file, d) && d.at == a + Pad(a) && d.at + HEADER + n <= d.end
    ensures if c.end - c.at >= HEADER then d == c else !c.eof && d == Refilled(file, c)
    ensures Sync(file, d.(at := d.at + HEADER + n), d.at + HEADER + n)
  {
    Positioned(file, c, a);
    d := if c.end - c.at >= HEADER then c else Refilled(file, c);
  }

  /** A fragment that is wholly in the file is read, with nothing reported. */
  lemma ReadsWhole(crc: Crc, checksum: bool, file: bytes, c: Cursor, a: nat, typ: byte, payload: bytes)
    requires Sync(file, c, a) && typ != ZERO && |payload| <= Avail(a)
    requires a + Pad(a) + HEADER + |payload| <= |file|
    requires Holds(file, a + Pad(a), Physical(crc, typ, payload))
    ensures Fits(file, c)
    ensures var f := NextFragment(crc, checksum, file, c);
      && f.typ == typ && f.payload == payload && f.drops == []
      && Sync(file, f.next, a + Pad(a) + HEADER + |payload|)
  {
    hide Physical, ParseFragment, Sync, Pad, Avail;
    var d := Buffered(file, c, a, |payload|);
    ParsesWhole(crc, checksum, file, d, typ, payload);
    assert NextFragment(crc, checksum, file, c) == ParseFragment(crc, checksum, file, d);
  }

  /** A fragment the file ends within, or before, reads as the end of the file. */
  lemma ReadsCut(crc: Crc, checksum: bool, file: bytes, c: Cursor, a: nat, typ: byte, payload: bytes)
    requires Sync(file, c, a) && |payload| <= Avail(a)
    requires |file| < a + Pad(a) + HEADER + |payload|
    requires Holds(file, a + Pad(a), Physical(crc, typ, payload))
    ensures Fits(file, c)
    ensures NextFragment(crc, checksum, file, c).typ == EOF && NextFragment(crc, checksum, file, c).drops == []
  {
    var b := a + Pad(a);
    Positioned(file, c, a);
    hide Physical, ParseFragment;
    var d := if c.end - c.at >= HEADER || c.eof then c else Refilled(file, c);
    assert d.eof;
    if d.end - d.at >= HEADER {
      assert d.at == b;
      HoldsCut(file, d.at, Physical(crc, typ, payload));
      ParsesCut(crc, checksum, file, d, typ, payload);
    }
  }

  lemma ReadsEnd(crc: Crc, checksum: bool, file: bytes, c: Cursor)
    requires Sync(file, c, |file|)
    ensures NextFragment(crc, checksum, file, c).typ == EOF && NextFragment(crc, checksum, file, c).drops == []
  {
  }

  // ---------------------------------------------------------------- one record

  lemma HoldsParts(file: bytes, b: nat, x: bytes, y: bytes)
    requires Holds(file, b, x + y)
    ensures Holds(file, b, x) && Holds(file, b + |x|, y)
  {
    if b <= |file| {
      var m := Min(|file|, b + |x| + |y|);
      var k := Min(|file|, b + |x|);
      assert file[b..k] == file[b..m][..k - b] == (x + y)[..m - b][..k - b] == x[..k - b];
      if b + |x| <= |file| {
        assert file[b + |x|..m] == file[b..m][|x|..] == (x + y)[..m - b][|x|..] == y[..m - b - |x|];
      }
    }
  }

  lemma FragmentHeld(crc: Crc, file: bytes, a: nat, data: bytes, begin: bool)
    requires Holds(file, a, Encode(crc, a, data, begin))
    ensures var n := Min(|data|, Avail(a));
      && Holds(file, a + Pad(a), Physical(crc, FragmentType(begin, n == |data|), data[..n]))
      && (n < |data| ==> Holds(file, a + Pad(a) + HEADER + n, Encode(crc, a + Pad(a) + HEADER + n, data[n..], false)))
  {
    hide Encode, Holds, Pad, Avail, Physical;
    var n := Min(|data|, Avail(a));
    var p := Physical(crc, FragmentType(begin, n == |data|), data[..n]);
    var rest := if n == |data| then [] else Encode(crc, a + Pad(a) + HEADER + n, data[n..], false);
    EncodeIs(crc, a, data, begin, p, rest);
    HoldsParts(file, a, Zeros(Pad(a)), p + rest);
    HoldsParts(file, a + Pad(a), p, rest);
  }

  lemma EncodeIs(crc: Crc, a: nat, data: bytes, begin: bool, p: bytes, rest: bytes)
    requires var n := Min(|data|, Avail(a));
      && p == Physical(crc, FragmentType(begin, n == |data|), data[..n])
      && rest == if n == |data| then [] else Encode(crc, a + Pad(a) + HEADER + n, data[n..], false)
    ensures Encode(crc, a, data, begin) == Zeros(Pad(a)) + (p + rest)
  {
    hide Physical, Pad, Avail;
  }

  /** One fragment of a record: the file ends within it, or it is read and either ends the
      record or leaves the rest to be read. */
  lemma ReadsFragment(crc: Crc, checksum: bool, file: bytes, c: Cursor, a: nat, data: bytes, begin: bool, scratch: bytes)
    returns (d: Cursor)
    requires Sync(file, c, a) && Holds(file, a, Encode(crc, a, data, begin)) && (begin ==> scratch == [])
    ensures Fits(file, c)
    ensures var n := Min(|data|, Avail(a));
      var next := a + Pad(a) + HEADER + n;
      var o := NextRecord(crc, checksum, file, c, Partial(!begin, scratch));
      if next > |file| then o.record == None && o.drops == []
      else
        && Sync(file, d, next) && Fits(file, d)
        && if n == |data| then o == Outcome(Some(scratch + data[..n]), d, [])
           else o == NextRecord(crc, checksum, file, d, Partial(true, scratch + data[..n]))
                && Holds(file, next, Encode(crc, next, data[n..], false))
  {
    hide NextFragment, NextRecord, Encode, Physical, Holds, Sync;
    var n := Min(|data|, Avail(a));
    var typ, next := FragmentType(begin, n == |data|), a + Pad(a) + HEADER + n;
    FragmentHeld(crc, file, a, data, begin);
    SyncFits(file, c, a);
    d := NextFragment(crc, checksum, file, c).next;
    hide Fits, Pad, Avail;
    if next > |file| {
      ReadsCut(crc, checksum, file, c, a, typ, data[..n]);
      RecordCut(crc, checksum, file, c, begin, scratch);
    } else {
      ReadsWhole(crc, checksum, file, c, a, typ, data[..n]);
      RecordGoesOn(crc, checksum, file, c, begin, scratch, n == |data|);
    }
  }

  /** The reader puts a record together from its fragments, or finds it cut off. */
  lemma {:induction false} ReadsRecord(crc: Crc, checksum: bool, file: bytes, c: Cursor, a: nat, data: bytes, begin: bool, scratch: bytes)
    requires Sync(file, c, a) && Holds(file, a, Encode(crc, a, data, begin)) && (begin ==> scratch == [])
    ensures Fits(file, c)
    ensures var o := NextRecord(crc, checksum, file, c, Partial(!begin, scratch));
      var e := a + |Encode(crc, a, data, begin)|;
      o.drops == [] && if e <= |file| then o.record == Some(scratch + data) && Sync(file, o.next, e) else o.record == None
    decreases |data|, if Avail(a) == 0 then 1 else 0
  {
    hide NextRecord, Encode, Holds, Sync, Fits, Pad, Avail;
    var n := Min(|data|, Avail(a));
    var next := a + Pad(a) + HEADER + n;
    var d := ReadsFragment(crc, checksum, file, c, a, data, begin, scratch);
    EncodeLength(crc, a, data, begin);
    assert scratch + data[..n] + data[n..] == scratch + data;
    assert n == |data| ==> data[..n] == data;
    if next <= |file| && n < |data| {
      EmptyOnce(a, next, n);
      ReadsRecord(crc, checksum, file, d, next, data[n..], false, scratch + data[..n]);
    }
  }

  lemma SyncFits(file: bytes, c: Cursor, a: nat)
    requires Sync(file, c, a)
    ensures Fits(file, c)
  {
  }

  lemma RecordCut(crc: Crc, checksum: bool, file: bytes, c: Cursor, begin: bool, scratch: bytes)
    requires Fits(file, c)
    requires NextFragment(crc, checksum, file, c).typ == EOF && NextFragment(crc, checksum, file, c).drops == []
    ensures var o := NextRecord(crc, checksum, file, c, Partial(!begin, scratch)); o.drops == [] && o.record == None
  {
    NextRecordStep(crc, checksum, file, c, Partial(!begin, scratch), []);
    hide NextRecord, NextFragment;
  }

  /** A fragment of the type that is due either ends the record or adds to it. */
  lemma RecordGoesOn(crc: Crc, checksum: bool, file: bytes, c: Cursor, begin: bool, scratch: bytes, end: bool)
    requires Fits(file, c) && (begin ==> scratch == [])
    requires NextFragment(crc, checksum, file, c).typ == FragmentType(begin, end) && NextFragment(crc, checksum, file, c).drops == []
    ensures var f := NextFragment(crc, checksum, file, c);
      NextRecord(crc, checksum, file, c, Partial(!begin, scratch)) ==
      if end then Outcome(Some(scratch + f.payload), f.next, [])
      else NextRecord(crc, checksum, file, f.next, Partial(true, scratch + f.payload))
  {
    var f := NextFragment(crc, checksum, file, c);
    NextRecordStep(crc, checksum, file, c, Partial(!begin, scratch), []);
    hide NextRecord, NextFragment;
    assert [] + f.payload == f.payload;
    var more := NextRecord(crc, checksum, file, f.next, Partial(true, scratch + f.payload));
    assert [] + more.drops == more.drops;
  }

  lemma EncodeLength(crc: Crc, a: nat, data: bytes, begin: bool)
    ensures var n := Min(|data|, Avail(a));
      var next := a + Pad(a) + HEADER + n;
      a + |Encode(crc, a, data, begin)| == if n == |data| then next else next + |Encode(crc, next, data[n..], false)|
  {
    hide FirstFragment, Pad, Avail;
  }

  // ---------------------------------------------------------------- the whole log

  /** The records whose last byte is among the first `size` bytes of the log. */
  ghost function Complete(crc: Crc, a: nat, records: seq<bytes>, size: nat): seq<bytes>
    decreases records
  {
    if records == [] then []
    else var e := a + |Encode(crc, a, records[0], true)|;
      if e > size then [] else [records[0]] + Complete(crc, e, records[1..], size)
  }

  lemma {:induction false} ReadsAll(crc: Crc, checksum: bool, file: bytes, c: Cursor, a: nat, records: seq<bytes>)
    requires Sync(file, c, a) && Holds(file, a, EncodeAll(crc, a, records))
    requires |file| <= a + |EncodeAll(crc, a, records)|
    ensures Fits(file, c) && ReadAll(crc, checksum, file, c) == (Complete(crc, a, records, |file|), [])
    decreases records
  {
    hide Encode, NextRecord, NextFragment, Holds, Sync;
    SyncFits(file, c, a);
    assert Partial(false, []) == None;
    if records == [] {
      AtEndOfFile(file, c, a);
      ReadsEnd(crc, checksum, file, c);
      RecordCut(crc, checksum, file, c, true, []);
    } else {
      var b := Encode(crc, a, records[0], true);
      var rest := EncodeAll(crc, a + |b|, records[1..]);
      HoldsParts(file, a, b, rest);
      ReadsRecord(crc, checksum, file, c, a, records[0], true, []);
      var o := NextRecord(crc, checksum, file, c, None);
      assert [] + records[0] == records[0];
      if a + |b| <= |file| {
        assert o == Outcome(Some(records[0]), o.next, []);
        ReadsAll(crc, checksum, file, o.next, a + |b|, records[1..]);
        assert [] + ReadAll(crc, checksum, file, o.next).1 == [];
      } else {
        assert o == Outcome(None, o.next, []);
      }
    }
  }

  lemma AtEndOfFile(file: bytes, c: Cursor, a: nat)
    requires Sync(file, c, a) && |file| <= a
    ensures a == |file|
  {
  }

  /** Crash safety: the log of any records, cut at any byte, reads back as exactly those that
      were written completely, and nothing is reported as corrupt. */
  lemma CutLogReadsBack(crc: Crc, checksum: bool, records: seq<bytes>, cut: nat)
    requires cut <= |EncodeAll(crc, 0, records)|
    ensures var file := EncodeAll(crc, 0, records)[..cut];
      ReadAll(crc, checksum, file, Cursor(0, 0, false)) == (Complete(crc, 0, records, cut), [])
  {
    var file := EncodeAll(crc, 0, records)[..cut];
    ReadsAll(crc, checksum, file, Cursor(0, 0, false), 0, records);
  }

  /** Round trip: what was logged, record by record, is what is read. */
  lemma LogReadsBack(crc: Crc, checksum: bool, records: seq<bytes>)
    ensures ReadAll(crc, checksum, EncodeAll(crc, 0, records), Cursor(0, 0, false)) == (records, [])
  {
    var log := EncodeAll(crc, 0, records);
    assert log[..|log|] == log;
    CutLogReadsBack(crc, checksum, records, |log|);
    AllComplete(crc, 0, records, |log|);
  }

  lemma {:induction false} AllComplete(crc: Crc, a: nat, records: seq<bytes>, size: nat)
    requires a + |EncodeAll(crc, a, records)| <= size
    ensures Complete(crc, a, records, size) == records
    decreases records
  {
    if records != [] {
      AllComplete(crc, a + |Encode(crc, a, records[0], true)|, records[1..], size);
    }
  }

  /** What a writer adds with `AddRecord`, whatever the file held, extends the log by one. */
  lemma {:induction false} LogGrows(crc: Crc, a: nat, records: seq<bytes>, record: bytes)
    ensures EncodeAll(crc, a, records + [record]) ==
            EncodeAll(crc, a, records) + Encode(crc, a + |EncodeAll(crc, a, records)|, record, true)
    decreases records
  {
    hide Encode;
    if records == [] {
      assert EncodeAll(crc, a + |Encode(crc, a, record, true)|, ([record])[1..]) == [];
    } else {
      var b := Encode(crc, a, records[0], true);
      assert (records + [record])[1..] == records[1..] + [record] && (records + [record])[0] == records[0];
      LogGrows(crc, a + |b|, records[1..], record);
    }
  }
}
