/** Log fragments whose type byte is one of the two codes the reader uses for its own results:
    the writer never writes them, and the reader does not tell them from its results. */
module ReservedTypes {
  import opened DbFormat
  import opened Coding
  import opened Logs
  import opened LogReaders
  import opened LogRoundTrip

  /** What the reader has buffered when it looks for a header. */
  function Loaded(file: bytes, c: Cursor): (d: Cursor)
    requires Fits(file, c)
    ensures Fits(file, d) && (d.end - d.at >= HEADER || d.eof)
    decreases !c.eof, if c.end - c.at < HEADER then 1 else 0
  {
    if c.end - c.at >= HEADER || c.eof then c else Loaded(file, Refilled(file, c))
  }

  lemma {:induction false} NextIsLoaded(crc: Crc, checksum: bool, file: bytes, c: Cursor)
    requires Fits(file, c)
    ensures var d := Loaded(file, c);
      NextFragment(crc, checksum, file, c) ==
      if d.end - d.at >= HEADER then ParseFragment(crc, checksum, file, d) else Fragment(EOF, [], d.(at := d.end), [])
    decreases !c.eof, if c.end - c.at < HEADER then 1 else 0
  {
    hide ParseFragment;
    NextFragmentStep(crc, checksum, file, c);
    if c.end - c.at < HEADER && !c.eof {
      NextIsLoaded(crc, checksum, file, Refilled(file, c));
    }
  }

  lemma {:induction false} LoadedAtEnd(file: bytes, c: Cursor)
    requires Fits(file, c) && (c.eof ==> c.end == |file|)
    ensures var d := Loaded(file, c); d.eof ==> d.end == |file|
    decreases !c.eof, if c.end - c.at < HEADER then 1 else 0
  {
    if c.end - c.at < HEADER && !c.eof { LoadedAtEnd(file, Refilled(file, c)); }
  }

  /** An intact fragment of the type with the given code. */
  predicate IntactOf(crc: Crc, checksum: bool, file: bytes, d: Cursor, typ: byte)
    requires Fits(file, d)
  {
    Intact(crc, checksum, file, d) && file[d.at + 6] == typ
  }

  function Behind(file: bytes, d: Cursor): nat
    requires Fits(file, d) && d.end - d.at >= HEADER
  {
    d.at + HEADER + PayloadLength(file, d.at)
  }

  /** The reader takes something for the end of the file before the file ends if and only if an
      intact fragment of type 5 is next, with more behind it. It reports nothing then. */
  lemma EarlyEndIff(crc: Crc, checksum: bool, file: bytes, c: Cursor)
    requires Fits(file, c) && (c.eof ==> c.end == |file|)
    ensures var f, d := NextFragment(crc, checksum, file, c), Loaded(file, c);
      && (f.typ == EOF && f.next.at < |file| <==> IntactOf(crc, checksum, file, d, EOF) && Behind(file, d) < |file|)
      && (f.typ == EOF ==> f.drops == [])
  {
    NextIsLoaded(crc, checksum, file, c);
    LoadedAtEnd(file, c);
    hide Loaded, NextFragment, Stored, PayloadLength, Unmask;
  }

  /** A bad fragment goes unreported if and only if it is an intact one of type 6, or says that
      it is a zero-length fragment of type 0, as a preallocated file has them. */
  lemma SilentlyBadIff(crc: Crc, checksum: bool, file: bytes, c: Cursor)
    requires Fits(file, c)
    ensures var f, d := NextFragment(crc, checksum, file, c), Loaded(file, c);
      f.typ == BAD && f.drops == [] <==>
      || IntactOf(crc, checksum, file, d, BAD)
      || (d.end - d.at >= HEADER && file[d.at + 6] == ZERO && PayloadLength(file, d.at) == 0)
  {
    NextIsLoaded(crc, checksum, file, c);
    hide Loaded, NextFragment, Stored, PayloadLength, Unmask;
  }

  /** Behind an intact fragment of type 5 nothing is read and nothing reported, not even the
      record that is being put together. */
  lemma TypeFiveEndsReading(crc: Crc, checksum: bool, file: bytes, c: Cursor, partial: Option<bytes>)
    requires Fits(file, c) && IntactOf(crc, checksum, file, Loaded(file, c), EOF)
    ensures NextRecord(crc, checksum, file, c, partial) ==
            Outcome(None, Loaded(file, c).(at := Behind(file, Loaded(file, c))), [])
    ensures ReadAll(crc, checksum, file, c) == ([], [])
  {
    NextIsLoaded(crc, checksum, file, c);
    hide Loaded, NextFragment, Stored, PayloadLength, Unmask;
  }

  /** An intact fragment of type 6 is skipped: of its payload nothing is reported, of a record
      that is being put together what there is. */
  lemma TypeSixIsSkipped(crc: Crc, checksum: bool, file: bytes, c: Cursor, partial: Option<bytes>)
    requires Fits(file, c) && IntactOf(crc, checksum, file, Loaded(file, c), BAD)
    ensures var d := Loaded(file, c);
      var more := NextRecord(crc, checksum, file, d.(at := Behind(file, d)), None);
      NextRecord(crc, checksum, file, c, partial) ==
      more.(drops := (if partial.Some? then [|partial.value|] else []) + more.drops)
  {
    NextOfTypeSix(crc, checksum, file, c);
    hide Loaded, NextFragment, PayloadLength, IntactOf, Behind, Fits;
    var told: seq<nat> := if partial.Some? then [|partial.value|] else [];
    assert [] + told == told;
  }

  lemma NextOfTypeSix(crc: Crc, checksum: bool, file: bytes, c: Cursor)
    requires Fits(file, c) && IntactOf(crc, checksum, file, Loaded(file, c), BAD)
    ensures var f, d := NextFragment(crc, checksum, file, c), Loaded(file, c);
      f.typ == BAD && f.next == d.(at := Behind(file, d)) && f.drops == []
  {
    NextIsLoaded(crc, checksum, file, c);
    hide Loaded, NextFragment, Stored, PayloadLength, Unmask;
  }

  /** A record behind a checksummed fragment of type 5 is lost without a report, though it is
      read where that fragment is not. */
  lemma RecordBehindTypeFiveIsLost(crc: Crc, data: bytes)
    requires HEADER + HEADER + |data| < BLOCK
    ensures ReadAll(crc, true, Physical(crc, EOF, []) + Physical(crc, FULL, data), Cursor(0, 0, false)) == ([], [])
    ensures ReadAll(crc, true, Physical(crc, FULL, data), Cursor(0, 0, false)) == ([data], [])
  {
    hide Physical, ParseFragment;
    var first, second := Physical(crc, EOF, []), Physical(crc, FULL, data);
    var c, file := Cursor(0, 0, false), first + second;
    var d := Refilled(file, c);
    assert Loaded(file, c) == d == Cursor(0, |file|, true) && |file| >= HEADER;
    assert file[0..HEADER] == first;
    WrittenIsIntact(crc, true, file, d, EOF, []);
    TypeFiveEndsReading(crc, true, file, c, None);
    ReadsAlone(crc, data);
  }

  lemma ReadsAlone(crc: Crc, data: bytes)
    requires HEADER + HEADER + |data| < BLOCK
    ensures ReadAll(crc, true, Physical(crc, FULL, data), Cursor(0, 0, false)) == ([data], [])
  {
    hide Physical, ParseFragment;
    var file, c := Physical(crc, FULL, data), Cursor(0, 0, false);
    var d := Refilled(file, c);
    assert d == Cursor(0, |file|, true);
    assert file[0..HEADER + |data|] == file;
    ParsesWhole(crc, true, file, d, FULL, data);
    NextFragmentStep(crc, true, file, c);
    NextFragmentStep(crc, true, file, d);
    var after := d.(at := |file|);
    NextFragmentStep(crc, true, file, after);
    assert NextFragment(crc, true, file, c) == Fragment(FULL, data, after, []);
    assert NextFragment(crc, true, file, after) == Fragment(EOF, [], after, []);
    hide NextFragment;
    assert NextRecord(crc, true, file, c, None) == Outcome(Some(data), after, []);
    assert ReadAll(crc, true, file, after) == ([], []);
    hide NextRecord;
    var none: seq<nat> := [];
    assert [data] + [] == [data] && none + none == none;
  }
}
