/** What becomes of the fragments of a log, said of their list alone: which of them make a
    record, and which are reported as dropped. */
module LogRecords {
  import opened DbFormat
  import opened Coding
  import opened Logs
  import opened LogReaders
  import opened ReservedTypes

  /** The fragments of a file up to what the reader takes for its end. */
  ghost function Fragments(crc: Crc, checksum: bool, file: bytes, c: Cursor): (fs: seq<Fragment>)
    requires Fits(file, c)
    decreases |file| - c.at
  {
    var f := NextFragment(crc, checksum, file, c);
    if f.typ == EOF then [] else [f] + Fragments(crc, checksum, file, f.next)
  }

  /** A first fragment at `s` with nothing but middle ones behind it, up to `n`. */
  predicate Open(fs: seq<Fragment>, s: nat, n: nat) {
    && s < n <= |fs| && fs[s].typ == FIRST
    && forall k :: s < k < n ==> fs[k].typ == MIDDLE
  }

  /** A full fragment, or a first one, then only middle ones, then a last one. */
  predicate Whole(fs: seq<Fragment>, s: nat, e: nat) {
    && s <= e < |fs|
    && ((s == e && fs[e].typ == FULL) || (Open(fs, s, e) && fs[e].typ == LAST))
  }

  /** The payloads from `s` up to `n`, one behind the other. */
  function Joined(fs: seq<Fragment>, s: nat, n: nat): bytes
    requires s <= n <= |fs|
  {
    if s == n then [] else Joined(fs, s, n - 1) + fs[n - 1].payload
  }

  datatype Span = Span(first: nat, last: nat)

  /** The records are those of the spans, in the order of the file, and no span that makes a
      record is left out. */
  ghost predicate AreTheRecords(fs: seq<Fragment>, spans: seq<Span>, records: seq<bytes>) {
    && |spans| == |records|
    && (forall i :: 0 <= i < |spans| ==>
          Whole(fs, spans[i].first, spans[i].last) && records[i] == Joined(fs, spans[i].first, spans[i].last + 1))
    && (forall i, j :: 0 <= i < j < |spans| ==> spans[i].last < spans[j].first)
    && (forall s, e :: Whole(fs, s, e) ==> Span(s, e) in spans)
  }

  /** What is reported as fragment `n` is met: of what was gathered before it and goes with no
      record, and of its own payload if it has no place in one. */
  ghost predicate IsReported(fs: seq<Fragment>, n: nat, report: seq<nat>)
    requires n < |fs|
  {
    var typ, own := fs[n].typ, |fs[n].payload|;
    && (forall s :: Open(fs, s, n) ==>
          var gathered := |Joined(fs, s, n)|;
          report == if typ == MIDDLE || typ == LAST then []
                    else if typ == FIRST || typ == FULL then if gathered > 0 then [gathered] else []
                    else if typ == BAD then [gathered] else [own + gathered])
    && ((forall s :: !Open(fs, s, n)) ==>
          report == if typ == FIRST || typ == FULL || typ == BAD then [] else [own])
  }

  /** All reports: for each fragment those of the bytes skipped in front of it, then its own. */
  ghost predicate AreTheReports(fs: seq<Fragment>, said: seq<seq<nat>>, reports: seq<nat>) {
    && |said| == |fs|
    && (forall n :: 0 <= n < |fs| ==> IsReported(fs, n, said[n]))
    && reports == Told(fs, said)
  }

  function Told(fs: seq<Fragment>, said: seq<seq<nat>>): seq<nat>
    requires |fs| == |said|
  {
    if fs == [] then [] else fs[0].drops + said[0] + Told(fs[1..], said[1..])
  }

  /** Where the record that fragment `n` may go on begins. */
  function OpenAt(fs: seq<Fragment>, n: nat): (r: Option<nat>)
    requires n <= |fs|
    ensures r.Some? ==> r.value < n
  {
    if n == 0 then None
    else if fs[n - 1].typ == FIRST then Some(n - 1)
    else if fs[n - 1].typ == MIDDLE then OpenAt(fs, n - 1) else None
  }

  lemma {:induction false} OpenAtIs(fs: seq<Fragment>, n: nat)
    requires n <= |fs|
    ensures forall s: nat :: Open(fs, s, n) <==> OpenAt(fs, n) == Some(s)
  {
    if n > 0 {
      OpenAtIs(fs, n - 1);
      forall s: nat ensures Open(fs, s, n) <==> OpenAt(fs, n) == Some(s) {
        assert Open(fs, s, n) && s < n - 1 ==> fs[n - 1].typ == MIDDLE && Open(fs, s, n - 1);
        assert Open(fs, s, n - 1) && fs[n - 1].typ == MIDDLE ==> Open(fs, s, n);
      }
    }
  }

  /** What is gathered as fragment `n` is met. */
  function GatheredAt(fs: seq<Fragment>, n: nat): Option<bytes>
    requires n <= |fs|
  {
    var s := OpenAt(fs, n);
    if s == None then None else Some(Joined(fs, s.value, n))
  }

  function StartOf(fs: seq<Fragment>, e: nat): (r: Option<nat>)
    requires e < |fs|
    ensures r.Some? ==> r.value <= e
  {
    if fs[e].typ == FULL then Some(e) else if fs[e].typ == LAST then OpenAt(fs, e) else None
  }

  lemma StartIs(fs: seq<Fragment>, e: nat)
    requires e < |fs|
    ensures forall s: nat :: Whole(fs, s, e) <==> StartOf(fs, e) == Some(s)
  {
    OpenAtIs(fs, e);
    hide Open, OpenAt;
  }

  function ReportAt(fs: seq<Fragment>, n: nat): seq<nat>
    requires n < |fs|
  {
    var partial, f := GatheredAt(fs, n), fs[n];
    if f.typ == FULL then if partial.Some? && partial.value != [] then [|partial.value|] else []
    else if f.typ == LAST && partial.Some? then []
    else Gathered(f, partial).1
  }

  lemma ReportIs(fs: seq<Fragment>, n: nat)
    requires n < |fs|
    ensures IsReported(fs, n, ReportAt(fs, n))
  {
    OpenAtIs(fs, n);
    hide Open, OpenAt, Joined;
    if OpenAt(fs, n) != None { assert Open(fs, OpenAt(fs, n).value, n); }
  }

  function RecordsFrom(fs: seq<Fragment>, n: nat): seq<bytes>
    requires n <= |fs|
    decreases |fs| - n
  {
    if n == |fs| then []
    else if StartOf(fs, n) == None then RecordsFrom(fs, n + 1)
    else [Joined(fs, StartOf(fs, n).value, n + 1)] + RecordsFrom(fs, n + 1)
  }

  function SpansFrom(fs: seq<Fragment>, n: nat): seq<Span>
    requires n <= |fs|
    decreases |fs| - n
  {
    if n == |fs| then []
    else if StartOf(fs, n) == None then SpansFrom(fs, n + 1)
    else [Span(StartOf(fs, n).value, n)] + SpansFrom(fs, n + 1)
  }

  function ReportsFrom(fs: seq<Fragment>, n: nat): seq<nat>
    requires n <= |fs|
    decreases |fs| - n
  {
    if n == |fs| then [] else fs[n].drops + ReportAt(fs, n) + ReportsFrom(fs, n + 1)
  }

  /** The reader's loop, said of the list: it returns at the next fragment that ends a record. */
  lemma {:induction false} NextIs(crc: Crc, checksum: bool, file: bytes, c: Cursor, fs: seq<Fragment>, n: nat)
    returns (e: nat)
    requires Fits(file, c) && n <= |fs| && Fragments(crc, checksum, file, c) == fs[n..]
    ensures n <= e <= |fs| && ReturnsAt(crc, checksum, file, fs, n, e, NextRecord(crc, checksum, file, c, GatheredAt(fs, n)))
    decreases |fs| - n
  {
    e := n;
    if n == |fs| {
      AtEnd(crc, checksum, file, c);
    } else {
      hide *;
      NextOf(crc, checksum, file, c, fs, n);
      if StartOf(fs, n) == None {
        var f := NextFragment(crc, checksum, file, c);
        var more := NextRecord(crc, checksum, file, f.next, GatheredAt(fs, n + 1));
        e := NextIs(crc, checksum, file, f.next, fs, n + 1);
        GoesOn(crc, checksum, file, fs, n, e, more);
      } else {
        ReturnsHere(crc, checksum, file, c, fs, n);
      }
    }
  }

  /** From fragment `n` on the next record ends at `e`, or there is none. */
  ghost predicate ReturnsAt(crc: Crc, checksum: bool, file: bytes, fs: seq<Fragment>, n: nat, e: nat, r: Outcome)
    requires n <= |fs| && e <= |fs|
  {
    && ReportsFrom(fs, n) == r.drops + (if e < |fs| then ReportsFrom(fs, e + 1) else [])
    && (e == |fs| ==> r.record == None && RecordsFrom(fs, n) == [])
    && (e < |fs| ==>
          && RecordsFrom(fs, n) == RecordsFrom(fs, e) && StartOf(fs, e) != None
          && r.record == Some(Joined(fs, StartOf(fs, e).value, e + 1))
          && Fits(file, r.next) && Fragments(crc, checksum, file, r.next) == fs[e + 1..])
  }

  lemma ReturnsHere(crc: Crc, checksum: bool, file: bytes, c: Cursor, fs: seq<Fragment>, n: nat)
    requires Fits(file, c) && n < |fs| && Fragments(crc, checksum, file, c) == fs[n..] && StartOf(fs, n) != None
    ensures ReturnsAt(crc, checksum, file, fs, n, n, NextRecord(crc, checksum, file, c, GatheredAt(fs, n)))
  {
    NextOf(crc, checksum, file, c, fs, n);
    FromHere(fs, n);
    hide NextFragment, RecordsFrom, ReportsFrom, StartOf, Joined, ReportAt, Fragments, NextRecord, GatheredAt;
  }

  lemma GoesOn(crc: Crc, checksum: bool, file: bytes, fs: seq<Fragment>, n: nat, e: nat, more: Outcome)
    requires n < |fs| && e <= |fs| && StartOf(fs, n) == None && ReturnsAt(crc, checksum, file, fs, n + 1, e, more)
    ensures ReturnsAt(crc, checksum, file, fs, n, e, more.(drops := fs[n].drops + ReportAt(fs, n) + more.drops))
  {
    FromHere(fs, n);
    Regroup(fs[n].drops + ReportAt(fs, n), more.drops, if e < |fs| then ReportsFrom(fs, e + 1) else []);
    hide RecordsFrom, ReportsFrom, StartOf, Joined, ReportAt, Fragments;
  }

  lemma FromHere(fs: seq<Fragment>, n: nat)
    requires n < |fs|
    ensures ReportsFrom(fs, n) == fs[n].drops + ReportAt(fs, n) + ReportsFrom(fs, n + 1)
    ensures StartOf(fs, n) == None ==> RecordsFrom(fs, n) == RecordsFrom(fs, n + 1)
  {
    hide ReportAt, StartOf, Joined;
  }

  lemma AtEnd(crc: Crc, checksum: bool, file: bytes, c: Cursor)
    requires Fits(file, c) && Fragments(crc, checksum, file, c) == []
    ensures forall partial :: NextRecord(crc, checksum, file, c, partial).record == None
                              && NextRecord(crc, checksum, file, c, partial).drops == []
  {
    NextIsLoaded(crc, checksum, file, c);
    hide NextFragment, Loaded, Gathered, Stored, PayloadLength, Unmask;
  }

  /** One turn of the loop. */
  lemma NextOf(crc: Crc, checksum: bool, file: bytes, c: Cursor, fs: seq<Fragment>, n: nat)
    requires Fits(file, c) && n < |fs| && Fragments(crc, checksum, file, c) == fs[n..]
    ensures var f, r := NextFragment(crc, checksum, file, c), NextRecord(crc, checksum, file, c, GatheredAt(fs, n));
      && Fragments(crc, checksum, file, f.next) == fs[n + 1..]
      && r == if StartOf(fs, n) == None then
                var more := NextRecord(crc, checksum, file, f.next, GatheredAt(fs, n + 1));
                more.(drops := fs[n].drops + ReportAt(fs, n) + more.drops)
              else Outcome(Some(Joined(fs, StartOf(fs, n).value, n + 1)), f.next, fs[n].drops + ReportAt(fs, n))
  {
    var f := NextFragment(crc, checksum, file, c);
    FirstOf(crc, checksum, file, c, fs, n);
    JoinedStep(fs, n);
    if StartOf(fs, n) == None { GatheredStep(fs, n); }
    hide NextFragment, Joined, Fragments, OpenAt, Gathered;
  }

  lemma FirstOf(crc: Crc, checksum: bool, file: bytes, c: Cursor, fs: seq<Fragment>, n: nat)
    requires Fits(file, c) && n < |fs| && Fragments(crc, checksum, file, c) == fs[n..]
    ensures var f := NextFragment(crc, checksum, file, c);
      f == fs[n] && f.typ != EOF && Fragments(crc, checksum, file, f.next) == fs[n + 1..]
  {
    hide NextFragment;
    assert fs[n..][0] == fs[n] && fs[n..][1..] == fs[n + 1..];
  }

  lemma JoinedStep(fs: seq<Fragment>, n: nat)
    requires n < |fs|
    ensures Joined(fs, n, n + 1) == fs[n].payload
    ensures OpenAt(fs, n).Some? ==> Joined(fs, OpenAt(fs, n).value, n + 1) == Joined(fs, OpenAt(fs, n).value, n) + fs[n].payload
  {
    assert Joined(fs, n, n) == [];
    hide OpenAt;
  }

  lemma GatheredStep(fs: seq<Fragment>, n: nat)
    requires n < |fs| && StartOf(fs, n) == None
    ensures Gathered(fs[n], GatheredAt(fs, n)) == (GatheredAt(fs, n + 1), ReportAt(fs, n))
  {
    JoinedStep(fs, n);
    hide Joined;
  }

  lemma {:induction false} AllAre(crc: Crc, checksum: bool, file: bytes, c: Cursor, fs: seq<Fragment>, n: nat)
    requires Fits(file, c) && n <= |fs| && Fragments(crc, checksum, file, c) == fs[n..] && OpenAt(fs, n) == None
    ensures ReadAll(crc, checksum, file, c) == (RecordsFrom(fs, n), ReportsFrom(fs, n))
    decreases |fs| - n
  {
    hide *;
    var r := NextRecord(crc, checksum, file, c, None);
    var e := NextIs(crc, checksum, file, c, fs, n);
    GatheredNone(fs, n);
    ReadOne(crc, checksum, file, c);
    if e < |fs| {
      RecordOf(crc, checksum, file, fs, n, e, r);
      AllAre(crc, checksum, file, r.next, fs, e + 1);
    } else {
      NoRecordOf(crc, checksum, file, fs, n, r);
    }
  }

  lemma GatheredNone(fs: seq<Fragment>, n: nat)
    requires n <= |fs| && OpenAt(fs, n) == None
    ensures GatheredAt(fs, n) == None
  {
  }

  lemma ReadOne(crc: Crc, checksum: bool, file: bytes, c: Cursor)
    requires Fits(file, c)
    ensures var r := NextRecord(crc, checksum, file, c, None);
      ReadAll(crc, checksum, file, c) ==
      if r.record == None then ([], r.drops)
      else var more := ReadAll(crc, checksum, file, r.next); ([r.record.value] + more.0, r.drops + more.1)
  {
    hide NextRecord;
  }

  lemma RecordOf(crc: Crc, checksum: bool, file: bytes, fs: seq<Fragment>, n: nat, e: nat, r: Outcome)
    requires n <= |fs| && e < |fs| && ReturnsAt(crc, checksum, file, fs, n, e, r)
    ensures r.record != None && Fits(file, r.next) && Fragments(crc, checksum, file, r.next) == fs[e + 1..]
    ensures RecordsFrom(fs, n) == [r.record.value] + RecordsFrom(fs, e + 1)
    ensures ReportsFrom(fs, n) == r.drops + ReportsFrom(fs, e + 1)
    ensures OpenAt(fs, e + 1) == None
  {
    hide ReportAt, Joined, Fragments;
  }

  lemma NoRecordOf(crc: Crc, checksum: bool, file: bytes, fs: seq<Fragment>, n: nat, r: Outcome)
    requires n <= |fs| && ReturnsAt(crc, checksum, file, fs, n, |fs|, r)
    ensures r.record == None && RecordsFrom(fs, n) == [] && ReportsFrom(fs, n) == r.drops
  {
    hide ReportsFrom, RecordsFrom;
    assert r.drops + [] == r.drops;
  }

  lemma {:induction false} SpansAre(fs: seq<Fragment>, n: nat)
    requires n <= |fs|
    ensures var spans, records := SpansFrom(fs, n), RecordsFrom(fs, n);
      && |spans| == |records|
      && (forall i :: 0 <= i < |spans| ==>
            n <= spans[i].last && Whole(fs, spans[i].first, spans[i].last)
            && records[i] == Joined(fs, spans[i].first, spans[i].last + 1))
      && (forall i, j :: 0 <= i < j < |spans| ==> spans[i].last < spans[j].first)
      && (forall s, e :: Whole(fs, s, e) && n <= e ==> Span(s, e) in spans)
    decreases |fs| - n
  {
    hide Joined, StartOf;
    if n < |fs| {
      SpansAre(fs, n + 1);
      StartIs(fs, n);
      var more := SpansFrom(fs, n + 1);
      if StartOf(fs, n) != None {
        var s := StartOf(fs, n).value;
        assert Whole(fs, s, n);
        forall j | 0 <= j < |more| ensures n < more[j].first {
          ApartFrom(fs, s, n, more[j].first, more[j].last);
        }
      }
    }
  }

  /** Of two spans the one that ends later begins behind the other. */
  lemma ApartFrom(fs: seq<Fragment>, s: nat, e: nat, t: nat, g: nat)
    requires Whole(fs, s, e) && Whole(fs, t, g) && e < g
    ensures e < t
  {
  }

  lemma {:induction false} ToldIs(fs: seq<Fragment>, said: seq<seq<nat>>, n: nat)
    requires |said| == |fs| && n <= |fs| && forall k :: 0 <= k < |fs| ==> said[k] == ReportAt(fs, k)
    ensures Told(fs[n..], said[n..]) == ReportsFrom(fs, n)
    decreases |fs| - n
  {
    hide ReportAt;
    if n < |fs| {
      ToldIs(fs, said, n + 1);
      assert fs[n..][1..] == fs[n + 1..] && said[n..][1..] == said[n + 1..];
    }
  }

  /** Of any file: the records returned are those of the complete spans of fragments, all of
      them and in order; what is reported is what skipped bytes, and fragments that go with no
      record, have. */
  lemma RecordsAreWholeSpans(crc: Crc, checksum: bool, file: bytes, c: Cursor)
    returns (spans: seq<Span>, said: seq<seq<nat>>)
    requires Fits(file, c)
    ensures AreTheRecords(Fragments(crc, checksum, file, c), spans, ReadAll(crc, checksum, file, c).0)
    ensures AreTheReports(Fragments(crc, checksum, file, c), said, ReadAll(crc, checksum, file, c).1)
  {
    hide *;
    var fs := Fragments(crc, checksum, file, c);
    AllFromStart(crc, checksum, file, c);
    spans := SpansFrom(fs, 0);
    SpansCover(fs);
    said := ReportsCover(fs);
  }

  lemma AllFromStart(crc: Crc, checksum: bool, file: bytes, c: Cursor)
    requires Fits(file, c)
    ensures var fs := Fragments(crc, checksum, file, c); ReadAll(crc, checksum, file, c) == (RecordsFrom(fs, 0), ReportsFrom(fs, 0))
  {
    var fs := Fragments(crc, checksum, file, c);
    assert fs[0..] == fs && OpenAt(fs, 0) == None;
    hide *;
    AllAre(crc, checksum, file, c, fs, 0);
  }

  lemma SpansCover(fs: seq<Fragment>)
    ensures AreTheRecords(fs, SpansFrom(fs, 0), RecordsFrom(fs, 0))
  {
    SpansAre(fs, 0);
    hide SpansFrom, RecordsFrom, Whole, Joined;
  }

  lemma ReportsCover(fs: seq<Fragment>) returns (said: seq<seq<nat>>)
    ensures AreTheReports(fs, said, ReportsFrom(fs, 0))
  {
    hide ReportAt, IsReported, Told, ReportsFrom;
    said := seq(|fs|, n requires 0 <= n < |fs| => ReportAt(fs, n));
    ToldIs(fs, said, 0);
    assert said[0..] == said && fs[0..] == fs;
    forall n | 0 <= n < |fs| ensures IsReported(fs, n, said[n]) { ReportIs(fs, n); }
  }

  function Total(sizes: seq<nat>): nat {
    if sizes == [] then 0 else sizes[0] + Total(sizes[1..])
  }

  function TotalBytes(records: seq<bytes>): nat {
    if records == [] then 0 else |records[0]| + TotalBytes(records[1..])
  }

  lemma {:induction false} TotalAdds(a: seq<nat>, b: seq<nat>)
    ensures Total(a + b) == Total(a) + Total(b)
  {
    if a == [] {
      assert a + b == b;
    } else {
      TotalAdds(a[1..], b);
      assert (a + b)[0] == a[0] && (a + b)[1..] == a[1..] + b;
    }
  }

  /** The bytes the fragments hold, and those skipped in front of them. */
  function TotalHeld(fs: seq<Fragment>, n: nat): nat
    requires n <= |fs|
    decreases |fs| - n
  {
    if n == |fs| then 0
    else (if fs[n].typ == BAD then 0 else |fs[n].payload|) + Total(fs[n].drops) + TotalHeld(fs, n + 1)
  }

  function SizeOf(partial: Option<bytes>): nat {
    if partial.Some? then |partial.value| else 0
  }

  lemma StepAccounts(fs: seq<Fragment>, n: nat)
    requires n < |fs|
    ensures SizeOf(GatheredAt(fs, n)) + (if fs[n].typ == BAD then 0 else |fs[n].payload|) ==
            SizeOf(GatheredAt(fs, n + 1)) + Total(ReportAt(fs, n))
            + (if StartOf(fs, n) == None then 0 else |Joined(fs, StartOf(fs, n).value, n + 1)|)
  {
    JoinedStep(fs, n);
    hide Joined;
  }

  lemma {:induction false} AccountsFrom(fs: seq<Fragment>, n: nat)
    requires n <= |fs|
    ensures SizeOf(GatheredAt(fs, n)) + TotalHeld(fs, n) ==
            TotalBytes(RecordsFrom(fs, n)) + Total(ReportsFrom(fs, n)) + SizeOf(GatheredAt(fs, |fs|))
    decreases |fs| - n
  {
    hide GatheredAt, ReportAt, Joined, StartOf, Open, OpenAt, Total, TotalBytes, RecordsFrom;
    RecordsWeigh(fs, n);
    if n < |fs| {
      AccountsFrom(fs, n + 1);
      StepAccounts(fs, n);
      TotalAdds(fs[n].drops, ReportAt(fs, n));
      TotalAdds(fs[n].drops + ReportAt(fs, n), ReportsFrom(fs, n + 1));
    } else {
      assert ReportsFrom(fs, n) == [];
    }
  }

  lemma RecordsWeigh(fs: seq<Fragment>, n: nat)
    requires n <= |fs|
    ensures TotalBytes(RecordsFrom(fs, n)) ==
            if n == |fs| then 0
            else (if StartOf(fs, n) == None then 0 else |Joined(fs, StartOf(fs, n).value, n + 1)|) + TotalBytes(RecordsFrom(fs, n + 1))
    ensures Total([]) == 0
  {
    hide StartOf, Joined;
  }

  /** Conservation: every byte of a payload, and every byte skipped as unreadable, is in a
      record or in a report, but for those of a record within which the file ends. */
  lemma BytesAreAccounted(crc: Crc, checksum: bool, file: bytes, c: Cursor) returns (s: nat)
    requires Fits(file, c)
    ensures var fs, all := Fragments(crc, checksum, file, c), ReadAll(crc, checksum, file, c);
      && s <= |fs| && (s < |fs| ==> Open(fs, s, |fs|))
      && TotalHeld(fs, 0) == TotalBytes(all.0) + Total(all.1) + |Joined(fs, s, |fs|)|
  {
    var fs := Fragments(crc, checksum, file, c);
    AllFromStart(crc, checksum, file, c);
    AccountsFrom(fs, 0);
    OpenAtIs(fs, |fs|);
    assert GatheredAt(fs, 0) == None && Joined(fs, |fs|, |fs|) == [];
    s := if OpenAt(fs, |fs|) == None then |fs| else OpenAt(fs, |fs|).value;
  }
}
