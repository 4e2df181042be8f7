/** A version (the file lists of all levels) and the level-by-level lookup. */
module Versions {
  import opened DbFormat
  import opened TableFiles

  const NUM_LEVELS := 7

  /** A version never changes once it is installed. */
  datatype Version = Version(files: seq<seq<File>>)

  const EMPTY_VERSION := Version([[], [], [], [], [], [], []])

  ghost function Entries(fs: seq<File>): set<Entry> {
    set f, e | f in fs && e in f.entries :: e
  }

  ghost function Contents(v: Version): set<Entry> {
    set l, e | 0 <= l < |v.files| && e in Entries(v.files[l]) :: e
  }

  /** For every user key, all entries of `a` are newer than all those of `b`. */
  ghost predicate Newer(a: set<Entry>, b: set<Entry>) {
    forall x, y :: x in a && y in b && x.user == y.user ==> x.sn > y.sn
  }

  ghost function EntrySet(es: seq<Entry>): set<Entry> { set e | e in es }

  ghost function FileEntries(f: File): set<Entry> { EntrySet(f.entries) }

  /** Level-0 files may overlap; a larger file number means newer entries. */
  ghost predicate LevelZeroOrder(fs: seq<File>) {
    && ValidFiles(fs)
    && (forall f, g :: f in fs && g in fs && f.number == g.number ==> f == g)
    && (forall f, g :: f in fs && g in fs && f.number > g.number ==> Newer(FileEntries(f), FileEntries(g)))
  }

  /** The LSM invariant. */
  ghost predicate ValidVersion(v: Version) {
    && |v.files| == NUM_LEVELS
    && LevelZeroOrder(v.files[0])
    && (forall l :: 1 <= l < NUM_LEVELS ==> DisjointSorted(v.files[l]))
    && (forall l, m :: 0 <= l < m < NUM_LEVELS ==> Newer(Entries(v.files[l]), Entries(v.files[m])))
  }

  lemma LevelIsValid(v: Version, l: nat)
    requires ValidVersion(v) && l < NUM_LEVELS
    ensures ValidFiles(v.files[l])
  {
  }

  // ------------------------------------------------- one more sorted entry

  function WithEntry(es: seq<Entry>, e: Entry): seq<Entry> {
    var n := SeekIndex(es, e.Key());
    es[..n] + [e] + es[n..]
  }

  lemma WithEntryIsSorted(es: seq<Entry>, e: Entry)
    requires SortedEntries(es) && forall o :: o in es ==> o.Key() != e.Key()
    ensures SortedEntries(WithEntry(es, e)) && EntrySet(WithEntry(es, e)) == EntrySet(es) + {e}
  {
    InsertIsSorted(es, e, SeekIndex(es, e.Key()));
  }

  lemma InsertIsSorted(mem: seq<Entry>, e: Entry, n: nat)
    requires SortedEntries(mem) && n <= |mem| && forall o :: o in mem ==> o.Key() != e.Key()
    requires forall i :: 0 <= i < n ==> Less(mem[i].Key(), e.Key())
    requires n < |mem| ==> !Less(mem[n].Key(), e.Key())
    ensures SortedEntries(mem[..n] + [e] + mem[n..])
    ensures EntrySet(mem[..n] + [e] + mem[n..]) == EntrySet(mem) + {e}
  {
    var r := mem[..n] + [e] + mem[n..];
    if n < |mem| {
      assert mem[n] in mem;
      LessIsTotal(mem[n].Key(), e.Key());
    }
    InsertMembers(mem, e, n);
    forall i, j | 0 <= i < j < |r| ensures Less(r[i].Key(), r[j].Key()) {
      InsertInOrder(mem, e, n, i, j);
    }
  }

  lemma InsertMembers(mem: seq<Entry>, e: Entry, n: nat)
    requires n <= |mem|
    ensures EntrySet(mem[..n] + [e] + mem[n..]) == EntrySet(mem) + {e}
  {
    assert mem == mem[..n] + mem[n..];
  }

  lemma InsertInOrder(mem: seq<Entry>, e: Entry, n: nat, i: nat, j: nat)
    requires SortedEntries(mem) && n <= |mem| && i < j <= |mem|
    requires forall k :: 0 <= k < n ==> Less(mem[k].Key(), e.Key())
    requires n < |mem| ==> Less(e.Key(), mem[n].Key())
    ensures var r := mem[..n] + [e] + mem[n..]; Less(r[i].Key(), r[j].Key())
  {
    var r := mem[..n] + [e] + mem[n..];
    assert r[i] == if i < n then mem[i] else if i == n then e else mem[i - 1];
    assert r[j] == if j < n then mem[j] else if j == n then e else mem[j - 1];
    hide Less;
    if i == n && j > n + 1 { LessIsTransitive(e.Key(), mem[n].Key(), mem[j - 1].Key()); }
  }

  /** `S` holds nothing of `k` that snapshot `s` may see. */
  ghost predicate NothingFor(S: set<Entry>, k: UserKey, s: nat) {
    forall e :: e in S && e.user == k ==> e.sn > s
  }

  // ------------------------------------------------------------- lookups

  datatype SaverState = SaverNotFound | SaverFound(value: string) | SaverDeleted

  /** The answer of one source of entries: its newest visible entry, if any. */
  ghost predicate Answers(S: set<Entry>, k: UserKey, s: nat, r: SaverState) {
    match r
    case SaverNotFound => NothingFor(S, k, s)
    case SaverFound(v) => exists e :: IsNewest(S, k, s, e) && e.typ.Value? && e.value == v
    case SaverDeleted => exists e :: IsNewest(S, k, s, e) && e.typ.Deletion?
  }

  function Saved(e: Entry): SaverState {
    if e.typ.Value? then SaverFound(e.value) else SaverDeleted
  }

  /** A seek in sorted entries followed by the user-key check of `SaveValue`. */
  method SearchEntries(es: seq<Entry>, k: UserKey, s: Sequence) returns (r: SaverState)
    requires SortedEntries(es)
    ensures Answers(EntrySet(es), k, s, r)
  {
    var ikey := LookupKey(k, s);
    var n := SeekIndex(es, ikey);
    if n < |es| && es[n].user == k {
      r := Saved(es[n]);
      forall o | o in es && o.user == k && o.sn <= s ensures o.sn <= es[n].sn {
        var j :| 0 <= j < |es| && es[j] == o;
        assert j < n ==> Less(es[j].Key(), ikey);
        assert n < j ==> Less(es[n].Key(), es[j].Key());
      }
      assert IsNewest(EntrySet(es), k, s, es[n]);
    } else {
      r := SaverNotFound;
      forall o | o in es && o.user == k ensures o.sn > s {
        var j :| 0 <= j < |es| && es[j] == o;
        assert n < j ==> Less(es[n].Key(), es[j].Key());
      }
    }
  }

  lemma AnswerWitness(S: set<Entry>, k: UserKey, s: nat, r: SaverState) returns (e: Entry)
    requires r != SaverNotFound && Answers(S, k, s, r)
    ensures IsNewest(S, k, s, e) && Saved(e) == r
  {
    match r
    case SaverFound(v) => e :| IsNewest(S, k, s, e) && e.typ.Value? && e.value == v;
    case SaverDeleted => e :| IsNewest(S, k, s, e) && e.typ.Deletion?;
  }

  /** Combining a newer source with an older one. */
  lemma AnswerFirst(A: set<Entry>, B: set<Entry>, k: UserKey, s: nat, r: SaverState)
    requires Newer(A, B) && Answers(A, k, s, r) && r != SaverNotFound
    ensures Answers(A + B, k, s, r)
  {
    var e := AnswerWitness(A, k, s, r);
    assert IsNewest(A + B, k, s, e);
  }

  lemma AnswerSecond(A: set<Entry>, B: set<Entry>, k: UserKey, s: nat, r: SaverState)
    requires NothingFor(A, k, s) && Answers(B, k, s, r)
    ensures Answers(A + B, k, s, r)
  {
    if r != SaverNotFound {
      var e := AnswerWitness(B, k, s, r);
      assert IsNewest(A + B, k, s, e);
    }
  }

  lemma AnswerIsVisible(S: set<Entry>, k: UserKey, s: nat, r: SaverState)
    requires UniqueSeqs(S) && Answers(S, k, s, r)
    ensures Visible(S, k, s) == if r.SaverFound? then Some(r.value) else None
  {
    if r != SaverNotFound {
      var e := AnswerWitness(S, k, s, r);
      VisibleIs(S, k, s, e);
    }
  }

  /** `fs` sorted by decreasing file number. */
  function NewestFirst(fs: seq<File>): (r: seq<File>)
    ensures forall f :: f in r <==> f in fs
    ensures forall i, j :: 0 <= i < j < |r| ==> r[i].number >= r[j].number
  {
    if fs == [] then [] else InsertNewest(fs[0], NewestFirst(fs[1..]))
  }

  function InsertNewest(f: File, fs: seq<File>): (r: seq<File>)
    requires forall i, j :: 0 <= i < j < |fs| ==> fs[i].number >= fs[j].number
    ensures forall g :: g in r <==> g == f || g in fs
    ensures forall i, j :: 0 <= i < j < |r| ==> r[i].number >= r[j].number
  {
    if fs == [] then [f]
    else if f.number >= fs[0].number then [f] + fs
    else
      var rest := InsertNewest(f, fs[1..]);
      assert forall g :: g in rest ==> g.number <= fs[0].number;
      [fs[0]] + rest
  }

  /** `tmp` lists, newest first, the level-0 files whose range holds `k`. */
  ghost predicate Candidates(fs: seq<File>, k: UserKey, tmp: seq<File>) {
    && (forall f :: f in tmp <==> f in fs && Overlaps(f, Some(k), Some(k)))
    && (forall i, j :: 0 <= i < j < |tmp| ==> tmp[i].number >= tmp[j].number)
  }

  lemma CandidateHit(fs: seq<File>, tmp: seq<File>, i: nat, k: UserKey, s: nat, r: SaverState)
    requires LevelZeroOrder(fs) && Candidates(fs, k, tmp) && i < |tmp|
    requires forall j :: 0 <= j < i ==> NothingFor(FileEntries(tmp[j]), k, s)
    requires r != SaverNotFound && Answers(FileEntries(tmp[i]), k, s, r)
    ensures Answers(Entries(fs), k, s, r)
  {
    var e := AnswerWitness(FileEntries(tmp[i]), k, s, r);
    var g := tmp[i];
    assert g in tmp && g in fs && e in g.entries;
    forall f, o | f in fs && o in f.entries && o.user == k && o.sn <= s ensures o.sn <= e.sn {
      CandidateIsNewest(fs, tmp, i, k, s, e, f, o);
    }
    assert IsNewest(Entries(fs), k, s, e);
  }

  /** An entry of some file is not newer than the newest of the first candidate with any. */
  lemma CandidateIsNewest(fs: seq<File>, tmp: seq<File>, i: nat, k: UserKey, s: nat, e: Entry, f: File, o: Entry)
    requires LevelZeroOrder(fs) && Candidates(fs, k, tmp) && i < |tmp|
    requires forall j :: 0 <= j < i ==> NothingFor(FileEntries(tmp[j]), k, s)
    requires IsNewest(FileEntries(tmp[i]), k, s, e) && f in fs && o in f.entries && o.user == k && o.sn <= s
    ensures o.sn <= e.sn
  {
    FileBounds(f, o);
    hide SortedEntries, ValidFile;
    assert f in tmp && o in FileEntries(f);
    var j :| 0 <= j < |tmp| && tmp[j] == f;
    assert !NothingFor(FileEntries(f), k, s);
    assert tmp[i] in tmp;
    if i < j && f != tmp[i] {
      assert Newer(FileEntries(tmp[i]), FileEntries(f));
    }
  }

  lemma CandidateMiss(fs: seq<File>, tmp: seq<File>, k: UserKey, s: nat)
    requires ValidFiles(fs) && Candidates(fs, k, tmp)
    requires forall j :: 0 <= j < |tmp| ==> NothingFor(FileEntries(tmp[j]), k, s)
    ensures NothingFor(Entries(fs), k, s)
  {
    forall o | o in Entries(fs) && o.user == k ensures o.sn > s {
      var f :| f in fs && o in f.entries;
      FileBounds(f, o);
      assert f in tmp && o in FileEntries(f);
    }
  }

  method CollectCandidates(fs: seq<File>, k: UserKey) returns (tmp: seq<File>)
    ensures Candidates(fs, k, tmp)
  {
    tmp := [];
    for i := 0 to |fs|
      invariant tmp == Overlapping(fs[..i], Some(k), Some(k))
    {
      assert fs[..i + 1][..i] == fs[..i];
      if k >= fs[i].smallest.user && k <= fs[i].largest.user {
        tmp := tmp + [fs[i]];
      }
    }
    assert fs[..|fs|] == fs;
    tmp := NewestFirst(tmp);
  }

  /** Level 0: every file whose user-key range holds `k`, newest file first. */
  method SearchLevelZero(fs: seq<File>, k: UserKey, s: Sequence) returns (r: SaverState)
    requires LevelZeroOrder(fs)
    ensures Answers(Entries(fs), k, s, r)
  {
    var tmp := CollectCandidates(fs, k);
    for i := 0 to |tmp|
      invariant forall j :: 0 <= j < i ==> NothingFor(FileEntries(tmp[j]), k, s)
    {
      assert tmp[i] in tmp;
      r := SearchEntries(tmp[i].entries, k, s);
      if r != SaverNotFound {
        CandidateHit(fs, tmp, i, k, s, r);
        return;
      }
    }
    r := SaverNotFound;
    CandidateMiss(fs, tmp, k, s);
  }

  /** A deeper level: only the one file a binary search lands on is read, even
      when entries of `k` continue in the next file. */
  method SearchDisjointLevel(fs: seq<File>, k: UserKey, s: Sequence) returns (r: SaverState)
    requires DisjointSorted(fs)
    ensures Answers(Entries(fs), k, s, r)
  {
    var ikey := LookupKey(k, s);
    var index := FindFile(fs, ikey);
    forall i, o | 0 <= i < index && o in fs[i].entries && o.user == k ensures o.sn > s {
      FileBounds(fs[i], o);
    }
    if index >= |fs| || k < fs[index].smallest.user {
      r := SaverNotFound;
      forall o | o in Entries(fs) && o.user == k ensures o.sn > s {
        var i :| 0 <= i < |fs| && o in fs[i].entries;
        FileBounds(fs[i], o);
        if index < i { LevelOrder(fs, index, i); }
      }
      return;
    }
    var f := fs[index];
    assert f in fs;
    r := SearchEntries(f.entries, k, s);
    if r == SaverNotFound {
      var last := f.entries[|f.entries| - 1];
      assert last in FileEntries(f) && AtMost(ikey, last.Key());
      forall o | o in Entries(fs) && o.user == k ensures o.sn > s {
        var i :| 0 <= i < |fs| && o in fs[i].entries;
        if index < i { EarlierFileIsNewer(fs, index, i, last, o); }
        assert i == index ==> o in FileEntries(f);
      }
    } else {
      ghost var e := AnswerWitness(FileEntries(f), k, s, r);
      forall o | o in Entries(fs) && o.user == k && o.sn <= s ensures o.sn <= e.sn {
        var i :| 0 <= i < |fs| && o in fs[i].entries;
        if index < i { EarlierFileIsNewer(fs, index, i, e, o); }
        assert i == index ==> o in FileEntries(f);
      }
      assert e in f.entries;
      assert IsNewest(Entries(fs), k, s, e);
    }
  }

  ghost function ContentsUpTo(v: Version, n: nat): set<Entry>
    requires n <= |v.files|
  {
    set l, e | 0 <= l < n && e in Entries(v.files[l]) :: e
  }

  lemma AnswerAtLevel(v: Version, level: nat, k: UserKey, s: nat, r: SaverState)
    requires ValidVersion(v) && level < NUM_LEVELS
    requires NothingFor(ContentsUpTo(v, level), k, s)
    requires r != SaverNotFound && Answers(Entries(v.files[level]), k, s, r)
    ensures Answers(Contents(v), k, s, r)
  {
    var S, above := Entries(v.files[level]), ContentsUpTo(v, level);
    var e := AnswerWitness(S, k, s, r);
    forall o | o in Contents(v) && o.user == k && o.sn <= s ensures o.sn <= e.sn {
      var l :| 0 <= l < NUM_LEVELS && o in Entries(v.files[l]);
      assert l < level ==> o in above;
    }
    assert IsNewest(Contents(v), k, s, e);
  }

  /** The early-exit lookup through all levels answers with the globally newest
      visible entry. */
  method VersionGet(v: Version, k: UserKey, s: Sequence) returns (r: SaverState)
    requires ValidVersion(v)
    ensures Answers(Contents(v), k, s, r)
  {
    for level := 0 to NUM_LEVELS
      invariant NothingFor(ContentsUpTo(v, level), k, s)
    {
      if |v.files[level]| != 0 {
        if level == 0 {
          r := SearchLevelZero(v.files[0], k, s);
        } else {
          r := SearchDisjointLevel(v.files[level], k, s);
        }
        if r != SaverNotFound {
          AnswerAtLevel(v, level, k, s, r);
          return;
        }
      }
    }
    assert Contents(v) == ContentsUpTo(v, NUM_LEVELS);
    r := SaverNotFound;
  }
}
