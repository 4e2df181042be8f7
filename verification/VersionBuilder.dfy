/** Applying version edits: the builder that turns a base version and a run of
    edits into the next version. */
module VersionBuilder {
  import opened DbFormat
  import opened TableFiles
  import opened Versions
  import opened Coding

  datatype VersionEdit = VersionEdit(
    comparator: Option<bytes>,
    logNumber: Option<nat>,
    prevLogNumber: Option<nat>,
    nextFileNumber: Option<nat>,
    lastSequence: Option<nat>,
    compactPointers: seq<(nat, InternalKey)>,
    deletedFiles: set<(nat, nat)>,
    newFiles: seq<(nat, File)>)

  const EMPTY_EDIT := VersionEdit(None, None, None, None, None, [], {}, [])

  /** Files of a level are kept by smallest key, then by number. */
  predicate BySmallest(f: File, g: File) {
    Less(f.smallest, g.smallest) || (f.smallest == g.smallest && f.number < g.number)
  }

  ghost predicate SortedBySmallest(fs: seq<File>) {
    forall i, j :: 0 <= i < j < |fs| ==> BySmallest(fs[i], fs[j])
  }

  lemma BySmallestIsOrder(f: File, g: File, h: File)
    ensures BySmallest(f, g) ==> !BySmallest(g, f)
    ensures BySmallest(f, g) && BySmallest(g, h) ==> BySmallest(f, h)
    ensures BySmallest(f, g) || BySmallest(g, f) || (f.smallest == g.smallest && f.number == g.number)
  {
  }

  ghost function FileSet(fs: seq<File>): set<File> { set f | f in fs }

  lemma HeadInSet(b: seq<File>)
    requires b != []
    ensures b[0] in FileSet(b)
  {
  }

  /** Two sorted lists of the same files are the same list. */
  lemma {:induction false} SortedIsUnique(a: seq<File>, b: seq<File>)
    requires SortedBySmallest(a) && SortedBySmallest(b) && FileSet(a) == FileSet(b)
    ensures a == b
  {
    hide BySmallest;
    if a == [] {
      if b != [] { HeadInSet(b); }
    } else {
      assert a[0] in FileSet(a);
      assert b != [];
      SameHead(a, b);
      TailSet(a);
      TailSet(b);
      SortedIsUnique(a[1..], b[1..]);
      assert a == [a[0]] + a[1..] && b == [b[0]] + b[1..];
    }
  }

  lemma SameHead(a: seq<File>, b: seq<File>)
    requires SortedBySmallest(a) && SortedBySmallest(b) && FileSet(a) == FileSet(b) && a != [] && b != []
    ensures a[0] == b[0]
  {
    hide BySmallest;
    assert a[0] in FileSet(a) && b[0] in FileSet(b);
    var i :| 0 <= i < |b| && b[i] == a[0];
    var j :| 0 <= j < |a| && a[j] == b[0];
    BySmallestIsOrder(a[0], b[0], a[0]);
  }

  lemma TailSet(a: seq<File>)
    requires SortedBySmallest(a) && a != []
    ensures SortedBySmallest(a[1..]) && FileSet(a[1..]) == FileSet(a) - {a[0]}
  {
    hide BySmallest;
    forall f | f in a[1..] ensures f != a[0] {
      var i :| 0 <= i < |a[1..]| && a[1..][i] == f;
      assert BySmallest(a[0], a[i + 1]);
      BySmallestIsOrder(a[0], a[i + 1], a[0]);
    }
    forall f | f in FileSet(a) && f != a[0] ensures f in a[1..] {
      var i :| 0 <= i < |a| && a[i] == f;
      assert a[1..][i - 1] == f;
    }
  }

  // ------------------------------------------------------------ one level

  /** What a builder remembers of one level. */
  datatype LevelState = LevelState(deleted: set<nat>, added: seq<File>)

  /** Insertion into the ordered set of added files. */
  function InsertFile(fs: seq<File>, f: File): seq<File> {
    if fs == [] then [f]
    else if BySmallest(f, fs[0]) then [f] + fs
    else if BySmallest(fs[0], f) then [fs[0]] + InsertFile(fs[1..], f)
    else fs
  }

  lemma {:induction false} InsertFileSorted(fs: seq<File>, f: File)
    requires SortedBySmallest(fs)
    requires forall g :: g in fs ==> g.number != f.number
    ensures SortedBySmallest(InsertFile(fs, f)) && FileSet(InsertFile(fs, f)) == FileSet(fs) + {f}
  {
    hide BySmallest;
    if fs != [] {
      BySmallestIsOrder(f, fs[0], fs[0]);
      if BySmallest(f, fs[0]) {
        assert forall i :: 1 <= i < |[f] + fs| ==> ([f] + fs)[i] == fs[i - 1];
        forall i | 0 < i < |fs| ensures BySmallest(f, fs[i]) { BySmallestIsOrder(f, fs[0], fs[i]); }
      } else {
        assert fs[0] in fs;
        BySmallestIsOrder(f, fs[0], fs[0]);
        BySmallestEither(f, fs[0]);
        var rest := InsertFile(fs[1..], f);
        TailSet(fs);
        InsertFileSorted(fs[1..], f);
        var r := [fs[0]] + rest;
        forall i | 0 <= i < |rest| ensures BySmallest(fs[0], rest[i]) {
          assert rest[i] in FileSet(rest);
          if rest[i] != f {
            var j :| 0 <= j < |fs[1..]| && fs[1..][j] == rest[i];
            assert BySmallest(fs[0], fs[j + 1]);
          }
        }
        assert FileSet(r) == {fs[0]} + FileSet(rest);
        assert FileSet(fs) == {fs[0]} + FileSet(fs[1..]);
      }
    }
  }

  /** Inserting keeps the order, also of a file that is in the set by key and number. */
  lemma {:induction false} InsertStaysSorted(fs: seq<File>, f: File)
    requires SortedBySmallest(fs)
    ensures SortedBySmallest(InsertFile(fs, f))
    ensures FileSet(InsertFile(fs, f)) <= FileSet(fs) + {f}
  {
    hide BySmallest;
    if fs != [] {
      if BySmallest(f, fs[0]) {
        forall i | 0 < i < |fs| ensures BySmallest(f, fs[i]) { BySmallestIsOrder(f, fs[0], fs[i]); }
      } else if BySmallest(fs[0], f) {
        var rest := InsertFile(fs[1..], f);
        TailSet(fs);
        InsertStaysSorted(fs[1..], f);
        forall i | 0 <= i < |rest| ensures BySmallest(fs[0], rest[i]) {
          assert rest[i] in FileSet(rest);
          if rest[i] != f {
            assert rest[i] in FileSet(fs[1..]);
            var j :| 0 <= j < |fs[1..]| && fs[1..][j] == rest[i];
            assert BySmallest(fs[0], fs[j + 1]);
          }
        }
        assert FileSet([fs[0]] + rest) == {fs[0]} + FileSet(rest);
        assert FileSet(fs) == {fs[0]} + FileSet(fs[1..]);
      }
    }
  }

  lemma BySmallestEither(f: File, g: File)
    requires f.number != g.number
    ensures BySmallest(f, g) || BySmallest(g, f)
  {
  }

  /** Adding one file forgets an earlier deletion of its number. */
  function AddFile(st: LevelState, f: File): LevelState {
    LevelState(st.deleted - {f.number}, InsertFile(st.added, f))
  }

  function AddNewFiles(l: nat, nf: seq<(nat, File)>, st: LevelState): LevelState {
    if nf == [] then st
    else
      var n := |nf| - 1;
      var r := AddNewFiles(l, nf[..n], st);
      if nf[n].0 == l then AddFile(r, nf[n].1) else r
  }

  function DeletedIn(ps: set<(nat, nat)>, l: nat): set<nat> {
    set p | p in ps && p.0 == l :: p.1
  }

  function DeletedAt(edit: VersionEdit, l: nat): set<nat> { DeletedIn(edit.deletedFiles, l) }

  function ApplyLevel(l: nat, edit: VersionEdit, st: LevelState): LevelState {
    AddNewFiles(l, edit.newFiles, LevelState(st.deleted + DeletedAt(edit, l), st.added))
  }

  ghost function Added(nf: seq<(nat, File)>, l: nat): set<File> {
    set p | p in nf && p.0 == l :: p.1
  }

  ghost function AddedAt(edit: VersionEdit, l: nat): set<File> { Added(edit.newFiles, l) }

  ghost function Numbers(fs: set<File>): set<nat> { set f | f in fs :: f.number }

  /** The files of a level: base and added ones whose number is not deleted. */
  ghost function LiveFiles(base: set<File>, st: LevelState): set<File> {
    set f | f in base + FileSet(st.added) && f.number !in st.deleted
  }

  /** What one edit is meant to do to the files of a level. */
  ghost function EditFiles(files: set<File>, edit: VersionEdit, l: nat): set<File> {
    (set f | f in files && f.number !in DeletedAt(edit, l)) + AddedAt(edit, l)
  }

  /** The files an edit adds to a level have new numbers: distinct from each other
      and from everything in `known`. */
  ghost predicate FreshNumbers(nf: seq<(nat, File)>, l: nat, known: set<nat>) {
    && (forall i :: 0 <= i < |nf| && nf[i].0 == l ==> nf[i].1.number !in known)
    && (forall i, j :: 0 <= i < j < |nf| && nf[i].0 == l && nf[j].0 == l ==> nf[i].1.number != nf[j].1.number)
  }

  lemma AddedSnoc(nf: seq<(nat, File)>, l: nat)
    requires nf != []
    ensures Added(nf, l) == Added(nf[..|nf| - 1], l) + if nf[|nf| - 1].0 == l then {nf[|nf| - 1].1} else {}
  {
    var n := |nf| - 1;
    assert forall p :: p in nf <==> p in nf[..n] || p == nf[n];
  }

  lemma {:induction false} AddNewFilesEffect(l: nat, nf: seq<(nat, File)>, st: LevelState)
    requires SortedBySmallest(st.added) && FreshNumbers(nf, l, Numbers(FileSet(st.added)))
    ensures var r := AddNewFiles(l, nf, st);
            && SortedBySmallest(r.added)
            && FileSet(r.added) == FileSet(st.added) + Added(nf, l)
            && r.deleted == st.deleted - Numbers(Added(nf, l))
  {
    hide BySmallest;
    if nf != [] {
      var n := |nf| - 1;
      AddNewFilesEffect(l, nf[..n], st);
      AddedSnoc(nf, l);
      if nf[n].0 == l {
        var r := AddNewFiles(l, nf[..n], st);
        var f := nf[n].1;
        forall g | g in r.added ensures g.number != f.number {
          assert g in FileSet(r.added);
          if g in FileSet(st.added) {
            assert g.number in Numbers(FileSet(st.added));
          } else {
            var p :| p in nf[..n] && p.0 == l && p.1 == g;
          }
        }
        InsertFileSorted(r.added, f);
        assert Numbers(Added(nf, l)) == Numbers(Added(nf[..n], l)) + {f.number};
      }
    }
  }

  /** One edit applied to a builder level moves its live files as the edit says,
      provided the numbers it adds were never used on this level. */
  lemma ApplyIsEdit(base: set<File>, l: nat, edit: VersionEdit, st: LevelState)
    requires SortedBySmallest(st.added)
    requires FreshNumbers(edit.newFiles, l, Numbers(base + FileSet(st.added)))
    ensures SortedBySmallest(ApplyLevel(l, edit, st).added)
    ensures FileSet(ApplyLevel(l, edit, st).added) == FileSet(st.added) + AddedAt(edit, l)
    ensures LiveFiles(base, ApplyLevel(l, edit, st)) == EditFiles(LiveFiles(base, st), edit, l)
  {
    hide BySmallest;
    var start := LevelState(st.deleted + DeletedAt(edit, l), st.added);
    assert Numbers(FileSet(st.added)) <= Numbers(base + FileSet(st.added)) by {
      forall x | x in Numbers(FileSet(st.added)) ensures x in Numbers(base + FileSet(st.added)) {
        var f :| f in FileSet(st.added) && f.number == x;
        assert f in base + FileSet(st.added);
      }
    }
    AddNewFilesEffect(l, edit.newFiles, start);
    var r := ApplyLevel(l, edit, st);
    forall f | f in base + FileSet(st.added) ensures f.number !in Numbers(AddedAt(edit, l)) {
      assert f.number in Numbers(base + FileSet(st.added));
    }
    forall f | f in AddedAt(edit, l) ensures f.number in Numbers(AddedAt(edit, l)) && f.number !in r.deleted {
    }
  }

  // ------------------------------------------------------------- saving

  /** The files of one level of the next version: base and added files merged by
      smallest key, without the deleted ones. */
  ghost predicate IsSaved(base: seq<File>, st: LevelState, out: seq<File>) {
    SortedBySmallest(out) && FileSet(out) == LiveFiles(FileSet(base), st)
  }

  /** No file is both in the base and in the added set. */
  ghost predicate NoTies(base: seq<File>, added: seq<File>) {
    forall f, g :: f in base && g in added ==> f.number != g.number
  }

  method SaveLevel(base: seq<File>, st: LevelState) returns (out: seq<File>)
    requires SortedBySmallest(base) && SortedBySmallest(st.added) && NoTies(base, st.added)
    ensures IsSaved(base, st, out)
  {
    hide BySmallest;
    out := [];
    var b := 0;
    for a := 0 to |st.added|
      invariant 0 <= b <= |base|
      invariant SavedSoFar(base, st, b, a, out)
    {
      // all base files up to the upper bound of the added file
      while b < |base| && !BySmallest(st.added[a], base[b])
        invariant 0 <= b <= |base|
        invariant SavedSoFar(base, st, b, a, out)
      {
        TakeBase(base, st, b, a, out);
        out := MaybeAddFile(st, out, base[b]);
        b := b + 1;
      }
      TakeAdded(base, st, b, a, out);
      out := MaybeAddFile(st, out, st.added[a]);
    }
    while b < |base|
      invariant 0 <= b <= |base|
      invariant SavedSoFar(base, st, b, |st.added|, out)
    {
      TakeBase(base, st, b, |st.added|, out);
      out := MaybeAddFile(st, out, base[b]);
      b := b + 1;
    }
    assert base[..|base|] == base && st.added[..|st.added|] == st.added;
  }

  function MaybeAddFile(st: LevelState, out: seq<File>, f: File): seq<File> {
    if f.number in st.deleted then out else out + [f]
  }

  /** `out` is the merge of the first `b` base files and the first `a` added files;
      whatever is left of either list comes after all of `out`. */
  ghost predicate SavedSoFar(base: seq<File>, st: LevelState, b: nat, a: nat, out: seq<File>)
    requires b <= |base| && a <= |st.added|
  {
    && SortedBySmallest(out)
    && FileSet(out) == LiveFiles(FileSet(base[..b]), LevelState(st.deleted, st.added[..a]))
    && (forall i, f :: b <= i < |base| && f in out ==> BySmallest(f, base[i]))
    && (forall j, f :: a <= j < |st.added| && f in out ==> BySmallest(f, st.added[j]))
  }

  lemma SortedSnoc(out: seq<File>, f: File)
    requires SortedBySmallest(out) && forall g :: g in out ==> BySmallest(g, f)
    ensures SortedBySmallest(out + [f]) && FileSet(out + [f]) == FileSet(out) + {f}
  {
    hide BySmallest;
  }

  lemma TakeBase(base: seq<File>, st: LevelState, b: nat, a: nat, out: seq<File>)
    requires SortedBySmallest(base) && SortedBySmallest(st.added) && NoTies(base, st.added)
    requires b < |base| && a <= |st.added| && SavedSoFar(base, st, b, a, out)
    requires a < |st.added| ==> !BySmallest(st.added[a], base[b])
    ensures SavedSoFar(base, st, b + 1, a, MaybeAddFile(st, out, base[b]))
  {
    hide BySmallest;
    var f := base[b];
    forall j | a <= j < |st.added| ensures BySmallest(f, st.added[j]) {
      BySmallestEither(f, st.added[a]);
      BySmallestIsOrder(f, st.added[a], st.added[j]);
    }
    SortedSnoc(out, f);
    assert base[..b + 1] == base[..b] + [f];
    assert FileSet(base[..b + 1]) == FileSet(base[..b]) + {f};
  }

  lemma TakeAdded(base: seq<File>, st: LevelState, b: nat, a: nat, out: seq<File>)
    requires SortedBySmallest(base) && SortedBySmallest(st.added)
    requires b <= |base| && a < |st.added| && SavedSoFar(base, st, b, a, out)
    requires b < |base| ==> BySmallest(st.added[a], base[b])
    ensures SavedSoFar(base, st, b, a + 1, MaybeAddFile(st, out, st.added[a]))
  {
    hide BySmallest;
    var f := st.added[a];
    forall i | b <= i < |base| ensures BySmallest(f, base[i]) {
      BySmallestIsOrder(f, base[b], base[i]);
    }
    SortedSnoc(out, f);
    assert st.added[..a + 1] == st.added[..a] + [f];
    assert FileSet(st.added[..a + 1]) == FileSet(st.added[..a]) + {f};
  }

  // ------------------------------------------------------------ all levels

  ghost predicate ValidBase(v: Version) {
    && |v.files| == NUM_LEVELS
    && forall l :: 0 <= l < NUM_LEVELS ==> SortedBySmallest(v.files[l])
  }

  /** The builder state of all levels after a run of edits. */
  function ApplyAll(l: nat, edits: seq<VersionEdit>): LevelState {
    if edits == [] then LevelState({}, [])
    else ApplyLevel(l, edits[|edits| - 1], ApplyAll(l, edits[..|edits| - 1]))
  }

  /** Whatever the edits, the added files of a level stay an ordered set. */
  lemma {:induction false} AddedIsSorted(l: nat, edits: seq<VersionEdit>)
    ensures SortedBySmallest(ApplyAll(l, edits).added)
  {
    hide InsertFile, BySmallest;
    if edits != [] {
      var n := |edits| - 1;
      AddedIsSorted(l, edits[..n]);
      var st := ApplyAll(l, edits[..n]);
      AddingStaysSorted(l, edits[n].newFiles, LevelState(st.deleted + DeletedAt(edits[n], l), st.added));
    }
  }

  lemma {:induction false} AddingStaysSorted(l: nat, nf: seq<(nat, File)>, st: LevelState)
    requires SortedBySmallest(st.added)
    ensures SortedBySmallest(AddNewFiles(l, nf, st).added)
  {
    hide InsertFile, BySmallest;
    if nf != [] {
      var n := |nf| - 1;
      AddingStaysSorted(l, nf[..n], st);
      InsertStaysSorted(AddNewFiles(l, nf[..n], st).added, nf[n].1);
    }
  }

  class Builder {
    const base: Version
    var levels: array<LevelState>
    var compactPointers: map<nat, InternalKey>
    ghost var applied: seq<VersionEdit>

    constructor (base: Version)
      requires ValidBase(base)
      ensures this.base == base && Valid() && fresh(levels) && applied == [] && compactPointers == map[]
    {
      this.base := base;
      levels := new LevelState[NUM_LEVELS](_ => LevelState({}, []));
      compactPointers := map[];
      applied := [];
    }

    ghost predicate Valid()
      reads this, levels
    {
      && ValidBase(base) && levels.Length == NUM_LEVELS
      && forall l :: 0 <= l < NUM_LEVELS ==> levels[l] == ApplyAll(l, applied)
    }

    /** Applies one edit to all levels. */
    method Apply(edit: VersionEdit)
      requires Valid()
      requires forall p :: p in edit.deletedFiles ==> p.0 < NUM_LEVELS
      requires forall p :: p in edit.newFiles ==> p.0 < NUM_LEVELS
      modifies this`compactPointers, this`applied, levels
      ensures Valid() && applied == old(applied) + [edit] && levels == old(levels)
      ensures compactPointers == SetPointers(old(compactPointers), edit.compactPointers)
    {
      for i := 0 to |edit.compactPointers|
        invariant compactPointers == SetPointers(old(compactPointers), edit.compactPointers[..i])
        invariant unchanged(levels) && unchanged(this`applied)
      {
        assert edit.compactPointers[..i + 1][..i] == edit.compactPointers[..i];
        compactPointers := compactPointers[edit.compactPointers[i].0 := edit.compactPointers[i].1];
      }
      assert edit.compactPointers[..|edit.compactPointers|] == edit.compactPointers;
      ghost var start, pointers := levels[..], compactPointers;
      var pending := edit.deletedFiles;
      while pending != {}
        invariant pending <= edit.deletedFiles
        invariant unchanged(this`applied) && compactPointers == pointers
        invariant forall l :: 0 <= l < NUM_LEVELS ==>
                    && levels[l].deleted == start[l].deleted + (DeletedAt(edit, l) - DeletedIn(pending, l))
                    && levels[l].added == start[l].added
        decreases pending
      {
        var p :| p in pending;
        levels[p.0] := levels[p.0].(deleted := levels[p.0].deleted + {p.1});
        DeleteOne(edit, pending, p);
        pending := pending - {p};
      }
      ghost var emptied := levels[..];
      assert forall l :: DeletedIn({}, l) == {};
      for i := 0 to |edit.newFiles|
        invariant unchanged(this`applied) && compactPointers == pointers
        invariant forall l :: 0 <= l < NUM_LEVELS ==> levels[l] == AddNewFiles(l, edit.newFiles[..i], emptied[l])
      {
        var l, f := edit.newFiles[i].0, edit.newFiles[i].1;
        assert edit.newFiles[..i + 1][..i] == edit.newFiles[..i];
        assert edit.newFiles[i] in edit.newFiles;
        levels[l] := AddFile(levels[l], f);
      }
      assert edit.newFiles[..|edit.newFiles|] == edit.newFiles;
      applied := applied + [edit];
      assert applied[..|applied| - 1] == old(applied);
      forall l | 0 <= l < NUM_LEVELS ensures levels[l] == ApplyAll(l, applied) {
        assert emptied[l] == LevelState(start[l].deleted + DeletedAt(edit, l), start[l].added);
        assert levels[l] == ApplyLevel(l, edit, start[l]);
      }
    }

    /** Writes the files of all levels to a new version. */
    method SaveTo() returns (v: Version)
      requires Valid()
      requires forall l :: 0 <= l < NUM_LEVELS ==> NoTies(base.files[l], ApplyAll(l, applied).added)
      ensures |v.files| == NUM_LEVELS
      ensures forall l :: 0 <= l < NUM_LEVELS ==> IsSaved(base.files[l], ApplyAll(l, applied), v.files[l])
    {
      hide ApplyAll, SortedBySmallest, LiveFiles, NoTies, IsSaved;
      var files: seq<seq<File>> := [];
      for l := 0 to NUM_LEVELS
        invariant |files| == l
        invariant forall m :: 0 <= m < l ==> IsSaved(base.files[m], ApplyAll(m, applied), files[m])
      {
        AddedIsSorted(l, applied);
        var out := SaveLevel(base.files[l], levels[l]);
        files := files + [out];
      }
      v := Version(files);
    }
  }

  /** A level of a fresh run can be saved, and is saved as what the run leaves of it. */
  lemma FreshIsSaved(files: seq<File>, l: nat, applied: seq<VersionEdit>)
    requires FreshRun(FileSet(files), l, applied)
    ensures NoTies(files, ApplyAll(l, applied).added)
    ensures forall out :: IsSaved(files, ApplyAll(l, applied), out) ==>
              SortedBySmallest(out) && FileSet(out) == ReplayFiles(FileSet(files), l, applied)
  {
    var st := ApplyAll(l, applied);
    FusedRun(FileSet(files), l, applied);
    AddedAreNew(FileSet(files), l, applied);
    hide ApplyAll, ReplayFiles, SortedBySmallest, LiveFiles, FreshRun, EverAdded;
    forall f, g | f in files && g in st.added ensures f.number != g.number {
      assert f in FileSet(files) && g in FileSet(st.added);
    }
  }

  /** Every file number an edit adds to level `l` is new to that level. */
  ghost predicate FreshRun(base: set<File>, l: nat, edits: seq<VersionEdit>) {
    edits != [] ==>
      && FreshRun(base, l, edits[..|edits| - 1])
      && FreshNumbers(edits[|edits| - 1].newFiles, l, Numbers(base + EverAdded(l, edits[..|edits| - 1])))
  }

  ghost function EverAdded(l: nat, edits: seq<VersionEdit>): set<File> {
    if edits == [] then {} else EverAdded(l, edits[..|edits| - 1]) + AddedAt(edits[|edits| - 1], l)
  }

  /** Files a fresh run adds share no number with the base. */
  lemma {:induction false} AddedAreNew(base: set<File>, l: nat, edits: seq<VersionEdit>)
    requires FreshRun(base, l, edits)
    ensures forall f, g :: f in base && g in EverAdded(l, edits) ==> f.number != g.number
  {
    if edits != [] {
      var n := |edits| - 1;
      AddedAreNew(base, l, edits[..n]);
      forall f, g | f in base && g in AddedAt(edits[n], l) ensures f.number != g.number {
        assert f in base + EverAdded(l, edits[..n]);
        assert f.number in Numbers(base + EverAdded(l, edits[..n]));
        var p :| p in edits[n].newFiles && p.0 == l && p.1 == g;
      }
    }
  }

  /** The files of level `l` after a run of edits, one edit at a time. */
  ghost function ReplayFiles(base: set<File>, l: nat, edits: seq<VersionEdit>): set<File> {
    if edits == [] then base else EditFiles(ReplayFiles(base, l, edits[..|edits| - 1]), edits[|edits| - 1], l)
  }

  /** Applying a run of edits to one builder has the effect of applying them one
      after the other, as long as no file number is used twice on a level. */
  lemma {:induction false} FusedRun(base: set<File>, l: nat, edits: seq<VersionEdit>)
    requires FreshRun(base, l, edits)
    ensures SortedBySmallest(ApplyAll(l, edits).added)
    ensures FileSet(ApplyAll(l, edits).added) == EverAdded(l, edits)
    ensures LiveFiles(base, ApplyAll(l, edits)) == ReplayFiles(base, l, edits)
  {
    hide BySmallest, AddNewFiles;
    if edits != [] {
      FusedRun(base, l, edits[..|edits| - 1]);
      ApplyIsEdit(base, l, edits[|edits| - 1], ApplyAll(l, edits[..|edits| - 1]));
    } else {
      assert LiveFiles(base, LevelState({}, [])) == base;
    }
  }

  /** Saving once after all edits and saving after every single edit give the same
      list of files. `lists[i]` is level `l` after `i` edits. */
  lemma {:induction false} SavingOnceIsSavingEach(l: nat, edits: seq<VersionEdit>, lists: seq<seq<File>>, once: seq<File>)
    requires |lists| == |edits| + 1
    requires FreshRun(FileSet(lists[0]), l, edits)
    requires forall i :: 0 <= i < |edits| ==>
               IsSaved(lists[i], ApplyLevel(l, edits[i], LevelState({}, [])), lists[i + 1])
    requires |edits| == 0 ==> SortedBySmallest(lists[0])
    requires IsSaved(lists[0], ApplyAll(l, edits), once)
    ensures once == lists[|edits|]
  {
    hide BySmallest, ApplyLevel, ApplyAll, FreshRun, ReplayFiles, LiveFiles;
    EachIsReplay(l, edits, lists);
    FusedRun(FileSet(lists[0]), l, edits);
    SortedIsUnique(once, lists[|edits|]);
  }

  lemma {:induction false} EachIsReplay(l: nat, edits: seq<VersionEdit>, lists: seq<seq<File>>)
    requires |lists| == |edits| + 1
    requires FreshRun(FileSet(lists[0]), l, edits)
    requires forall i :: 0 <= i < |edits| ==>
               IsSaved(lists[i], ApplyLevel(l, edits[i], LevelState({}, [])), lists[i + 1])
    requires |edits| == 0 ==> SortedBySmallest(lists[0])
    ensures SortedBySmallest(lists[|edits|])
    ensures FileSet(lists[|edits|]) == ReplayFiles(FileSet(lists[0]), l, edits)
    ensures FileSet(lists[|edits|]) <= FileSet(lists[0]) + EverAdded(l, edits)
  {
    hide BySmallest, AddNewFiles;
    var n := |edits| - 1;
    if edits != [] {
      if n > 0 {
        EachIsReplay(l, edits[..n], lists[..n + 1]);
        assert lists[..n + 1][0] == lists[0] && lists[..n + 1][n] == lists[n];
      } else {
        assert edits[..n] == [];
      }
      assert FileSet(lists[n]) <= FileSet(lists[0]) + EverAdded(l, edits[..n]);
      StillFresh(edits[n].newFiles, l, FileSet(lists[n]), FileSet(lists[0]) + EverAdded(l, edits[..n]));
      ApplyIsEdit(FileSet(lists[n]), l, edits[n], LevelState({}, []));
      assert LiveFiles(FileSet(lists[n]), LevelState({}, [])) == FileSet(lists[n]);
    }
  }

  lemma StillFresh(nf: seq<(nat, File)>, l: nat, small: set<File>, large: set<File>)
    requires small <= large && FreshNumbers(nf, l, Numbers(large))
    ensures FreshNumbers(nf, l, Numbers(small + FileSet([])))
  {
    assert small + FileSet([]) == small;
    forall x | x in Numbers(small) ensures x in Numbers(large) {
      var f :| f in small && f.number == x;
      assert f in large;
    }
  }

  function SetPointers(m: map<nat, InternalKey>, ps: seq<(nat, InternalKey)>): map<nat, InternalKey> {
    if ps == [] then m else SetPointers(m, ps[..|ps| - 1])[ps[|ps| - 1].0 := ps[|ps| - 1].1]
  }

  lemma DeleteOne(edit: VersionEdit, pending: set<(nat, nat)>, p: (nat, nat))
    requires pending <= edit.deletedFiles && p in pending
    ensures DeletedAt(edit, p.0) - DeletedIn(pending - {p}, p.0) == (DeletedAt(edit, p.0) - DeletedIn(pending, p.0)) + {p.1}
    ensures forall l :: l != p.0 ==> DeletedIn(pending - {p}, l) == DeletedIn(pending, l)
  {
    assert p.1 in DeletedAt(edit, p.0);
    forall l | l != p.0 ensures DeletedIn(pending - {p}, l) == DeletedIn(pending, l) {
      forall x | x in DeletedIn(pending, l) ensures x in DeletedIn(pending - {p}, l) {
        assert (l, x) in pending - {p};
      }
    }
    forall x | x in DeletedIn(pending, p.0) && x != p.1 ensures x in DeletedIn(pending - {p}, p.0) {
      assert (p.0, x) in pending - {p};
    }
    forall x | x in DeletedIn(pending - {p}, p.0) ensures x != p.1 {
      assert (p.0, x) in pending - {p};
    }
  }
}
