/** The database object: reads, writes, memtable flushes and compactions as the
    engine performs them, each tied to a step of module `Lsm`. */
module Db {
  import opened DbFormat
  import opened TableFiles
  import opened Versions
  import opened CompactionInputs
  import opened VersionBuilder
  import opened LevelShape
  import opened DropRule
  import opened CompactionWork
  import opened Lsm
  import DbIters

  // ------------------------------------------------------- installing edits

  lemma FilesInvSorted(v: Version, n: nat)
    requires FilesInv(v, n)
    ensures ValidBase(v)
  {
    FilesParts(v, n);
    ShapeOf(v);
    hide *;
    forall l | 1 <= l < NUM_LEVELS ensures SortedBySmallest(v.files[l]) {
      DisjointIsApart(v.files[l]);
    }
    AssembleLists(v);
  }

  lemma AssembleLists(v: Version)
    requires |v.files| == NUM_LEVELS && SortedBySmallest(v.files[0])
    requires forall l :: 1 <= l < NUM_LEVELS ==> SortedBySmallest(v.files[l])
    ensures ValidBase(v)
  {
    hide SortedBySmallest;
  }

  /** The deletions and additions a compaction records. */
  function CompactionEdit(level: nat, in0: seq<File>, in1: seq<File>, outs: seq<File>, pointer: InternalKey): VersionEdit {
    EMPTY_EDIT.(
    compactPointers := [(level, pointer)],
    deletedFiles := (set f | f in in0 :: (level, f.number)) + (set f | f in in1 :: (level + 1, f.number)),
    newFiles := seq(|outs|, i requires 0 <= i < |outs| => (level + 1, outs[i])))
  }

  lemma EditAdds(level: nat, in0: seq<File>, in1: seq<File>, outs: seq<File>, pointer: InternalKey, l: nat)
    ensures AddedAt(CompactionEdit(level, in0, in1, outs, pointer), l) == if l == level + 1 then FileSet(outs) else {}
  {
    var nf := CompactionEdit(level, in0, in1, outs, pointer).newFiles;
    forall f | f in outs ensures (level + 1, f) in nf {
      var i :| 0 <= i < |outs| && outs[i] == f;
      assert nf[i] == (level + 1, f);
    }
    assert forall p :: p in nf ==> p.0 == level + 1 && p.1 in outs;
  }

  lemma EditDeletes(level: nat, in0: seq<File>, in1: seq<File>, outs: seq<File>, pointer: InternalKey, l: nat)
    ensures DeletedAt(CompactionEdit(level, in0, in1, outs, pointer), l) ==
            if l == level then Numbers(FileSet(in0)) else if l == level + 1 then Numbers(FileSet(in1)) else {}
  {
    var del := CompactionEdit(level, in0, in1, outs, pointer).deletedFiles;
    forall f | f in in0 ensures (level, f.number) in del {}
    forall f | f in in1 ensures (level + 1, f.number) in del {}
    var d := DeletedIn(del, l);
    forall n | n in Numbers(FileSet(in0)) && l == level ensures n in d {
      var f :| f in FileSet(in0) && f.number == n;
      assert (level, n) in del;
    }
    forall n | n in Numbers(FileSet(in1)) && l == level + 1 ensures n in d {
      var f :| f in FileSet(in1) && f.number == n;
      assert (level + 1, n) in del;
    }
    forall n | n in d
      ensures l == level ==> n in Numbers(FileSet(in0))
      ensures l == level + 1 ==> n in Numbers(FileSet(in1))
      ensures l == level || l == level + 1
    {
      var p :| p in del && p.0 == l && p.1 == n;
      if p in (set f | f in in0 :: (level, f.number)) {
        var f :| f in in0 && p == (level, f.number);
        assert f in FileSet(in0);
      } else {
        var f :| f in in1 && p == (level + 1, f.number);
        assert f in FileSet(in1);
      }
    }
  }

  /** Deleting by number removes exactly the named files when numbers are unique. */
  lemma DeletingByNumber(files: set<File>, gone: set<File>)
    requires gone <= files
    requires forall f, g :: f in files && g in files && f.number == g.number ==> f == g
    ensures (set f | f in files && f.number !in Numbers(gone)) == files - gone
  {
    forall f | f in gone ensures f.number in Numbers(gone) {}
    forall f | f in files && f.number in Numbers(gone) ensures f in gone {
      var g :| g in gone && g.number == f.number;
    }
  }

  lemma UniqueAtLevel(v: Version, l: nat)
    requires UniqueNumbers(v) && l < |v.files|
    ensures forall f, g :: f in FileSet(v.files[l]) && g in FileSet(v.files[l]) && f.number == g.number ==> f == g
  {
  }

  lemma {:induction false} OneEdit(base: set<File>, l: nat, edit: VersionEdit)
    ensures ReplayFiles(base, l, [edit]) == EditFiles(base, edit, l)
    ensures FreshRun(base, l, [edit]) <==> FreshNumbers(edit.newFiles, l, Numbers(base))
  {
    assert [edit][..0] == [];
    assert base + EverAdded(l, []) == base;
  }

  /** What the builder makes of a compaction edit is the installed version. */
  lemma EditInstalls(v: Version, level: nat, in0: seq<File>, in1: seq<File>, outs: seq<File>, pointer: InternalKey, w: Version)
    requires ValidBase(v) && UniqueNumbers(v) && level + 1 < NUM_LEVELS
    requires forall f :: f in in0 ==> f in v.files[level]
    requires forall f :: f in in1 ==> f in v.files[level + 1]
    requires ValidBase(w)
    requires var edit := CompactionEdit(level, in0, in1, outs, pointer);
             forall l :: 0 <= l < NUM_LEVELS ==> FileSet(w.files[l]) == EditFiles(FileSet(v.files[l]), edit, l)
    ensures Installed(v, level, in0, in1, outs, w)
  {
    hide SortedBySmallest, UniqueNumbers, CompactionEdit, DeletedAt, AddedAt;
    forall l | 0 <= l < NUM_LEVELS
      ensures l == level ==> FileSet(w.files[l]) == FileSet(v.files[l]) - FileSet(in0)
      ensures l == level + 1 ==> FileSet(w.files[l]) == FileSet(v.files[l]) - FileSet(in1) + FileSet(outs)
      ensures l != level && l != level + 1 ==> w.files[l] == v.files[l]
    {
      EditAdds(level, in0, in1, outs, pointer, l);
      EditDeletes(level, in0, in1, outs, pointer, l);
      UniqueAtLevel(v, l);
      var gone := if l == level then FileSet(in0) else if l == level + 1 then FileSet(in1) else {};
      assert Numbers({}) == {};
      DeletingByNumber(FileSet(v.files[l]), gone);
      if l != level && l != level + 1 { SortedIsUnique(w.files[l], v.files[l]); }
    }
  }

  ghost predicate NewNumbers(files: seq<File>, outs: seq<File>) {
    && (forall i, f :: 0 <= i < |outs| && f in files ==> outs[i].number != f.number)
    && (forall i, j :: 0 <= i < j < |outs| ==> outs[i].number != outs[j].number)
  }

  lemma EditIsFresh(v: Version, level: nat, in0: seq<File>, in1: seq<File>, outs: seq<File>, pointer: InternalKey, l: nat)
    requires |v.files| == NUM_LEVELS && level + 1 < NUM_LEVELS && l < NUM_LEVELS
    requires NewNumbers(v.files[level + 1], outs)
    ensures FreshRun(FileSet(v.files[l]), l, [CompactionEdit(level, in0, in1, outs, pointer)])
  {
    var edit := CompactionEdit(level, in0, in1, outs, pointer);
    OneEdit(FileSet(v.files[l]), l, edit);
    forall i | 0 <= i < |edit.newFiles| && edit.newFiles[i].0 == l
      ensures edit.newFiles[i].1.number !in Numbers(FileSet(v.files[l]))
    {
      assert edit.newFiles[i] == (level + 1, outs[i]);
    }
  }

  /** Builds the next version from one edit. */
  method ApplyEdit(v: Version, edit: VersionEdit) returns (w: Version)
    requires ValidBase(v)
    requires forall p :: p in edit.deletedFiles ==> p.0 < NUM_LEVELS
    requires forall p :: p in edit.newFiles ==> p.0 < NUM_LEVELS
    requires forall l :: 0 <= l < NUM_LEVELS ==> FreshRun(FileSet(v.files[l]), l, [edit])
    ensures ValidBase(w)
    ensures forall l :: 0 <= l < NUM_LEVELS ==> FileSet(w.files[l]) == EditFiles(FileSet(v.files[l]), edit, l)
  {
    hide SortedBySmallest, FreshRun, ApplyAll, EditFiles, LiveFiles, NoTies, IsSaved;
    var builder := new Builder(v);
    builder.Apply(edit);
    assert builder.applied == [edit];
    forall l | 0 <= l < NUM_LEVELS ensures NoTies(v.files[l], ApplyAll(l, [edit]).added) {
      FreshIsSaved(v.files[l], l, [edit]);
    }
    w := builder.SaveTo();
    forall l | 0 <= l < NUM_LEVELS
      ensures SortedBySmallest(w.files[l]) && FileSet(w.files[l]) == EditFiles(FileSet(v.files[l]), edit, l)
    {
      FreshIsSaved(v.files[l], l, [edit]);
      OneEdit(FileSet(v.files[l]), l, edit);
    }
  }

  /** Replaces the inputs of a compaction by its outputs in the current version. */
  method InstallCompaction(v: Version, level: nat, in0: seq<File>, in1: seq<File>, outs: seq<File>, pointer: InternalKey)
    returns (w: Version)
    requires ValidBase(v) && UniqueNumbers(v) && level + 1 < NUM_LEVELS
    requires forall f :: f in in0 ==> f in v.files[level]
    requires forall f :: f in in1 ==> f in v.files[level + 1]
    requires NewNumbers(v.files[level + 1], outs)
    ensures Installed(v, level, in0, in1, outs, w)
  {
    hide SortedBySmallest, UniqueNumbers, FreshRun, EditFiles, NewNumbers, Installed;
    var edit := CompactionEdit(level, in0, in1, outs, pointer);
    forall l | 0 <= l < NUM_LEVELS ensures FreshRun(FileSet(v.files[l]), l, [edit]) {
      EditIsFresh(v, level, in0, in1, outs, pointer, l);
    }
    w := ApplyEdit(v, edit);
    EditInstalls(v, level, in0, in1, outs, pointer, w);
  }

  /** Adds one table to a level of the current version. */
  method InstallTable(v: Version, level: nat, f: File) returns (w: Version)
    requires ValidBase(v) && NewestNumber(v, f.number) && level < NUM_LEVELS
    ensures Flushed(v, level, f, w)
  {
    hide SortedBySmallest;
    var edit := EMPTY_EDIT.(newFiles := [(level, f)]);
    forall l | 0 <= l < NUM_LEVELS ensures FreshRun(FileSet(v.files[l]), l, [edit]) {
      OneEdit(FileSet(v.files[l]), l, edit);
    }
    w := ApplyEdit(v, edit);
    forall l | 0 <= l < NUM_LEVELS
      ensures l == level ==> FileSet(w.files[l]) == FileSet(v.files[l]) + {f}
      ensures l != level ==> w.files[l] == v.files[l]
    {
      assert DeletedAt(edit, l) == {};
      assert edit.newFiles[0] == (level, f);
      assert AddedAt(edit, l) == if l == level then {f} else {};
      if l != level { SortedIsUnique(w.files[l], v.files[l]); }
    }
  }

  // ------------------------------------------------------------ memtables

  /** A memtable is kept as its sorted list of entries; module `MemTables` keeps one with the
      skip list, by the same contract. */
  method AddEntry(mem: seq<Entry>, e: Entry) returns (r: seq<Entry>)
    requires SortedEntries(mem) && forall o :: o in mem ==> o.Key() != e.Key()
    ensures SortedEntries(r) && EntrySet(r) == EntrySet(mem) + {e}
  {
    r := WithEntry(mem, e);
    WithEntryIsSorted(mem, e);
  }

  // ------------------------------------------------- inputs have no common keys

  lemma LevelZeroSharesNothing(fs: seq<File>)
    requires LevelZeroOrder(fs) && SortedBySmallest(fs)
    ensures NoSharedKeys(fs)
  {
    hide Less;
    forall i, j, x, y | 0 <= i < j < |fs| && x in fs[i].entries && y in fs[j].entries ensures x.Key() != y.Key() {
      var f, g := fs[i], fs[j];
      assert BySmallest(f, g);
      BySmallestIsOrder(f, g, f);
      assert f in fs && g in fs && f.number != g.number;
      assert x in FileEntries(f) && y in FileEntries(g);
      assert Newer(FileEntries(f), FileEntries(g)) || Newer(FileEntries(g), FileEntries(f));
    }
  }

  lemma DisjointSharesNothing(fs: seq<File>)
    requires DisjointSorted(fs)
    ensures NoSharedKeys(fs)
  {
    hide Less;
    forall i, j, x, y | 0 <= i < j < |fs| && x in fs[i].entries && y in fs[j].entries ensures x.Key() != y.Key() {
      EarlierFileIsNewer(fs, i, j, x, y);
      LessIsAsymmetric(x.Key(), y.Key());
    }
  }

  lemma {:induction false} OverlappingSharesNothing(fs: seq<File>, lo: Option<UserKey>, hi: Option<UserKey>)
    requires NoSharedKeys(fs)
    ensures NoSharedKeys(Overlapping(fs, lo, hi))
  {
    hide Less, Overlaps;
    if fs != [] {
      var n := |fs| - 1;
      var rest := Overlapping(fs[..n], lo, hi);
      OverlappingSharesNothing(fs[..n], lo, hi);
      forall f, x, y | f in rest && x in f.entries && y in fs[n].entries ensures x.Key() != y.Key() {
        assert f in fs[..n];
        var i :| 0 <= i < n && fs[i] == f;
      }
      OneMoreSharesNothing(rest, fs[n]);
    }
  }

  lemma OneMoreSharesNothing(fs: seq<File>, f: File)
    requires NoSharedKeys(fs)
    requires forall g, x, y :: g in fs && x in g.entries && y in f.entries ==> x.Key() != y.Key()
    ensures NoSharedKeys(fs + [f])
  {
  }

  lemma SliceSharesNothing(fs: seq<File>, a: nat, b: nat)
    requires NoSharedKeys(fs) && a <= b <= |fs|
    ensures NoSharedKeys(fs[a..b])
  {
    forall i, j, x, y | 0 <= i < j < b - a && x in fs[a..b][i].entries && y in fs[a..b][j].entries
      ensures x.Key() != y.Key()
    {
      assert x in fs[a + i].entries && y in fs[a + j].entries;
    }
  }

  lemma ConcatSharesNothing(p: seq<File>, q: seq<File>)
    requires NoSharedKeys(p) && NoSharedKeys(q) && Newer(Entries(p), Entries(q))
    ensures NoSharedKeys(p + q)
  {
    forall i, j, x, y | 0 <= i < j < |p + q| && x in (p + q)[i].entries && y in (p + q)[j].entries
      ensures x.Key() != y.Key()
    {
      if i < |p| && j >= |p| {
        assert p[i] in p && q[j - |p|] in q;
        assert x in Entries(p) && y in Entries(q);
      } else if i >= |p| {
        assert x in q[i - |p|].entries && y in q[j - |p|].entries;
      } else {
        assert x in p[i].entries && y in p[j].entries;
      }
    }
  }

  lemma ClosedSharesNothing(level: nat, fs: seq<File>, r: seq<File>)
    requires NoSharedKeys(fs) && Closed(level, fs, r)
    ensures NoSharedKeys(r)
  {
    hide NoSharedKeys, ClosedRange;
    if level == 0 {
      var lo, hi :| ClosedRange(fs, lo, hi) && r == Overlapping(fs, lo, hi);
      OverlappingSharesNothing(fs, lo, hi);
    } else {
      var a, b :| 0 <= a < b <= |fs| && r == fs[a..b] && NoBoundaryAt(fs, b);
      SliceSharesNothing(fs, a, b);
    }
  }

  lemma InputEntriesSubset(v: Version, plan: Plan)
    requires ValidPlan(v, plan)
    ensures |v.files| == NUM_LEVELS && plan.level + 1 < NUM_LEVELS
    ensures Entries(plan.in0) <= Entries(v.files[plan.level]) && Entries(plan.in1) <= Entries(v.files[plan.level + 1])
  {
    InputsAreFiles(v, plan.level, plan.in0, plan.in1);
  }

  /** The merging iterator over the inputs of a plan yields their entries in order. */
  lemma MergedInputIsSorted(s: State, plan: Plan)
    requires Inv(s) && ValidPlan(s.version, plan)
    ensures SortedEntries(MergeInput(plan.in0 + plan.in1)) && EntrySet(MergeInput(plan.in0 + plan.in1)) == InputEntries(plan)
    ensures UniqueSeqs(InputEntries(plan))
  {
    var v, level := s.version, plan.level;
    hide *;
    InvIsParts(s);
    FilesParts(v, s.nextFile);
    FilesInvSorted(v, s.nextFile);
    InputEntriesSubset(v, plan);
    PlanHasInputs(v, plan);
    InputsAreClosed(v, level, plan.in0, plan.in1);
    UpperFilesAreFiles(v, plan);
    ShapeOf(v);
    if level == 0 { LevelZeroSharesNothing(v.files[0]); } else { DisjointSharesNothing(v.files[level]); }
    ClosedSharesNothing(level, v.files[level], plan.in0);
    DisjointSharesNothing(v.files[level + 1]);
    UpperSharesNothing(v, plan);
    NewerSubset(Entries(v.files[level]), Entries(v.files[level + 1]), Entries(plan.in0), Entries(plan.in1));
    ConcatSharesNothing(plan.in0, plan.in1);
    MergeInputIsSorted(plan.in0 + plan.in1);
    EntriesConcat(plan);
    InvParts(s);
    UniqueSubset(v, plan);
  }

  lemma UniqueSubset(v: Version, plan: Plan)
    requires ValidPlan(v, plan) && UniqueSeqs(Contents(v))
    ensures UniqueSeqs(InputEntries(plan))
  {
    PlanHasInputs(v, plan);
    ContentsSplit(v, plan.level, plan.in0, plan.in1);
    hide Contents, ValidPlan, Untouched, Entries;
    assert InputEntries(plan) <= Contents(v);
  }

  lemma UpperFilesAreFiles(v: Version, plan: Plan)
    requires ValidVersion(v) && ValidPlan(v, plan)
    ensures ValidFiles(plan.in0 + plan.in1)
  {
    hide Less, Closed, SortedEntries;
    InputsAreFiles(v, plan.level, plan.in0, plan.in1);
    LevelIsValid(v, plan.level);
    LevelIsValid(v, plan.level + 1);
  }

  lemma UpperSharesNothing(v: Version, plan: Plan)
    requires ValidPlan(v, plan) && |v.files| == NUM_LEVELS && plan.level + 1 < NUM_LEVELS
    requires NoSharedKeys(v.files[plan.level + 1])
    ensures NoSharedKeys(plan.in1)
  {
    hide NoSharedKeys, Closed;
    OverlappingSharesNothing(v.files[plan.level + 1], Some(SmallestKey(plan.in0).user), Some(LargestKey(plan.in0).user));
  }

  lemma EntriesConcat(plan: Plan)
    ensures Entries(plan.in0 + plan.in1) == InputEntries(plan)
  {
  }

  // ------------------------------------------- all sources of an iterator

  ghost function FirstLevels(v: Version, n: nat): set<Entry>
    requires n <= |v.files|
  {
    set l, e | 0 <= l < n && e in Entries(v.files[l]) :: e
  }

  lemma NextLevel(v: Version, n: nat)
    requires n < |v.files|
    ensures FirstLevels(v, n + 1) == FirstLevels(v, n) + Entries(v.files[n])
  {
    hide Entries;
  }

  lemma MergeNewer(a: seq<Entry>, b: seq<Entry>)
    requires SortedEntries(a) && SortedEntries(b) && Newer(EntrySet(a), EntrySet(b))
    ensures SortedEntries(MergeEntries(a, b)) && EntrySet(MergeEntries(a, b)) == EntrySet(a) + EntrySet(b)
  {
    assert NoCommonKey(EntrySet(a), EntrySet(b));
    MergeIsUnion(a, b);
  }

  /** Merging the files of one level behind everything above it. */
  lemma LevelMerges(s: State, l: nat)
    requires Inv(s) && l < NUM_LEVELS
    ensures |s.version.files| == NUM_LEVELS
    ensures SortedEntries(MergeInput(s.version.files[l])) && EntrySet(MergeInput(s.version.files[l])) == Entries(s.version.files[l])
    ensures Newer(s.mem + ImmEntries(s) + FirstLevels(s.version, l), Entries(s.version.files[l]))
  {
    var v := s.version;
    hide *;
    InvIsParts(s);
    FilesParts(v, s.nextFile);
    ShapeOf(v);
    if l == 0 { LevelZeroSharesNothing(v.files[0]); } else { DisjointSharesNothing(v.files[l]); }
    InvParts(s);
    LevelIsValid(v, l);
    MergeInputIsSorted(v.files[l]);
    MemtablesAreNewer(s, l);
    LevelsAreNewer(v, l);
    NewerUnion(s.mem + ImmEntries(s), FirstLevels(v, l), Entries(v.files[l]));
  }

  lemma MemtablesAreNewer(s: State, l: nat)
    requires Inv(s) && l < NUM_LEVELS
    ensures |s.version.files| == NUM_LEVELS && Newer(s.mem + ImmEntries(s), Entries(s.version.files[l]))
  {
    hide UniqueSeqs, UniqueNumbers, SortedBySmallest, RunningOk, Entries, DisjointSorted, LevelZeroOrder;
    forall e | e in Entries(s.version.files[l]) ensures e in Contents(s.version) {}
  }

  lemma LevelsAreNewer(v: Version, l: nat)
    requires ValidVersion(v) && l < NUM_LEVELS
    ensures Newer(FirstLevels(v, l), Entries(v.files[l]))
  {
    hide Entries, DisjointSorted, LevelZeroOrder;
  }

  /** What an iterator at a snapshot shows is what reads at it give. */
  lemma ViewIsRead(list: seq<Entry>, s: State, at: nat, k: UserKey)
    requires EntrySet(list) == All(s)
    ensures Read(s, k, at) == if k in DbIters.View(list, at) then Some(DbIters.View(list, at)[k]) else None
  {
    hide All, Visible;
    if k !in DbIters.View(list, at) && Visible(All(s), k, at).Some? {
      DbIters.VisibleIsHeld(All(s), k, at);
    }
  }

  // ------------------------------------------------------ choosing a seed

  datatype Trigger =
    | SizeTrigger(level: nat)
    | SeekTrigger(level: nat, index: nat)
    | ManualTrigger(level: nat, begin: Option<UserKey>, end: Option<UserKey>)

  /** The first file past the compaction pointer, or the first of all. */
  ghost predicate IsFirstBehind(fs: seq<File>, pointer: Option<InternalKey>, i: nat) {
    && i < |fs| && (pointer.None? ==> i == 0)
    && (pointer.Some? ==>
          || (Less(pointer.value, fs[i].largest) && forall j :: 0 <= j < i ==> !Less(pointer.value, fs[j].largest))
          || (i == 0 && forall j :: 0 <= j < |fs| ==> !Less(pointer.value, fs[j].largest)))
  }

  method PickFirstFile(fs: seq<File>, pointer: Option<InternalKey>) returns (i: nat)
    requires fs != []
    ensures IsFirstBehind(fs, pointer, i)
  {
    i := 0;
    while i < |fs|
      invariant i <= |fs|
      invariant pointer.None? ==> i == 0
      invariant pointer.Some? ==> forall j :: 0 <= j < i ==> !Less(pointer.value, fs[j].largest)
    {
      if pointer.None? { return; }
      CompareIsLexicographic(fs[i].largest, pointer.value);
      if Compare(fs[i].largest, pointer.value) > 0 { return; }
      i := i + 1;
    }
    i := 0;
  }

  /** A manual compaction whose range no file of its level meets. */
  ghost predicate Nothing(v: Version, trigger: Trigger)
    requires trigger.level < |v.files|
  {
    trigger.ManualTrigger? && forall f :: f in v.files[trigger.level] ==> !Overlaps(f, trigger.begin, trigger.end)
  }

  /** What made the compaction necessary is among its inputs: the first file behind the pointer,
      the file that was seeked in vain, or what meets the manual range, on level 0 all of it and
      above from its first file on. */
  ghost predicate Triggered(v: Version, pointers: map<nat, InternalKey>, trigger: Trigger, in0: seq<File>)
    requires trigger.level < |v.files|
  {
    var fs := v.files[trigger.level];
    match trigger
    case SizeTrigger(level) =>
      exists i: nat :: IsFirstBehind(fs, if level in pointers then Some(pointers[level]) else None, i) && fs[i] in in0
    case SeekTrigger(_, i) => i < |fs| && fs[i] in in0
    case ManualTrigger(level, begin, end) =>
      forall i :: 0 <= i < |fs| && Overlaps(fs[i], begin, end) && (level == 0 || forall j :: 0 <= j < i ==> !Overlaps(fs[j], begin, end)) ==>
        fs[i] in in0
  }

  /** A seed from one file: on level 0 widened to everything it overlaps. */
  method SeedFrom(v: Version, level: nat, i: nat) returns (seed: seq<File>)
    requires ValidVersion(v) && level < NUM_LEVELS && i < |v.files[level]|
    ensures Seed(level, v.files[level], seed) && v.files[level][i] in seed
  {
    var fs := v.files[level];
    seed := [fs[i]];
    if level == 0 {
      ghost var lo, hi;
      seed, lo, hi := FilesInRangeOf(v, 0, [fs[i]]);
      LevelIsValid(v, 0);
      assert fs[i] in fs;
      FileOrder(fs[i]);
      SingleInRange(fs[i], lo, hi);
    } else {
      assert seed == fs[i..i + 1];
    }
  }

  lemma SingleInRange(f: File, lo: Option<UserKey>, hi: Option<UserKey>)
    requires LowerCovers(lo, RangeLow([f])) && UpperCovers(hi, RangeHigh([f]))
    requires f.smallest.user <= f.largest.user
    ensures Overlaps(f, lo, hi)
  {
  }

  class Database {
    const maxFileSize: nat
    const tableSize: seq<Entry> -> nat
    var mem: seq<Entry>
    var imm: Option<seq<Entry>>
    var current: Version
    var lastSequence: nat
    var nextFileNumber: nat
    var snapshots: seq<nat>
    var compactPointer: map<nat, InternalKey>
    var running: Option<Running>

    constructor (maxFileSize: nat, tableSize: seq<Entry> -> nat)
      ensures this.maxFileSize == maxFileSize && this.tableSize == tableSize
      ensures Valid() && Abs() == EMPTY_STORE
    {
      this.maxFileSize, this.tableSize := maxFileSize, tableSize;
      mem, imm := [], None;
      current := EMPTY_VERSION;
      lastSequence, nextFileNumber := 0, 2;
      snapshots, compactPointer, running := [], map[], None;
      new;
      EmptyStoreIsValid();
    }

    /** The state of module `Lsm` this object stands for. */
    ghost function Abs(): State
      reads this
    {
      State(EntrySet(mem), if imm.Some? then Some(EntrySet(imm.value)) else None, current, lastSequence,
            nextFileNumber, snapshots, running)
    }

    ghost predicate Valid()
      reads this
    {
      && SortedEntries(mem) && (imm.Some? ==> SortedEntries(imm.value))
      && lastSequence < MAX_SEQUENCE
      && Inv(Abs())
    }

    /** Looks in the memtable, the immutable memtable and the files, and stops at the
        first one that knows the key. */
    method Get(k: UserKey, snapshot: Option<nat>) returns (r: Option<string>)
      requires Valid() && (snapshot.Some? ==> snapshot.value <= lastSequence)
      ensures r == Read(Abs(), k, if snapshot.Some? then snapshot.value else lastSequence)
    {
      hide Inv, ValidVersion, Contents, Answers, Visible, SortedEntries, Newer, UniqueSeqs;
      var s: Sequence := if snapshot.Some? then snapshot.value else lastSequence;
      ghost var st := Abs();
      GetNeeds(st);
      var saved := SearchEntries(mem, k, s);
      if saved == SaverNotFound {
        if imm.Some? {
          saved := SearchEntries(imm.value, k, s);
        }
        if saved == SaverNotFound {
          if imm.None? { NothingInNothing(k, s); }
          saved := VersionGet(current, k, s);
          SecondAnswers(ImmEntries(st), Contents(current), k, s, saved);
        } else {
          AnswerFirst(ImmEntries(st), Contents(current), k, s, saved);
        }
        SecondAnswers(st.mem, ImmEntries(st) + Contents(current), k, s, saved);
      } else {
        AnswerFirst(st.mem, ImmEntries(st) + Contents(current), k, s, saved);
      }
      assert All(st) == st.mem + (ImmEntries(st) + Contents(current)) by { UnfoldAll(st); }
      AnswerIsVisible(All(st), k, s, saved);
      r := if saved.SaverFound? then Some(saved.value) else None;
    }

    static lemma GetNeeds(s: State)
      requires Inv(s)
      ensures ValidVersion(s.version) && |s.version.files| == NUM_LEVELS && UniqueSeqs(All(s))
      ensures Newer(s.mem, ImmEntries(s) + Contents(s.version)) && Newer(ImmEntries(s), Contents(s.version))
    {
      hide Newer, Contents, UniqueSeqs, Entries, LevelZeroOrder, DisjointSorted;
    }

    static lemma NothingInNothing(k: UserKey, s: nat)
      ensures Answers({}, k, s, SaverNotFound)
    {
    }

    static lemma SecondAnswers(A: set<Entry>, B: set<Entry>, k: UserKey, s: nat, r: SaverState)
      requires Answers(A, k, s, SaverNotFound) && Answers(B, k, s, r)
      ensures Answers(A + B, k, s, r)
    {
      AnswerSecond(A, B, k, s, r);
    }

    /** Everything the store holds, in key order: both memtables and the files of each level. */
    method NewInternalIterator() returns (list: seq<Entry>)
      requires Valid()
      ensures SortedEntries(list) && EntrySet(list) == All(Abs())
    {
      hide Inv, SortedEntries, EntrySet, Newer, MergeEntries, MergeInput, ValidVersion, FirstLevels, Contents, Entries;
      ghost var st := Abs();
      GetNeeds(st);
      list := mem;
      if imm.Some? {
        MemtablesMerge(st);
        MergeNewer(mem, imm.value);
        list := MergeEntries(mem, imm.value);
      }
      NoLevels(current);
      for l := 0 to NUM_LEVELS
        invariant SortedEntries(list) && EntrySet(list) == st.mem + ImmEntries(st) + FirstLevels(current, l)
      {
        LevelMerges(st, l);
        MergeNewer(list, MergeInput(current.files[l]));
        NextLevel(current, l);
        list := MergeEntries(list, MergeInput(current.files[l]));
      }
      AllLevels(current);
      UnfoldAll(st);
    }

    static lemma MemtablesMerge(s: State)
      requires Newer(s.mem, ImmEntries(s) + Contents(s.version))
      ensures Newer(s.mem, ImmEntries(s))
    {
      hide Contents;
    }

    static lemma NoLevels(v: Version)
      ensures FirstLevels(v, 0) == {}
    {
    }

    static lemma AllLevels(v: Version)
      ensures FirstLevels(v, |v.files|) == Contents(v)
    {
      hide Entries;
    }

    /** An iterator at a snapshot, or at the last sequence number, walks over the map of what
        reads there give. */
    method NewIterator(snapshot: Option<nat>) returns (it: DbIters.DbIter)
      requires Valid() && (snapshot.Some? ==> snapshot.value <= lastSequence)
      ensures fresh(it) && fresh(it.iter) && it.Invariant() && it.Cursor() == DbIters.Off
      ensures it.sequence == (if snapshot.Some? then snapshot.value else lastSequence) && EntrySet(it.iter.entries) == All(Abs())
      ensures var at := if snapshot.Some? then snapshot.value else lastSequence;
        forall k :: Read(Abs(), k, at) == if k in it.Map() then Some(it.Map()[k]) else None
    {
      hide Inv, SortedEntries, EntrySet, UniqueSeqs, All, Read, DbIters.View;
      ghost var st := Abs();
      GetNeeds(st);
      var s: Sequence := if snapshot.Some? then snapshot.value else lastSequence;
      var list := NewInternalIterator();
      var inner := new DbIters.InternalIterator(list);
      it := new DbIters.DbIter(inner, s);
      forall k ensures Read(st, k, s) == if k in it.Map() then Some(it.Map()[k]) else None {
        ViewIsRead(list, st, s, k);
      }
    }

    /** Inserts a batch under consecutive sequence numbers, then makes it visible. */
    method Write(ops: seq<Op>)
      requires Valid() && lastSequence + |ops| < MAX_SEQUENCE
      modifies `mem, `lastSequence
      ensures Valid() && Step(old(Abs()), Action.Write(ops), Abs())
    {
      hide Inv, ValidVersion, Contents, BatchEntries, SortedEntries, Less, EntrySet;
      ghost var before := Abs();
      var sequence := lastSequence + 1;
      ghost var first := sequence;
      EmptyBatch(first);
      for i := 0 to |ops|
        invariant sequence == first + i && lastSequence == first - 1
        invariant SortedEntries(mem) && EntrySet(mem) == before.mem + BatchEntries(ops[..i], first)
      {
        var e := Entry(ops[i].user, sequence, ops[i].typ, ops[i].value);
        NewSequence(before, ops[..i], first, e, mem);
        mem := AddEntry(mem, e);
        BatchSnoc(ops, i, first);
        sequence := sequence + 1;
      }
      assert ops[..|ops|] == ops;
      lastSequence := lastSequence + |ops|;
      WriteKeepsInv(before, ops, Abs());
    }

    static lemma EmptyBatch(first: nat)
      requires first <= MAX_SEQUENCE + 1
      ensures BatchEntries([], first) == {}
    {
    }

    static lemma NewSequence(s: State, ops: seq<Op>, first: nat, e: Entry, mem: seq<Entry>)
      requires Inv(s) && first == s.lastSequence + 1 && first + |ops| <= MAX_SEQUENCE
      requires EntrySet(mem) == s.mem + BatchEntries(ops, first) && e.sn == first + |ops|
      ensures forall o :: o in mem ==> o.Key() != e.Key()
    {
      hide ValidVersion, UniqueNumbers, SortedBySmallest;
      forall o | o in mem ensures o.sn != e.sn {
        assert o in EntrySet(mem);
        assert o in s.mem ==> o in All(s);
      }
    }

    static lemma BatchSnoc(ops: seq<Op>, i: nat, first: nat)
      requires i < |ops| && first + |ops| <= MAX_SEQUENCE + 1
      ensures BatchEntries(ops[..i + 1], first) ==
              BatchEntries(ops[..i], first) + {Entry(ops[i].user, first + i, ops[i].typ, ops[i].value)}
    {
      var all := BatchEntries(ops[..i + 1], first);
      assert ops[..i + 1][i] == ops[i];
      forall e | e in BatchEntries(ops[..i], first) ensures e in all {
        var j :| 0 <= j < i && e == Entry(ops[..i][j].user, first + j, ops[..i][j].typ, ops[..i][j].value);
        assert ops[..i + 1][j] == ops[..i][j];
      }
      forall e | e in all && e.sn != first + i ensures e in BatchEntries(ops[..i], first) {
        var j :| 0 <= j < i + 1 && e == Entry(ops[..i + 1][j].user, first + j, ops[..i + 1][j].typ, ops[..i + 1][j].value);
        assert ops[..i + 1][j] == ops[..i][j];
      }
    }

    /** Freezes the memtable once the previous one is on disk. The log of the new one takes a
        file number. */
    method SwitchMemTable()
      requires Valid() && imm.None?
      modifies `mem, `imm, `nextFileNumber
      ensures Valid() && Step(old(Abs()), Action.SwitchMemTable, Abs())
    {
      ghost var before := Abs();
      imm, mem, nextFileNumber := Some(mem), [], nextFileNumber + 1;
      SwitchKeepsInv(before, Abs());
    }

    method GetSnapshot() returns (s: nat)
      requires Valid()
      modifies `snapshots
      ensures Valid() && s == lastSequence && Step(old(Abs()), TakeSnapshot, Abs())
    {
      ghost var before := Abs();
      s := lastSequence;
      snapshots := snapshots + [s];
      SnapshotKeepsInv(before, TakeSnapshot, Abs());
    }

    method ReleaseSnapshot(i: nat)
      requires Valid() && i < |snapshots|
      modifies `snapshots
      ensures Valid() && Step(old(Abs()), Action.ReleaseSnapshot(i), Abs())
    {
      ghost var before := Abs();
      snapshots := snapshots[..i] + snapshots[i + 1..];
      SnapshotKeepsInv(before, Action.ReleaseSnapshot(i), Abs());
    }

    /** Writes the immutable memtable to a table and installs it at the level picked
        for it. */
    method CompactMemTable() returns (ghost level: nat, ghost table: Option<File>)
      requires Valid() && imm.Some? && running.None?
      modifies `imm, `current, `nextFileNumber
      ensures Valid() && Step(old(Abs()), Flush(level, table), Abs())
      ensures table == None <==> old(imm).value == []
      ensures table.Some? ==> level <= 2 && |old(current).files| == NUM_LEVELS
      ensures table.Some? ==> PickedLevel(old(current), table.value.smallest.user, table.value.largest.user, maxFileSize, level)
    {
      hide Inv, ValidVersion, Contents, Flushed, RangeFree, MayPush, SortedBySmallest, NewestNumber, ValidBase;
      ghost var before := Abs();
      InvIsParts(before);
      FilesParts(current, nextFileNumber);
      FilesInvSorted(current, nextFileNumber);
      var entries := imm.value;
      if entries == [] {
        level, table := 0, None;
      } else {
        var f := File(nextFileNumber, tableSize(entries), entries[0].Key(), entries[|entries| - 1].Key(), entries);
        var l := PickLevelForMemTableOutput(current, f.smallest.user, f.largest.user, maxFileSize);
        current := InstallTable(current, l, f);
        level, table := l, Some(f);
      }
      nextFileNumber, imm := nextFileNumber + 1, None;
      FlushKeepsInv(before, level, table, Abs());
    }

    /** Chooses the files to compact, as the size and seek triggers and the manual
        compaction do. */
    method PickCompaction(trigger: Trigger) returns (plan: Option<Plan>)
      requires Valid() && trigger.level + 1 < NUM_LEVELS
      requires trigger.SizeTrigger? ==> current.files[trigger.level] != []
      requires trigger.SeekTrigger? ==> trigger.index < |current.files[trigger.level]|
      modifies `compactPointer
      ensures Valid()
      ensures plan.Some? ==> ValidPlan(current, plan.value) && plan.value.level == trigger.level
      ensures !trigger.ManualTrigger? ==> plan.Some?
      ensures |current.files| == NUM_LEVELS && (plan == None <==> Nothing(current, trigger))
      ensures plan.Some? ==> Triggered(current, old(compactPointer), trigger, plan.value.in0)
      ensures compactPointer ==
              if plan.Some? then old(compactPointer)[trigger.level := LargestKey(plan.value.in0)] else old(compactPointer)
    {
      hide Inv, Contents, Grown, WithBoundaries, Seed, Inputs, LargestKey, SmallestKey, Grandparents, ValidVersion, Triggered, Nothing;
      InvParts(Abs());
      ShapeOf(current);
      var level := trigger.level;
      var seed := ChooseSeed(current, compactPointer, trigger, maxFileSize);
      if seed == [] {
        return None;
      }
      var c := SetupOtherInputs(current, level, seed, maxFileSize);
      MoreIsTriggered(current, compactPointer, trigger, seed, c.in0);
      compactPointer := compactPointer[level := c.compactPointer];
      plan := Some(c);
    }

    /** Starts a background compaction: nothing, a trivial move, or a merge with its inputs
        and the smallest live snapshot fixed. */
    method StartCompaction(trigger: Trigger) returns (ghost act: Option<Action>)
      requires Valid() && running.None? && trigger.level + 1 < NUM_LEVELS
      requires trigger.SizeTrigger? ==> current.files[trigger.level] != []
      requires trigger.SeekTrigger? ==> trigger.index < |current.files[trigger.level]|
      modifies `compactPointer, `current, `running
      ensures Valid()
      ensures act.None? ==> Abs() == old(Abs()) && trigger.ManualTrigger?
      ensures act.Some? ==> (act.value.TrivialMove? || act.value.BeginCompaction?) && act.value.plan.level == trigger.level
      ensures act.Some? ==> Step(old(Abs()), act.value, Abs())
      ensures |old(current).files| == NUM_LEVELS && (act == None <==> Nothing(old(current), trigger))
      ensures act.Some? ==> Triggered(old(current), old(compactPointer), trigger, act.value.plan.in0)
      ensures act.Some? ==>
        var plan := act.value.plan;
        act.value.TrivialMove? <==>
          !trigger.ManualTrigger? && |plan.in0| == 1 && plan.in1 == [] && TotalFileSize(plan.grandparents) <= 10 * maxFileSize
    {
      hide Inv, ValidPlan, ValidVersion, Contents, MoveStep, SortedEntries, Triggered, Nothing, TotalFileSize, LargestKey;
      var picked := PickCompaction(trigger);
      if picked.None? {
        return None;
      }
      var plan := picked.value;
      ghost var before := Abs();
      InvParts(before);
      var c := new Compaction(current, plan, maxFileSize);
      if !trigger.ManualTrigger? && c.IsTrivialMove() {
        current := MoveFile(current, before, plan);
        act := Some(TrivialMove(plan));
        MoveKeepsInv(before, plan, Abs());
      } else {
        running := Some(Running(plan, if snapshots == [] then lastSequence else snapshots[0], nextFileNumber));
        act := Some(BeginCompaction(plan));
        BeginKeepsInv(before, plan, Abs());
      }
    }

    /** Does the work of the compaction under way and installs what it leaves. The outputs get
        numbers that were free as each was begun; those of logs may lie between them. */
    method FinishCompaction(number: nat -> nat) returns (ghost outputs: seq<File>)
      requires Valid() && running.Some?
      requires (forall i :: running.value.first <= number(i)) && forall i, j :: i < j ==> number(i) < number(j)
      modifies `current, `nextFileNumber, `running
      ensures Valid() && running.None? && Step(old(Abs()), Action.InstallCompaction(outputs), Abs())
      ensures Numbered(outputs, number)
      ensures var plan := old(running).value.plan;
        OutputsAreCut(plan.grandparents, maxFileSize, MergeInput(plan.in0 + plan.in1), tableSize, outputs)
    {
      hide Inv, ValidPlan, ValidVersion, Contents, Installed, CompactStep, OutputsAreCut, SortedEntries, UniqueSeqs, Kept, NewestNumber;
      ghost var before := Abs();
      var r := running.value;
      InvParts(before);
      RunningFits(before);
      OldestInRange(before);
      MergedInputIsSorted(before, r.plan);
      var c := new Compaction(current, r.plan, maxFileSize);
      var outs := DoCompactionWork(c, MergeInput(r.plan.in0 + r.plan.in1), r.oldest, number, tableSize);
      current := InstallMerge(current, before, r, outs);
      if outs != [] && nextFileNumber <= outs[|outs| - 1].number {
        nextFileNumber := outs[|outs| - 1].number + 1;
      }
      running, outputs := None, outs;
      MergeIsStep(before, r, outs, Abs());
      CompactKeepsInv(before, r, outs, Abs());
    }

    static lemma OldestInRange(s: State)
      requires Inv(s)
      ensures SmallestSnapshot(s) <= s.lastSequence
    {
      hide ValidVersion, UniqueNumbers, Contents, SortedBySmallest;
    }

    static lemma MergeIsStep(s: State, r: Running, outs: seq<File>, t: State)
      requires ValidPlan(s.version, r.plan)
      requires DisjointSorted(outs) && NumbersIn(outs, r.first, t.nextFile) && s.nextFile <= t.nextFile
      requires Entries(outs) == Kept(InputEntries(r.plan), r.oldest, BaseTest(s.version, r.plan.level))
      requires Installed(s.version, r.plan.level, r.plan.in0, r.plan.in1, outs, t.version)
      requires t == s.(version := t.version, nextFile := t.nextFile, running := None)
      ensures CompactStep(s, r, outs, t)
    {
      hide ValidPlan, DisjointSorted, NumbersIn, Kept, Installed;
    }
  }

  /** The range query of a manual compaction, cut short above level 0 once enough
      bytes are selected. */
  method ManualSeed(v: Version, level: nat, begin: Option<UserKey>, end: Option<UserKey>, maxFileSize: nat)
    returns (seed: seq<File>)
    requires ValidVersion(v) && level < NUM_LEVELS
    ensures seed == [] || Seed(level, v.files[level], seed)
    ensures seed == [] <==> forall f :: f in v.files[level] ==> !Overlaps(f, begin, end)
    ensures level == 0 ==> forall f :: f in v.files[0] && Overlaps(f, begin, end) ==> f in seed
    ensures level > 0 ==> CutAtSize(Overlapping(v.files[level], begin, end), maxFileSize, seed)
  {
    hide ValidVersion, Seed, DisjointSorted, LeastClosedRange, ClosedRange, Overlaps, TotalFileSize, CutAtSize;
    assert ValidFiles(v.files[level]) && (level > 0 ==> DisjointSorted(v.files[level])) by { LevelIsValid(v, level); ShapeOf(v); }
    var fs := v.files[level];
    var inputs, lo, hi := GetOverlappingInputs(level, fs, begin, end);
    SomethingMeets(level, fs, begin, end, lo, hi);
    if inputs == [] {
      NothingToCut(maxFileSize);
      return [];
    }
    seed := inputs;
    if level > 0 {
      var n := CutCount(inputs, maxFileSize);
      seed := inputs[..n];
      PrefixIsSeed(level, fs, begin, end, n);
    } else {
      assert ClosedRange(fs, lo, hi) by { LeastIsClosed(fs, begin, end, lo, hi); }
      QueryIsSeed(level, fs, lo, hi);
    }
  }

  /** `r` is a first part of `fs`: up to the file with which the limit is reached. */
  ghost predicate CutAtSize(fs: seq<File>, limit: nat, r: seq<File>) {
    && |r| <= |fs| && r == fs[..|r|] && (fs != [] ==> r != [])
    && (r != fs ==> TotalFileSize(r) >= limit)
    && forall m :: 0 < m < |r| ==> TotalFileSize(fs[..m]) < limit
  }

  lemma NothingToCut(limit: nat)
    ensures CutAtSize([], limit, [])
  {
  }

  method CutCount(fs: seq<File>, limit: nat) returns (n: nat)
    requires fs != []
    ensures 0 < n <= |fs| && CutAtSize(fs, limit, fs[..n])
  {
    var total := 0;
    n := 0;
    while n < |fs|
      invariant n <= |fs| && total == TotalFileSize(fs[..n])
      invariant forall m :: 0 < m <= n ==> TotalFileSize(fs[..m]) < limit
    {
      total := total + fs[n].size;
      assert fs[..n + 1][..n] == fs[..n];
      n := n + 1;
      if total >= limit {
        assert forall m :: 0 < m < n ==> fs[..n][..m] == fs[..m];
        return;
      }
    }
    assert fs[..n] == fs;
  }

  lemma PrefixIsSeed(level: nat, fs: seq<File>, lo: Option<UserKey>, hi: Option<UserKey>, n: nat)
    requires level > 0 && DisjointSorted(fs) && 0 < n <= |Overlapping(fs, lo, hi)|
    ensures Seed(level, fs, Overlapping(fs, lo, hi)[..n])
  {
    hide DisjointSorted, Overlapping;
    var a, b := OverlappingIsSlice(fs, lo, hi);
    assert fs[a..b][..n] == fs[a..a + n];
  }

  lemma LeastIsClosed(fs: seq<File>, begin: Option<UserKey>, end: Option<UserKey>, lo: Option<UserKey>, hi: Option<UserKey>)
    requires LeastClosedRange(fs, begin, end, lo, hi)
    ensures ClosedRange(fs, lo, hi)
  {
  }

  /** A query, widened or not, finds something exactly if a file meets its range, and then all
      that do. */
  lemma SomethingMeets(level: nat, fs: seq<File>, begin: Option<UserKey>, end: Option<UserKey>, lo: Option<UserKey>, hi: Option<UserKey>)
    requires if level == 0 then LeastClosedRange(fs, begin, end, lo, hi) else lo == begin && hi == end
    ensures Overlapping(fs, lo, hi) == [] <==> forall f :: f in fs ==> !Overlaps(f, begin, end)
    ensures forall f :: f in fs && Overlaps(f, begin, end) ==> f in Overlapping(fs, lo, hi)
  {
    hide Overlaps;
    forall f | f in fs && Overlaps(f, begin, end) ensures Overlaps(f, lo, hi) {
      if !Overlaps(f, lo, hi) { Wider(fs, level, begin, end, lo, hi); NotInWider(f, begin, end, lo, hi); }
    }
    if (forall f :: f in fs ==> !Overlaps(f, begin, end)) && Overlapping(fs, lo, hi) != [] {
      var f := Overlapping(fs, lo, hi)[0];
      assert f in Overlapping(fs, lo, hi);
      if level == 0 { NoneWidens(fs, begin, end, lo, hi, f); }
    }
  }

  lemma Wider(fs: seq<File>, level: nat, begin: Option<UserKey>, end: Option<UserKey>, lo: Option<UserKey>, hi: Option<UserKey>)
    requires if level == 0 then LeastClosedRange(fs, begin, end, lo, hi) else lo == begin && hi == end
    ensures LowerCovers(lo, begin) && UpperCovers(hi, end)
  {
  }

  lemma NoneWidens(fs: seq<File>, begin: Option<UserKey>, end: Option<UserKey>, lo: Option<UserKey>, hi: Option<UserKey>, f: File)
    requires LeastClosedRange(fs, begin, end, lo, hi) && forall g :: g in fs ==> !Overlaps(g, begin, end)
    ensures f in fs ==> !Overlaps(f, lo, hi)
  {
    assert ClosedRange(fs, begin, end) && LowerCovers(begin, begin) && UpperCovers(end, end);
  }

  /** The files a compaction starts from. */
  method ChooseSeed(v: Version, pointers: map<nat, InternalKey>, trigger: Trigger, maxFileSize: nat) returns (seed: seq<File>)
    requires ValidVersion(v) && trigger.level + 1 < NUM_LEVELS
    requires trigger.SizeTrigger? ==> v.files[trigger.level] != []
    requires trigger.SeekTrigger? ==> trigger.index < |v.files[trigger.level]|
    ensures |v.files| == NUM_LEVELS && (seed == [] <==> Nothing(v, trigger)) && (!trigger.ManualTrigger? ==> seed != [])
    ensures seed != [] ==> Seed(trigger.level, v.files[trigger.level], seed) && Triggered(v, pointers, trigger, seed)
  {
    hide ValidVersion, Seed, Overlaps, IsFirstBehind, CutAtSize;
    ShapeOf(v);
    var level := trigger.level;
    var fs := v.files[level];
    match trigger {
      case SizeTrigger(_) =>
        var i := PickFirstFile(fs, if level in pointers then Some(pointers[level]) else None);
        assert i < |fs| by { FirstIsFile(fs, if level in pointers then Some(pointers[level]) else None, i); }
        seed := SeedFrom(v, level, i);
      case SeekTrigger(_, i) =>
        seed := SeedFrom(v, level, i);
      case ManualTrigger(_, begin, end) =>
        seed := ManualSeed(v, level, begin, end, maxFileSize);
        if seed != [] { ManualIsTriggered(v, level, begin, end, maxFileSize, seed); }
    }
  }

  lemma FirstIsFile(fs: seq<File>, pointer: Option<InternalKey>, i: nat)
    requires IsFirstBehind(fs, pointer, i)
    ensures i < |fs|
  {
  }

  lemma ManualIsTriggered(v: Version, level: nat, begin: Option<UserKey>, end: Option<UserKey>, maxFileSize: nat, seed: seq<File>)
    requires level < |v.files| && seed != []
    requires level == 0 ==> forall f :: f in v.files[0] && Overlaps(f, begin, end) ==> f in seed
    requires level > 0 ==> CutAtSize(Overlapping(v.files[level], begin, end), maxFileSize, seed)
    ensures Triggered(v, map[], ManualTrigger(level, begin, end), seed)
    ensures forall pointers :: Triggered(v, pointers, ManualTrigger(level, begin, end), seed)
  {
    hide Overlaps, TotalFileSize;
    var fs := v.files[level];
    forall i | level > 0 && 0 <= i < |fs| && Overlaps(fs[i], begin, end) && (forall j :: 0 <= j < i ==> !Overlaps(fs[j], begin, end))
      ensures fs[i] in seed
    {
      FirstOverlapping(fs, begin, end, i);
      assert seed[0] == Overlapping(fs, begin, end)[0];
    }
  }

  lemma {:induction false} FirstOverlapping(fs: seq<File>, lo: Option<UserKey>, hi: Option<UserKey>, i: nat)
    requires i < |fs| && Overlaps(fs[i], lo, hi) && forall j :: 0 <= j < i ==> !Overlaps(fs[j], lo, hi)
    ensures Overlapping(fs, lo, hi) != [] && Overlapping(fs, lo, hi)[0] == fs[i]
  {
    hide Overlaps;
    var n := |fs| - 1;
    if i < n {
      FirstOverlapping(fs[..n], lo, hi, i);
    } else {
      NoneOverlaps(fs[..n], lo, hi);
    }
  }

  lemma {:induction false} NoneOverlaps(fs: seq<File>, lo: Option<UserKey>, hi: Option<UserKey>)
    requires forall j :: 0 <= j < |fs| ==> !Overlaps(fs[j], lo, hi)
    ensures Overlapping(fs, lo, hi) == []
  {
    hide Overlaps;
    if fs != [] { NoneOverlaps(fs[..|fs| - 1], lo, hi); }
  }

  lemma MoreIsTriggered(v: Version, pointers: map<nat, InternalKey>, trigger: Trigger, seed: seq<File>, in0: seq<File>)
    requires trigger.level < |v.files| && Triggered(v, pointers, trigger, seed) && forall f :: f in seed ==> f in in0
    ensures Triggered(v, pointers, trigger, in0)
  {
    hide Overlaps, IsFirstBehind;
  }

  lemma NotInWider(f: File, begin: Option<UserKey>, end: Option<UserKey>, lo: Option<UserKey>, hi: Option<UserKey>)
    requires LowerCovers(lo, begin) && UpperCovers(hi, end) && !Overlaps(f, lo, hi)
    ensures !Overlaps(f, begin, end)
  {
  }

  lemma PlanFiles(s: State, plan: Plan)
    requires Inv(s) && ValidPlan(s.version, plan)
    ensures |s.version.files| == NUM_LEVELS && plan.level + 1 < NUM_LEVELS
    ensures ValidBase(s.version) && UniqueNumbers(s.version)
    ensures NewestNumber(s.version, s.nextFile)
    ensures forall f :: f in plan.in0 ==> f in s.version.files[plan.level]
    ensures forall f :: f in plan.in1 ==> f in s.version.files[plan.level + 1]
  {
    hide *;
    InvIsParts(s);
    FilesParts(s.version, s.nextFile);
    FilesInvSorted(s.version, s.nextFile);
    PlanHasInputs(s.version, plan);
    InputsAreFiles(s.version, plan.level, plan.in0, plan.in1);
  }

  lemma MovedIsNew(v: Version, level: nat, in0: seq<File>)
    requires |v.files| == NUM_LEVELS && level + 1 < NUM_LEVELS && UniqueNumbers(v)
    requires |in0| == 1 && in0[0] in v.files[level]
    ensures NewNumbers(v.files[level + 1], in0)
  {
  }

  lemma NumbersAreNew(v: Version, level: nat, outs: seq<File>, first: nat)
    requires |v.files| == NUM_LEVELS && level + 1 < NUM_LEVELS && NewestNumber(v, first)
    requires (forall i :: 0 <= i < |outs| ==> first <= outs[i].number)
    requires forall i, j :: 0 <= i < j < |outs| ==> outs[i].number < outs[j].number
    ensures NewNumbers(v.files[level + 1], outs)
  {
  }

  /** Installs a trivial move: the file keeps its number and changes its level. */
  method MoveFile(v: Version, ghost s: State, plan: Plan) returns (w: Version)
    requires Inv(s) && s.running.None? && v == s.version && ValidPlan(v, plan) && |plan.in0| == 1 && plan.in1 == []
    ensures MoveStep(s, plan, s.(version := w))
  {
    hide Inv, ValidPlan, ValidBase, UniqueNumbers, NewestNumber, NewNumbers, Installed;
    PlanFiles(s, plan);
    MovedIsNew(v, plan.level, plan.in0);
    w := InstallCompaction(v, plan.level, plan.in0, [], plan.in0, plan.compactPointer);
  }

  /** Installs the outputs of a merge. */
  method InstallMerge(v: Version, ghost s: State, r: Running, outs: seq<File>) returns (w: Version)
    requires Inv(s) && v == s.version && s.running == Some(r)
    requires (forall i :: 0 <= i < |outs| ==> r.first <= outs[i].number)
    requires forall i, j :: 0 <= i < j < |outs| ==> outs[i].number < outs[j].number
    ensures Installed(v, r.plan.level, r.plan.in0, r.plan.in1, outs, w)
  {
    hide Inv, ValidPlan, ValidBase, UniqueNumbers, NewestNumber, NewNumbers, Installed;
    RunningFits(s);
    PlanFiles(s, r.plan);
    NumbersAreNew(v, r.plan.level, outs, r.first);
    w := InstallCompaction(v, r.plan.level, r.plan.in0, r.plan.in1, outs, r.plan.compactPointer);
  }
}
