/** A run of the store in which a deleted value comes back: the input selection of a
    compaction closes the inputs of its level under boundary files, but not those of the next
    level. Key 1 is written, key 2 written and deleted, and a compaction under a snapshot cuts
    between the deletion and the older value; the next compaction drops the deletion alone. */
module BoundaryHazard {
  import opened DbFormat
  import opened TableFiles
  import opened Versions
  import opened CompactionInputs
  import opened VersionBuilder
  import opened LevelShape
  import opened DropRule
  import opened CompactionWork
  import opened Lsm

  const FIRST := Entry(1.0, 1, Value, "a")
  const OLD_VALUE := Entry(2.0, 2, Value, "old")
  const TOMBSTONE := Entry(2.0, 3, Deletion, "")
  const SECOND := Entry(1.0, 4, Value, "b")
  const THIRD := Entry(1.0, 5, Value, "c")

  function Table(number: nat, entries: seq<Entry>): File
    requires entries != []
  {
    File(number, 10, entries[0].Key(), entries[|entries| - 1].Key(), entries)
  }

  /** The first memtable. */
  const BOTTOM := Table(3, [FIRST, TOMBSTONE, OLD_VALUE])
  /** Key 1 written again, above it. */
  const UPDATE := Table(5, [SECOND])
  /** What the first compaction makes of the two: a file that ends with a tombstone ... */
  const UPPER := Table(6, [SECOND, FIRST, TOMBSTONE])
  /** ... followed by a boundary file that begins with an older value of its key. */
  const BOUNDARY := Table(7, [OLD_VALUE])
  /** Key 1 written a third time. */
  const LOWER := Table(9, [THIRD])
  /** What the second compaction leaves of it and the upper file. */
  const MERGED := Table(10, [THIRD])

  function Levels(one: seq<File>, two: seq<File>): Version {
    Version([[], one, two, [], [], [], []])
  }

  /** Merging one file of level 1 into one file of level 2. */
  function MergePlan(f: File, g: File): Plan {
    Plan(1, [f], [g], [], f.largest)
  }

  ghost const FLUSHED := State({}, None, Levels([], [BOTTOM]), 3, 4, [2], None)
  ghost const UPDATED := State({}, None, Levels([UPDATE], [BOTTOM]), 4, 6, [2], None)
  ghost const SPLIT := State({}, None, Levels([], [UPPER, BOUNDARY]), 4, 8, [2], None)
  ghost const UPDATED_AGAIN := State({}, None, Levels([LOWER], [UPPER, BOUNDARY]), 5, 10, [], None)

  ghost const START := UPDATED_AGAIN.(running := Some(Running(MergePlan(LOWER, UPPER), 5, 10)))
  ghost const FINISH := State({}, None, Levels([], [MERGED, BOUNDARY]), 5, 11, [], None)

  // ------------------------------------------------------------ the files

  lemma FilesAreValid()
    ensures ValidFile(BOTTOM) && ValidFile(UPDATE) && ValidFile(UPPER) && ValidFile(BOUNDARY)
    ensures ValidFile(LOWER) && ValidFile(MERGED)
  {
  }

  lemma TableEntries()
    ensures FileEntries(BOTTOM) == {FIRST, OLD_VALUE, TOMBSTONE} && FileEntries(UPDATE) == {SECOND}
    ensures FileEntries(UPPER) == {FIRST, SECOND, TOMBSTONE} && FileEntries(BOUNDARY) == {OLD_VALUE}
    ensures FileEntries(LOWER) == {THIRD} && FileEntries(MERGED) == {THIRD}
  {
  }

  lemma PairIsDisjoint(f: File, g: File)
    requires ValidFile(f) && ValidFile(g) && Less(f.largest, g.smallest)
    ensures DisjointSorted([f, g])
  {
    hide Less, ValidFile;
  }

  lemma SingleIsDisjoint(f: File)
    requires ValidFile(f)
    ensures DisjointSorted([f])
  {
    hide Less, ValidFile;
  }

  lemma BoundaryFollows()
    ensures Less(UPPER.largest, BOUNDARY.smallest) && IsBoundary(BOUNDARY, UPPER.largest)
    ensures BySmallest(UPPER, BOUNDARY) && BySmallest(MERGED, BOUNDARY)
  {
  }

  lemma SingleEntries(f: File)
    ensures Entries([f]) == FileEntries(f)
  {
  }

  lemma PairEntries(f: File, g: File)
    ensures Entries([f, g]) == FileEntries(f) + FileEntries(g)
  {
  }

  lemma SingleRange(f: File)
    ensures SmallestKey([f]) == f.smallest && LargestKey([f]) == f.largest
  {
  }

  lemma SortedPair(f: File, g: File)
    requires BySmallest(f, g)
    ensures SortedBySmallest([f, g])
  {
    hide BySmallest;
  }

  // ------------------------------------------------- steps on two levels

  /** Batch, full memtable, and table: what a flush needs, but for its level. */
  lemma FlushIsStep(s: State, level: nat, f: File, one: seq<File>, two: seq<File>, t: State)
    requires s.imm == Some(FileEntries(f)) && s.running.None? && ValidFile(f) && f.number == s.nextFile
    requires s.version == Levels(one, two) && (level == 1 || level == 2)
    requires RangeFree(one, f.smallest.user, f.largest.user)
    requires level == 1 ==> one == [] && t.version == Levels([f], two)
    requires level == 2 ==> two == [] && t.version == Levels(one, [f])
    requires t == s.(imm := None, nextFile := s.nextFile + 1, version := t.version)
    ensures Step(s, Flush(level, Some(f)), t)
  {
    hide ValidFile, Overlaps, BySmallest;
    assert FileSet([f]) == FileSet([]) + {f};
    forall l | 0 <= l <= level ensures RangeFree(s.version.files[l], f.smallest.user, f.largest.user) {
      assert l == 0 ==> s.version.files[l] == [];
      assert l == 2 ==> s.version.files[l] == two;
    }
    assert Flushed(s.version, level, f, t.version);
  }

  /** The plan is one the selection makes: the file of level 1 has no boundary file behind
      it, and of level 2 exactly the files that meet its range are taken. */
  lemma MergePlanIsValid(f: File, g: File, rest: seq<File>)
    requires Overlaps(g, Some(f.smallest.user), Some(f.largest.user)) && |rest| <= 1
    requires forall h :: h in rest ==> !Overlaps(h, Some(f.smallest.user), Some(f.largest.user))
    ensures ValidPlan(Levels([f], [g] + rest), MergePlan(f, g))
  {
    hide Overlapping, SmallestKey, LargestKey, Overlaps;
    var v := Levels([f], [g] + rest);
    var fs := v.files[1];
    assert fs[0..1] == fs == [f] && NoBoundaryAt(fs, 1);
    SingleRange(f);
    MeetsFirstOnly(f, g, rest);
    assert v.files[3] == [];
    OverlappingStep([], RangeLow([f] + [g]), RangeHigh([f] + [g]));
  }

  lemma MeetsFirstOnly(f: File, g: File, rest: seq<File>)
    requires Overlaps(g, Some(f.smallest.user), Some(f.largest.user)) && |rest| <= 1
    requires forall h :: h in rest ==> !Overlaps(h, Some(f.smallest.user), Some(f.largest.user))
    ensures Overlapping([g] + rest, Some(f.smallest.user), Some(f.largest.user)) == [g]
  {
    hide Overlapping, Overlaps;
    var lo, hi, fs := Some(f.smallest.user), Some(f.largest.user), [g] + rest;
    OverlappingStep([], lo, hi);
    assert [g][..0] == [];
    OverlappingStep([g], lo, hi);
    if rest != [] {
      assert fs[..1] == [g];
      OverlappingStep(fs, lo, hi);
    } else {
      assert fs == [g];
    }
  }

  lemma BeginIsStep(s: State, f: File, g: File, rest: seq<File>, t: State)
    requires s.running.None? && s.version == Levels([f], [g] + rest)
    requires ValidPlan(s.version, MergePlan(f, g))
    requires t == s.(running := Some(Running(MergePlan(f, g), SmallestSnapshot(s), s.nextFile)))
    ensures Step(s, BeginCompaction(MergePlan(f, g)), t)
  {
    hide ValidPlan;
  }

  lemma MergeInstalls(f: File, g: File, rest: seq<File>, outs: seq<File>)
    requires g !in rest && SortedBySmallest(outs + rest)
    ensures Installed(Levels([f], [g] + rest), 1, [f], [g], outs, Levels([], outs + rest))
  {
    hide BySmallest;
    var v, w := Levels([f], [g] + rest), Levels([], outs + rest);
    assert FileSet(v.files[1]) == FileSet([f]) && FileSet(w.files[1]) == {};
    assert FileSet(v.files[2]) == {g} + FileSet(rest) && FileSet([g]) == {g};
    assert FileSet(w.files[2]) == FileSet(outs) + FileSet(rest);
    assert v.files[2] == [g] + rest && w.files[2] == outs + rest;
  }

  lemma InstallIsStep(s: State, f: File, g: File, rest: seq<File>, outs: seq<File>, t: State)
    requires s.version == Levels([f], [g] + rest) && s.running.Some? && s.running.value.plan == MergePlan(f, g)
    requires ValidPlan(s.version, MergePlan(f, g)) && DisjointSorted(outs) && NumbersIn(outs, s.running.value.first, t.nextFile)
    requires Entries(outs) == Kept(FileEntries(f) + FileEntries(g), s.running.value.oldest, BaseTest(s.version, 1))
    requires g !in rest && SortedBySmallest(outs + rest)
    requires t == s.(version := Levels([], outs + rest), nextFile := t.nextFile, running := None) && s.nextFile <= t.nextFile
    ensures Step(s, InstallCompaction(outs), t)
  {
    hide ValidPlan, DisjointSorted, NumbersIn, Kept, SortedBySmallest, Installed, Entries, BaseTest;
    MergeInstalls(f, g, rest, outs);
    SingleEntries(f);
    SingleEntries(g);
    assert InputEntries(MergePlan(f, g)) == FileEntries(f) + FileEntries(g);
  }

  // --------------------------------------------------------------- the run

  /** Writes, a snapshot between the value of key 2 and its deletion, and a flush. */
  lemma ReachesFlushed()
    ensures Reachable(FLUSHED)
  {
    hide Reachable, Step, ValidFile, FileEntries;
    var s := EMPTY_STORE;
    NewStoreIsReachable();
    var batch := [Op(1.0, Value, "a"), Op(2.0, Value, "old")];
    BatchOfTwo(batch[0], batch[1], 1);
    var s1 := WriteFrom(s, batch, {FIRST, OLD_VALUE});
    var s2 := s1.(snapshots := [2]);
    assert Step(s1, TakeSnapshot, s2) by { SnapshotIsStep(s1, s2); }
    ReachableStep(s1, TakeSnapshot, s2);
    BatchOfOne(Op(2.0, Deletion, ""), 3);
    var s3 := WriteFrom(s2, [Op(2.0, Deletion, "")], {TOMBSTONE});
    TableEntries();
    FilesAreValid();
    SwitchAndFlush(s3, 2, BOTTOM, [], [], FLUSHED);
  }

  lemma SnapshotIsStep(s: State, t: State)
    requires t == s.(snapshots := s.snapshots + [s.lastSequence])
    ensures Step(s, TakeSnapshot, t)
  {
  }

  lemma BatchOfOne(op: Op, first: nat)
    requires first <= MAX_SEQUENCE
    ensures BatchEntries([op], first) == {Entry(op.user, first, op.typ, op.value)}
  {
    var ops := [op];
    assert ops[0] == op;
    assert Entry(ops[0].user, first + 0, op.typ, op.value) in BatchEntries(ops, first);
  }

  lemma BatchOfTwo(p: Op, q: Op, first: nat)
    requires first < MAX_SEQUENCE
    ensures BatchEntries([p, q], first) ==
            {Entry(p.user, first, p.typ, p.value), Entry(q.user, first + 1, q.typ, q.value)}
  {
    var ops := [p, q];
    assert ops[0] == p && ops[1] == q;
    assert Entry(ops[0].user, first + 0, p.typ, p.value) in BatchEntries(ops, first);
    assert Entry(ops[1].user, first + 1, q.typ, q.value) in BatchEntries(ops, first);
  }

  lemma WriteFrom(s: State, ops: seq<Op>, added: set<Entry>) returns (t: State)
    requires Reachable(s) && s.lastSequence + |ops| < MAX_SEQUENCE
    requires BatchEntries(ops, s.lastSequence + 1) == added
    ensures Reachable(t) && t == s.(mem := s.mem + added, lastSequence := s.lastSequence + |ops|)
  {
    hide Reachable, BatchEntries;
    t := s.(mem := s.mem + added, lastSequence := s.lastSequence + |ops|);
    ReachableStep(s, Write(ops), t);
  }

  lemma SwitchAndFlush(s: State, level: nat, f: File, one: seq<File>, two: seq<File>, t: State)
    requires Reachable(s) && s.imm.None? && s.running.None?
    requires s.mem == FileEntries(f) && ValidFile(f) && f.number == s.nextFile + 1
    requires s.version == Levels(one, two) && (level == 1 || level == 2)
    requires RangeFree(one, f.smallest.user, f.largest.user)
    requires level == 1 ==> one == [] && t.version == Levels([f], two)
    requires level == 2 ==> two == [] && t.version == Levels(one, [f])
    requires t == s.(mem := {}, nextFile := s.nextFile + 2, version := t.version)
    ensures Reachable(t)
  {
    hide Reachable, ValidFile, FileEntries, RangeFree;
    var full := s.(imm := Some(s.mem), mem := {}, nextFile := s.nextFile + 1);
    ReachableStep(s, SwitchMemTable, full);
    FlushIsStep(full, level, f, one, two, t);
    ReachableStep(full, Flush(level, Some(f)), t);
  }

  /** Key 1 again: its table stops above the file that has the key. */
  lemma ReachesUpdated()
    ensures Reachable(UPDATED)
  {
    hide Reachable, ValidFile, FileEntries;
    ReachesFlushed();
    BatchOfOne(Op(1.0, Value, "b"), 4);
    var s := WriteFrom(FLUSHED, [Op(1.0, Value, "b")], {SECOND});
    TableEntries();
    FilesAreValid();
    SwitchAndFlush(s, 1, UPDATE, [], [BOTTOM], UPDATED);
  }

  /** The snapshot lies between the two entries of key 2, so nothing is dropped. */
  lemma SnapshotKeepsAll()
    ensures Kept({FIRST, OLD_VALUE, SECOND, TOMBSTONE}, 2, BaseTest(UPDATED.version, 1)) == {FIRST, OLD_VALUE, SECOND, TOMBSTONE}
  {
    hide BaseTest;
  }

  lemma ReachesSplit()
    ensures Reachable(SPLIT)
  {
    hide Reachable, ValidFile, FileEntries, ValidPlan, DisjointSorted, Kept, BaseTest, Entries, Less, BySmallest, Step;
    ReachesUpdated();
    assert [BOTTOM] + [] == [BOTTOM];
    MergePlanIsValid(UPDATE, BOTTOM, []);
    var s := UPDATED.(running := Some(Running(MergePlan(UPDATE, BOTTOM), 2, 6)));
    BeginIsStep(UPDATED, UPDATE, BOTTOM, [], s);
    ReachableStep(UPDATED, BeginCompaction(MergePlan(UPDATE, BOTTOM)), s);
    var t := s.(version := Levels([], [UPPER, BOUNDARY]), nextFile := 8, running := None);
    FilesAreValid();
    BoundaryFollows();
    PairIsDisjoint(UPPER, BOUNDARY);
    SortedPair(UPPER, BOUNDARY);
    TableEntries();
    PairEntries(UPPER, BOUNDARY);
    SnapshotKeepsAll();
    assert {SECOND} + {FIRST, OLD_VALUE, TOMBSTONE} == {FIRST, OLD_VALUE, SECOND, TOMBSTONE}
        == {FIRST, SECOND, TOMBSTONE} + {OLD_VALUE};
    assert [UPPER, BOUNDARY] + [] == [UPPER, BOUNDARY];
    InstallIsStep(s, UPDATE, BOTTOM, [], [UPPER, BOUNDARY], t);
    ReachableStep(s, InstallCompaction([UPPER, BOUNDARY]), t);
    assert t == SPLIT;
  }

  /** The snapshot is released and key 1 written a third time. */
  lemma ReachesUpdatedAgain()
    ensures Reachable(UPDATED_AGAIN)
  {
    hide Reachable, ValidFile, FileEntries;
    ReachesSplit();
    var s := SPLIT.(snapshots := []);
    ReachableStep(SPLIT, ReleaseSnapshot(0), s);
    BatchOfOne(Op(1.0, Value, "c"), 5);
    var t := WriteFrom(s, [Op(1.0, Value, "c")], {THIRD});
    TableEntries();
    FilesAreValid();
    SwitchAndFlush(t, 1, LOWER, [], [UPPER, BOUNDARY], UPDATED_AGAIN);
  }

  lemma ReachesStart()
    ensures Reachable(START)
  {
    hide Reachable, ValidPlan;
    ReachesUpdatedAgain();
    assert [UPPER] + [BOUNDARY] == [UPPER, BOUNDARY];
    MergePlanIsValid(LOWER, UPPER, [BOUNDARY]);
    BeginIsStep(UPDATED_AGAIN, LOWER, UPPER, [BOUNDARY], START);
    ReachableStep(UPDATED_AGAIN, BeginCompaction(MergePlan(LOWER, UPPER)), START);
  }

  /** The memtables went to the levels that `PickLevelForMemTableOutput` picks. */
  lemma FlushLevelsArePicked(maxFileSize: nat)
    requires maxFileSize > 0
    ensures PickedLevel(EMPTY_VERSION, 1.0, 2.0, maxFileSize, 2)
    ensures PickedLevel(FLUSHED.version, 1.0, 1.0, maxFileSize, 1)
    ensures PickedLevel(SPLIT.version, 1.0, 1.0, maxFileSize, 1)
  {
    hide PickedLevel, RangeFree, Overlapping, TotalFileSize;
    RangesOfLevelTwo();
    assert EMPTY_VERSION == Levels([], []);
    PickedAboveHit([], 1.0, 2.0, maxFileSize);
    PickedAboveHit([BOTTOM], 1.0, 1.0, maxFileSize);
    PickedAboveHit([UPPER, BOUNDARY], 1.0, 1.0, maxFileSize);
  }

  lemma RangesOfLevelTwo()
    ensures RangeFree([], 1.0, 2.0) && !RangeFree([BOTTOM], 1.0, 1.0) && !RangeFree([UPPER, BOUNDARY], 1.0, 1.0)
    ensures TotalFileSize(Overlapping([], Some(1.0), Some(2.0))) <= 10
    ensures TotalFileSize(Overlapping([BOTTOM], Some(1.0), Some(1.0))) <= 10
    ensures TotalFileSize(Overlapping([UPPER, BOUNDARY], Some(1.0), Some(1.0))) <= 10
  {
    OverlappingStep([], Some(1.0), Some(2.0));
    hide Overlapping;
    assert BOTTOM in [BOTTOM] && UPPER in [UPPER, BOUNDARY];
    assert [BOTTOM] + [] == [BOTTOM] && [UPPER] + [BOUNDARY] == [UPPER, BOUNDARY];
    MeetsFirstOnly(LOWER, BOTTOM, []);
    MeetsFirstOnly(LOWER, UPPER, [BOUNDARY]);
    SizeOfOne(BOTTOM);
    SizeOfOne(UPPER);
  }

  lemma SizeOfOne(f: File)
    ensures TotalFileSize([f]) == f.size
  {
    assert [f][..0] == [];
  }

  /** Nothing above level 2: the level depends on whether level 2 has the range. */
  lemma PickedAboveHit(two: seq<File>, lo: UserKey, hi: UserKey, maxFileSize: nat)
    requires maxFileSize > 0 && TotalFileSize(Overlapping(two, Some(lo), Some(hi))) <= 10
    ensures PickedLevel(Levels([], two), lo, hi, maxFileSize, if RangeFree(two, lo, hi) then 2 else 1)
  {
    var v := Levels([], two);
    hide Overlapping, TotalFileSize;
    assert v.files[0] == [] && v.files[1] == [] && v.files[2] == two && v.files[3] == [];
    MayPushOverEmpty(v, lo, hi, maxFileSize);
    assert RangeFree([], lo, hi);
    hide RangeFree, MayPush;
    forall l | 0 <= l < 2 ensures RangeFree(v.files[l], lo, hi) {
      assert v.files[l] == [];
    }
  }

  lemma MayPushOverEmpty(v: Version, lo: UserKey, hi: UserKey, maxFileSize: nat)
    requires |v.files| == NUM_LEVELS && v.files[1] == [] && v.files[3] == []
    requires maxFileSize > 0 && TotalFileSize(Overlapping(v.files[2], Some(lo), Some(hi))) <= 10
    ensures MayPush(v, 0, lo, hi, maxFileSize)
    ensures MayPush(v, 1, lo, hi, maxFileSize) == RangeFree(v.files[2], lo, hi)
  {
    assert Overlapping([], Some(lo), Some(hi)) == [] && TotalFileSize([]) == 0;
    hide Overlapping, TotalFileSize;
  }

  // ----------------------------------------------------- the last compaction

  /** The selection has no choice: every plan for level 1 takes exactly the lower
      file and its one overlapping neighbour, and leaves the boundary file out. */
  lemma SelectionLeavesBoundaryFile(plan: Plan)
    requires ValidPlan(UPDATED_AGAIN.version, plan) && plan.level == 1
    ensures plan.in0 == [LOWER] && plan.in1 == [UPPER]
    ensures IsBoundary(BOUNDARY, LargestKey(plan.in1)) && BOUNDARY in UPDATED_AGAIN.version.files[2]
  {
    hide Overlapping, SmallestKey, LargestKey, Less;
    var fs := UPDATED_AGAIN.version.files[1];
    var a, b :| 0 <= a < b <= |fs| && plan.in0 == fs[a..b];
    assert fs[0..1] == fs;
    SingleRange(LOWER);
    SingleRange(UPPER);
    assert [UPPER] + [BOUNDARY] == [UPPER, BOUNDARY];
    MeetsFirstOnly(LOWER, UPPER, [BOUNDARY]);
    BoundaryFollows();
    assert UPDATED_AGAIN.version.files[2][1] == BOUNDARY;
  }

  /** The older entries of key 1 are hidden by the last one; the tombstone is obsolete,
      for no level below the output level holds key 2. */
  lemma OnlyThirdIsKept()
    ensures Kept({THIRD} + {FIRST, SECOND, TOMBSTONE}, 5, BaseTest(START.version, 1)) == {THIRD}
  {
    var input := {THIRD} + {FIRST, SECOND, TOMBSTONE};
    assert THIRD in input && Hidden(input, 5, FIRST) && Hidden(input, 5, SECOND);
    forall lvl | 3 <= lvl < NUM_LEVELS ensures START.version.files[lvl] == [] {}
    assert Obsolete(5, BaseTest(START.version, 1), TOMBSTONE);
    assert !Hidden(input, 5, THIRD);
  }

  lemma StepIsPossible()
    ensures Step(START, InstallCompaction([MERGED]), FINISH)
  {
    hide ValidFile, FileEntries, ValidPlan, DisjointSorted, Kept, BaseTest, Entries, Less, BySmallest, Step;
    assert [UPPER] + [BOUNDARY] == [UPPER, BOUNDARY];
    MergePlanIsValid(LOWER, UPPER, [BOUNDARY]);
    FilesAreValid();
    SingleIsDisjoint(MERGED);
    TableEntries();
    SingleEntries(MERGED);
    OnlyThirdIsKept();
    BoundaryFollows();
    assert [MERGED] + [BOUNDARY] == [MERGED, BOUNDARY];
    SortedPair(MERGED, BOUNDARY);
    InstallIsStep(START, LOWER, UPPER, [BOUNDARY], [MERGED], FINISH);
  }

  /** The store gets from its creation to a state in which key 2 is deleted, and from there,
      by installing a compaction, to one in which it is back, read at the same snapshot. */
  lemma DeletedValueReturns()
    ensures Reachable(START) && Step(START, InstallCompaction([MERGED]), FINISH) && Reachable(FINISH)
    ensures Read(START, 2.0, 5) == None && Read(FINISH, 2.0, 5) == Some("old")
  {
    hide Inv, Step, Reachable, Contents, IsNewest, ValidVersion, FileEntries;
    ReachesStart();
    StepIsPossible();
    ReachableStep(START, InstallCompaction([MERGED]), FINISH);
    ReachableInv(START);
    InvParts(START);
    ReachableInv(FINISH);
    InvParts(FINISH);
    TableEntries();
    TwoLevelContents([LOWER], [UPPER, BOUNDARY]);
    TwoLevelContents([], [MERGED, BOUNDARY]);
    SingleEntries(LOWER);
    PairEntries(UPPER, BOUNDARY);
    PairEntries(MERGED, BOUNDARY);
    NewestOfTwo();
    assert All(START) == Contents(START.version) && All(FINISH) == Contents(FINISH.version);
    VisibleIs(Contents(START.version), 2.0, 5, TOMBSTONE);
    VisibleIs(Contents(FINISH.version), 2.0, 5, OLD_VALUE);
  }

  lemma TwoLevelContents(one: seq<File>, two: seq<File>)
    ensures Contents(Levels(one, two)) == Entries(one) + Entries(two)
  {
    var v := Levels(one, two);
    assert v.files[1] == one && v.files[2] == two;
    forall l | 0 <= l < NUM_LEVELS && l != 1 && l != 2 ensures Entries(v.files[l]) == {} {}
    hide Entries;
  }

  lemma NewestOfTwo()
    ensures IsNewest({THIRD} + ({FIRST, SECOND, TOMBSTONE} + {OLD_VALUE}), 2.0, 5, TOMBSTONE)
    ensures IsNewest({} + ({THIRD} + {OLD_VALUE}), 2.0, 5, OLD_VALUE)
  {
  }
}
