/** The store as a state machine: writes, memtable switches and flushes, trivial
    moves, compactions and snapshots, and what no live snapshot may notice. */
module Lsm {
  import opened DbFormat
  import opened TableFiles
  import opened Versions
  import opened CompactionInputs
  import opened VersionBuilder
  import opened LevelShape
  import opened DropRule
  import opened CompactionWork

  /** A compaction under way: its inputs, and the smallest snapshot and next file number when
      it began. */
  datatype Running = Running(plan: Plan, oldest: nat, first: nat)

  /** Everything the store holds, seen as sets of entries. */
  datatype State = State(
    mem: set<Entry>,
    imm: Option<set<Entry>>,
    version: Version,
    lastSequence: nat,
    nextFile: nat,
    snapshots: seq<nat>,
    running: Option<Running>)

  ghost function ImmEntries(s: State): set<Entry> {
    if s.imm.Some? then s.imm.value else {}
  }

  ghost function All(s: State): set<Entry> {
    s.mem + ImmEntries(s) + Contents(s.version)
  }

  ghost predicate UniqueNumbers(v: Version) {
    forall l, m, f, g {:trigger f in v.files[l], g in v.files[m]} ::
      0 <= l < |v.files| && 0 <= m < |v.files| && f in v.files[l] && g in v.files[m] && f.number == g.number ==>
      l == m && f == g
  }

  ghost predicate SequencesUpTo(S: set<Entry>, last: nat) {
    forall e :: e in S ==> e.sn <= last
  }

  /** Snapshots are listed oldest first and none is ahead of the last sequence. */
  ghost predicate SnapshotsInOrder(snapshots: seq<nat>, last: nat) {
    && (forall i :: 0 <= i < |snapshots| ==> snapshots[i] <= last)
    && (forall i, j :: 0 <= i < j < |snapshots| ==> snapshots[i] <= snapshots[j])
  }

  ghost predicate Inv(s: State) {
    && ValidVersion(s.version)
    && SortedBySmallest(s.version.files[0])
    && UniqueSeqs(All(s)) && SequencesUpTo(All(s), s.lastSequence)
    && Newer(s.mem, ImmEntries(s) + Contents(s.version))
    && Newer(ImmEntries(s), Contents(s.version))
    && UniqueNumbers(s.version) && NewestNumber(s.version, s.nextFile)
    && SnapshotsInOrder(s.snapshots, s.lastSequence)
    && RunningOk(s)
  }

  /** The inputs of a compaction under way stay valid, no snapshot older than those it goes by
      turns up, and all file numbers since it began are free for its outputs. */
  ghost predicate RunningOk(s: State) {
    s.running.Some? ==>
      var r := s.running.value;
      ValidPlan(s.version, r.plan) && r.oldest <= SmallestSnapshot(s) && NewestNumber(s.version, r.first) && r.first <= s.nextFile
  }

  function SmallestSnapshot(s: State): nat {
    if s.snapshots == [] then s.lastSequence else s.snapshots[0]
  }

  /** What a reader at snapshot `at` sees of `k`. */
  ghost function Read(s: State, k: UserKey, at: nat): Option<string> {
    Visible(All(s), k, at)
  }

  /** A new store: number 1 is that of its manifest. */
  ghost const EMPTY_STORE := State({}, None, EMPTY_VERSION, 0, 2, [], None)

  lemma EmptyStoreIsValid()
    ensures Inv(EMPTY_STORE) && All(EMPTY_STORE) == {}
  {
    EmptyVersionIsValid(EMPTY_STORE.version);
    hide ValidVersion, Contents;
  }

  lemma EmptyVersionIsValid(v: Version)
    requires |v.files| == NUM_LEVELS && forall l :: 0 <= l < NUM_LEVELS ==> v.files[l] == []
    ensures ValidVersion(v) && Contents(v) == {}
  {
    assert Entries([]) == {};
    hide Entries, Less;
  }

  // --------------------------------------------------------------- steps

  datatype Action =
    | Write(ops: seq<Op>)
    | SwitchMemTable
    | Flush(level: nat, table: Option<File>)
    | TrivialMove(plan: Plan)
    | BeginCompaction(plan: Plan)
    | InstallCompaction(outs: seq<File>)
    | TakeSnapshot
    | ReleaseSnapshot(index: nat)

  ghost function InputEntries(plan: Plan): set<Entry> {
    Entries(plan.in0) + Entries(plan.in1)
  }

  ghost predicate WriteStep(s: State, ops: seq<Op>, t: State) {
    && s.lastSequence + |ops| < MAX_SEQUENCE
    && t == s.(mem := s.mem + BatchEntries(ops, s.lastSequence + 1), lastSequence := s.lastSequence + |ops|)
  }

  /** The log of the new memtable takes a file number. */
  ghost predicate SwitchStep(s: State, t: State) {
    s.imm.None? && t == s.(imm := Some(s.mem), mem := {}, nextFile := s.nextFile + 1)
  }

  /** An empty memtable leaves no table; otherwise the table goes to a level it can
      reach without passing an overlapping file. */
  ghost predicate FlushStep(s: State, level: nat, table: Option<File>, t: State) {
    && s.imm.Some? && s.running.None? && |s.version.files| == NUM_LEVELS
    && match table
       case None =>
         s.imm.value == {} && t == s.(imm := None, nextFile := s.nextFile + 1)
       case Some(f) =>
         && ValidFile(f) && FileEntries(f) == s.imm.value && f.number == s.nextFile
         && FreeDownTo(s.version, level, f) && Flushed(s.version, level, f, t.version)
         && t == s.(imm := None, nextFile := s.nextFile + 1, version := t.version)
  }

  ghost predicate MoveStep(s: State, plan: Plan, t: State) {
    && s.running.None? && ValidPlan(s.version, plan) && |plan.in0| == 1 && plan.in1 == []
    && Installed(s.version, plan.level, plan.in0, [], plan.in0, t.version)
    && t == s.(version := t.version)
  }

  /** The merge works outside the mutex: between its beginning and the installation of its
      outputs there may be writes, memtable switches, and snapshots taken and released. */
  ghost predicate BeginStep(s: State, plan: Plan, t: State) {
    && s.running.None? && ValidPlan(s.version, plan)
    && t == s.(running := Some(Running(plan, SmallestSnapshot(s), s.nextFile)))
  }

  /** Outputs have ascending numbers; those of logs may lie between them. */
  ghost predicate NumbersIn(outs: seq<File>, first: nat, next: nat) {
    && (forall i :: 0 <= i < |outs| ==> first <= outs[i].number < next)
    && forall i, j :: 0 <= i < j < |outs| ==> outs[i].number < outs[j].number
  }

  ghost predicate CompactStep(s: State, r: Running, outs: seq<File>, t: State) {
    && ValidPlan(s.version, r.plan)
    && DisjointSorted(outs) && NumbersIn(outs, r.first, t.nextFile) && s.nextFile <= t.nextFile
    && Entries(outs) == Kept(InputEntries(r.plan), r.oldest, BaseTest(s.version, r.plan.level))
    && Installed(s.version, r.plan.level, r.plan.in0, r.plan.in1, outs, t.version)
    && t == s.(version := t.version, nextFile := t.nextFile, running := None)
  }

  ghost predicate InstallStep(s: State, outs: seq<File>, t: State) {
    s.running.Some? && CompactStep(s, s.running.value, outs, t)
  }

  ghost predicate Step(s: State, act: Action, t: State) {
    match act
    case Write(ops) => WriteStep(s, ops, t)
    case SwitchMemTable => SwitchStep(s, t)
    case Flush(level, table) => FlushStep(s, level, table, t)
    case TrivialMove(plan) => MoveStep(s, plan, t)
    case BeginCompaction(plan) => BeginStep(s, plan, t)
    case InstallCompaction(outs) => InstallStep(s, outs, t)
    case TakeSnapshot => t == s.(snapshots := s.snapshots + [s.lastSequence])
    case ReleaseSnapshot(i) => i < |s.snapshots| && t == s.(snapshots := s.snapshots[..i] + s.snapshots[i + 1..])
  }

  // ------------------------------------------------- compaction and reads

  /** Entries a compaction neither reads nor writes. */
  ghost function Rest(s: State, plan: Plan): set<Entry>
    requires |s.version.files| == NUM_LEVELS
  {
    s.mem + ImmEntries(s) + Untouched(s.version, plan.level, plan.in0, plan.in1)
  }

  lemma AllSplits(s: State, plan: Plan)
    requires ValidPlan(s.version, plan)
    ensures All(s) == InputEntries(plan) + Rest(s, plan)
  {
    hide *;
    PlanHasInputs(s.version, plan);
    ContentsSplit(s.version, plan.level, plan.in0, plan.in1);
    UnfoldAll(s);
    UnfoldRest(s, plan);
  }

  lemma UnfoldAll(s: State)
    ensures All(s) == s.mem + ImmEntries(s) + Contents(s.version)
  {
  }

  lemma UnfoldRest(s: State, plan: Plan)
    requires |s.version.files| == NUM_LEVELS
    ensures Rest(s, plan) == s.mem + ImmEntries(s) + Untouched(s.version, plan.level, plan.in0, plan.in1)
    ensures InputEntries(plan) == Entries(plan.in0) + Entries(plan.in1)
  {
  }

  lemma PlanHasInputs(v: Version, plan: Plan)
    requires ValidPlan(v, plan)
    ensures |v.files| == NUM_LEVELS && plan.level + 1 < NUM_LEVELS
    ensures Inputs(v, plan.level, plan.in0, plan.in1)
  {
  }

  lemma CompactedAll(s: State, r: Running, outs: seq<File>, t: State)
    requires CompactStep(s, r, outs, t)
    ensures All(t) == Entries(outs) + Rest(s, r.plan)
  {
    hide Inputs, Installed, Kept, Less, ValidVersion, Contents, Untouched, Entries;
    InstalledContents(s.version, r.plan.level, r.plan.in0, r.plan.in1, outs, t.version);
  }

  /** What the outputs hold, from entries and files alone. */
  lemma CompactLeavesExactly(s: State, r: Running, outs: seq<File>, t: State)
    requires CompactStep(s, r, outs, t)
    ensures LeavesExactly(InputEntries(r.plan), Entries(outs), r.oldest, s.version, r.plan.level)
  {
    hide LeavesExactly, Kept, ValidPlan, Installed, DisjointSorted, NumbersIn;
    KeptIsExact(InputEntries(r.plan), r.oldest, s.version, r.plan.level);
  }

  /** Reads that could change: a dropped tombstone uncovering an older value. */
  ghost predicate Hazard(s: State, plan: Plan, oldest: nat, t: Entry, w: Entry)
    requires |s.version.files| == NUM_LEVELS
  {
    Resurrects(InputEntries(plan), Rest(s, plan), oldest, BaseTest(s.version, plan.level), t, w)
  }

  ghost predicate NoHazard(s: State, plan: Plan, oldest: nat)
    requires |s.version.files| == NUM_LEVELS
  {
    forall a, b :: !Hazard(s, plan, oldest, a, b)
  }

  ghost predicate ReadsKeptFrom(s: State, t: State, oldest: nat) {
    forall k, at :: at >= oldest ==> Read(t, k, at) == Read(s, k, at)
  }

  lemma NoHazardIsSafe(s: State, plan: Plan, oldest: nat)
    requires |s.version.files| == NUM_LEVELS
    ensures NoHazard(s, plan, oldest) <==>
            SafeToDrop(InputEntries(plan), Rest(s, plan), oldest, BaseTest(s.version, plan.level))
  {
    hide Resurrects, Rest, InputEntries, BaseTest;
    forall a, b
      ensures Hazard(s, plan, oldest, a, b) ==
        Resurrects(InputEntries(plan), Rest(s, plan), oldest, BaseTest(s.version, plan.level), a, b)
    {}
  }

  /** Installing a compaction keeps every read from its oldest snapshot on exactly when it
      has no hazard. */
  lemma CompactionKeepsReadsIff(s: State, r: Running, outs: seq<File>, t: State)
    requires Inv(s) && CompactStep(s, r, outs, t)
    ensures |s.version.files| == NUM_LEVELS
    ensures NoHazard(s, r.plan, r.oldest) <==> ReadsKeptFrom(s, t, r.oldest)
  {
    hide Less, ValidVersion, Contents, Untouched, Entries, Resurrects, Installed, DisjointSorted, Kept, Newer, RunningOk,
      NoneDeeper, BaseTest, Visible, All, ValidPlan, InputEntries, Rest, UniqueNumbers, UniqueSeqs, SafeToDrop, NoHazard,
      NumbersIn;
    var plan, oldest := r.plan, r.oldest;
    PlanHasInputs(s.version, plan);
    AllSplits(s, plan);
    CompactedAll(s, r, outs, t);
    NoHazardIsSafe(s, plan, oldest);
    var input, rest, base := InputEntries(plan), Rest(s, plan), BaseTest(s.version, plan.level);
    ReadsKeptIffSafe(input, rest, oldest, base);
    forall k, at
      ensures Read(s, k, at) == Visible(input + rest, k, at)
      ensures Read(t, k, at) == Visible(Kept(input, oldest, base) + rest, k, at)
    {}
  }

  /** No file of the output level begins with the user key the upper inputs end with. */
  ghost predicate UpperInputsClosed(v: Version, plan: Plan)
    requires |v.files| == NUM_LEVELS && plan.level + 1 < NUM_LEVELS
  {
    plan.in1 != [] ==> forall g :: g in v.files[plan.level + 1] ==> !IsBoundary(g, LargestKey(plan.in1))
  }

  /** A hazard needs a file of the output level, left out of the inputs, that holds
      an older value of a key whose tombstone is among the upper inputs. */
  lemma HazardIsBesideUpperInputs(s: State, plan: Plan, oldest: nat, a: Entry, w: Entry)
    requires Inv(s) && ValidPlan(s.version, plan) && |s.version.files| == NUM_LEVELS && Hazard(s, plan, oldest, a, w)
    ensures a in Entries(plan.in1) && a.user == w.user && w.sn < a.sn
    ensures exists g :: g in s.version.files[plan.level + 1] && g !in plan.in1 && w in g.entries
  {
    hide *;
    var v, level := s.version, plan.level;
    InvParts(s);
    HazardParts(s, plan, oldest, a, w);
    PlanHasInputs(v, plan);
    InputHome(v, level, plan, a);
    var l, f := OlderRestIsInFile(s, plan, a, w);
    var home := if a in Entries(plan.in0) then level else level + 1;
    if l < home {
      ShallowerIsNewer(v, l, home, w, a);
    } else if l == level {
      var g := FileOf(plan.in0, a);
      RemainingIsNewer(v, level, plan.in0, plan.in1, f, w, g, a);
    } else if l > level + 1 {
      DeeperHolds(v, level, l, f, w);
    } else if a in Entries(plan.in0) {
      var g := FileOf(plan.in0, a);
      OutsideRange(v, level, plan.in0, plan.in1, f);
      InRange(v, level, plan.in0, plan.in1, g, a);
      FileBounds(f, w);
    } else {
      InputsCover(plan, a);
    }
  }

  lemma InvParts(s: State)
    requires Inv(s)
    ensures ValidVersion(s.version) && UniqueSeqs(Contents(s.version))
  {
    hide ValidVersion;
  }

  lemma InputsCover(plan: Plan, a: Entry)
    requires a in InputEntries(plan)
    ensures a in Entries(plan.in0) || a in Entries(plan.in1)
  {
  }

  lemma FileOf(fs: seq<File>, e: Entry) returns (f: File)
    requires e in Entries(fs)
    ensures f in fs && e in f.entries
  {
    f :| f in fs && e in f.entries;
  }

  lemma ShallowerIsNewer(v: Version, l: nat, m: nat, x: Entry, y: Entry)
    requires ValidVersion(v) && l < m < NUM_LEVELS
    requires x in Entries(v.files[l]) && y in Entries(v.files[m]) && x.user == y.user
    ensures x.sn > y.sn
  {
    assert Newer(Entries(v.files[l]), Entries(v.files[m]));
  }

  /** Memtables only hold newer entries, so what is older than an input entry and
      untouched sits in some file. */
  lemma OlderRestIsInFile(s: State, plan: Plan, a: Entry, w: Entry) returns (l: nat, f: File)
    requires Inv(s) && ValidPlan(s.version, plan) && |s.version.files| == NUM_LEVELS
    requires a in Contents(s.version) && w in Rest(s, plan) && a.user == w.user && w.sn < a.sn
    ensures l < NUM_LEVELS && f in s.version.files[l] && w in f.entries && w in Entries(s.version.files[l])
    ensures l == plan.level ==> f !in plan.in0
    ensures l == plan.level + 1 ==> f !in plan.in1
  {
    hide ValidVersion, Contents, UniqueSeqs, UniqueNumbers, SortedBySmallest, ValidPlan;
    assert w !in s.mem && w !in ImmEntries(s);
    assert w in Untouched(s.version, plan.level, plan.in0, plan.in1);
    l, f :| 0 <= l < NUM_LEVELS && f in s.version.files[l] && !(l == plan.level && f in plan.in0) &&
            !(l == plan.level + 1 && f in plan.in1) && w in f.entries;
  }

  lemma HazardParts(s: State, plan: Plan, oldest: nat, a: Entry, w: Entry)
    requires |s.version.files| == NUM_LEVELS && Hazard(s, plan, oldest, a, w)
    ensures a in InputEntries(plan) && w in Rest(s, plan) && a.user == w.user && w.sn < a.sn
    ensures NoneDeeper(s.version, plan.level, a.user)
  {
  }

  lemma InputHome(v: Version, level: nat, plan: Plan, a: Entry)
    requires ValidPlan(v, plan) && level == plan.level && a in InputEntries(plan)
    ensures |v.files| == NUM_LEVELS && level + 1 < NUM_LEVELS
    ensures a in Entries(plan.in0) ==> a in Entries(v.files[level])
    ensures a !in Entries(plan.in0) ==> a in Entries(v.files[level + 1])
    ensures a in Contents(v)
  {
    hide Less, Closed;
    InputsAreFiles(v, level, plan.in0, plan.in1);
  }

  lemma DeeperHolds(v: Version, level: nat, l: nat, f: File, w: Entry)
    requires ValidVersion(v) && level + 2 <= l < NUM_LEVELS && f in v.files[l] && w in f.entries
    ensures !NoneDeeper(v, level, w.user)
  {
    LevelIsValid(v, l);
    FileBounds(f, w);
    var j :| 0 <= j < |v.files[l]| && v.files[l][j] == f;
    assert Overlaps(v.files[l][j], Some(w.user), Some(w.user));
  }

  /** If the upper inputs leave no boundary file behind, nothing can be uncovered. */
  lemma ClosedUpperInputsAreSafe(s: State, plan: Plan, oldest: nat)
    requires Inv(s) && ValidPlan(s.version, plan) && |s.version.files| == NUM_LEVELS
    requires plan.level + 1 < NUM_LEVELS && UpperInputsClosed(s.version, plan)
    ensures NoHazard(s, plan, oldest)
  {
    hide *;
    InvParts(s);
    forall a, w ensures !Hazard(s, plan, oldest, a, w) {
      if Hazard(s, plan, oldest, a, w) {
        HazardIsBesideUpperInputs(s, plan, oldest, a, w);
        HazardHasBoundary(s.version, plan, a, w);
      }
    }
    AssembleNoHazard(s, plan, oldest);
  }

  lemma AssembleNoHazard(s: State, plan: Plan, oldest: nat)
    requires |s.version.files| == NUM_LEVELS
    requires forall a, w :: !Hazard(s, plan, oldest, a, w)
    ensures NoHazard(s, plan, oldest)
  {
    hide Hazard;
  }

  lemma HazardHasBoundary(v: Version, plan: Plan, a: Entry, w: Entry)
    requires ValidVersion(v) && ValidPlan(v, plan) && plan.level + 1 < NUM_LEVELS
    requires a in Entries(plan.in1) && a.user == w.user && w.sn < a.sn
    requires exists g :: g in v.files[plan.level + 1] && g !in plan.in1 && w in g.entries
    ensures !UpperInputsClosed(v, plan)
  {
    hide *;
    ShapeOf(v);
    var fs := v.files[plan.level + 1];
    var i, j := UpperInputsSlice(v, plan);
    SliceHasBoundary(fs, i, j, plan.in1, a, w);
    NotClosed(v, plan);
  }

  lemma UpperInputsSlice(v: Version, plan: Plan) returns (i: nat, j: nat)
    requires ValidVersion(v) && ValidPlan(v, plan) && plan.level + 1 < NUM_LEVELS
    ensures i <= j <= |v.files[plan.level + 1]| && plan.in1 == v.files[plan.level + 1][i..j]
  {
    hide Less, Closed;
    i, j := OverlappingIsSlice(v.files[plan.level + 1], RangeLow(plan.in0), RangeHigh(plan.in0));
  }

  lemma NotClosed(v: Version, plan: Plan)
    requires |v.files| == NUM_LEVELS && plan.level + 1 < NUM_LEVELS
    requires plan.in1 != [] && exists b :: b in v.files[plan.level + 1] && IsBoundary(b, LargestKey(plan.in1))
    ensures !UpperInputsClosed(v, plan)
  {
  }

  lemma SliceHasBoundary(fs: seq<File>, i: nat, j: nat, in1: seq<File>, a: Entry, w: Entry)
    requires DisjointSorted(fs) && i <= j <= |fs| && in1 == fs[i..j]
    requires a in Entries(in1) && a.user == w.user && w.sn < a.sn
    requires exists g :: g in fs && g !in in1 && w in g.entries
    ensures in1 != [] && exists b :: b in fs && IsBoundary(b, LargestKey(in1))
  {
    hide LargestKey, Entries;
    var p, q := BesidePositions(fs, i, j, in1, a, w);
    SliceRange(fs, i, j);
    if q < i {
      EarlierFileIsNewer(fs, q, p, w, a);
    } else {
      UsersMeet(fs, p, j, q, a, w);
    }
  }

  lemma BesidePositions(fs: seq<File>, i: nat, j: nat, in1: seq<File>, a: Entry, w: Entry) returns (p: nat, q: nat)
    requires i <= j <= |fs| && in1 == fs[i..j] && a in Entries(in1)
    requires exists g :: g in fs && g !in in1 && w in g.entries
    ensures i <= p < j && a in fs[p].entries
    ensures q < |fs| && w in fs[q].entries && (q < i || j <= q)
  {
    var h :| h in in1 && a in h.entries;
    var d :| 0 <= d < j - i && in1[d] == h;
    p := i + d;
    var g :| g in fs && g !in in1 && w in g.entries;
    q :| 0 <= q < |fs| && fs[q] == g;
    SliceMembers(fs, i, j);
  }

  /** Two files that share a user key squeeze every file between them to that key. */
  lemma UsersMeet(fs: seq<File>, p: nat, j: nat, q: nat, a: Entry, w: Entry)
    requires DisjointSorted(fs) && p < j <= q < |fs|
    requires a in fs[p].entries && w in fs[q].entries && a.user == w.user
    ensures fs[j] in fs && IsBoundary(fs[j], fs[j - 1].largest)
  {
    FileBounds(fs[p], a);
    FileBounds(fs[q], w);
    LevelOrder(fs, j - 1, j);
    if p < j - 1 { LevelOrder(fs, p, j - 1); }
    if j < q { LevelOrder(fs, j, q); FileOrder(fs[j]); }
  }

  // ------------------------------------------- every step keeps the invariant

  /** What the parts of the invariant say about entries only. */
  ghost predicate EntriesInv(mem: set<Entry>, imm: set<Entry>, files: set<Entry>, last: nat) {
    && UniqueSeqs(mem + imm + files) && SequencesUpTo(mem + imm + files, last)
    && Newer(mem, imm + files) && Newer(imm, files)
  }

  ghost predicate FilesInv(v: Version, nextFile: nat) {
    && ValidVersion(v) && SortedBySmallest(v.files[0])
    && UniqueNumbers(v) && NewestNumber(v, nextFile)
  }

  lemma InvIsParts(s: State)
    ensures Inv(s) <==>
      && FilesInv(s.version, s.nextFile)
      && EntriesInv(s.mem, ImmEntries(s), Contents(s.version), s.lastSequence)
      && SnapshotsInOrder(s.snapshots, s.lastSequence)
      && RunningOk(s)
  {
    hide ValidVersion, UniqueNumbers, SortedBySmallest, Contents, Newer, UniqueSeqs, SequencesUpTo, NewestNumber,
      SnapshotsInOrder, RunningOk;
  }

  lemma FewerEntries(mem: set<Entry>, imm: set<Entry>, files: set<Entry>, fewer: set<Entry>, last: nat)
    requires EntriesInv(mem, imm, files, last) && fewer <= files
    ensures EntriesInv(mem, imm, fewer, last)
  {
  }

  lemma WriteKeepsEntries(mem: set<Entry>, imm: set<Entry>, files: set<Entry>, last: nat, ops: seq<Op>)
    requires EntriesInv(mem, imm, files, last) && last + |ops| < MAX_SEQUENCE
    ensures EntriesInv(mem + BatchEntries(ops, last + 1), imm, files, last + |ops|)
  {
  }

  lemma SwitchKeepsEntries(mem: set<Entry>, files: set<Entry>, last: nat)
    requires EntriesInv(mem, {}, files, last)
    ensures EntriesInv({}, mem, files, last)
  {
    assert {} + mem + files == mem + {} + files && {} + files == files;
  }

  lemma FlushKeepsEntries(mem: set<Entry>, imm: set<Entry>, files: set<Entry>, last: nat)
    requires EntriesInv(mem, imm, files, last)
    ensures EntriesInv(mem, {}, files + imm, last)
  {
    assert mem + {} + (files + imm) == mem + imm + files && {} + (files + imm) == imm + files;
  }

  lemma FlushKeepsNumbers(v: Version, nextFile: nat, level: nat, f: File, w: Version)
    requires UniqueNumbers(v) && NewestNumber(v, nextFile) && f.number == nextFile && Flushed(v, level, f, w)
    ensures UniqueNumbers(w) && NewestNumber(w, nextFile + 1)
  {
    hide BySmallest;
    forall l, g | 0 <= l < NUM_LEVELS && g in w.files[l] ensures g in v.files[l] || (l == level && g == f) {
      assert g in FileSet(w.files[l]);
    }
  }

  lemma FlushedSorted(v: Version, level: nat, f: File, w: Version)
    requires Flushed(v, level, f, w) && SortedBySmallest(v.files[0])
    ensures |w.files| == NUM_LEVELS && SortedBySmallest(w.files[0])
  {
    hide BySmallest;
  }

  lemma FlushKeepsFiles(v: Version, nextFile: nat, level: nat, f: File, w: Version)
    requires FilesInv(v, nextFile) && ValidFile(f) && f.number == nextFile
    requires Newer(FileEntries(f), Contents(v))
    requires |v.files| == NUM_LEVELS && FreeDownTo(v, level, f) && Flushed(v, level, f, w)
    ensures FilesInv(w, nextFile + 1)
  {
    hide *;
    FilesParts(v, nextFile);
    FlushKeepsVersionValid(v, level, f, w);
    FlushKeepsNumbers(v, nextFile, level, f, w);
    FlushedSorted(v, level, f, w);
    FilesParts(w, nextFile + 1);
  }

  lemma FilesParts(v: Version, nextFile: nat)
    ensures FilesInv(v, nextFile) <==>
      && ValidVersion(v) && |v.files| == NUM_LEVELS && SortedBySmallest(v.files[0])
      && UniqueNumbers(v) && NewestNumber(v, nextFile)
  {
    hide SortedBySmallest, LevelZeroOrder, DisjointSorted, Newer, Entries, UniqueNumbers;
  }

  /** Where a file of the installed version comes from. */
  lemma InstalledFile(v: Version, level: nat, in0: seq<File>, in1: seq<File>, outs: seq<File>, w: Version, l: nat, g: File)
    requires Installed(v, level, in0, in1, outs, w) && l < NUM_LEVELS && g in w.files[l]
    ensures (g in v.files[l] && (l == level ==> g !in in0)) || (l == level + 1 && g in outs)
  {
    hide BySmallest;
    assert g in FileSet(w.files[l]);
  }

  ghost predicate FilesComeFrom(v: Version, level: nat, in0: seq<File>, outs: seq<File>, w: Version) {
    && |v.files| == NUM_LEVELS && |w.files| == NUM_LEVELS && level + 1 < NUM_LEVELS
    && forall l, g {:trigger g in w.files[l]} :: 0 <= l < NUM_LEVELS && g in w.files[l] ==>
         (g in v.files[l] && (l == level ==> g !in in0)) || (l == level + 1 && g in outs)
  }

  lemma InstalledFiles(v: Version, level: nat, in0: seq<File>, in1: seq<File>, outs: seq<File>, w: Version)
    requires Installed(v, level, in0, in1, outs, w)
    ensures FilesComeFrom(v, level, in0, outs, w)
  {
    InstalledShape(v, level, in0, in1, outs, w);
    hide Installed;
    forall l, g {:trigger g in w.files[l]} | 0 <= l < NUM_LEVELS && g in w.files[l]
      ensures (g in v.files[l] && (l == level ==> g !in in0)) || (l == level + 1 && g in outs)
    {
      InstalledFile(v, level, in0, in1, outs, w, l, g);
    }
  }

  lemma CompactKeepsNumbers(v: Version, first: nat, level: nat, in0: seq<File>, outs: seq<File>, w: Version, next: nat)
    requires UniqueNumbers(v) && NewestNumber(v, first) && FilesComeFrom(v, level, in0, outs, w)
    requires NumbersIn(outs, first, next) && first <= next
    ensures UniqueNumbers(w) && NewestNumber(w, next)
  {
  }

  /** A moved file keeps its number, which is gone from its old level. */
  lemma MoveKeepsNumbers(v: Version, nextFile: nat, level: nat, in0: seq<File>, w: Version)
    requires UniqueNumbers(v) && NewestNumber(v, nextFile) && FilesComeFrom(v, level, in0, in0, w)
    requires forall f :: f in in0 ==> f in v.files[level]
    ensures UniqueNumbers(w) && NewestNumber(w, nextFile)
  {
  }

  lemma CompactKeepsFiles(v: Version, first: nat, level: nat, in0: seq<File>, in1: seq<File>, outs: seq<File>, w: Version,
                          next: nat)
    requires FilesInv(v, first) && UniqueSeqs(Contents(v)) && Inputs(v, level, in0, in1)
    requires OutputsFit(in0, in1, outs) && NumbersIn(outs, first, next) && first <= next
    requires Installed(v, level, in0, in1, outs, w)
    ensures FilesInv(w, next)
  {
    hide *;
    FilesParts(v, first);
    InstallKeepsVersionValid(v, level, in0, in1, outs, w);
    InstalledFiles(v, level, in0, in1, outs, w);
    CompactKeepsNumbers(v, first, level, in0, outs, w, next);
    FirstLevelSorted(v, level, in0, in1, outs, w);
    FilesParts(w, next);
  }

  lemma MoveKeepsFiles(v: Version, nextFile: nat, level: nat, in0: seq<File>, w: Version)
    requires FilesInv(v, nextFile) && UniqueSeqs(Contents(v)) && Inputs(v, level, in0, [])
    requires OutputsFit(in0, [], in0) && Installed(v, level, in0, [], in0, w)
    ensures FilesInv(w, nextFile)
  {
    hide *;
    FilesParts(v, nextFile);
    InputsAreFiles(v, level, in0, []);
    InstallKeepsVersionValid(v, level, in0, [], in0, w);
    InstalledFiles(v, level, in0, [], in0, w);
    MoveKeepsNumbers(v, nextFile, level, in0, w);
    FirstLevelSorted(v, level, in0, [], in0, w);
    FilesParts(w, nextFile);
  }

  lemma InstalledShape(v: Version, level: nat, in0: seq<File>, in1: seq<File>, outs: seq<File>, w: Version)
    requires Installed(v, level, in0, in1, outs, w)
    ensures |v.files| == NUM_LEVELS && |w.files| == NUM_LEVELS && level + 1 < NUM_LEVELS
  {
  }

  lemma FirstLevelSorted(v: Version, level: nat, in0: seq<File>, in1: seq<File>, outs: seq<File>, w: Version)
    requires Installed(v, level, in0, in1, outs, w) && SortedBySmallest(v.files[0])
    ensures |w.files| == NUM_LEVELS && SortedBySmallest(w.files[0])
  {
    hide BySmallest;
  }

  /** A single input file, moved as it is, makes a fitting output. */
  lemma SingleFits(v: Version, plan: Plan)
    requires ValidVersion(v) && ValidPlan(v, plan) && |plan.in0| == 1
    ensures OutputsFit(plan.in0, [], plan.in0)
  {
    hide Less;
    InputsAreFiles(v, plan.level, plan.in0, plan.in1);
    LevelIsValid(v, plan.level);
    assert plan.in0[0] in plan.in0;
  }

  lemma KeptIsSubset(input: set<Entry>, snapshot: nat, base: UserKey -> bool)
    ensures Kept(input, snapshot, base) <= input
  {
  }

  lemma CompactKeepsInv(s: State, r: Running, outs: seq<File>, t: State)
    requires Inv(s) && CompactStep(s, r, outs, t) && NewestNumber(s.version, r.first) && r.first <= s.nextFile
    ensures Inv(t)
  {
    hide *;
    InvIsParts(s);
    InvIsParts(t);
    InvParts(s);
    CompactStepParts(s, r, outs, t);
    var v, plan := s.version, r.plan;
    KeptIsSubset(InputEntries(plan), r.oldest, BaseTest(v, plan.level));
    UnfoldRest(s, plan);
    FitFromKept(plan, outs);
    FilesParts(v, s.nextFile);
    FilesParts(v, r.first);
    CompactKeepsFiles(v, r.first, plan.level, plan.in0, plan.in1, outs, t.version, t.nextFile);
    ContentsSplit(v, plan.level, plan.in0, plan.in1);
    InstalledContents(v, plan.level, plan.in0, plan.in1, outs, t.version);
    FewerEntries(s.mem, ImmEntries(s), Contents(v), Contents(t.version), s.lastSequence);
    SameImm(s, t);
  }

  lemma SameImm(s: State, t: State)
    requires s.imm == t.imm
    ensures ImmEntries(s) == ImmEntries(t)
    ensures t.running.None? ==> RunningOk(t)
  {
  }

  lemma FitFromKept(plan: Plan, outs: seq<File>)
    requires DisjointSorted(outs) && Entries(outs) <= InputEntries(plan)
    ensures OutputsFit(plan.in0, plan.in1, outs)
  {
    hide DisjointSorted;
  }

  lemma CompactStepParts(s: State, r: Running, outs: seq<File>, t: State)
    requires CompactStep(s, r, outs, t)
    ensures |s.version.files| == NUM_LEVELS && r.plan.level + 1 < NUM_LEVELS
    ensures Inputs(s.version, r.plan.level, r.plan.in0, r.plan.in1)
    ensures DisjointSorted(outs) && NumbersIn(outs, r.first, t.nextFile) && s.nextFile <= t.nextFile
    ensures Entries(outs) == Kept(InputEntries(r.plan), r.oldest, BaseTest(s.version, r.plan.level))
    ensures Installed(s.version, r.plan.level, r.plan.in0, r.plan.in1, outs, t.version)
    ensures t == s.(version := t.version, nextFile := t.nextFile, running := None)
  {
    hide Inputs, DisjointSorted, Installed, NumbersIn;
    PlanHasInputs(s.version, r.plan);
  }

  lemma MoveStepParts(s: State, plan: Plan, t: State)
    requires Inv(s) && MoveStep(s, plan, t)
    ensures |s.version.files| == NUM_LEVELS && plan.level + 1 < NUM_LEVELS
    ensures Inputs(s.version, plan.level, plan.in0, [])
    ensures OutputsFit(plan.in0, [], plan.in0)
    ensures Installed(s.version, plan.level, plan.in0, [], plan.in0, t.version)
    ensures t == s.(version := t.version) && s.running.None?
  {
    hide Inputs, DisjointSorted, Installed, OutputsFit;
    PlanHasInputs(s.version, plan);
    InvParts(s);
    SingleFits(s.version, plan);
  }

  /** Moving a file leaves the contents of the version as they are. */
  lemma MoveKeepsContents(s: State, plan: Plan, t: State)
    requires Inv(s) && MoveStep(s, plan, t)
    ensures Contents(t.version) == Contents(s.version)
  {
    hide *;
    MoveStepParts(s, plan, t);
    ContentsSplit(s.version, plan.level, plan.in0, []);
    InstalledContents(s.version, plan.level, plan.in0, [], plan.in0, t.version);
    NoFilesNoEntries();
  }

  lemma NoFilesNoEntries()
    ensures Entries([]) == {}
  {
  }

  lemma MoveKeepsInv(s: State, plan: Plan, t: State)
    requires Inv(s) && MoveStep(s, plan, t)
    ensures Inv(t)
  {
    hide *;
    InvIsParts(s);
    InvIsParts(t);
    InvParts(s);
    MoveStepParts(s, plan, t);
    MoveKeepsContents(s, plan, t);
    MoveKeepsFiles(s.version, s.nextFile, plan.level, plan.in0, t.version);
    SameImm(s, t);
  }

  lemma FlushKeepsInv(s: State, level: nat, table: Option<File>, t: State)
    requires Inv(s) && FlushStep(s, level, table, t)
    ensures Inv(t) && All(t) == All(s)
  {
    hide ValidVersion, FilesInv, EntriesInv, RunningOk, Flushed, FreeDownTo, ValidFile, Contents, SnapshotsInOrder, Inv, FileEntries;
    InvIsParts(s);
    InvIsParts(t);
    SameRunning(s, t);
    FlushKeepsEntries(s.mem, ImmEntries(s), Contents(s.version), s.lastSequence);
    match table
    case None =>
      assert Contents(s.version) + {} == Contents(s.version);
      MoreNumbers(s.version, s.nextFile);
    case Some(f) =>
      ImmIsNewer(s);
      FlushKeepsFiles(s.version, s.nextFile, level, f, t.version);
      FlushedEntries(s.version, level, f, t.version);
  }

  lemma ImmIsNewer(s: State)
    requires Inv(s)
    ensures Newer(ImmEntries(s), Contents(s.version))
  {
    hide ValidVersion, Newer;
  }

  lemma MoreNumbers(v: Version, n: nat)
    requires FilesInv(v, n)
    ensures FilesInv(v, n + 1)
  {
    hide ValidVersion;
  }

  lemma WriteKeepsInv(s: State, ops: seq<Op>, t: State)
    requires Inv(s) && WriteStep(s, ops, t)
    ensures Inv(t)
  {
    hide ValidVersion, FilesInv, EntriesInv, Contents, Inv, RunningOk;
    InvIsParts(s);
    InvIsParts(t);
    SameRunning(s, t);
    WriteKeepsEntries(s.mem, ImmEntries(s), Contents(s.version), s.lastSequence, ops);
  }

  lemma SwitchKeepsInv(s: State, t: State)
    requires Inv(s) && SwitchStep(s, t)
    ensures Inv(t) && All(t) == All(s)
  {
    hide ValidVersion, FilesInv, EntriesInv, Contents, SnapshotsInOrder, Inv, RunningOk;
    InvIsParts(s);
    InvIsParts(t);
    SameRunning(s, t);
    MoreNumbers(s.version, s.nextFile);
    SwitchKeepsEntries(s.mem, Contents(s.version), s.lastSequence);
  }

  lemma SnapshotKeepsInv(s: State, act: Action, t: State)
    requires Inv(s) && Step(s, act, t) && (act.TakeSnapshot? || act.ReleaseSnapshot?)
    ensures Inv(t) && All(t) == All(s)
  {
    hide ValidVersion, FilesInv, EntriesInv, Contents, Inv, RunningOk;
    InvIsParts(s);
    InvIsParts(t);
    SameRunning(s, t);
  }

  /** A compaction under way is not disturbed while the files stay and snapshots only get
      newer. */
  lemma SameRunning(s: State, t: State)
    requires RunningOk(s) && t.running == s.running && s.nextFile <= t.nextFile
    requires s.running.Some? ==> t.version == s.version && SmallestSnapshot(s) <= SmallestSnapshot(t)
    ensures RunningOk(t)
  {
    hide ValidPlan;
  }

  lemma BeginKeepsInv(s: State, plan: Plan, t: State)
    requires Inv(s) && BeginStep(s, plan, t)
    ensures Inv(t) && All(t) == All(s)
  {
    hide ValidVersion, FilesInv, EntriesInv, Contents, Inv, ValidPlan;
    InvIsParts(s);
    InvIsParts(t);
    FilesParts(s.version, s.nextFile);
    hide UniqueNumbers, SortedBySmallest, NewestNumber;
  }

  lemma RunningFits(s: State)
    requires Inv(s) && s.running.Some?
    ensures var r := s.running.value;
      ValidPlan(s.version, r.plan) && r.oldest <= SmallestSnapshot(s) && NewestNumber(s.version, r.first) && r.first <= s.nextFile
  {
    hide ValidVersion, Contents, UniqueNumbers, SortedBySmallest, ValidPlan, NewestNumber, UniqueSeqs, Newer;
  }

  lemma InstallKeepsInv(s: State, outs: seq<File>, t: State)
    requires Inv(s) && InstallStep(s, outs, t)
    ensures Inv(t)
  {
    hide CompactStep, Inv, NewestNumber;
    RunningFits(s);
    CompactKeepsInv(s, s.running.value, outs, t);
  }

  /** Every step keeps the invariant of the store. */
  lemma StepKeepsInv(s: State, act: Action, t: State)
    requires Inv(s) && Step(s, act, t)
    ensures Inv(t)
  {
    hide Inv, WriteStep, SwitchStep, FlushStep, MoveStep, BeginStep, InstallStep;
    match act
    case Write(ops) => WriteKeepsInv(s, ops, t);
    case SwitchMemTable => SwitchKeepsInv(s, t);
    case Flush(level, table) => FlushKeepsInv(s, level, table, t);
    case TrivialMove(plan) => MoveKeepsInv(s, plan, t);
    case BeginCompaction(plan) => BeginKeepsInv(s, plan, t);
    case InstallCompaction(outs) => InstallKeepsInv(s, outs, t);
    case TakeSnapshot => SnapshotKeepsInv(s, act, t);
    case ReleaseSnapshot(i) => SnapshotKeepsInv(s, act, t);
  }

  // -------------------------------------------------------- reads over runs

  /** The outputs of a compaction are installed without uncovering an older value. */
  ghost predicate SafeAction(s: State, act: Action) {
    act.InstallCompaction? && s.running.Some? ==>
      |s.version.files| == NUM_LEVELS && NoHazard(s, s.running.value.plan, s.running.value.oldest)
  }

  /** A write is invisible to every snapshot taken before it. */
  lemma WriteKeepsOldReads(s: State, ops: seq<Op>, t: State, k: UserKey, at: nat)
    requires Inv(s) && WriteStep(s, ops, t) && at <= s.lastSequence
    ensures Read(t, k, at) == Read(s, k, at)
  {
    hide ValidVersion, Contents, Visible, FilesInv, Inv;
    var added := BatchEntries(ops, s.lastSequence + 1);
    assert All(t) == All(s) + added;
    WriteKeepsInv(s, ops, t);
    InvIsParts(s);
    InvIsParts(t);
    AddingNewer(All(s), added, k, at);
  }

  /** No step changes what a live snapshot reads. */
  lemma StepKeepsLiveReads(s: State, act: Action, t: State, k: UserKey, at: nat)
    requires Inv(s) && Step(s, act, t) && SafeAction(s, act)
    requires SmallestSnapshot(s) <= at <= s.lastSequence
    ensures Read(t, k, at) == Read(s, k, at)
  {
    hide Inv, WriteStep, SwitchStep, FlushStep, MoveStep, BeginStep, CompactStep, Visible, NoHazard, SmallestSnapshot, Contents;
    match act
    case Write(ops) => WriteKeepsOldReads(s, ops, t, k, at);
    case SwitchMemTable => SwitchKeepsInv(s, t);
    case Flush(level, table) => FlushKeepsInv(s, level, table, t);
    case TrivialMove(plan) =>
      MoveKeepsContents(s, plan, t);
      MoveStepParts(s, plan, t);
    case BeginCompaction(plan) => BeginKeepsInv(s, plan, t);
    case InstallCompaction(outs) =>
      var running := s.running.value;
      CompactionKeepsReadsIff(s, running, outs, t);
      RunningFits(s);
      assert ReadsKeptFrom(s, t, running.oldest);
    case TakeSnapshot => SnapshotKeepsInv(s, act, t);
    case ReleaseSnapshot(i) => SnapshotKeepsInv(s, act, t);
  }

  /** A run: consecutive states linked by steps. */
  ghost predicate Run(states: seq<State>, acts: seq<Action>) {
    && |states| == |acts| + 1 && Inv(states[0])
    && forall i :: 0 <= i < |acts| ==> Step(states[i], acts[i], states[i + 1])
  }

  lemma {:induction false} RunKeepsInv(states: seq<State>, acts: seq<Action>, n: nat)
    requires Run(states, acts) && n <= |acts|
    ensures Inv(states[n])
  {
    hide Inv, Step;
    if n > 0 {
      RunKeepsInv(states, acts, n - 1);
      StepKeepsInv(states[n - 1], acts[n - 1], states[n]);
    }
  }

  /** A state the store can get to from its creation. */
  ghost predicate Reachable(s: State) {
    exists states, acts :: Run(states, acts) && states[0] == EMPTY_STORE && states[|acts|] == s
  }

  lemma NewStoreIsReachable()
    ensures Reachable(EMPTY_STORE)
  {
    hide Inv, Step;
    EmptyStoreIsValid();
    var states, acts: seq<Action> := [EMPTY_STORE], [];
    assert Run(states, acts);
  }

  lemma ReachableStep(s: State, act: Action, t: State)
    requires Reachable(s) && Step(s, act, t)
    ensures Reachable(t)
  {
    hide Inv, Step;
    var states, acts :| Run(states, acts) && states[0] == EMPTY_STORE && states[|acts|] == s;
    var longer, more := states + [t], acts + [act];
    assert Run(longer, more);
  }

  lemma ReachableInv(s: State)
    requires Reachable(s)
    ensures Inv(s)
  {
    hide Inv, Step;
    var states, acts :| Run(states, acts) && states[0] == EMPTY_STORE && states[|acts|] == s;
    RunKeepsInv(states, acts, |acts|);
  }

  /** Up to its `n`th step the run only installs compactions that uncover nothing. */
  ghost predicate SafeRun(states: seq<State>, acts: seq<Action>, n: nat) {
    && Run(states, acts) && n <= |acts|
    && forall i :: 0 <= i < n ==> SafeAction(states[i], acts[i])
  }

  /** Reads at a held snapshot never change: over any run through which the snapshot stays
      in the list, with compactions under way during other steps, every key reads the same at
      the end as at the beginning. */
  lemma {:induction false} HeldSnapshotIsStable(states: seq<State>, acts: seq<Action>, n: nat, k: UserKey, at: nat)
    requires SafeRun(states, acts, n)
    requires forall i :: 0 <= i <= n ==> at in states[i].snapshots
    ensures Read(states[n], k, at) == Read(states[0], k, at)
  {
    hide Inv, Step, SafeAction, Read;
    if n > 0 {
      HeldSnapshotIsStable(states, acts, n - 1, k, at);
      RunKeepsInv(states, acts, n - 1);
      HeldIsLive(states[n - 1], at);
      StepKeepsLiveReads(states[n - 1], acts[n - 1], states[n], k, at);
    }
  }

  lemma HeldIsLive(s: State, at: nat)
    requires Inv(s) && at in s.snapshots
    ensures SmallestSnapshot(s) <= at <= s.lastSequence
  {
    hide ValidVersion, UniqueNumbers, Contents, SortedBySmallest;
  }

  // --------------------------------------------------- the store as a map

  /** What an operation list leaves for a key: its last operation on that key. */
  ghost function LastOp(ops: seq<Op>, k: UserKey): Option<nat> {
    if ops == [] then None
    else if ops[|ops| - 1].user == k then Some(|ops| - 1)
    else LastOp(ops[..|ops| - 1], k)
  }

  lemma {:induction false} LastOpIsLast(ops: seq<Op>, k: UserKey)
    ensures match LastOp(ops, k)
      case None => forall i :: 0 <= i < |ops| ==> ops[i].user != k
      case Some(n) => n < |ops| && ops[n].user == k && forall i :: n < i < |ops| ==> ops[i].user != k
  {
    if ops != [] { LastOpIsLast(ops[..|ops| - 1], k); }
  }

  /** A reader without a snapshot sees the store as a map: a batch sets or deletes
      the keys it names, in order, and leaves all others alone. */
  lemma WriteUpdatesLatest(s: State, ops: seq<Op>, t: State, k: UserKey)
    requires Inv(s) && WriteStep(s, ops, t)
    ensures Read(t, k, t.lastSequence) ==
      match LastOp(ops, k)
      case None => Read(s, k, s.lastSequence)
      case Some(n) => if n < |ops| && ops[n].typ.Value? then Some(ops[n].value) else None
  {
    hide ValidVersion, Contents, Visible, FilesInv, Inv;
    var first := s.lastSequence + 1;
    var added := BatchEntries(ops, first);
    assert All(t) == All(s) + added;
    WriteKeepsInv(s, ops, t);
    InvIsParts(s);
    InvIsParts(t);
    LastOpIsLast(ops, k);
    hide All, ImmEntries, EntriesInv, IsNewest;
    match LastOp(ops, k)
    case None =>
      BatchSkips(ops, first, k);
      AllInv(s);
      AllInv(t);
      LaterLimit(All(s), added, k, s.lastSequence, t.lastSequence);
    case Some(n) =>
      var e := Entry(k, first + n, ops[n].typ, ops[n].value);
      AllInv(s);
      AllInv(t);
      LastIsNewest(All(s), ops, first, k, n);
      VisibleIs(All(t), k, t.lastSequence, e);
  }

  lemma AllInv(s: State)
    requires Inv(s)
    ensures UniqueSeqs(All(s)) && SequencesUpTo(All(s), s.lastSequence)
  {
    hide ValidVersion, Contents, UniqueNumbers, SortedBySmallest, RunningOk, Newer;
  }

  lemma BatchSkips(ops: seq<Op>, first: nat, k: UserKey)
    requires first + |ops| <= MAX_SEQUENCE + 1 && forall i :: 0 <= i < |ops| ==> ops[i].user != k
    ensures forall e :: e in BatchEntries(ops, first) ==> e.user != k
  {
  }

  /** The last operation on a key is the newest entry of it once the batch is inserted. */
  lemma LastIsNewest(S: set<Entry>, ops: seq<Op>, first: nat, k: UserKey, n: nat)
    requires first + |ops| <= MAX_SEQUENCE + 1 && n < |ops| && ops[n].user == k
    requires forall i :: n < i < |ops| ==> ops[i].user != k
    requires first > 0 && SequencesUpTo(S, first - 1)
    ensures IsNewest(S + BatchEntries(ops, first), k, first + |ops| - 1, Entry(k, first + n, ops[n].typ, ops[n].value))
  {
    assert Entry(ops[n].user, first + n, ops[n].typ, ops[n].value) in BatchEntries(ops, first);
  }

  lemma LaterLimit(S: set<Entry>, added: set<Entry>, k: UserKey, last: nat, later: nat)
    requires UniqueSeqs(S) && UniqueSeqs(S + added) && SequencesUpTo(S, last) && last <= later
    requires forall e :: e in added ==> e.user != k
    ensures Visible(S + added, k, later) == Visible(S, k, last)
  {
    if exists o :: o in S && o.user == k && o.sn <= last {
      var e := NewestExists(S, k, last);
      assert IsNewest(S + added, k, later, e);
      VisibleIs(S, k, last, e);
      VisibleIs(S + added, k, later, e);
    }
  }
}
