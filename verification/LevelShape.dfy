/** How installing a compaction or a flushed memtable changes the levels, and why
    the LSM invariant survives. */
module LevelShape {
  import opened DbFormat
  import opened TableFiles
  import opened Versions
  import opened CompactionInputs
  import opened VersionBuilder

  ghost predicate Apart(f: File, g: File) {
    Less(f.largest, g.smallest) || Less(g.largest, f.smallest)
  }

  ghost predicate PairwiseApart(fs: set<File>) {
    forall f, g :: f in fs && g in fs && f != g ==> Apart(f, g)
  }

  ghost predicate AllValid(fs: set<File>) {
    forall f :: f in fs ==> ValidFile(f)
  }

  lemma DisjointIsApart(fs: seq<File>)
    requires DisjointSorted(fs)
    ensures SortedBySmallest(fs) && PairwiseApart(FileSet(fs)) && AllValid(FileSet(fs))
  {
    forall i, j | 0 <= i < j < |fs| ensures BySmallest(fs[i], fs[j]) {
      LevelOrder(fs, i, j);
    }
    hide Less;
    forall f, g | f in fs && g in fs && f != g ensures Apart(f, g) {
      var i :| 0 <= i < |fs| && fs[i] == f;
      var j :| 0 <= j < |fs| && fs[j] == g;
      assert i < j || j < i;
    }
  }

  lemma ApartIsDisjoint(fs: seq<File>)
    requires SortedBySmallest(fs) && PairwiseApart(FileSet(fs)) && AllValid(FileSet(fs))
    ensures DisjointSorted(fs)
  {
    forall f | f in fs ensures ValidFile(f) { assert f in FileSet(fs); }
    forall i, j | 0 <= i < j < |fs| ensures Less(fs[i].largest, fs[j].smallest) {
      ApartInOrder(fs[i], fs[j], FileSet(fs));
    }
  }

  lemma ApartInOrder(f: File, g: File, fs: set<File>)
    requires PairwiseApart(fs) && f in fs && g in fs && BySmallest(f, g) && ValidFile(f) && ValidFile(g)
    ensures Less(f.largest, g.smallest)
  {
    FileOrder(f);
    FileOrder(g);
  }

  // --------------------------------------------------------- a compaction

  /** `w` is `v` with the inputs replaced by `outs` one level down. */
  ghost predicate Installed(v: Version, level: nat, in0: seq<File>, in1: seq<File>, outs: seq<File>, w: Version) {
    && |v.files| == NUM_LEVELS && |w.files| == NUM_LEVELS && level + 1 < NUM_LEVELS
    && (forall l :: 0 <= l < NUM_LEVELS && l != level && l != level + 1 ==> w.files[l] == v.files[l])
    && SortedBySmallest(w.files[level]) && SortedBySmallest(w.files[level + 1])
    && FileSet(w.files[level]) == FileSet(v.files[level]) - FileSet(in0)
    && FileSet(w.files[level + 1]) == FileSet(v.files[level + 1]) - FileSet(in1) + FileSet(outs)
  }

  /** The user keys of the lower inputs lie in their range; a file of the next level
      left out of the inputs lies outside that range. */
  lemma OutsideRange(v: Version, level: nat, in0: seq<File>, in1: seq<File>, g: File)
    requires ValidVersion(v) && Inputs(v, level, in0, in1)
    requires g in v.files[level + 1] && g !in in1
    ensures ValidFile(g)
    ensures g.largest.user < SmallestKey(in0).user || LargestKey(in0).user < g.smallest.user
  {
    hide Closed, SmallestKey, LargestKey;
  }

  lemma InRange(v: Version, level: nat, in0: seq<File>, in1: seq<File>, f: File, x: Entry)
    requires ValidVersion(v) && Inputs(v, level, in0, in1) && f in in0 && x in f.entries
    ensures SmallestKey(in0).user <= x.user <= LargestKey(in0).user
  {
    hide SmallestKey, LargestKey, Less;
    InputsAreFiles(v, level, in0, in1);
    LevelIsValid(v, level);
    FileBounds(f, x);
    RangeHolds(in0, f);
    AtMostUsers(SmallestKey(in0), f.smallest);
    AtMostUsers(f.largest, LargestKey(in0));
  }

  lemma AtMostUsers(a: InternalKey, b: InternalKey)
    requires AtMost(a, b)
    ensures a.user <= b.user
  {
  }

  /** A file of the next level left out of the inputs lies entirely before or
      entirely after everything that is merged. */
  lemma OneSide(v: Version, level: nat, in0: seq<File>, in1: seq<File>, g: File)
    requires ValidVersion(v) && Inputs(v, level, in0, in1)
    requires g in v.files[level + 1] && g !in in1
    ensures (forall x :: x in Entries(in0) + Entries(in1) ==> Less(g.largest, x.Key())) ||
            (forall x :: x in Entries(in0) + Entries(in1) ==> Less(x.Key(), g.smallest))
  {
    OutsideRange(v, level, in0, in1, g);
    var before := g.largest.user < SmallestKey(in0).user;
    forall x | x in Entries(in0) + Entries(in1)
      ensures before ==> Less(g.largest, x.Key())
      ensures !before ==> Less(x.Key(), g.smallest)
    {
      hide Inputs;
      if x in Entries(in0) {
        var f :| f in in0 && x in f.entries;
        InRange(v, level, in0, in1, f, x);
      } else {
        var f :| f in in1 && x in f.entries;
        OneSideOfFile(v, level, in0, in1, g, f, x);
      }
    }
  }

  lemma OneSideOfFile(v: Version, level: nat, in0: seq<File>, in1: seq<File>, g: File, f: File, x: Entry)
    requires ValidVersion(v) && Inputs(v, level, in0, in1)
    requires g in v.files[level + 1] && g !in in1 && f in in1 && x in f.entries
    ensures g.largest.user < SmallestKey(in0).user ==> Less(g.largest, x.Key())
    ensures LargestKey(in0).user < g.smallest.user ==> Less(x.Key(), g.smallest)
  {
    hide SmallestKey, LargestKey, Closed;
    var fs := v.files[level + 1];
    assert f in fs && Overlaps(f, Some(SmallestKey(in0).user), Some(LargestKey(in0).user));
    DisjointIsApart(fs);
    assert f in FileSet(fs) && g in FileSet(fs) && Apart(f, g);
    FileOrder(g);
    FileBounds(f, x);
  }

  /** What stays in the lower level is newer than the lower inputs. */
  lemma RemainingIsNewer(v: Version, level: nat, in0: seq<File>, in1: seq<File>, f: File, x: Entry, g: File, y: Entry)
    requires ValidVersion(v) && UniqueSeqs(Contents(v)) && Inputs(v, level, in0, in1)
    requires f in v.files[level] && f !in in0 && x in f.entries
    requires g in in0 && y in g.entries && x.user == y.user
    ensures x.sn > y.sn
  {
    hide *;
    InputsAreClosed(v, level, in0, in1);
    if level == 0 {
      ClosedSharesNoUser(v.files[0], in0, f, x, g, y);
    } else {
      var fs := v.files[level];
      var i, j := RunPositions(fs, level, in0, f, x, g, y);
      EarlierFileIsNewer(fs, i, j, x, y);
      SameUserLess(v, level, f, x, g, y);
    }
  }

  lemma InputsAreClosed(v: Version, level: nat, in0: seq<File>, in1: seq<File>)
    requires ValidVersion(v) && Inputs(v, level, in0, in1)
    ensures |v.files| == NUM_LEVELS && level + 1 < NUM_LEVELS
    ensures Closed(level, v.files[level], in0)
    ensures forall f :: f in in0 ==> f in v.files[level]
    ensures if level == 0 then ValidFiles(v.files[0]) else DisjointSorted(v.files[level])
  {
    InputsAreFiles(v, level, in0, in1);
  }

  lemma ClosedSharesNoUser(fs: seq<File>, in0: seq<File>, f: File, x: Entry, g: File, y: Entry)
    requires ValidFiles(fs) && Closed(0, fs, in0)
    requires f in fs && f !in in0 && x in f.entries && g in in0 && y in g.entries
    ensures x.user != y.user
  {
    hide Less;
    var lo, hi :| ClosedRange(fs, lo, hi) && in0 == Overlapping(fs, lo, hi);
    FileBounds(f, x);
    FileBounds(g, y);
  }

  /** A file outside a closed run that shares a user key with it comes before it. */
  lemma RunPositions(fs: seq<File>, level: nat, in0: seq<File>, f: File, x: Entry, g: File, y: Entry)
    returns (i: nat, j: nat)
    requires DisjointSorted(fs) && level > 0 && Closed(level, fs, in0)
    requires f in fs && f !in in0 && x in f.entries && g in in0 && y in g.entries && x.user == y.user
    ensures i < j < |fs| && fs[i] == f && fs[j] == g
  {
    hide DisjointSorted, NoBoundaryAt;
    var a, b :| 0 <= a < b <= |fs| && in0 == fs[a..b] && NoBoundaryAt(fs, b);
    hide Closed;
    i, j := SlicePositions(fs, a, b, f, x, g, y);
  }

  lemma SlicePositions(fs: seq<File>, a: nat, b: nat, f: File, x: Entry, g: File, y: Entry) returns (i: nat, j: nat)
    requires DisjointSorted(fs) && a < b <= |fs| && NoBoundaryAt(fs, b)
    requires f in fs && f !in fs[a..b] && x in f.entries && g in fs[a..b] && y in g.entries && x.user == y.user
    ensures i < j < |fs| && fs[i] == f && fs[j] == g
  {
    hide DisjointSorted, NoBoundaryAt;
    i :| 0 <= i < |fs| && fs[i] == f;
    var d :| 0 <= d < b - a && fs[a..b][d] == g;
    j := a + d;
    SliceMembers(fs, a, b);
    if b <= i {
      NotAfterTheEnd(fs, b, j, i, x, y);
    }
  }

  /** Files behind a closed slice share no user key with it. */
  lemma NotAfterTheEnd(fs: seq<File>, b: nat, j: nat, i: nat, x: Entry, y: Entry)
    requires DisjointSorted(fs) && j < b <= i < |fs| && NoBoundaryAt(fs, b)
    requires x in fs[i].entries && y in fs[j].entries
    ensures x.user != y.user
  {
    hide Less, DisjointSorted, ValidFiles;
    AfterTheEnd(fs, b, j, i);
    EntryUsers(fs, i, x);
    EntryUsers(fs, j, y);
  }

  lemma SliceMembers(fs: seq<File>, a: nat, b: nat)
    requires a <= b <= |fs|
    ensures forall k :: a <= k < b ==> fs[k] in fs[a..b]
  {
    forall k | a <= k < b ensures fs[k] in fs[a..b] {
      assert fs[a..b][k - a] == fs[k];
    }
  }

  lemma EntryUsers(fs: seq<File>, i: nat, x: Entry)
    requires DisjointSorted(fs) && i < |fs| && x in fs[i].entries
    ensures fs[i].smallest.user <= x.user <= fs[i].largest.user
  {
    FileBounds(fs[i], x);
  }

  lemma SameUserLess(v: Version, level: nat, f: File, x: Entry, g: File, y: Entry)
    requires level < |v.files| && f in v.files[level] && g in v.files[level] && x in f.entries && y in g.entries
    requires UniqueSeqs(Contents(v)) && x.user == y.user && Less(x.Key(), y.Key())
    ensures x.sn > y.sn
  {
    assert x in Entries(v.files[level]) && y in Entries(v.files[level]);
    assert x in Contents(v) && y in Contents(v);
  }

  lemma AfterTheEnd(fs: seq<File>, b: nat, j: nat, i: nat)
    requires DisjointSorted(fs) && 0 < b <= i < |fs| && j < b && NoBoundaryAt(fs, b)
    ensures fs[j].largest.user < fs[i].smallest.user
  {
    LevelOrder(fs, b - 1, b);
    if j < b - 1 { LevelOrder(fs, j, b - 1); }
    if b < i { LevelOrder(fs, b, i); }
  }

  // ------------------------------------------- installing keeps the invariant

  ghost predicate OutputsFit(in0: seq<File>, in1: seq<File>, outs: seq<File>) {
    DisjointSorted(outs) && Entries(outs) <= Entries(in0) + Entries(in1)
  }

  /** The lower level keeps a subset of its files. */
  lemma LowerLevelShrinks(v: Version, level: nat, in0: seq<File>, in1: seq<File>, outs: seq<File>, w: Version)
    requires ValidVersion(v) && Installed(v, level, in0, in1, outs, w)
    ensures if level == 0 then LevelZeroOrder(w.files[0]) else DisjointSorted(w.files[level])
    ensures Entries(w.files[level]) <= Entries(v.files[level])
  {
    hide Less, BySmallest, Apart;
    var fs, gs := v.files[level], w.files[level];
    forall f | f in gs ensures f in fs { assert f in FileSet(gs); }
    if level == 0 {
    } else {
      DisjointIsApart(fs);
      ApartIsDisjoint(gs);
    }
  }

  lemma OutputsStayApart(v: Version, level: nat, in0: seq<File>, in1: seq<File>, outs: seq<File>, g: File, o: File)
    requires ValidVersion(v) && Inputs(v, level, in0, in1) && OutputsFit(in0, in1, outs)
    requires g in v.files[level + 1] && g !in in1 && o in outs
    ensures Apart(g, o)
  {
    OneSide(v, level, in0, in1, g);
    hide Less, Inputs;
    assert ValidFile(o);
    var first, last := o.entries[0], o.entries[|o.entries| - 1];
    assert first in o.entries && last in o.entries;
    assert first in Entries(outs) && last in Entries(outs);
  }

  lemma UpperLevelGrows(v: Version, level: nat, in0: seq<File>, in1: seq<File>, outs: seq<File>, w: Version)
    requires ValidVersion(v) && Inputs(v, level, in0, in1) && OutputsFit(in0, in1, outs)
    requires Installed(v, level, in0, in1, outs, w)
    ensures DisjointSorted(w.files[level + 1])
    ensures Entries(w.files[level + 1]) <= Entries(v.files[level]) + Entries(v.files[level + 1])
  {
    hide Less, BySmallest, Inputs, Apart;
    var fs, gs := v.files[level + 1], w.files[level + 1];
    InputsAreFiles(v, level, in0, in1);
    DisjointIsApart(fs);
    DisjointIsApart(outs);
    forall f, g | f in FileSet(gs) && g in FileSet(gs) && f != g ensures Apart(f, g) {
      if f in outs && g !in outs { OutputsStayApart(v, level, in0, in1, outs, g, f); ApartIsSymmetric(g, f); }
      if f !in outs && g in outs { OutputsStayApart(v, level, in0, in1, outs, f, g); }
      assert f in outs && g in outs ==> f in FileSet(outs) && g in FileSet(outs);
      assert f !in outs && g !in outs ==> f in FileSet(fs) && g in FileSet(fs);
    }
    ApartIsDisjoint(gs);
    forall e | e in Entries(gs) ensures e in Entries(v.files[level]) + Entries(fs) {
      var f :| f in gs && e in f.entries;
      assert f in FileSet(gs);
      if f in outs { assert e in Entries(outs); } else { assert f in fs; }
    }
  }

  lemma ApartIsSymmetric(f: File, g: File)
    requires Apart(f, g)
    ensures Apart(g, f)
  {
  }

  /** The lower level stays newer than the next one: whatever is moved down was
      older than whatever is left behind. */
  lemma NeighboursStayNewer(v: Version, level: nat, in0: seq<File>, in1: seq<File>, outs: seq<File>, w: Version)
    requires ValidVersion(v) && UniqueSeqs(Contents(v)) && Inputs(v, level, in0, in1)
    requires OutputsFit(in0, in1, outs) && Installed(v, level, in0, in1, outs, w)
    ensures Newer(Entries(w.files[level]), Entries(w.files[level + 1]))
  {
    hide Less, BySmallest, Inputs, DisjointSorted, UniqueSeqs;
    InputsAreFiles(v, level, in0, in1);
    forall x, y | x in Entries(w.files[level]) && y in Entries(w.files[level + 1]) && x.user == y.user
      ensures x.sn > y.sn
    {
      var f :| f in w.files[level] && x in f.entries;
      assert f in FileSet(w.files[level]);
      assert x in Entries(v.files[level]);
      var g :| g in w.files[level + 1] && y in g.entries;
      assert g in FileSet(w.files[level + 1]);
      if g in outs {
        assert y in Entries(outs);
      } else {
        assert g in v.files[level + 1];
      }
      if y in Entries(in0) {
        var h :| h in in0 && y in h.entries;
        RemainingIsNewer(v, level, in0, in1, f, x, h, y);
      } else {
        assert y in Entries(v.files[level + 1]);
      }
    }
  }

  lemma NewerSubset(a: set<Entry>, b: set<Entry>, c: set<Entry>, d: set<Entry>)
    requires Newer(a, b) && c <= a && d <= b
    ensures Newer(c, d)
  {
  }

  lemma NewerUnion(a: set<Entry>, b: set<Entry>, c: set<Entry>)
    requires Newer(a, c) && Newer(b, c)
    ensures Newer(a + b, c)
  {
  }

  /** Installing a compaction keeps the LSM invariant. */
  lemma InstallKeepsVersionValid(v: Version, level: nat, in0: seq<File>, in1: seq<File>, outs: seq<File>, w: Version)
    requires ValidVersion(v) && UniqueSeqs(Contents(v)) && Inputs(v, level, in0, in1)
    requires OutputsFit(in0, in1, outs) && Installed(v, level, in0, in1, outs, w)
    ensures ValidVersion(w)
  {
    hide Less, BySmallest, Inputs, Newer, UniqueSeqs, Contents, DisjointSorted, LevelZeroOrder, OutputsFit, Entries;
    LowerLevelShrinks(v, level, in0, in1, outs, w);
    UpperLevelGrows(v, level, in0, in1, outs, w);
    NeighboursStayNewer(v, level, in0, in1, outs, w);
    forall l, m | 0 <= l < m < NUM_LEVELS ensures Newer(Entries(w.files[l]), Entries(w.files[m])) {
      if l == level && m == level + 1 {
      } else if l == level + 1 {
        NewerUnionSubset(Entries(v.files[level]), Entries(v.files[l]), Entries(v.files[m]), Entries(w.files[l]));
      } else if m == level + 1 {
        NewerSubsetUnion(Entries(v.files[l]), Entries(v.files[level]), Entries(v.files[m]), Entries(w.files[m]));
      } else {
        NewerSubset(Entries(v.files[l]), Entries(v.files[m]), Entries(w.files[l]), Entries(w.files[m]));
      }
    }
  }

  lemma NewerUnionSubset(a: set<Entry>, b: set<Entry>, c: set<Entry>, d: set<Entry>)
    requires Newer(a, c) && Newer(b, c) && d <= a + b
    ensures Newer(d, c)
  {
  }

  lemma NewerSubsetUnion(a: set<Entry>, b: set<Entry>, c: set<Entry>, d: set<Entry>)
    requires Newer(a, b) && Newer(a, c) && d <= b + c
    ensures Newer(a, d)
  {
  }

  /** Entries of the files a compaction does not read. */
  ghost function Untouched(v: Version, level: nat, in0: seq<File>, in1: seq<File>): set<Entry>
    requires |v.files| == NUM_LEVELS
  {
    set l, f, e | 0 <= l < NUM_LEVELS && f in v.files[l] && !(l == level && f in in0) && !(l == level + 1 && f in in1)
      && e in f.entries :: e
  }

  lemma ContentsSplit(v: Version, level: nat, in0: seq<File>, in1: seq<File>)
    requires Inputs(v, level, in0, in1)
    ensures Contents(v) == Entries(in0) + Entries(in1) + Untouched(v, level, in0, in1)
  {
    hide Less, Closed, SmallestKey, LargestKey;
    InputsAreFiles(v, level, in0, in1);
    var U := Untouched(v, level, in0, in1);
    forall e | e in Contents(v) ensures e in Entries(in0) + Entries(in1) + U {
      var l :| 0 <= l < NUM_LEVELS && e in Entries(v.files[l]);
      var f :| f in v.files[l] && e in f.entries;
    }
    forall e | e in U ensures e in Contents(v) {
      var l, f :| 0 <= l < NUM_LEVELS && f in v.files[l] && e in f.entries;
      assert e in Entries(v.files[l]);
    }
    forall e | e in Entries(in0) ensures e in Contents(v) { assert e in Entries(v.files[level]); }
    forall e | e in Entries(in1) ensures e in Contents(v) { assert e in Entries(v.files[level + 1]); }
  }

  lemma InstalledContents(v: Version, level: nat, in0: seq<File>, in1: seq<File>, outs: seq<File>, w: Version)
    requires Inputs(v, level, in0, in1) && Installed(v, level, in0, in1, outs, w)
    ensures Contents(w) == Entries(outs) + Untouched(v, level, in0, in1)
  {
    hide Less, Closed, SmallestKey, LargestKey, BySmallest, Inputs;
    InputsAreFiles(v, level, in0, in1);
    var U := Untouched(v, level, in0, in1);
    forall e | e in Contents(w) ensures e in Entries(outs) + U {
      var l :| 0 <= l < NUM_LEVELS && e in Entries(w.files[l]);
      var f :| f in w.files[l] && e in f.entries;
      assert f in FileSet(w.files[l]);
      if !(l == level + 1 && f in outs) { assert f in v.files[l]; }
    }
    forall e | e in U ensures e in Contents(w) {
      var l, f :| 0 <= l < NUM_LEVELS && f in v.files[l] && !(l == level && f in in0) &&
                  !(l == level + 1 && f in in1) && e in f.entries;
      assert f in FileSet(v.files[l]);
      assert f in FileSet(w.files[l]);
      assert e in Entries(w.files[l]);
    }
    forall e | e in Entries(outs) ensures e in Contents(w) {
      var f :| f in outs && e in f.entries;
      assert f in FileSet(outs) && f in FileSet(w.files[level + 1]);
      assert e in Entries(w.files[level + 1]);
    }
  }

  // ------------------------------------------------------ a memtable flush

  const MAX_MEM_COMPACT_LEVEL := 2

  ghost predicate RangeFree(fs: seq<File>, lo: UserKey, hi: UserKey) {
    forall f :: f in fs ==> !Overlaps(f, Some(lo), Some(hi))
  }

  /** May a table for `[lo, hi]` be pushed from level `l` to `l + 1`? */
  ghost predicate MayPush(v: Version, l: nat, lo: UserKey, hi: UserKey, maxFileSize: nat)
    requires |v.files| == NUM_LEVELS && l + 2 < NUM_LEVELS
  {
    && RangeFree(v.files[l + 1], lo, hi)
    && TotalFileSize(Overlapping(v.files[l + 2], Some(lo), Some(hi))) <= MaxGrandParentOverlapBytes(maxFileSize)
  }

  /** The level for a flushed memtable: the deepest one reachable without passing an
      overlapping file or hanging over too many bytes two levels down. */
  ghost predicate PickedLevel(v: Version, lo: UserKey, hi: UserKey, maxFileSize: nat, level: nat)
    requires |v.files| == NUM_LEVELS
  {
    && level <= MAX_MEM_COMPACT_LEVEL
    && (level > 0 ==> forall l :: 0 <= l <= level ==> RangeFree(v.files[l], lo, hi))
    && (forall l :: 0 <= l < level ==> MayPush(v, l, lo, hi, maxFileSize))
    && (level < MAX_MEM_COMPACT_LEVEL && RangeFree(v.files[0], lo, hi) ==> !MayPush(v, level, lo, hi, maxFileSize))
  }

  /** Why a table goes where it goes: nothing on the way and at its level meets it, and it is
      stopped by a file of level 0 or of the next level that meets it, by more than ten file
      sizes of bytes two levels down, or at level 2. */
  lemma PickedLevelMeans(v: Version, lo: UserKey, hi: UserKey, maxFileSize: nat, level: nat)
    requires |v.files| == NUM_LEVELS && PickedLevel(v, lo, hi, maxFileSize, level)
    ensures level <= 2
    ensures level > 0 ==>
      forall l, f :: 0 <= l <= level && f in v.files[l] ==> f.largest.user < lo || hi < f.smallest.user
    ensures forall l :: 2 <= l < level + 2 ==> TotalFileSize(Overlapping(v.files[l], Some(lo), Some(hi))) <= 10 * maxFileSize
    ensures level < 2 ==>
      || (exists f :: f in v.files[0] && f.smallest.user <= hi && lo <= f.largest.user)
      || (exists f :: f in v.files[level + 1] && f.smallest.user <= hi && lo <= f.largest.user)
      || TotalFileSize(Overlapping(v.files[level + 2], Some(lo), Some(hi))) > 10 * maxFileSize
  {
    hide Overlapping, TotalFileSize;
    MeetsOrFree(v.files[0], lo, hi);
    MeetsOrFree(v.files[level + 1], lo, hi);
    hide RangeFree;
    forall l, f | level > 0 && 0 <= l <= level && f in v.files[l] ensures f.largest.user < lo || hi < f.smallest.user {
      MeetsOrFree(v.files[l], lo, hi);
    }
    forall l | 2 <= l < level + 2 ensures TotalFileSize(Overlapping(v.files[l], Some(lo), Some(hi))) <= 10 * maxFileSize {
      assert MayPush(v, l - 2, lo, hi, maxFileSize);
    }
  }

  lemma MeetsOrFree(fs: seq<File>, lo: UserKey, hi: UserKey)
    ensures RangeFree(fs, lo, hi) <==> forall f :: f in fs ==> f.largest.user < lo || hi < f.smallest.user
  {
  }

  method PickLevelForMemTableOutput(v: Version, lo: UserKey, hi: UserKey, maxFileSize: nat) returns (level: nat)
    requires ValidVersion(v)
    ensures PickedLevel(v, lo, hi, maxFileSize, level)
  {
    hide Less, Overlaps, Overlapping, TotalFileSize, LeastClosedRange, DisjointSorted;
    level := 0;
    var overlap := OverlapInLevel(v, 0, lo, hi);
    if !overlap {
      while level < MAX_MEM_COMPACT_LEVEL
        invariant level <= MAX_MEM_COMPACT_LEVEL
        invariant forall l :: 0 <= l <= level ==> RangeFree(v.files[l], lo, hi)
        invariant forall l :: 0 <= l < level ==> MayPush(v, l, lo, hi, maxFileSize)
      {
        overlap := OverlapInLevel(v, level + 1, lo, hi);
        if overlap {
          break;
        }
        if level + 2 < NUM_LEVELS {
          LevelIsValid(v, level + 2);
          var overlaps, _, _ := GetOverlappingInputs(level + 2, v.files[level + 2], Some(lo), Some(hi));
          if TotalFileSize(overlaps) > MaxGrandParentOverlapBytes(maxFileSize) {
            break;
          }
        }
        level := level + 1;
      }
    }
  }

  method OverlapInLevel(v: Version, level: nat, lo: UserKey, hi: UserKey) returns (r: bool)
    requires ValidVersion(v) && level < NUM_LEVELS
    ensures r <==> !RangeFree(v.files[level], lo, hi)
  {
    r := SomeFileOverlapsRange(level > 0, v.files[level], Some(lo), Some(hi));
    if !r {
      forall f | f in v.files[level] ensures !Overlaps(f, Some(lo), Some(hi)) {
        var i :| 0 <= i < |v.files[level]| && v.files[level][i] == f;
      }
    }
  }

  /** `w` is `v` with one more file at `level`. */
  ghost predicate Flushed(v: Version, level: nat, f: File, w: Version) {
    && |v.files| == NUM_LEVELS && |w.files| == NUM_LEVELS && level < NUM_LEVELS
    && (forall l :: 0 <= l < NUM_LEVELS && l != level ==> w.files[l] == v.files[l])
    && SortedBySmallest(w.files[level])
    && FileSet(w.files[level]) == FileSet(v.files[level]) + {f}
  }

  ghost predicate NewestNumber(v: Version, n: nat) {
    forall l, f :: 0 <= l < |v.files| && f in v.files[l] ==> f.number < n
  }

  /** Nothing shallower than `level`, and nothing at it, shares the file's range. */
  ghost predicate FreeDownTo(v: Version, level: nat, f: File)
    requires |v.files| == NUM_LEVELS
  {
    level > 0 ==> forall l :: 0 <= l <= level && l < NUM_LEVELS ==> RangeFree(v.files[l], f.smallest.user, f.largest.user)
  }

  lemma FlushedLevel(v: Version, level: nat, f: File, w: Version)
    requires ValidVersion(v) && ValidFile(f) && Flushed(v, level, f, w)
    requires FreeDownTo(v, level, f) && NewestNumber(v, f.number)
    requires Newer(FileEntries(f), Contents(v))
    ensures if level == 0 then LevelZeroOrder(w.files[0]) else DisjointSorted(w.files[level])
  {
    hide Less, BySmallest;
    var fs, gs := v.files[level], w.files[level];
    forall g | g in gs ensures g == f || g in fs { assert g in FileSet(gs); }
    if level == 0 {
      forall g | g in fs ensures Newer(FileEntries(f), FileEntries(g)) {
        forall x, y | x in FileEntries(f) && y in FileEntries(g) && x.user == y.user ensures x.sn > y.sn {
          assert y in Entries(v.files[0]);
          assert y in Contents(v);
        }
      }
    } else {
      DisjointIsApart(fs);
      forall g | g in fs ensures Apart(f, g) && Apart(g, f) {
        assert RangeFree(v.files[level], f.smallest.user, f.largest.user);
        FreeIsApart(f, g);
      }
      ApartIsDisjoint(gs);
    }
  }

  lemma FreeIsApart(f: File, g: File)
    requires ValidFile(f) && ValidFile(g) && !Overlaps(g, Some(f.smallest.user), Some(f.largest.user))
    ensures Apart(f, g) && Apart(g, f)
  {
  }

  lemma FlushedEntries(v: Version, level: nat, f: File, w: Version)
    requires Flushed(v, level, f, w)
    ensures Entries(w.files[level]) == Entries(v.files[level]) + FileEntries(f)
    ensures Contents(w) == Contents(v) + FileEntries(f)
  {
    hide BySmallest;
    var fs, gs := v.files[level], w.files[level];
    forall e | e in Entries(gs) ensures e in Entries(fs) + FileEntries(f) {
      var g :| g in gs && e in g.entries;
      assert g in FileSet(gs);
    }
    forall e | e in Entries(fs) + FileEntries(f) ensures e in Entries(gs) {
      if e in FileEntries(f) {
        assert f in FileSet(gs);
      } else {
        var g :| g in fs && e in g.entries;
        assert g in FileSet(fs) && g in FileSet(gs);
      }
    }
    forall e | e in Contents(v) + FileEntries(f) ensures e in Contents(w) {
      if e in FileEntries(f) { assert e in Entries(w.files[level]); }
      else {
        var l :| 0 <= l < NUM_LEVELS && e in Entries(v.files[l]);
        assert e in Entries(w.files[l]);
      }
    }
    forall e | e in Contents(w) ensures e in Contents(v) + FileEntries(f) {
      var l :| 0 <= l < NUM_LEVELS && e in Entries(w.files[l]);
      if e !in FileEntries(f) { assert e in Entries(v.files[l]); }
    }
  }

  /** Pushing a newer table down to a level reached only through free ranges keeps
      the LSM invariant. */
  lemma FlushKeepsVersionValid(v: Version, level: nat, f: File, w: Version)
    requires ValidVersion(v) && ValidFile(f) && Flushed(v, level, f, w)
    requires FreeDownTo(v, level, f) && NewestNumber(v, f.number)
    requires Newer(FileEntries(f), Contents(v))
    ensures ValidVersion(w)
  {
    FlushedLevel(v, level, f, w);
    FlushedEntries(v, level, f, w);
    hide *;
    ShapeOf(v);
    FlushedShape(v, level, f, w);
    forall l, m | 0 <= l < m < NUM_LEVELS ensures Newer(Entries(w.files[l]), Entries(w.files[m])) {
      FlushedStaysNewer(v, level, f, w, l, m);
    }
    AssembleVersion(w);
  }

  lemma FlushedStaysNewer(v: Version, level: nat, f: File, w: Version, l: nat, m: nat)
    requires ValidVersion(v) && ValidFile(f) && |v.files| == NUM_LEVELS && |w.files| == NUM_LEVELS && l < m < NUM_LEVELS
    requires FreeDownTo(v, level, f) && Newer(FileEntries(f), Contents(v)) && level < NUM_LEVELS
    requires l != level ==> w.files[l] == v.files[l]
    requires m != level ==> w.files[m] == v.files[m]
    requires Entries(w.files[level]) == Entries(v.files[level]) + FileEntries(f)
    ensures Newer(Entries(w.files[l]), Entries(w.files[m]))
  {
    hide *;
    ShapeOf(v);
    if m == level {
      FreeIsNewer(v, l, level, f);
      NewerSubsetUnion(Entries(v.files[l]), Entries(v.files[m]), FileEntries(f), Entries(w.files[m]));
    } else if l == level {
      NewerThanLevel(v, m, FileEntries(f));
      NewerUnionSubset(Entries(v.files[l]), FileEntries(f), Entries(v.files[m]), Entries(w.files[l]));
    }
  }

  lemma ShapeOf(v: Version)
    requires ValidVersion(v)
    ensures |v.files| == NUM_LEVELS && LevelZeroOrder(v.files[0])
    ensures forall l :: 1 <= l < NUM_LEVELS ==> DisjointSorted(v.files[l])
    ensures forall l, m :: 0 <= l < m < NUM_LEVELS ==> Newer(Entries(v.files[l]), Entries(v.files[m]))
  {
    hide Newer, DisjointSorted, LevelZeroOrder;
  }

  lemma AssembleVersion(v: Version)
    requires |v.files| == NUM_LEVELS && LevelZeroOrder(v.files[0])
    requires forall l :: 1 <= l < NUM_LEVELS ==> DisjointSorted(v.files[l])
    requires forall l, m :: 0 <= l < m < NUM_LEVELS ==> Newer(Entries(v.files[l]), Entries(v.files[m]))
    ensures ValidVersion(v)
  {
    hide Newer, DisjointSorted, LevelZeroOrder;
  }

  lemma FlushedShape(v: Version, level: nat, f: File, w: Version)
    requires Flushed(v, level, f, w)
    ensures |w.files| == NUM_LEVELS && forall l :: 0 <= l < NUM_LEVELS && l != level ==> w.files[l] == v.files[l]
  {
  }

  lemma FreeIsNewer(v: Version, l: nat, level: nat, f: File)
    requires ValidVersion(v) && l < level < NUM_LEVELS && ValidFile(f) && FreeDownTo(v, level, f)
    ensures Newer(Entries(v.files[l]), FileEntries(f))
  {
    hide Less, Overlaps, Newer;
    LevelIsValid(v, l);
    assert RangeFree(v.files[l], f.smallest.user, f.largest.user);
    forall x, y | x in Entries(v.files[l]) && y in FileEntries(f) ensures x.user != y.user {
      var g :| g in v.files[l] && x in g.entries;
      FreeSharesNoUser(f, g, y, x);
    }
    NoCommonUser(Entries(v.files[l]), FileEntries(f));
  }

  lemma NoCommonUser(a: set<Entry>, b: set<Entry>)
    requires forall x, y :: x in a && y in b ==> x.user != y.user
    ensures Newer(a, b)
  {
  }

  lemma NewerThanLevel(v: Version, m: nat, a: set<Entry>)
    requires m < |v.files| && Newer(a, Contents(v))
    ensures Newer(a, Entries(v.files[m]))
  {
    forall y | y in Entries(v.files[m]) ensures y in Contents(v) {}
  }

  lemma FreeSharesNoUser(f: File, g: File, y: Entry, x: Entry)
    requires ValidFile(f) && ValidFile(g) && !Overlaps(g, Some(f.smallest.user), Some(f.largest.user))
    requires y in f.entries && x in g.entries
    ensures x.user != y.user
  {
    FileBounds(f, y);
    FileBounds(g, x);
  }
}
