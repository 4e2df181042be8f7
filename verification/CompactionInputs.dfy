/** Choosing the input files of a compaction. */
module CompactionInputs {
  import opened DbFormat
  import opened TableFiles
  import opened Versions

  function TotalFileSize(fs: seq<File>): nat {
    if fs == [] then 0 else TotalFileSize(fs[..|fs| - 1]) + fs[|fs| - 1].size
  }

  function MaxGrandParentOverlapBytes(maxFileSize: nat): nat { 10 * maxFileSize }

  function ExpandedCompactionByteSizeLimit(maxFileSize: nat): nat { 25 * maxFileSize }

  function SmallestKey(fs: seq<File>): InternalKey
    requires fs != []
  {
    if |fs| == 1 then fs[0].smallest
    else
      var k := SmallestKey(fs[..|fs| - 1]);
      var last := fs[|fs| - 1];
      if Less(last.smallest, k) then last.smallest else k
  }

  function LargestKey(fs: seq<File>): InternalKey
    requires fs != []
  {
    if |fs| == 1 then fs[0].largest
    else
      var k := LargestKey(fs[..|fs| - 1]);
      var last := fs[|fs| - 1];
      if Less(k, last.largest) then last.largest else k
  }

  lemma {:induction false} RangeHolds(fs: seq<File>, f: File)
    requires f in fs
    ensures AtMost(SmallestKey(fs), f.smallest) && AtMost(f.largest, LargestKey(fs))
  {
    var n := |fs| - 1;
    if f in fs[..n] { RangeHolds(fs[..n], f); }
  }

  lemma {:induction false} RangeIsTight(fs: seq<File>) returns (f: File, g: File)
    requires fs != []
    ensures f in fs && f.smallest == SmallestKey(fs)
    ensures g in fs && g.largest == LargestKey(fs)
  {
    f, g := fs[0], fs[0];
    var n := |fs| - 1;
    if n > 0 {
      f, g := RangeIsTight(fs[..n]);
      f := if Less(fs[n].smallest, f.smallest) then fs[n] else f;
      g := if Less(g.largest, fs[n].largest) then fs[n] else g;
    }
  }

  method GetRange(inputs: seq<File>) returns (smallest: InternalKey, largest: InternalKey)
    requires inputs != []
    ensures smallest == SmallestKey(inputs) && largest == LargestKey(inputs)
  {
    smallest, largest := inputs[0].smallest, inputs[0].largest;
    for i := 1 to |inputs|
      invariant smallest == SmallestKey(inputs[..i]) && largest == LargestKey(inputs[..i])
    {
      assert inputs[..i + 1][..i] == inputs[..i];
      CompareIsLexicographic(inputs[i].smallest, smallest);
      CompareIsLexicographic(inputs[i].largest, largest);
      if Compare(inputs[i].smallest, smallest) < 0 {
        smallest := inputs[i].smallest;
      }
      if Compare(inputs[i].largest, largest) > 0 {
        largest := inputs[i].largest;
      }
    }
    assert inputs[..|inputs|] == inputs;
  }

  method FindLargestKey(fs: seq<File>) returns (r: Option<InternalKey>)
    ensures r == if fs == [] then None else Some(LargestKey(fs))
  {
    if fs == [] { return None; }
    var largest := fs[0].largest;
    for i := 1 to |fs|
      invariant largest == LargestKey(fs[..i])
    {
      assert fs[..i + 1][..i] == fs[..i];
      CompareIsLexicographic(fs[i].largest, largest);
      if Compare(fs[i].largest, largest) > 0 {
        largest := fs[i].largest;
      }
    }
    assert fs[..|fs|] == fs;
    r := Some(largest);
  }

  // ------------------------------------------------------ boundary files

  /** `f` begins with the user key that `largest` ends with, and after it. */
  predicate IsBoundary(f: File, largest: InternalKey) {
    Less(largest, f.smallest) && f.smallest.user == largest.user
  }

  ghost predicate IsSmallestBoundary(fs: seq<File>, largest: InternalKey, r: Option<File>) {
    match r
    case None => forall f :: f in fs ==> !IsBoundary(f, largest)
    case Some(b) =>
      && b in fs && IsBoundary(b, largest)
      && forall f :: f in fs && IsBoundary(f, largest) ==> AtMost(b.smallest, f.smallest)
  }

  method FindSmallestBoundaryFile(fs: seq<File>, largest: InternalKey) returns (r: Option<File>)
    ensures IsSmallestBoundary(fs, largest, r)
  {
    r := None;
    for i := 0 to |fs|
      invariant IsSmallestBoundary(fs[..i], largest, r)
    {
      CompareIsLexicographic(fs[i].smallest, largest);
      if Compare(fs[i].smallest, largest) > 0 && fs[i].smallest.user == largest.user {
        if r.Some? {
          CompareIsLexicographic(fs[i].smallest, r.value.smallest);
        }
        if r.None? || Compare(fs[i].smallest, r.value.smallest) < 0 {
          r := Some(fs[i]);
        }
      }
      assert fs[..i + 1] == fs[..i] + [fs[i]];
    }
    assert fs[..|fs|] == fs;
  }

  ghost function StartsAfter(fs: seq<File>, key: InternalKey): set<File> {
    set f | f in fs && Less(key, f.smallest)
  }

  /** `chain` holds, in order, the boundary files that follow `largest`, each one
      the smallest after the largest key of the one before; nothing follows it. */
  ghost predicate BoundaryChain(fs: seq<File>, largest: InternalKey, chain: seq<File>)
    decreases |chain|
  {
    if chain == [] then IsSmallestBoundary(fs, largest, None)
    else IsSmallestBoundary(fs, largest, Some(chain[0])) && BoundaryChain(fs, chain[0].largest, chain[1..])
  }

  /** A chain can be extended at its end. */
  ghost predicate ChainPrefix(fs: seq<File>, largest: InternalKey, chain: seq<File>)
    decreases |chain|
  {
    chain != [] ==> IsSmallestBoundary(fs, largest, Some(chain[0])) && ChainPrefix(fs, chain[0].largest, chain[1..])
  }

  function ChainEnd(largest: InternalKey, chain: seq<File>): InternalKey {
    if chain == [] then largest else chain[|chain| - 1].largest
  }

  lemma {:induction false} ChainExtends(fs: seq<File>, largest: InternalKey, chain: seq<File>, f: File)
    requires ChainPrefix(fs, largest, chain) && IsSmallestBoundary(fs, ChainEnd(largest, chain), Some(f))
    ensures ChainPrefix(fs, largest, chain + [f])
    decreases |chain|
  {
    if chain != [] {
      assert (chain + [f])[1..] == chain[1..] + [f];
      ChainExtends(fs, chain[0].largest, chain[1..], f);
    }
  }

  lemma {:induction false} ChainCloses(fs: seq<File>, largest: InternalKey, chain: seq<File>)
    requires ChainPrefix(fs, largest, chain) && IsSmallestBoundary(fs, ChainEnd(largest, chain), None)
    ensures BoundaryChain(fs, largest, chain)
    decreases |chain|
  {
    if chain != [] {
      ChainCloses(fs, chain[0].largest, chain[1..]);
    }
  }

  /** Appends boundary files until none is left. Each round moves the largest key
      past the file it adds, so the loop ends. */
  method AddBoundaryInputs(fs: seq<File>, cf: seq<File>) returns (out: seq<File>)
    requires ValidFiles(fs)
    ensures cf == [] ==> out == []
    ensures cf != [] ==> exists chain :: out == cf + chain && BoundaryChain(fs, LargestKey(cf), chain)
  {
    out := cf;
    var key := FindLargestKey(cf);
    if key.None? { return; }
    var largest := key.value;
    ghost var start := largest;
    ghost var chain := [];
    var searching := true;
    while searching
      invariant out == cf + chain && ChainPrefix(fs, start, chain)
      invariant largest == ChainEnd(start, chain)
      invariant !searching ==> BoundaryChain(fs, start, chain)
      decreases StartsAfter(fs, largest), searching
    {
      var b := FindSmallestBoundaryFile(fs, largest);
      if b.Some? {
        FileOrder(b.value);
        assert b.value in StartsAfter(fs, largest) && b.value !in StartsAfter(fs, b.value.largest);
        ChainExtends(fs, start, chain, b.value);
        out := out + [b.value];
        chain := chain + [b.value];
        largest := b.value.largest;
      } else {
        ChainCloses(fs, start, chain);
        searching := false;
      }
    }
  }

  // ------------------------------------------------------ input closure

  lemma OverlappingStep(fs: seq<File>, lo: Option<UserKey>, hi: Option<UserKey>)
    ensures fs == [] ==> Overlapping(fs, lo, hi) == []
    ensures fs != [] ==>
      var last := fs[|fs| - 1];
      Overlapping(fs, lo, hi) == Overlapping(fs[..|fs| - 1], lo, hi) + if Overlaps(last, lo, hi) then [last] else []
  {
  }

  lemma PrefixIsDisjoint(fs: seq<File>, n: nat)
    requires DisjointSorted(fs) && n <= |fs|
    ensures DisjointSorted(fs[..n])
  {
    hide Less;
  }

  lemma OverlapIsConvex(fs: seq<File>, i: nat, j: nat, k: nat, lo: Option<UserKey>, hi: Option<UserKey>)
    requires DisjointSorted(fs) && i < j < k < |fs|
    requires Overlaps(fs[i], lo, hi) && Overlaps(fs[k], lo, hi)
    ensures Overlaps(fs[j], lo, hi)
  {
    LevelOrder(fs, i, j);
    LevelOrder(fs, j, k);
    FileOrder(fs[j]);
  }

  lemma SliceSnoc(fs: seq<File>, a: nat, n: nat)
    requires a <= n < |fs|
    ensures fs[a..n] + [fs[n]] == fs[a..n + 1]
  {
  }

  /** On a disjoint level the files that meet a range are neighbours. */
  lemma {:induction false} OverlappingIsSlice(fs: seq<File>, lo: Option<UserKey>, hi: Option<UserKey>)
    returns (a: nat, b: nat)
    requires DisjointSorted(fs)
    ensures a <= b <= |fs| && Overlapping(fs, lo, hi) == fs[a..b]
    ensures forall i :: 0 <= i < |fs| ==> (Overlaps(fs[i], lo, hi) <==> a <= i < b)
  {
    hide *;
    OverlappingStep(fs, lo, hi);
    a, b := 0, 0;
    if fs != [] {
      var n := |fs| - 1;
      var rest := fs[..n];
      PrefixIsDisjoint(fs, n);
      a, b := OverlappingIsSlice(rest, lo, hi);
      forall i | 0 <= i < n ensures Overlaps(fs[i], lo, hi) <==> a <= i < b {
        assert fs[i] == rest[i];
      }
      a, b := LastJoinsSlice(fs, a, b, lo, hi);
    }
  }

  lemma LastJoinsSlice(fs: seq<File>, a: nat, b: nat, lo: Option<UserKey>, hi: Option<UserKey>) returns (c: nat, d: nat)
    requires DisjointSorted(fs) && fs != [] && a <= b < |fs|
    requires forall i :: 0 <= i < |fs| - 1 ==> (Overlaps(fs[i], lo, hi) <==> a <= i < b)
    ensures c <= d <= |fs|
    ensures fs[c..d] == fs[..|fs| - 1][a..b] + if Overlaps(fs[|fs| - 1], lo, hi) then [fs[|fs| - 1]] else []
    ensures forall i :: 0 <= i < |fs| ==> (Overlaps(fs[i], lo, hi) <==> c <= i < d)
  {
    hide *;
    var n := |fs| - 1;
    var rest := fs[..n];
    assert rest[a..b] == fs[a..b];
    c, d := a, b;
    if Overlaps(fs[n], lo, hi) {
      if a == b {
        c := n;
      } else if b < n {
        OverlapIsConvex(fs, a, b, n, lo, hi);
      }
      SliceSnoc(fs, c, n);
      d := n + 1;
    }
  }

  lemma RangeStep(s: seq<File>)
    requires s != []
    ensures var last := s[|s| - 1]; var t := s[..|s| - 1];
      if t == [] then SmallestKey(s) == last.smallest && LargestKey(s) == last.largest
      else
        && SmallestKey(s) == (if Less(last.smallest, SmallestKey(t)) then last.smallest else SmallestKey(t))
        && LargestKey(s) == (if Less(LargestKey(t), last.largest) then last.largest else LargestKey(t))
  {
  }

  lemma {:induction false} SliceRange(fs: seq<File>, a: nat, b: nat)
    requires DisjointSorted(fs) && a < b <= |fs|
    ensures SmallestKey(fs[a..b]) == fs[a].smallest
    ensures LargestKey(fs[a..b]) == fs[b - 1].largest
    decreases b
  {
    hide *;
    var s, last := fs[a..b], fs[b - 1];
    assert s[|s| - 1] == last;
    RangeStep(s);
    if a + 1 < b {
      SliceRange(fs, a, b - 1);
      LevelOrder(fs, a, b - 1);
      LevelOrder(fs, b - 2, b - 1);
      var t := fs[a..b - 1];
      assert s[..|s| - 1] == t;
      LessIsAsymmetric(fs[a].smallest, last.smallest);
    }
  }

  lemma LargestIncreases(fs: seq<File>, i: int, j: int)
    requires DisjointSorted(fs) && 0 <= i < j < |fs|
    ensures Less(fs[i].largest, fs[j].largest)
  {
    LevelOrder(fs, i, j);
  }

  lemma BoundaryIsNext(fs: seq<File>, b: nat, j: nat)
    requires DisjointSorted(fs) && 0 < b < j < |fs|
    requires IsBoundary(fs[j], fs[b - 1].largest)
    ensures fs[b] in fs && IsBoundary(fs[b], fs[b - 1].largest) && Less(fs[b].smallest, fs[j].smallest)
  {
    LevelOrder(fs, b - 1, b);
    LevelOrder(fs, b, j);
    FileOrder(fs[b]);
  }

  /** Starting from neighbouring files, the boundary files are the next ones. */
  lemma {:induction false} ChainOnSlice(fs: seq<File>, a: nat, b: nat, chain: seq<File>) returns (end: nat)
    requires DisjointSorted(fs) && a < b <= |fs|
    requires BoundaryChain(fs, fs[b - 1].largest, chain)
    ensures b <= end <= |fs| && fs[a..b] + chain == fs[a..end]
    ensures NoBoundaryAt(fs, end)
    decreases |chain|
  {
    hide DisjointSorted, BoundaryChain, NoBoundaryAt;
    if chain == [] {
      end := b;
      ChainEnds(fs, b);
    } else {
      ChainHeadIsNext(fs, b, chain);
      end := ChainOnSlice(fs, a, b + 1, chain[1..]);
      SliceSnoc(fs, a, b);
      assert chain == [fs[b]] + chain[1..];
      assert fs[a..b] + chain == fs[a..b] + [fs[b]] + chain[1..];
    }
  }

  lemma ChainEnds(fs: seq<File>, b: nat)
    requires DisjointSorted(fs) && 0 < b <= |fs| && BoundaryChain(fs, fs[b - 1].largest, [])
    ensures NoBoundaryAt(fs, b)
  {
    assert b < |fs| ==> fs[b] in fs;
  }

  lemma ChainHeadIsNext(fs: seq<File>, b: nat, chain: seq<File>)
    requires DisjointSorted(fs) && 0 < b <= |fs| && chain != [] && BoundaryChain(fs, fs[b - 1].largest, chain)
    ensures b < |fs| && chain[0] == fs[b] && BoundaryChain(fs, fs[b].largest, chain[1..])
  {
    var f := chain[0];
    var j :| 0 <= j < |fs| && fs[j] == f;
    FileOrder(fs[j]);
    hide ValidFile, BoundaryChain;
    assert j >= b by { if j < b - 1 { LargestIncreases(fs, j, b - 1); } }
    if b < j { BoundaryIsNext(fs, b, j); }
    assert j == b;
  }

  /** File `end` does not begin with the user key that the file before ends with. */
  ghost predicate NoBoundaryAt(fs: seq<File>, end: nat)
    requires 0 < end <= |fs|
  {
    end < |fs| ==> fs[end].smallest.user != fs[end - 1].largest.user
  }

  /** A closed level-0 selection has no boundary files left. */
  lemma ClosedHasNoBoundary(fs: seq<File>, lo: Option<UserKey>, hi: Option<UserKey>, chain: seq<File>)
    requires ValidFiles(fs) && ClosedRange(fs, lo, hi)
    requires Overlapping(fs, lo, hi) != []
    requires BoundaryChain(fs, LargestKey(Overlapping(fs, lo, hi)), chain)
    ensures chain == []
  {
    var cf := Overlapping(fs, lo, hi);
    var _, g := RangeIsTight(cf);
    FileOrder(g);
    if chain != [] {
      FileOrder(chain[0]);
      assert Overlaps(chain[0], lo, hi);
      RangeHolds(cf, chain[0]);
    }
  }

  /** What a compaction may start from: on level 0 the files that meet some closed
      range, above it a run of neighbouring files. */
  ghost predicate Seed(level: nat, fs: seq<File>, r: seq<File>) {
    && r != []
    && if level == 0 then exists lo, hi :: ClosedRange(fs, lo, hi) && r == Overlapping(fs, lo, hi)
       else exists a, b :: 0 <= a < b <= |fs| && r == fs[a..b]
  }

  /** Inputs of the lower level: in addition no file that follows them begins with
      the user key they end with. */
  ghost predicate Closed(level: nat, fs: seq<File>, r: seq<File>) {
    && r != []
    && if level == 0 then exists lo, hi :: ClosedRange(fs, lo, hi) && r == Overlapping(fs, lo, hi)
       else exists a, b :: 0 <= a < b <= |fs| && r == fs[a..b] && NoBoundaryAt(fs, b)
  }

  /** The inputs of a compaction of `level` into `level + 1`. */
  ghost predicate Inputs(v: Version, level: nat, in0: seq<File>, in1: seq<File>) {
    && |v.files| == NUM_LEVELS && level + 1 < NUM_LEVELS
    && in0 != [] && Closed(level, v.files[level], in0)
    && in1 == Overlapping(v.files[level + 1], Some(SmallestKey(in0).user), Some(LargestKey(in0).user))
  }

  /** `r` is `seed` with the chain of its boundary files. */
  ghost predicate WithBoundaries(fs: seq<File>, seed: seq<File>, r: seq<File>) {
    seed != [] && exists chain :: r == seed + chain && BoundaryChain(fs, LargestKey(seed), chain)
  }

  /** Adding boundary files to a seed closes it. */
  method CloseInputs(level: nat, fs: seq<File>, seed: seq<File>) returns (out: seq<File>)
    requires if level == 0 then ValidFiles(fs) else DisjointSorted(fs)
    requires Seed(level, fs, seed)
    ensures Closed(level, fs, out) && WithBoundaries(fs, seed, out)
    ensures seed <= out && out != []
  {
    out := AddBoundaryInputs(fs, seed);
    ghost var chain :| out == seed + chain && BoundaryChain(fs, LargestKey(seed), chain);
    if level == 0 {
      ghost var lo, hi :| ClosedRange(fs, lo, hi) && seed == Overlapping(fs, lo, hi);
      ClosedHasNoBoundary(fs, lo, hi, chain);
    } else {
      ghost var a, b :| 0 <= a < b <= |fs| && seed == fs[a..b];
      SliceRange(fs, a, b);
      ghost var end := ChainOnSlice(fs, a, b, chain);
    }
  }

  /** A range query of a level is a seed whenever it finds something. */
  lemma QueryIsSeed(level: nat, fs: seq<File>, lo: Option<UserKey>, hi: Option<UserKey>)
    requires if level == 0 then ClosedRange(fs, lo, hi) else DisjointSorted(fs)
    requires Overlapping(fs, lo, hi) != []
    ensures Seed(level, fs, Overlapping(fs, lo, hi))
  {
    if level > 0 {
      var a, b := OverlappingIsSlice(fs, lo, hi);
    }
  }

  datatype Plan = Plan(level: nat, in0: seq<File>, in1: seq<File>, grandparents: seq<File>,
                                   compactPointer: InternalKey)

  ghost predicate ValidPlan(v: Version, c: Plan) {
    && Inputs(v, c.level, c.in0, c.in1)
    && c.compactPointer == LargestKey(c.in0)
    && c.grandparents == Grandparents(v, c.level, c.in0 + c.in1)
  }

  /** The files two levels below `level` that meet the user-key range of `fs`. */
  ghost function Grandparents(v: Version, level: nat, fs: seq<File>): seq<File>
    requires |v.files| == NUM_LEVELS && fs != []
  {
    if level + 2 < NUM_LEVELS then
      Overlapping(v.files[level + 2], Some(SmallestKey(fs).user), Some(LargestKey(fs).user))
    else []
  }

  ghost function RangeLow(fs: seq<File>): Option<UserKey>
    requires fs != []
  {
    Some(SmallestKey(fs).user)
  }

  ghost function RangeHigh(fs: seq<File>): Option<UserKey>
    requires fs != []
  {
    Some(LargestKey(fs).user)
  }

  /** What a query finds: on level 0 it widens to the least closed range. */
  ghost predicate FoundInRange(level: nat, fs: seq<File>, begin: Option<UserKey>, end: Option<UserKey>, r: seq<File>) {
    if level == 0 then exists lo, hi :: LeastClosedRange(fs, begin, end, lo, hi) && r == Overlapping(fs, lo, hi)
    else r == Overlapping(fs, begin, end)
  }

  /** The files of `v` at `level` that meet the user-key range of `fs`. */
  method FilesInRangeOf(v: Version, level: nat, fs: seq<File>) returns (r: seq<File>, ghost lo: Option<UserKey>, ghost hi: Option<UserKey>)
    requires ValidVersion(v) && level < NUM_LEVELS && fs != []
    ensures r == Overlapping(v.files[level], lo, hi)
    ensures LowerCovers(lo, RangeLow(fs)) && UpperCovers(hi, RangeHigh(fs))
    ensures if level == 0 then ClosedRange(v.files[0], lo, hi) else lo == RangeLow(fs) && hi == RangeHigh(fs)
    ensures FoundInRange(level, v.files[level], RangeLow(fs), RangeHigh(fs), r)
  {
    LevelIsValid(v, level);
    var smallest, largest := GetRange(fs);
    r, lo, hi := GetOverlappingInputs(level, v.files[level], Some(smallest.user), Some(largest.user));
  }

  /** `r` is what the level has over the range of all inputs, with its boundary files. */
  ghost predicate Expansion(v: Version, level: nat, in0: seq<File>, in1: seq<File>, r: seq<File>)
    requires level < |v.files| && in0 != []
  {
    exists seed :: FoundInRange(level, v.files[level], RangeLow(in0 + in1), RangeHigh(in0 + in1), seed)
                   && WithBoundaries(v.files[level], seed, r)
  }

  /** The files of the level over the range of all inputs, closed. */
  method FilesOverRange(v: Version, level: nat, in0: seq<File>, in1: seq<File>) returns (expanded: seq<File>)
    requires ValidVersion(v) && Inputs(v, level, in0, in1)
    ensures expanded != [] && Closed(level, v.files[level], expanded)
    ensures Expansion(v, level, in0, in1, expanded)
    ensures forall f :: f in in0 ==> f in expanded
  {
    hide Less, Overlapping, SmallestKey, LargestKey, Closed, Seed, ClosedRange, FoundInRange, WithBoundaries;
    LevelIsValid(v, level);
    ghost var lo, hi;
    expanded, lo, hi := FilesInRangeOf(v, level, in0 + in1);
    InputsAreFiles(v, level, in0, in1);
    forall f | f in in0 ensures f in expanded {
      CoveredByRange(v, level, in0, in1, f);
    }
    assert in0[0] in in0;
    QueryIsSeed(level, v.files[level], lo, hi);
    ghost var seed := expanded;
    expanded := CloseInputs(level, v.files[level], expanded);
    assert forall f :: f in seed ==> f in expanded;
  }

  /** Growing pays: more files of the level, no more of the next, and not too many bytes. */
  ghost predicate MayGrow(v: Version, level: nat, in0: seq<File>, in1: seq<File>, expanded: seq<File>, maxFileSize: nat)
    requires level + 1 < |v.files|
  {
    && |expanded| > |in0|
    && TotalFileSize(in1) + TotalFileSize(expanded) < ExpandedCompactionByteSizeLimit(maxFileSize)
    && |Overlapping(v.files[level + 1], RangeLow(expanded), RangeHigh(expanded))| == |in1|
  }

  /** The inputs grow exactly if there are some of the next level and growing pays. */
  ghost predicate Grown(v: Version, level: nat, in0: seq<File>, in1: seq<File>, maxFileSize: nat, out0: seq<File>, out1: seq<File>)
    requires level + 1 < |v.files| && in0 != []
  {
    if in1 == [] then out0 == in0 && out1 == in1
    else exists expanded ::
      && expanded != [] && Expansion(v, level, in0, in1, expanded)
      && if MayGrow(v, level, in0, in1, expanded, maxFileSize)
         then out0 == expanded && out1 == Overlapping(v.files[level + 1], RangeLow(expanded), RangeHigh(expanded))
         else out0 == in0 && out1 == in1
  }

  /** There is nothing to grow by, or it takes too many bytes or more files of the next level. */
  ghost predicate Costly(v: Version, level: nat, in0: seq<File>, in1: seq<File>, all: seq<File>, maxFileSize: nat)
    requires level + 1 < |v.files| && all != []
  {
    || |all| <= |in0| || TotalFileSize(in1) + TotalFileSize(all) >= 25 * maxFileSize
    || |Overlapping(v.files[level + 1], Some(SmallestKey(all).user), Some(LargestKey(all).user))| != |in1|
  }

  /** Grows the inputs of `level` over the range of all inputs, unless that would
      take in more files of `level + 1` or too many bytes. */
  method GrowInputs(v: Version, level: nat, in0: seq<File>, in1: seq<File>, maxFileSize: nat)
    returns (out0: seq<File>, out1: seq<File>)
    requires ValidVersion(v) && Inputs(v, level, in0, in1)
    ensures Inputs(v, level, out0, out1)
    ensures forall f :: f in in0 ==> f in out0
    ensures Grown(v, level, in0, in1, maxFileSize, out0, out1)
    ensures (out0 == in0 && out1 == in1)
         || (|out0| > |in0| && |out1| == |in1| && TotalFileSize(in1) + TotalFileSize(out0) < 25 * maxFileSize)
    ensures in1 != [] ==> exists all :: all != [] && Expansion(v, level, in0, in1, all) && (out0 == all || Costly(v, level, in0, in1, all, maxFileSize))
  {
    hide Less, Overlapping, SmallestKey, LargestKey, TotalFileSize, Closed, Seed, ClosedRange, Expansion;
    out0, out1 := in0, in1;
    if in1 != [] {
      var expanded0 := FilesOverRange(v, level, in0, in1);
      if |expanded0| > |in0| &&
         TotalFileSize(in1) + TotalFileSize(expanded0) < ExpandedCompactionByteSizeLimit(maxFileSize) {
        var expanded1, _, _ := FilesInRangeOf(v, level + 1, expanded0);
        if |expanded1| == |in1| {
          out0, out1 := expanded0, expanded1;
        }
      }
      assert Expansion(v, level, in0, in1, expanded0);
    }
  }

  /** Finds the grandparents of the inputs `fs` of `level`. */
  method FilesBelow(v: Version, level: nat, fs: seq<File>) returns (r: seq<File>)
    requires ValidVersion(v) && fs != []
    ensures r == Grandparents(v, level, fs)
  {
    hide Overlapping, SmallestKey, LargestKey;
    r := [];
    if level + 2 < NUM_LEVELS {
      var overlap, _, _ := FilesInRangeOf(v, level + 2, fs);
      r := overlap;
    }
  }

  /** Completes a seed to the full set of inputs, growing it when that costs no
      further file of the next level. */
  method SetupOtherInputs(v: Version, level: nat, seed: seq<File>, maxFileSize: nat) returns (c: Plan)
    requires ValidVersion(v) && level + 1 < NUM_LEVELS
    requires Seed(level, v.files[level], seed)
    ensures ValidPlan(v, c) && c.level == level
    ensures forall f :: f in seed ==> f in c.in0
    ensures exists in0, in1 ::
      && WithBoundaries(v.files[level], seed, in0) && Inputs(v, level, in0, in1)
      && Grown(v, level, in0, in1, maxFileSize, c.in0, c.in1)
  {
    hide Less, Overlapping, SmallestKey, LargestKey, TotalFileSize, Closed, Seed, ClosedRange, Grown, WithBoundaries;
    assert if level == 0 then ValidFiles(v.files[level]) else DisjointSorted(v.files[level]) by { LevelIsValid(v, level); }
    var in0 := CloseInputs(level, v.files[level], seed);
    ghost var closed := in0;
    assert forall f :: f in seed ==> f in closed;
    var in1, _, _ := FilesInRangeOf(v, level + 1, in0);
    assert Inputs(v, level, in0, in1);
    in0, in1 := GrowInputs(v, level, in0, in1, maxFileSize);
    var grandparents := FilesBelow(v, level, in0 + in1);
    var _, largest := GetRange(in0);
    c := Plan(level, in0, in1, grandparents, largest);
  }

  lemma InputsAreFiles(v: Version, level: nat, in0: seq<File>, in1: seq<File>)
    requires Inputs(v, level, in0, in1)
    ensures forall f :: f in in0 ==> f in v.files[level]
    ensures forall f :: f in in1 ==> f in v.files[level + 1]
  {
  }

  /** Every input lies within the user-key range of all inputs together. */
  lemma CoveredByRange(v: Version, level: nat, in0: seq<File>, in1: seq<File>, f: File)
    requires ValidVersion(v) && level < NUM_LEVELS
    requires f in in0 && f in v.files[level]
    ensures Overlaps(f, Some(SmallestKey(in0 + in1).user), Some(LargestKey(in0 + in1).user))
  {
    LevelIsValid(v, level);
    FileOrder(f);
    RangeHolds(in0 + in1, f);
  }
}
