/** The snapshot record: one edit that says all of a version. */
module Snapshots {
  import opened DbFormat
  import opened Coding
  import opened TableFiles
  import opened Versions
  import opened VersionBuilder

  ghost predicate DistinctNumbers(fs: seq<File>) {
    forall i, j :: 0 <= i < j < |fs| ==> fs[i].number != fs[j].number
  }

  function LevelFiles(l: nat, fs: seq<File>): seq<(nat, File)> {
    if fs == [] then [] else LevelFiles(l, fs[..|fs| - 1]) + [(l, fs[|fs| - 1])]
  }

  /** The files of the first `n` levels. */
  function AllFiles(v: Version, n: nat): seq<(nat, File)>
    requires n <= |v.files|
  {
    if n == 0 then [] else AllFiles(v, n - 1) + LevelFiles(n - 1, v.files[n - 1])
  }

  /** The compaction pointers of the first `n` levels. */
  function PointerList(m: map<nat, InternalKey>, n: nat): seq<(nat, InternalKey)> {
    if n == 0 then [] else PointerList(m, n - 1) + if n - 1 in m then [(n - 1, m[n - 1])] else []
  }

  function SnapshotEdit(comparator: bytes, m: map<nat, InternalKey>, v: Version): VersionEdit
    requires |v.files| == NUM_LEVELS
  {
    EMPTY_EDIT.(comparator := Some(comparator), compactPointers := PointerList(m, NUM_LEVELS), newFiles := AllFiles(v, NUM_LEVELS))
  }

  // ---------------------------------------------------------------- the files

  lemma {:induction false} LevelFilesAre(l: nat, fs: seq<File>)
    ensures |LevelFiles(l, fs)| == |fs| && forall i :: 0 <= i < |fs| ==> LevelFiles(l, fs)[i] == (l, fs[i])
  {
    if fs != [] { LevelFilesAre(l, fs[..|fs| - 1]); }
  }

  lemma {:induction false} AllFilesAre(v: Version, n: nat)
    requires n <= |v.files|
    ensures forall p :: p in AllFiles(v, n) <==> p.0 < n && p.1 in v.files[p.0]
  {
    if n > 0 {
      AllFilesAre(v, n - 1);
      var fs := v.files[n - 1];
      LevelFilesAre(n - 1, fs);
      hide LevelFiles;
      forall p | p in LevelFiles(n - 1, fs) ensures p.0 == n - 1 && p.1 in fs {
        var i :| 0 <= i < |fs| && LevelFiles(n - 1, fs)[i] == p;
      }
      forall p: (nat, File) | p.0 == n - 1 && p.1 in fs ensures p in LevelFiles(n - 1, fs) {
        var i :| 0 <= i < |fs| && fs[i] == p.1;
        assert LevelFiles(n - 1, fs)[i] == (n - 1, p.1) == p;
      }
    }
  }

  lemma SnapshotAdds(v: Version, l: nat)
    requires |v.files| == NUM_LEVELS && l < NUM_LEVELS
    ensures Added(AllFiles(v, NUM_LEVELS), l) == FileSet(v.files[l])
  {
    AllFilesAre(v, NUM_LEVELS);
    hide AllFiles;
    forall f | f in v.files[l] ensures f in Added(AllFiles(v, NUM_LEVELS), l) {
      assert (l, f) in AllFiles(v, NUM_LEVELS);
    }
  }

  lemma {:induction false} SnapshotIsFresh(v: Version, n: nat)
    requires n <= |v.files| && forall l :: 0 <= l < |v.files| ==> DistinctNumbers(v.files[l])
    ensures forall i, j :: 0 <= i < j < |AllFiles(v, n)| && AllFiles(v, n)[i].0 == AllFiles(v, n)[j].0 ==>
              AllFiles(v, n)[i].1.number != AllFiles(v, n)[j].1.number
  {
    if n > 0 {
      SnapshotIsFresh(v, n - 1);
      AllFilesAre(v, n - 1);
      LevelFilesAre(n - 1, v.files[n - 1]);
      hide LevelFiles;
      var low, high := AllFiles(v, n - 1), LevelFiles(n - 1, v.files[n - 1]);
      assert AllFiles(v, n) == low + high;
      forall i | 0 <= i < |low| ensures low[i].0 < n - 1 { assert low[i] in low; }
    }
  }

  // ---------------------------------------------------------------- the pointers

  lemma {:induction false} SetPointersSnoc(m: map<nat, InternalKey>, ps: seq<(nat, InternalKey)>, qs: seq<(nat, InternalKey)>)
    ensures SetPointers(m, ps + qs) == SetPointers(SetPointers(m, ps), qs)
  {
    if qs == [] {
      assert ps + qs == ps;
    } else {
      var n := |qs| - 1;
      assert (ps + qs)[..|ps + qs| - 1] == ps + qs[..n];
      SetPointersSnoc(m, ps, qs[..n]);
    }
  }

  lemma {:induction false} PointerListSets(m: map<nat, InternalKey>, n: nat)
    ensures SetPointers(map[], PointerList(m, n)) == map l | l in m && l < n :: m[l]
  {
    if n > 0 {
      PointerListSets(m, n - 1);
      var last := if n - 1 in m then [(n - 1, m[n - 1])] else [];
      SetPointersSnoc(map[], PointerList(m, n - 1), last);
      var before := SetPointers(map[], PointerList(m, n - 1));
      if n - 1 in m {
        assert last[..0] == [] && SetPointers(before, []) == before;
        assert SetPointers(before, last) == before[n - 1 := m[n - 1]];
      } else {
        assert SetPointers(before, last) == before;
      }
    }
  }

  /** Setting pointers twice is setting them once, over any map. */
  lemma {:induction false} SetPointersMerge(m: map<nat, InternalKey>, ps: seq<(nat, InternalKey)>)
    ensures SetPointers(m, ps) == m + SetPointers(map[], ps)
  {
    if ps == [] {
      assert m + map[] == m;
    } else {
      SetPointersMerge(m, ps[..|ps| - 1]);
    }
  }

  lemma SetPointersTwice(m: map<nat, InternalKey>, ps: seq<(nat, InternalKey)>)
    ensures SetPointers(SetPointers(m, ps), ps) == SetPointers(m, ps)
  {
    SetPointersMerge(m, ps);
    SetPointersMerge(SetPointers(m, ps), ps);
  }

  lemma {:induction false} PointerListLevels(m: map<nat, InternalKey>, n: nat)
    ensures forall p :: p in PointerList(m, n) ==> p.0 < n && p.0 in m && m[p.0] == p.1
  {
    if n > 0 { PointerListLevels(m, n - 1); }
  }
}
