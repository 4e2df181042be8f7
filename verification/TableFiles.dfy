/** Table files and the searches over the file list of one level. */
module TableFiles {
  import opened DbFormat

  /** A table file is its metadata together with its sorted entries; the block
      structure inside a file is the subject of module `Blocks`. */
  datatype File = File(number: nat, size: nat, smallest: InternalKey, largest: InternalKey, entries: seq<Entry>)

  ghost predicate SortedEntries(es: seq<Entry>) {
    forall i, j :: 0 <= i < j < |es| ==> Less(es[i].Key(), es[j].Key())
  }

  ghost predicate ValidFile(f: File) {
    && f.entries != []
    && SortedEntries(f.entries)
    && f.smallest == f.entries[0].Key()
    && f.largest == f.entries[|f.entries| - 1].Key()
  }

  ghost predicate ValidFiles(fs: seq<File>) {
    forall f :: f in fs ==> ValidFile(f)
  }

  /** A level above 0: its files are in key order and do not overlap. */
  ghost predicate DisjointSorted(fs: seq<File>) {
    && ValidFiles(fs)
    && forall i, j :: 0 <= i < j < |fs| ==> Less(fs[i].largest, fs[j].smallest)
  }

  lemma FileBounds(f: File, e: Entry)
    requires ValidFile(f) && e in f.entries
    ensures AtMost(f.smallest, e.Key()) && AtMost(e.Key(), f.largest)
    ensures f.smallest.user <= e.user <= f.largest.user
    ensures AtMost(f.smallest, f.largest)
  {
    var i :| 0 <= i < |f.entries| && f.entries[i] == e;
    assert 0 < i ==> Less(f.entries[0].Key(), f.entries[i].Key());
    assert i < |f.entries| - 1 ==> Less(f.entries[i].Key(), f.entries[|f.entries| - 1].Key());
  }

  lemma FileOrder(f: File)
    requires ValidFile(f)
    ensures AtMost(f.smallest, f.largest) && f.smallest.user <= f.largest.user
  {
    FileBounds(f, f.entries[0]);
  }

  /** Largest keys increase along a disjoint level, and so do smallest keys. */
  lemma LevelOrder(fs: seq<File>, i: nat, j: nat)
    requires DisjointSorted(fs) && i < j < |fs|
    ensures Less(fs[i].largest, fs[j].largest) && Less(fs[i].smallest, fs[j].smallest)
    ensures fs[i].largest.user <= fs[j].smallest.user
  {
    FileOrder(fs[i]);
    FileOrder(fs[j]);
  }

  /** Entries of one user key that sit in two files of a level are newer in the
      earlier file. */
  lemma EarlierFileIsNewer(fs: seq<File>, i: nat, j: nat, a: Entry, b: Entry)
    requires DisjointSorted(fs) && i < j < |fs|
    requires a in fs[i].entries && b in fs[j].entries
    ensures Less(a.Key(), b.Key())
  {
    FileBounds(fs[i], a);
    FileBounds(fs[j], b);
  }

  /** Index of the first entry at or after `key`: the contract of a table seek. */
  function SeekIndex(es: seq<Entry>, key: InternalKey): (n: nat)
    ensures n <= |es|
    ensures forall i :: 0 <= i < n ==> Less(es[i].Key(), key)
    ensures n < |es| ==> !Less(es[n].Key(), key)
  {
    if es != [] && Less(es[0].Key(), key) then 1 + SeekIndex(es[1..], key) else 0
  }

  /** Binary search for the first file whose largest key is not before `key`. */
  method FindFile(fs: seq<File>, key: InternalKey) returns (right: nat)
    requires DisjointSorted(fs)
    ensures right <= |fs|
    ensures forall i :: 0 <= i < right ==> Less(fs[i].largest, key)
    ensures forall i :: right <= i < |fs| ==> AtMost(key, fs[i].largest)
  {
    var left := 0;
    right := |fs|;
    while left < right
      invariant 0 <= left <= right <= |fs|
      invariant forall i :: 0 <= i < left ==> Less(fs[i].largest, key)
      invariant forall i :: right <= i < |fs| ==> AtMost(key, fs[i].largest)
    {
      var mid := (left + right) / 2;
      CompareIsLexicographic(fs[mid].largest, key);
      if Compare(fs[mid].largest, key) < 0 {
        forall i | 0 <= i <= mid ensures Less(fs[i].largest, key) {
          if i < mid { LevelOrder(fs, i, mid); }
        }
        left := mid + 1;
      } else {
        forall i | mid <= i < |fs| ensures AtMost(key, fs[i].largest) {
          if mid < i { LevelOrder(fs, mid, i); }
        }
        right := mid;
      }
    }
  }

  // ------------------------------------------------------------- overlap

  /** A missing lower bound is before every key, a missing upper bound after. */
  predicate AfterFile(k: Option<UserKey>, f: File) {
    k.Some? && k.value > f.largest.user
  }

  predicate BeforeFile(k: Option<UserKey>, f: File) {
    k.Some? && k.value < f.smallest.user
  }

  predicate Overlaps(f: File, lo: Option<UserKey>, hi: Option<UserKey>) {
    !AfterFile(lo, f) && !BeforeFile(hi, f)
  }

  /** Does some file meet the user-key range? The binary search used on disjoint
      levels gives the answer of the linear scan. */
  method SomeFileOverlapsRange(disjoint: bool, fs: seq<File>, lo: Option<UserKey>, hi: Option<UserKey>)
    returns (found: bool)
    requires disjoint ==> DisjointSorted(fs)
    ensures found <==> exists i :: 0 <= i < |fs| && Overlaps(fs[i], lo, hi)
  {
    if !disjoint {
      for i := 0 to |fs|
        invariant forall j :: 0 <= j < i ==> !Overlaps(fs[j], lo, hi)
      {
        if AfterFile(lo, fs[i]) || BeforeFile(hi, fs[i]) {
        } else {
          return true;
        }
      }
      return false;
    }
    var index := 0;
    if lo.Some? {
      index := FindFile(fs, InternalKey(lo.value, MAX_SEQUENCE, Value));
    }
    if index >= |fs| {
      return false;
    }
    found := !BeforeFile(hi, fs[index]);
    if !found {
      forall i | 0 <= i < |fs| ensures !Overlaps(fs[i], lo, hi) {
        if index < i { LevelOrder(fs, index, i); }
      }
    } else {
      assert Overlaps(fs[index], lo, hi);
    }
  }

  /** The files of `fs` that meet the range, in their order. */
  function Overlapping(fs: seq<File>, lo: Option<UserKey>, hi: Option<UserKey>): (r: seq<File>)
    ensures forall f :: f in r <==> f in fs && Overlaps(f, lo, hi)
  {
    if fs == [] then []
    else
      var r := Overlapping(fs[..|fs| - 1], lo, hi);
      if Overlaps(fs[|fs| - 1], lo, hi) then r + [fs[|fs| - 1]] else r
  }

  predicate LowerCovers(k: Option<UserKey>, l: Option<UserKey>) {
    k.None? || (l.Some? && k.value <= l.value)
  }

  predicate UpperCovers(k: Option<UserKey>, l: Option<UserKey>) {
    k.None? || (l.Some? && l.value <= k.value)
  }

  /** `[lo, hi]` contains every file of `fs` that it meets. */
  ghost predicate ClosedRange(fs: seq<File>, lo: Option<UserKey>, hi: Option<UserKey>) {
    forall f :: f in fs && Overlaps(f, lo, hi) ==>
      LowerCovers(lo, Some(f.smallest.user)) && UpperCovers(hi, Some(f.largest.user))
  }

  /** `[lo, hi]` is the least closed range that contains `[begin, end]`. */
  ghost predicate LeastClosedRange(fs: seq<File>, begin: Option<UserKey>, end: Option<UserKey>,
                                   lo: Option<UserKey>, hi: Option<UserKey>) {
    && LowerCovers(lo, begin) && UpperCovers(hi, end)
    && ClosedRange(fs, lo, hi)
    && InAllClosed(fs, begin, end, lo, hi)
  }

  /** Every closed range that contains `[begin, end]` contains `[lo, hi]`. */
  ghost predicate InAllClosed(fs: seq<File>, begin: Option<UserKey>, end: Option<UserKey>,
                              lo: Option<UserKey>, hi: Option<UserKey>) {
    forall l, h :: LowerCovers(l, begin) && UpperCovers(h, end) && ClosedRange(fs, l, h) ==>
      LowerCovers(l, lo) && UpperCovers(h, hi)
  }

  /** A file that meets `[lo, hi]` meets every closed range around it, which contains it. */
  lemma Widened(fs: seq<File>, begin: Option<UserKey>, end: Option<UserKey>, lo: Option<UserKey>, hi: Option<UserKey>, f: File)
    requires InAllClosed(fs, begin, end, lo, hi) && f in fs && Overlaps(f, lo, hi)
    ensures InAllClosed(fs, begin, end, Some(f.smallest.user), hi)
    ensures InAllClosed(fs, begin, end, lo, Some(f.largest.user))
  {
  }

  lemma ClosedSnoc(fs: seq<File>, n: nat, lo: Option<UserKey>, hi: Option<UserKey>)
    requires n < |fs| && ClosedRange(fs[..n], lo, hi)
    requires Overlaps(fs[n], lo, hi) ==>
               LowerCovers(lo, Some(fs[n].smallest.user)) && UpperCovers(hi, Some(fs[n].largest.user))
    ensures ClosedRange(fs[..n + 1], lo, hi)
  {
    assert fs[..n + 1] == fs[..n] + [fs[n]];
  }

  ghost function StartsBelow(fs: seq<File>, lo: Option<UserKey>): set<int> {
    set j | 0 <= j < |fs| && lo.Some? && fs[j].smallest.user < lo.value
  }

  ghost function EndsAbove(fs: seq<File>, hi: Option<UserKey>): set<int> {
    set j | 0 <= j < |fs| && hi.Some? && fs[j].largest.user > hi.value
  }

  lemma NothingIsClosed()
    ensures forall l, h :: ClosedRange([], l, h)
  {
  }

  /** The files of one level that meet `[begin, end]`. On level 0, where files may
      overlap each other, a hit that sticks out widens the range and restarts the
      scan; the search stops at the least closed range. */
  method GetOverlappingInputs(level: nat, fs: seq<File>, begin: Option<UserKey>, end: Option<UserKey>)
    returns (inputs: seq<File>, ghost lo: Option<UserKey>, ghost hi: Option<UserKey>)
    requires ValidFiles(fs)
    ensures inputs == Overlapping(fs, lo, hi)
    ensures level == 0 ==> LeastClosedRange(fs, begin, end, lo, hi)
    ensures level > 0 ==> lo == begin && hi == end
    ensures level > 0 ==> inputs == Overlapping(fs, begin, end)
    ensures level == 0 ==> exists l, h :: LeastClosedRange(fs, begin, end, l, h) && inputs == Overlapping(fs, l, h)
  {
    hide ClosedRange, ValidFile;
    inputs := [];
    var userBegin, userEnd := begin, end;
    var i := 0;
    NothingIsClosed();
    while i < |fs|
      invariant 0 <= i <= |fs|
      invariant level > 0 ==> userBegin == begin && userEnd == end
      invariant begin.Some? == userBegin.Some? && end.Some? == userEnd.Some?
      invariant LowerCovers(userBegin, begin) && UpperCovers(userEnd, end)
      invariant InAllClosed(fs, begin, end, userBegin, userEnd)
      invariant inputs == Overlapping(fs[..i], userBegin, userEnd)
      invariant level == 0 ==> ClosedRange(fs[..i], userBegin, userEnd)
      decreases StartsBelow(fs, userBegin), EndsAbove(fs, userEnd), |fs| - i
    {
      var f := fs[i];
      assert fs[..i + 1][..i] == fs[..i];
      FileOrder(f);
      i := i + 1;
      if AfterFile(userBegin, f) || BeforeFile(userEnd, f) {
        if level == 0 { ClosedSnoc(fs, i - 1, userBegin, userEnd); }
      } else {
        assert Overlaps(f, userBegin, userEnd);
        inputs := inputs + [f];
        if level == 0 {
          if userBegin.Some? && f.smallest.user < userBegin.value {
            assert i - 1 in StartsBelow(fs, userBegin) && i - 1 !in StartsBelow(fs, Some(f.smallest.user));
            Widened(fs, begin, end, userBegin, userEnd, f);
            userBegin := Some(f.smallest.user);
            inputs := [];
            i := 0;
          } else if userEnd.Some? && f.largest.user > userEnd.value {
            assert i - 1 in EndsAbove(fs, userEnd) && i - 1 !in EndsAbove(fs, Some(f.largest.user));
            Widened(fs, begin, end, userBegin, userEnd, f);
            userEnd := Some(f.largest.user);
            inputs := [];
            i := 0;
          } else {
            ClosedSnoc(fs, i - 1, userBegin, userEnd);
          }
        }
      }
    }
    assert fs[..|fs|] == fs;
    lo, hi := userBegin, userEnd;
  }
}
