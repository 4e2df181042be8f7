/** The merge loop of a compaction and its stateful helpers. */
module CompactionWork {
  import opened DbFormat
  import opened TableFiles
  import opened Versions
  import opened CompactionInputs
  import opened DropRule
  import opened OutputCuts

  /** No file deeper than the output level has `k` in its user-key range. */
  predicate NoneDeeper(v: Version, level: nat, k: UserKey) {
    forall lvl, j :: level + 2 <= lvl < |v.files| && 0 <= j < |v.files[lvl]| ==>
      !Overlaps(v.files[lvl][j], Some(k), Some(k))
  }

  /** The part of a compaction object that moves while the merge runs. */
  class Compaction {
    const version: Version
    const plan: Plan
    const maxFileSize: nat
    const levelPtrs: array<nat>
    var grandparentIndex: nat
    var seenKey: bool
    var overlappedBytes: nat

    constructor (version: Version, plan: Plan, maxFileSize: nat)
      requires ValidVersion(version) && ValidPlan(version, plan)
      ensures this.version == version && this.plan == plan && this.maxFileSize == maxFileSize
      ensures fresh(levelPtrs) && Valid()
      ensures (forall k :: CursorBefore(k)) && Counted([], [])
    {
      this.version := version;
      this.plan := plan;
      this.maxFileSize := maxFileSize;
      levelPtrs := new nat[NUM_LEVELS](_ => 0);
      grandparentIndex, seenKey, overlappedBytes := 0, false, 0;
    }

    ghost predicate Valid()
      reads this, levelPtrs
    {
      && ValidVersion(version) && plan.level + 1 < NUM_LEVELS
      && levelPtrs.Length == NUM_LEVELS
      && (forall l :: 0 <= l < NUM_LEVELS ==> levelPtrs[l] <= |version.files[l]|)
      && grandparentIndex <= |plan.grandparents|
    }

    /** Every file the cursor has passed ends before `k`. */
    ghost predicate CursorBefore(k: UserKey)
      requires Valid()
      reads this, levelPtrs
    {
      forall l, j :: 0 <= l < NUM_LEVELS && 0 <= j < levelPtrs[l] ==> version.files[l][j].largest.user < k
    }

    /** What was counted of the grandparents for the places of `input` there are stop flags for. */
    ghost predicate Counted(input: seq<Entry>, stops: seq<bool>)
      reads this
    {
      if stops == [] then grandparentIndex == 0 && !seenKey && overlappedBytes == 0
      else
        && |stops| <= |input| && seenKey && grandparentIndex == Passed(plan.grandparents, input[|stops| - 1].Key())
        && overlappedBytes == Between(plan.grandparents, input[LastStop(stops, |stops|)].Key(), input[|stops| - 1].Key())
    }

    /** The cursor is fed ascending keys. */
    lemma CursorGrows(k: UserKey, next: UserKey)
      requires Valid() && CursorBefore(k) && k <= next
      ensures CursorBefore(next)
    {
    }

    /** Is one input file enough to be moved down unchanged? */
    predicate IsTrivialMove()
    {
      && |plan.in0| == 1 && |plan.in1| == 0
      && TotalFileSize(plan.grandparents) <= MaxGrandParentOverlapBytes(maxFileSize)
    }

    /** The cursor, asked about keys in ascending order, gives the stateless
        answer: no file below the output level may hold the key. */
    method IsBaseLevelForKey(k: UserKey) returns (base: bool)
      requires Valid() && CursorBefore(k)
      modifies levelPtrs
      ensures Valid() && CursorBefore(k)
      ensures base == NoneDeeper(version, plan.level, k)
    {
      var lvl := plan.level + 2;
      while lvl < NUM_LEVELS
        invariant plan.level + 2 <= lvl <= NUM_LEVELS
        invariant Valid() && CursorBefore(k)
        invariant forall l, j :: plan.level + 2 <= l < lvl && 0 <= j < |version.files[l]| ==>
                    !Overlaps(version.files[l][j], Some(k), Some(k))
      {
        var files := version.files[lvl];
        while levelPtrs[lvl] < |files|
          invariant Valid() && CursorBefore(k)
          decreases |files| - levelPtrs[lvl]
        {
          var f := files[levelPtrs[lvl]];
          if k <= f.largest.user {
            if k >= f.smallest.user {
              assert Overlaps(version.files[lvl][levelPtrs[lvl]], Some(k), Some(k));
              return false;
            }
            break;
          }
          levelPtrs[lvl] := levelPtrs[lvl] + 1;
        }
        NotHeld(files, levelPtrs[lvl], k);
        lvl := lvl + 1;
      }
      base := true;
    }

    static lemma NotHeld(fs: seq<File>, p: nat, k: UserKey)
      requires DisjointSorted(fs) && p <= |fs|
      requires forall j :: 0 <= j < p ==> fs[j].largest.user < k
      requires p < |fs| ==> k < fs[p].smallest.user
      ensures forall j :: 0 <= j < |fs| ==> !Overlaps(fs[j], Some(k), Some(k))
    {
      forall j | p <= j < |fs| ensures k < fs[j].smallest.user {
        if p < j { LevelOrder(fs, p, j); FileOrder(fs[p]); }
      }
    }

    /** The drop rule of the merge, told the sequence number of the entry before if that has the
        same user key: a newer entry hides this one from every live snapshot, or it is a
        deletion that all snapshots see with nothing below to delete. */
    method DropsEntry(e: Entry, lastSequenceForKey: nat, snapshot: nat, ghost input: seq<Entry>, ghost i: nat) returns (drop: bool)
      requires Valid() && CursorBefore(e.user) && snapshot < MAX_SEQUENCE
      requires SortedEntries(input) && UniqueSeqs(EntrySet(input)) && i < |input| && e == input[i]
      requires lastSequenceForKey == if i > 0 && input[i - 1].user == e.user then input[i - 1].sn else MAX_SEQUENCE
      modifies levelPtrs
      ensures Valid() && CursorBefore(e.user)
      ensures drop <==> Dropped(EntrySet(input), snapshot, BaseTest(version, plan.level), e)
      ensures drop <==>
                || (exists n :: n in input && n.user == e.user && e.sn < n.sn <= snapshot)
                || (e.typ.Deletion? && e.sn <= snapshot && !InDeeperFile(version, plan.level, e.user))
    {
      assert Hidden(EntrySet(input), snapshot, e) <==> exists n :: n in input && n.user == e.user && e.sn < n.sn <= snapshot;
      hide SortedEntries, UniqueSeqs, NoneDeeper, CursorBefore, Hidden, InDeeperFile;
      HiddenByPrevious(input, i, snapshot);
      BaseIsNotDeeper(version, plan.level, e.user);
      drop := false;
      if lastSequenceForKey <= snapshot {
        drop := true;
      } else if e.typ.Deletion? && e.sn <= snapshot {
        drop := IsBaseLevelForKey(e.user);
      }
    }

    /** Adds up the grandparent bytes the current output spans; true when they
        exceed the limit, which starts a new output. */
    method ShouldStopBefore(key: InternalKey, ghost input: seq<Entry>, ghost stops: seq<bool>) returns (stop: bool)
      requires Valid() && Counted(input, stops)
      requires SortedEntries(input) && |stops| < |input| && key == input[|stops|].Key()
      modifies `grandparentIndex, `seenKey, `overlappedBytes
      ensures Valid() && Counted(input, stops + [stop])
      ensures stop <==> Between(plan.grandparents, input[LastStop(stops, |stops|)].Key(), key) > 10 * maxFileSize
      ensures forall k :: old(CursorBefore(k)) ==> CursorBefore(k)
    {
      ghost var start := grandparentIndex;
      PassGrandparents(key);
      hide Less, AtMost, SortedEntries, Passed, Between, LastStop, TotalFileSize;
      NextCount(plan.grandparents, input, stops, start, grandparentIndex, overlappedBytes);
      StopCounts(plan.grandparents, input, stops, overlappedBytes > MaxGrandParentOverlapBytes(maxFileSize));
      seenKey := true;
      if overlappedBytes > MaxGrandParentOverlapBytes(maxFileSize) {
        overlappedBytes := 0;
        stop := true;
      } else {
        stop := false;
      }
    }

    /** Goes past the grandparents that end before a key, counting their bytes unless it is the
        first key. */
    method PassGrandparents(key: InternalKey)
      requires Valid()
      modifies `grandparentIndex, `overlappedBytes
      ensures Valid() && old(grandparentIndex) <= grandparentIndex
      ensures forall i :: old(grandparentIndex) <= i < grandparentIndex ==> Less(plan.grandparents[i].largest, key)
      ensures grandparentIndex < |plan.grandparents| ==> !Less(plan.grandparents[grandparentIndex].largest, key)
      ensures overlappedBytes == old(overlappedBytes) +
                if seenKey then TotalFileSize(plan.grandparents[old(grandparentIndex)..grandparentIndex]) else 0
      ensures forall k :: old(CursorBefore(k)) ==> CursorBefore(k)
    {
      ghost var start := grandparentIndex;
      assert plan.grandparents[start..start] == [] && TotalFileSize([]) == 0;
      hide TotalFileSize, ValidVersion;
      while grandparentIndex < |plan.grandparents| && Compare(key, plan.grandparents[grandparentIndex].largest) > 0
        invariant Valid() && start <= grandparentIndex
        invariant forall i :: start <= i < grandparentIndex ==> Less(plan.grandparents[i].largest, key)
        invariant overlappedBytes == old(overlappedBytes) +
                    if seenKey then TotalFileSize(plan.grandparents[start..grandparentIndex]) else 0
      {
        CompareIsLexicographic(key, plan.grandparents[grandparentIndex].largest);
        if seenKey {
          overlappedBytes := overlappedBytes + plan.grandparents[grandparentIndex].size;
        }
        OneMoreSize(plan.grandparents, start, grandparentIndex);
        grandparentIndex := grandparentIndex + 1;
      }
      if grandparentIndex < |plan.grandparents| {
        CompareIsLexicographic(key, plan.grandparents[grandparentIndex].largest);
      }
    }
  }

  lemma OneMoreSize(files: seq<File>, a: nat, b: nat)
    requires a <= b < |files|
    ensures TotalFileSize(files[a..b + 1]) == TotalFileSize(files[a..b]) + files[b].size
  {
    assert files[a..b + 1][..b - a] == files[a..b];
  }

  // ------------------------------------------------- the merging iterator

  function MergeEntries(a: seq<Entry>, b: seq<Entry>): seq<Entry> {
    if a == [] then b
    else if b == [] then a
    else if Less(b[0].Key(), a[0].Key()) then [b[0]] + MergeEntries(a, b[1..])
    else [a[0]] + MergeEntries(a[1..], b)
  }

  ghost predicate NoCommonKey(a: set<Entry>, b: set<Entry>) {
    forall x, y :: x in a && y in b ==> x.Key() != y.Key()
  }

  lemma HeadFirst(x: Entry, es: seq<Entry>)
    requires SortedEntries(es)
    requires forall y :: y in es ==> Less(x.Key(), y.Key())
    ensures SortedEntries([x] + es)
  {
    var s := [x] + es;
    forall i, j | 0 <= i < j < |s| ensures Less(s[i].Key(), s[j].Key()) {
      if i == 0 { assert s[j] in es; } else { assert s[i] == es[i - 1] && s[j] == es[j - 1]; }
    }
  }

  lemma TailSorted(es: seq<Entry>)
    requires SortedEntries(es) && es != []
    ensures SortedEntries(es[1..])
    ensures forall y :: y in es[1..] ==> Less(es[0].Key(), y.Key())
    ensures EntrySet(es) == {es[0]} + EntrySet(es[1..])
  {
    forall y | y in es[1..] ensures Less(es[0].Key(), y.Key()) {
      var j :| 0 <= j < |es| - 1 && es[1..][j] == y;
    }
  }

  lemma {:induction false} MergeIsUnion(a: seq<Entry>, b: seq<Entry>)
    requires SortedEntries(a) && SortedEntries(b) && NoCommonKey(EntrySet(a), EntrySet(b))
    ensures SortedEntries(MergeEntries(a, b))
    ensures EntrySet(MergeEntries(a, b)) == EntrySet(a) + EntrySet(b)
    decreases |a| + |b|
  {
    hide Less;
    if a != [] && b != [] {
      TailSorted(a);
      TailSorted(b);
      assert a[0] in EntrySet(a) && b[0] in EntrySet(b);
      if Less(b[0].Key(), a[0].Key()) {
        MergeIsUnion(a, b[1..]);
        MergeHead(b[0], a, b[1..], MergeEntries(a, b[1..]));
      } else {
        MergeIsUnion(a[1..], b);
        LessIsTotal(a[0].Key(), b[0].Key());
        MergeHead(a[0], b, a[1..], MergeEntries(a[1..], b));
      }
    }
  }

  /** `x` comes before the head of `other` and before `tail`, hence before their merge. */
  lemma MergeHead(x: Entry, other: seq<Entry>, tail: seq<Entry>, merged: seq<Entry>)
    requires SortedEntries(merged) && EntrySet(merged) == EntrySet(other) + EntrySet(tail)
    requires SortedEntries(other) && other != [] && Less(x.Key(), other[0].Key())
    requires forall y :: y in tail ==> Less(x.Key(), y.Key())
    ensures SortedEntries([x] + merged)
    ensures EntrySet([x] + merged) == {x} + EntrySet(other) + EntrySet(tail)
  {
    forall y | y in merged ensures Less(x.Key(), y.Key()) {
      assert y in EntrySet(merged);
      if y in other {
        var j :| 0 <= j < |other| && other[j] == y;
        assert j > 0 ==> Less(other[0].Key(), y.Key());
      }
    }
    HeadFirst(x, merged);
    assert EntrySet([x] + merged) == {x} + EntrySet(merged);
  }

  function MergeInput(fs: seq<File>): seq<Entry> {
    if fs == [] then [] else MergeEntries(fs[0].entries, MergeInput(fs[1..]))
  }

  ghost predicate NoSharedKeys(fs: seq<File>) {
    forall i, j, x, y :: 0 <= i < j < |fs| && x in fs[i].entries && y in fs[j].entries ==> x.Key() != y.Key()
  }

  lemma EntriesCons(fs: seq<File>)
    requires fs != []
    ensures Entries(fs) == EntrySet(fs[0].entries) + Entries(fs[1..])
  {
    assert forall f :: f in fs <==> f == fs[0] || f in fs[1..];
  }

  lemma NoSharedKeysCons(fs: seq<File>)
    requires fs != [] && NoSharedKeys(fs)
    ensures NoSharedKeys(fs[1..])
    ensures NoCommonKey(EntrySet(fs[0].entries), Entries(fs[1..]))
  {
    var rest := fs[1..];
    assert forall i :: 0 <= i < |rest| ==> rest[i] == fs[i + 1];
    forall x, y | x in EntrySet(fs[0].entries) && y in Entries(rest) ensures x.Key() != y.Key() {
      var f :| f in rest && y in f.entries;
      var j :| 0 <= j < |rest| && rest[j] == f;
      assert y in fs[j + 1].entries;
    }
  }

  lemma {:induction false} MergeInputIsSorted(fs: seq<File>)
    requires ValidFiles(fs) && NoSharedKeys(fs)
    ensures SortedEntries(MergeInput(fs)) && EntrySet(MergeInput(fs)) == Entries(fs)
  {
    hide NoSharedKeys, Less, NoCommonKey;
    if fs != [] {
      assert ValidFiles(fs[1..]);
      NoSharedKeysCons(fs);
      EntriesCons(fs);
      MergeInputIsSorted(fs[1..]);
      assert fs[0] in fs;
      MergeIsUnion(fs[0].entries, MergeInput(fs[1..]));
    }
  }

  // ------------------------------------------- what a compaction has to leave

  /** Some file below the output level has `k` between its first and last user key. */
  ghost predicate InDeeperFile(v: Version, level: nat, k: UserKey) {
    exists l, j :: level + 2 <= l < |v.files| && 0 <= j < |v.files[l]| && v.files[l][j].smallest.user <= k <= v.files[l][j].largest.user
  }

  /** The newest input entry of its key that the oldest snapshot sees. */
  ghost predicate NewestBelow(input: set<Entry>, oldest: nat, e: Entry) {
    && e in input && e.sn <= oldest
    && forall o :: o in input && o.user == e.user && o.sn <= oldest ==> o.sn <= e.sn
  }

  /** What the outputs of a compaction are, from entries and files alone: all that is too new
      for the oldest snapshot, and of each key the one entry that this snapshot sees, unless
      that is a deletion with nothing below to delete. */
  ghost predicate LeavesExactly(input: set<Entry>, output: set<Entry>, oldest: nat, v: Version, level: nat) {
    forall e :: e in output <==>
      && e in input
      && (e.sn > oldest || (NewestBelow(input, oldest, e) && !(e.typ.Deletion? && !InDeeperFile(v, level, e.user))))
  }

  lemma BaseIsNotDeeper(v: Version, level: nat, k: UserKey)
    ensures BaseTest(v, level)(k) <==> !InDeeperFile(v, level, k)
  {
    if !BaseTest(v, level)(k) {
      var l, j :| level + 2 <= l < |v.files| && 0 <= j < |v.files[l]| && Overlaps(v.files[l][j], Some(k), Some(k));
      assert v.files[l][j].smallest.user <= k <= v.files[l][j].largest.user;
    }
    if InDeeperFile(v, level, k) {
      var l, j :| level + 2 <= l < |v.files| && 0 <= j < |v.files[l]| && v.files[l][j].smallest.user <= k <= v.files[l][j].largest.user;
      assert Overlaps(v.files[l][j], Some(k), Some(k));
    }
  }

  /** The drop rule leaves exactly that. */
  lemma KeptIsExact(input: set<Entry>, oldest: nat, v: Version, level: nat)
    ensures LeavesExactly(input, Kept(input, oldest, BaseTest(v, level)), oldest, v, level)
  {
    hide InDeeperFile, BaseTest;
    var kept := Kept(input, oldest, BaseTest(v, level));
    forall e
      ensures e in kept <==>
        && e in input
        && (e.sn > oldest || (NewestBelow(input, oldest, e) && !(e.typ.Deletion? && !InDeeperFile(v, level, e.user))))
    {
      BaseIsNotDeeper(v, level, e.user);
    }
  }

  /** No two outputs of a key are both visible to the oldest snapshot: what was overwritten
      below it is gone. */
  lemma OverwrittenIsGone(input: set<Entry>, output: set<Entry>, oldest: nat, v: Version, level: nat, a: Entry, b: Entry)
    requires LeavesExactly(input, output, oldest, v, level) && UniqueSeqs(input)
    requires a in output && b in output && a.user == b.user && a.sn <= oldest && b.sn <= oldest
    ensures a == b
  {
    assert a in input && b in input && NewestBelow(input, oldest, a) && NewestBelow(input, oldest, b);
  }

  /** A deletion that the oldest snapshot sees stays only over a deeper file that may have its key. */
  lemma ObsoleteIsGone(input: set<Entry>, output: set<Entry>, oldest: nat, v: Version, level: nat, e: Entry)
    requires LeavesExactly(input, output, oldest, v, level) && e in output && e.typ.Deletion? && e.sn <= oldest
    ensures InDeeperFile(v, level, e.user)
  {
    hide InDeeperFile;
  }

  // ------------------------------------------------------- the merge loop

  /** In sorted input the entry just before tells whether an entry is hidden. */
  lemma HiddenByPrevious(input: seq<Entry>, i: nat, snapshot: nat)
    requires SortedEntries(input) && UniqueSeqs(EntrySet(input)) && i < |input|
    ensures Hidden(EntrySet(input), snapshot, input[i]) <==>
            i > 0 && input[i - 1].user == input[i].user && input[i - 1].sn <= snapshot
  {
    var e := input[i];
    if i > 0 && input[i - 1].user == e.user && input[i - 1].sn <= snapshot {
      assert Less(input[i - 1].Key(), e.Key()) && input[i - 1] in EntrySet(input) && e in EntrySet(input);
    }
    if Hidden(EntrySet(input), snapshot, e) {
      var n :| n in EntrySet(input) && n.user == e.user && n.sn > e.sn && n.sn <= snapshot;
      var j :| 0 <= j < |input| && input[j] == n;
      assert j > i ==> Less(e.Key(), n.Key());
      assert j < i - 1 ==> Less(n.Key(), input[i - 1].Key());
      assert i > 0 ==> Less(input[i - 1].Key(), e.Key());
    }
  }

  /** The first `n` entries of `input` that survive. */
  ghost function KeptUpTo(input: seq<Entry>, n: nat, snapshot: nat, base: UserKey -> bool): set<Entry>
    requires n <= |input|
  {
    set j | 0 <= j < n && !Dropped(EntrySet(input), snapshot, base, input[j]) :: input[j]
  }

  lemma KeptStep(input: seq<Entry>, n: nat, snapshot: nat, base: UserKey -> bool)
    requires n < |input|
    ensures KeptUpTo(input, n + 1, snapshot, base) == KeptUpTo(input, n, snapshot, base) +
              if Dropped(EntrySet(input), snapshot, base, input[n]) then {} else {input[n]}
  {
    hide Dropped;
  }

  lemma KeptAll(input: seq<Entry>, snapshot: nat, base: UserKey -> bool)
    ensures KeptUpTo(input, |input|, snapshot, base) == Kept(EntrySet(input), snapshot, base)
  {
    hide Dropped;
  }

  /** Finished outputs followed by the entries of the one being built. */
  ghost predicate OutputState(outputs: seq<File>, pending: seq<Entry>) {
    && DisjointSorted(outputs) && SortedEntries(pending)
    && forall f, e :: f in outputs && e in pending ==> Less(f.largest, e.Key())
  }

  ghost function Written(outputs: seq<File>, pending: seq<Entry>): set<Entry> {
    Entries(outputs) + EntrySet(pending)
  }

  lemma AppendEntry(outputs: seq<File>, pending: seq<Entry>, e: Entry)
    requires OutputState(outputs, pending)
    requires forall x :: x in Written(outputs, pending) ==> Less(x.Key(), e.Key())
    ensures OutputState(outputs, pending + [e])
    ensures Written(outputs, pending + [e]) == Written(outputs, pending) + {e}
  {
    hide Less;
    var p := pending + [e];
    forall i, j | 0 <= i < j < |p| ensures Less(p[i].Key(), p[j].Key()) {
      if j == |pending| { assert p[i] in EntrySet(pending); }
    }
    forall f, x | f in outputs && x in p ensures Less(f.largest, x.Key()) {
      var last := f.entries[|f.entries| - 1];
      assert last in f.entries && last in Entries(outputs);
    }
  }

  lemma CloseOutput(outputs: seq<File>, pending: seq<Entry>, f: File)
    requires OutputState(outputs, pending) && pending != []
    requires f.entries == pending && f.smallest == pending[0].Key() && f.largest == pending[|pending| - 1].Key()
    ensures OutputState(outputs + [f], [])
    ensures Written(outputs + [f], []) == Written(outputs, pending)
  {
    hide Less;
    assert pending[0] in pending;
    var all := outputs + [f];
    assert forall g :: g in all <==> g in outputs || g == f;
    forall i, j | 0 <= i < j < |all| ensures Less(all[i].largest, all[j].smallest) {
      if j == |outputs| { assert all[i] in outputs; }
    }
    assert Entries(all) == Entries(outputs) + EntrySet(pending);
  }

  lemma KeptIsBefore(input: seq<Entry>, n: nat, snapshot: nat, base: UserKey -> bool)
    requires SortedEntries(input) && n < |input|
    ensures forall x :: x in KeptUpTo(input, n, snapshot, base) ==> Less(x.Key(), input[n].Key())
  {
    hide Less, Dropped;
  }

  function BaseTest(v: Version, level: nat): UserKey -> bool {
    k => NoneDeeper(v, level, k)
  }

  /** Output files carry the numbers they were given as they were begun. */
  ghost predicate Numbered(outputs: seq<File>, number: nat -> nat) {
    forall j :: 0 <= j < |outputs| ==> outputs[j].number == number(j)
  }

  /** The outputs of a running compaction. `number` stands for the file numbers there are when
      each is begun, `tableSize` for the size a table builder reports for its entries. */
  class CompactionState {
    const number: nat -> nat
    const tableSize: seq<Entry> -> nat
    var outputs: seq<File>
    var builder: Option<seq<Entry>>
    var smallest: InternalKey
    var largest: InternalKey

    constructor (number: nat -> nat, tableSize: seq<Entry> -> nat)
      ensures this.number == number && this.tableSize == tableSize
      ensures Valid() && builder.None? && Contents() == {} && outputs == []
    {
      this.number, this.tableSize := number, tableSize;
      outputs, builder := [], None;
      smallest, largest := InternalKey(0.0, 0, Deletion), InternalKey(0.0, 0, Deletion);
    }

    function Pending(): seq<Entry>
      reads this
    {
      if builder.Some? then builder.value else []
    }

    ghost predicate Valid()
      reads this
    {
      && OutputState(outputs, Pending()) && Numbered(outputs, number)
      && (builder.Some? ==>
            && builder.value != [] && smallest == builder.value[0].Key()
            && largest == builder.value[|builder.value| - 1].Key())
    }

    ghost function OutputEntries(): (r: seq<seq<Entry>>)
      reads this
      ensures |r| == |outputs| && forall i :: 0 <= i < |outputs| ==> r[i] == outputs[i].entries
    {
      seq(|outputs|, i requires 0 <= i < |outputs| reads this => outputs[i].entries)
    }

    ghost function Contents(): set<Entry>
      reads this
    {
      Written(outputs, Pending())
    }

    method Finish()
      requires Valid() && builder.Some?
      modifies this
      ensures Valid() && builder.None? && Contents() == old(Contents())
      ensures OutputEntries() == old(OutputEntries()) + [old(builder.value)]
    {
      var f := File(number(|outputs|), tableSize(builder.value), smallest, largest, builder.value);
      CloseOutput(outputs, builder.value, f);
      outputs, builder := outputs + [f], None;
    }

    method Add(e: Entry)
      requires Valid()
      requires forall x :: x in Contents() ==> Less(x.Key(), e.Key())
      modifies this
      ensures Valid() && builder.Some? && Contents() == old(Contents()) + {e}
      ensures outputs == old(outputs) && Pending() == old(Pending()) + [e]
    {
      hide Less, OutputState, Written;
      AppendEntry(outputs, Pending(), e);
      ghost var grown := Pending() + [e];
      if builder.None? {
        builder, smallest := Some([e]), e.Key();
      } else {
        builder := Some(builder.value + [e]);
      }
      largest := e.Key();
      assert Pending() == grown;
    }

    /** Adds an entry, which ends the output once it is large enough. */
    method Put(e: Entry, maxFileSize: nat)
      requires Valid()
      requires forall x :: x in Contents() ==> Less(x.Key(), e.Key())
      modifies this
      ensures Valid() && Contents() == old(Contents()) + {e}
      ensures var all := old(Pending()) + [e];
        if tableSize(all) >= maxFileSize then OutputEntries() == old(OutputEntries()) + [all] && builder == None
        else OutputEntries() == old(OutputEntries()) && Pending() == all
    {
      hide Less, OutputState, Written;
      Add(e);
      if tableSize(builder.value) >= maxFileSize {
        Finish();
      }
    }
  }

  /** The outputs hold the entries of their places in the input, and so does what is being built. */
  ghost predicate HoldsPlaces(input: seq<Entry>, outs: seq<seq<nat>>, p: seq<nat>, lists: seq<seq<Entry>>, pending: seq<Entry>) {
    && |outs| == |lists|
    && (forall f :: 0 <= f < |outs| ==> IsAt(input, outs[f], lists[f]))
    && IsAt(input, p, pending)
  }

  ghost predicate IsAt(input: seq<Entry>, p: seq<nat>, list: seq<Entry>) {
    (forall k :: 0 <= k < |p| ==> p[k] < |input|) && list == At(input, p)
  }

  /** The outputs take their entries from places of the input, and are cut exactly where there is
      a stop for the grandparents or where the table has become too large. */
  ghost predicate OutputsAreCut(grandparents: seq<File>, maxFileSize: nat, input: seq<Entry>, size: seq<Entry> -> nat, outputs: seq<File>) {
    exists stops, places ::
      && |stops| == |input| && StopsRight(grandparents, maxFileSize, input, stops)
      && |places| == |outputs| && CutRight(input, stops, size, maxFileSize, places)
      && forall f :: 0 <= f < |outputs| ==> IsAt(input, places[f], outputs[f].entries)
  }

  lemma PlacesClosed(input: seq<Entry>, outs: seq<seq<nat>>, p: seq<nat>, lists: seq<seq<Entry>>, pending: seq<Entry>)
    requires HoldsPlaces(input, outs, p, lists, pending)
    ensures HoldsPlaces(input, outs + [p], [], lists + [pending], [])
  {
    assert At(input, []) == [];
    hide At;
    hide IsAt;
    assert IsAt(input, [], []);
  }

  lemma PlaceAdded(input: seq<Entry>, outs: seq<seq<nat>>, p: seq<nat>, lists: seq<seq<Entry>>, pending: seq<Entry>, n: nat)
    requires HoldsPlaces(input, outs, p, lists, pending) && n < |input|
    ensures HoldsPlaces(input, outs, p + [n], lists, pending + [input[n]])
  {
    assert At(input, p + [n]) == At(input, p) + [input[n]];
    assert IsAt(input, p + [n], pending + [input[n]]);
    hide IsAt;
  }

  lemma KeepPlace(input: seq<Entry>, stops: seq<bool>, size: seq<Entry> -> nat, max: nat, outs: seq<seq<nat>>, p: seq<nat>,
                  lists: seq<seq<Entry>>, pending: seq<Entry>) returns (outs': seq<seq<nat>>, p': seq<nat>)
    requires CutBefore(input, stops, size, max, outs, p) && HoldsPlaces(input, outs, p, lists, pending)
    requires 0 < |stops| <= |input|
    ensures CutSoFar(input, stops, size, max, outs', p')
    ensures var all := pending + [input[|stops| - 1]];
      if size(all) >= max then HoldsPlaces(input, outs', p', lists + [all], []) else HoldsPlaces(input, outs', p', lists, all)
  {
    var n, q := |stops| - 1, p + [|stops| - 1];
    EntryKept(input, stops, size, max, outs, p);
    PlaceAdded(input, outs, p, lists, pending, n);
    assert IsAt(input, q, pending + [input[n]]);
    PlacesClosed(input, outs, q, lists, pending + [input[n]]);
    hide CutSoFar, CutBefore, HoldsPlaces, At;
    if size(At(input, q)) >= max { outs', p' := outs + [q], []; } else { outs', p' := outs, q; }
  }

  lemma NothingHeld(input: seq<Entry>)
    ensures HoldsPlaces(input, [], [], [], [])
  {
  }

  lemma AllHeld(input: seq<Entry>, outs: seq<seq<nat>>, lists: seq<seq<Entry>>)
    requires exists p, pending :: HoldsPlaces(input, outs, p, lists, pending)
    ensures |outs| == |lists| && forall f :: 0 <= f < |outs| ==> IsAt(input, outs[f], lists[f])
  {
  }

  lemma PendingIff(input: seq<Entry>, outs: seq<seq<nat>>, p: seq<nat>, lists: seq<seq<Entry>>, pending: seq<Entry>)
    requires HoldsPlaces(input, outs, p, lists, pending)
    ensures p == [] <==> pending == []
  {
    assert |At(input, p)| == |p|;
  }

  /** Every entry that there are stop flags for was dropped or put into its output. */
  ghost predicate CutsFit(c: Compaction, state: CompactionState, input: seq<Entry>, stops: seq<bool>, outs: seq<seq<nat>>, p: seq<nat>)
    reads c, state
  {
    && c.Counted(input, stops) && StopsRight(c.plan.grandparents, c.maxFileSize, input, stops)
    && CutSoFar(input, stops, state.tableSize, c.maxFileSize, outs, p)
    && HoldsPlaces(input, outs, p, state.OutputEntries(), state.Pending())
  }

  /** So was every one but the last. */
  ghost predicate CutsFitBefore(c: Compaction, state: CompactionState, input: seq<Entry>, stops: seq<bool>, outs: seq<seq<nat>>, p: seq<nat>)
    reads c, state
  {
    && c.Counted(input, stops) && StopsRight(c.plan.grandparents, c.maxFileSize, input, stops)
    && CutBefore(input, stops, state.tableSize, c.maxFileSize, outs, p)
    && HoldsPlaces(input, outs, p, state.OutputEntries(), state.Pending())
  }

  /** Ends the output before an entry if too much of the grandparents overlaps it. */
  method EndOutputBefore(c: Compaction, state: CompactionState, ghost input: seq<Entry>, key: InternalKey,
                         ghost stops: seq<bool>, ghost outs: seq<seq<nat>>, ghost p: seq<nat>)
    returns (ghost stops': seq<bool>, ghost outs': seq<seq<nat>>, ghost p': seq<nat>)
    requires c.Valid() && state.Valid() && CutsFit(c, state, input, stops, outs, p)
    requires SortedEntries(input) && |stops| < |input| && key == input[|stops|].Key()
    modifies c`grandparentIndex, c`seenKey, c`overlappedBytes, state
    ensures c.Valid() && state.Valid() && CutsFitBefore(c, state, input, stops', outs', p')
    ensures |stops'| == |stops| + 1 && state.Contents() == old(state.Contents())
    ensures forall k :: old(c.CursorBefore(k)) ==> c.CursorBefore(k)
  {
    hide Less, OutputState, Written, SortedEntries, ValidVersion, Compaction.CursorBefore, Numbered, Compaction.Counted, StopsRight, CutRight,
      CutSoFar, CutBefore, HoldsPlaces, IsAt, Between, LastStop;
    var stop := c.ShouldStopBefore(key, input, stops);
    OneMoreStop(c.plan.grandparents, c.maxFileSize, input, stops, stop);
    NextPlace(input, stops, stop, state.tableSize, c.maxFileSize, outs, p);
    stops', outs', p' := stops + [stop], outs, p;
    PendingIff(input, outs, p, state.OutputEntries(), state.Pending());
    if stop && state.builder.Some? {
      PlacesClosed(input, outs, p, state.OutputEntries(), state.Pending());
      outs', p' := outs + [p], [];
      state.Finish();
    }
  }

  /** Merges the input, drops what no snapshot needs, and cuts the rest into files. */
  method DoCompactionWork(c: Compaction, input: seq<Entry>, snapshot: nat, number: nat -> nat, tableSize: seq<Entry> -> nat)
    returns (outputs: seq<File>)
    requires c.Valid() && (forall k :: c.CursorBefore(k)) && c.Counted(input, [])
    requires SortedEntries(input) && UniqueSeqs(EntrySet(input))
    requires snapshot < MAX_SEQUENCE
    modifies c, c.levelPtrs
    ensures DisjointSorted(outputs) && Numbered(outputs, number)
    ensures Entries(outputs) == Kept(EntrySet(input), snapshot, BaseTest(c.version, c.plan.level))
    ensures LeavesExactly(EntrySet(input), Entries(outputs), snapshot, c.version, c.plan.level)
    ensures OutputsAreCut(c.plan.grandparents, c.maxFileSize, input, tableSize, outputs)
  {
    hide Less, Dropped, OutputState, Written, KeptUpTo, SortedEntries, UniqueSeqs, DisjointSorted, BaseTest, Kept, ValidVersion, Compaction.CursorBefore,
      TotalFileSize, Numbered, EntrySet, LeavesExactly, InDeeperFile, StopsRight, CutRight, IsAt, CutsFit, CutsFitBefore, Compaction.Counted,
      Compaction.Valid, CompactionState.Valid, CompactionState.Contents, CompactionState.Pending;
    ghost var base := BaseTest(c.version, c.plan.level);
    var state := new CompactionState(number, tableSize);
    KeptNothing(input, snapshot, base);
    NothingIsCut(c, state, input);
    ghost var stops: seq<bool>, places: seq<seq<nat>>, p: seq<nat> := [], [], [];
    var currentUserKey: UserKey, hasCurrentUserKey := 0.0, false;
    var lastSequenceForKey := MAX_SEQUENCE;
    var i := 0;
    while i < |input|
      invariant 0 <= i <= |input| && c.Valid()
      invariant i < |input| ==> c.CursorBefore(input[i].user)
      invariant hasCurrentUserKey == (i > 0)
      invariant i > 0 ==> currentUserKey == input[i - 1].user && lastSequenceForKey == input[i - 1].sn
      invariant state.Valid() && state.Contents() == KeptUpTo(input, i, snapshot, base)
      invariant |stops| == i && CutsFit(c, state, input, stops, places, p)
    {
      var e := input[i];
      stops, places, p := EndOutputBefore(c, state, input, e.Key(), stops, places, p);
      if !hasCurrentUserKey || e.user != currentUserKey {
        currentUserKey, hasCurrentUserKey := e.user, true;
        lastSequenceForKey := MAX_SEQUENCE;
      }
      var drop := c.DropsEntry(e, lastSequenceForKey, snapshot, input, i);
      lastSequenceForKey := e.sn;
      KeptStep(input, i, snapshot, base);
      if !drop {
        KeptIsBefore(input, i, snapshot, base);
        places, p := Keep(c, state, e, input, stops, places, p);
      } else {
        EntryIsDropped(c, state, input, stops, places, p);
      }
      if i + 1 < |input| {
        AscendingUsers(input, i);
        c.CursorGrows(input[i].user, input[i + 1].user);
      }
      i := i + 1;
    }
    places := EndLastOutput(c, state, input, stops, places, p);
    KeptAll(input, snapshot, base);
    outputs := state.outputs;
    KeptIsExact(EntrySet(input), snapshot, c.version, c.plan.level);
    assert OutputsAreCut(c.plan.grandparents, c.maxFileSize, input, tableSize, outputs);
  }

  /** An entry that is kept goes to the output. */
  method Keep(c: Compaction, state: CompactionState, e: Entry,
              ghost input: seq<Entry>, ghost stops: seq<bool>, ghost outs: seq<seq<nat>>, ghost p: seq<nat>)
    returns (ghost outs': seq<seq<nat>>, ghost p': seq<nat>)
    requires state.Valid() && CutsFitBefore(c, state, input, stops, outs, p) && 0 < |stops| <= |input| && e == input[|stops| - 1]
    requires forall x :: x in state.Contents() ==> Less(x.Key(), e.Key())
    modifies state
    ensures state.Valid() && CutsFit(c, state, input, stops, outs', p') && state.Contents() == old(state.Contents()) + {e}
  {
    hide Less, OutputState, Written, Numbered, Compaction.Counted, StopsRight, CutSoFar, CutBefore, HoldsPlaces;
    outs', p' := KeepPlace(input, stops, state.tableSize, c.maxFileSize, outs, p, state.OutputEntries(), state.Pending());
    state.Put(e, c.maxFileSize);
  }

  /** The end of the input ends the output that is being built. */
  method EndLastOutput(c: Compaction, state: CompactionState,
                       ghost input: seq<Entry>, ghost stops: seq<bool>, ghost outs: seq<seq<nat>>, ghost p: seq<nat>)
    returns (ghost outs': seq<seq<nat>>)
    requires state.Valid() && CutsFit(c, state, input, stops, outs, p)
    modifies state
    ensures DisjointSorted(state.outputs) && Numbered(state.outputs, state.number) && Entries(state.outputs) == old(state.Contents())
    ensures StopsRight(c.plan.grandparents, c.maxFileSize, input, stops)
    ensures CutRight(input, stops, state.tableSize, c.maxFileSize, outs')
    ensures |outs'| == |state.outputs| && forall f :: 0 <= f < |outs'| ==> IsAt(input, outs'[f], state.outputs[f].entries)
  {
    hide OutputState, Written, Numbered, Compaction.Counted, StopsRight, CutSoFar, CutRight, HoldsPlaces, IsAt, DisjointSorted;
    InputEnds(input, stops, state.tableSize, c.maxFileSize, outs, p);
    PendingIff(input, outs, p, state.OutputEntries(), state.Pending());
    outs' := outs;
    if state.builder.Some? {
      PlacesClosed(input, outs, p, state.OutputEntries(), state.Pending());
      outs' := outs + [p];
      state.Finish();
    }
    AllHeld(input, outs', state.OutputEntries());
    AllWritten(state.outputs);
  }

  lemma NothingIsCut(c: Compaction, state: CompactionState, input: seq<Entry>)
    requires c.Counted(input, []) && state.outputs == [] && state.builder == None
    ensures CutsFit(c, state, input, [], [], [])
  {
    NothingCut(input, state.tableSize, c.maxFileSize);
    NothingStops(c.plan.grandparents, c.maxFileSize, input);
    NothingHeld(input);
    assert state.OutputEntries() == [];
    hide CutSoFar, HoldsPlaces, StopsRight, Compaction.Counted;
  }

  lemma EntryIsDropped(c: Compaction, state: CompactionState, input: seq<Entry>, stops: seq<bool>, outs: seq<seq<nat>>, p: seq<nat>)
    requires CutsFitBefore(c, state, input, stops, outs, p)
    ensures CutsFit(c, state, input, stops, outs, p)
  {
    hide CutSoFar, CutBefore, HoldsPlaces, StopsRight, Compaction.Counted;
    EntryDropped(input, stops, state.tableSize, c.maxFileSize, outs, p);
  }

  lemma KeptNothing(input: seq<Entry>, snapshot: nat, base: UserKey -> bool)
    ensures KeptUpTo(input, 0, snapshot, base) == {}
  {
  }

  lemma AllWritten(outputs: seq<File>)
    requires OutputState(outputs, [])
    ensures DisjointSorted(outputs) && Written(outputs, []) == Entries(outputs)
  {
  }

  lemma AscendingUsers(input: seq<Entry>, i: nat)
    requires SortedEntries(input) && i + 1 < |input|
    ensures input[i].user <= input[i + 1].user
  {
    assert Less(input[i].Key(), input[i + 1].Key());
  }
}
