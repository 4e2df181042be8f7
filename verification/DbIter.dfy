/** The user-visible iterator: a two-direction walk over internal entries that must
    look like a cursor over the sorted map a snapshot sees. */
module DbIters {
  import opened DbFormat
  import opened TableFiles
  import opened Versions

  /** The internal iterator: a position in the sorted entries. Stepping off either
      end gives the same invalid state. */
  class InternalIterator {
    var entries: seq<Entry>
    var pos: nat

    constructor (entries: seq<Entry>)
      ensures this.entries == entries && pos == |entries|
    {
      this.entries, pos := entries, |entries|;
    }

    predicate Valid()
      reads this
    {
      pos < |entries|
    }

    method SeekToFirst()
      modifies `pos
      ensures pos == 0
    {
      pos := 0;
    }

    method SeekToLast()
      modifies `pos
      ensures pos == if entries == [] then 0 else |entries| - 1
    {
      pos := if entries == [] then 0 else |entries| - 1;
    }

    method Seek(key: InternalKey)
      modifies `pos
      ensures pos == SeekIndex(entries, key)
    {
      pos := SeekIndex(entries, key);
    }

    method Next()
      requires Valid()
      modifies `pos
      ensures pos == old(pos) + 1
    {
      pos := pos + 1;
    }

    method Prev()
      requires Valid()
      modifies `pos
      ensures pos == if old(pos) == 0 then |entries| else old(pos) - 1
    {
      pos := if pos == 0 then |entries| else pos - 1;
    }

    /** The memtable below gains an entry. The position stays at its entry, or invalid. */
    method Gain(e: Entry)
      requires pos <= |entries|
      modifies this
      ensures entries == WithEntry(old(entries), e)
      ensures pos == if SeekIndex(old(entries), e.Key()) <= old(pos) then old(pos) + 1 else old(pos)
    {
      var n := SeekIndex(entries, e.Key());
      entries := WithEntry(entries, e);
      pos := if n <= pos then pos + 1 else pos;
    }
  }

  // ------------------------------------------------------ reading a suffix

  /** What snapshot `s` reads of `k` when only entries from index `lo` on exist. */
  ghost function ReadFrom(es: seq<Entry>, lo: nat, k: UserKey, s: nat): Option<string>
    requires lo <= |es|
    decreases |es| - lo
  {
    if lo == |es| then None
    else if es[lo].user == k && es[lo].sn <= s then
      if es[lo].typ.Value? then Some(es[lo].value) else None
    else ReadFrom(es, lo + 1, k, s)
  }

  /** Entries in between that are invisible, or of other keys, do not matter. */
  lemma {:induction false} ReadFromSkips(es: seq<Entry>, lo: nat, hi: nat, k: UserKey, s: nat)
    requires lo <= hi <= |es|
    requires forall i :: lo <= i < hi ==> es[i].user != k || es[i].sn > s
    ensures ReadFrom(es, lo, k, s) == ReadFrom(es, hi, k, s)
    decreases hi - lo
  {
    if lo < hi { ReadFromSkips(es, lo + 1, hi, k, s); }
  }

  /** Reading all entries front to back gives the snapshot's view. */
  lemma {:induction false} ReadFromIsVisible(es: seq<Entry>, k: UserKey, s: nat)
    requires SortedEntries(es) && UniqueSeqs(EntrySet(es))
    ensures ReadFrom(es, 0, k, s) == Visible(EntrySet(es), k, s)
  {
    if n :| 0 <= n < |es| && es[n].user == k && es[n].sn <= s &&
            forall i :: 0 <= i < n ==> es[i].user != k || es[i].sn > s {
      ReadFromSkips(es, 0, n, k, s);
      forall o | o in EntrySet(es) && o.user == k && o.sn <= s ensures o.sn <= es[n].sn {
        var j :| 0 <= j < |es| && es[j] == o;
        assert n < j ==> Less(es[n].Key(), es[j].Key());
      }
      assert IsNewest(EntrySet(es), k, s, es[n]);
      VisibleIs(EntrySet(es), k, s, es[n]);
    } else {
      NoneVisible(es, k, s, 0);
      ReadFromSkips(es, 0, |es|, k, s);
    }
  }

  /** If no entry of `k` is the first visible one, none is visible at all. */
  lemma {:induction false} NoneVisible(es: seq<Entry>, k: UserKey, s: nat, n: nat)
    requires n <= |es|
    requires forall i :: 0 <= i < n ==> es[i].user != k || es[i].sn > s
    requires !exists m :: 0 <= m < |es| && es[m].user == k && es[m].sn <= s &&
                          forall i :: 0 <= i < m ==> es[i].user != k || es[i].sn > s
    ensures forall i :: 0 <= i < |es| ==> es[i].user != k || es[i].sn > s
    decreases |es| - n
  {
    if n < |es| { NoneVisible(es, k, s, n + 1); }
  }

  /** User keys never decrease along sorted entries. */
  lemma UsersAscend(es: seq<Entry>, i: nat, j: nat)
    requires SortedEntries(es) && i <= j < |es|
    ensures es[i].user <= es[j].user
  {
    if i < j { assert Less(es[i].Key(), es[j].Key()); }
  }

  // ------------------------------------------------------- the map cursor

  /** Where a cursor over the snapshot's sorted map stands. */
  datatype Cursor = Off | At(key: UserKey, value: string)

  /** The sorted map a snapshot sees. */
  ghost function View(es: seq<Entry>, s: nat): map<UserKey, string> {
    map k | k in (set e | e in es :: e.user) && Visible(EntrySet(es), k, s).Some? :: Visible(EntrySet(es), k, s).value
  }

  predicate Above(lo: Option<UserKey>, strict: bool, k: UserKey) {
    lo.Some? ==> lo.value < k || (!strict && lo.value == k)
  }

  /** `c` is the first key of `m` above the bound. */
  ghost predicate IsFirst(m: map<UserKey, string>, lo: Option<UserKey>, strict: bool, c: Cursor) {
    match c
    case Off => forall k :: k in m ==> !Above(lo, strict, k)
    case At(k, v) => k in m && m[k] == v && Above(lo, strict, k) && forall o :: o in m && Above(lo, strict, o) ==> k <= o
  }

  /** `c` is the last key of `m` strictly below the bound. */
  ghost predicate IsLast(m: map<UserKey, string>, hi: Option<UserKey>, c: Cursor) {
    match c
    case Off => forall k :: k in m ==> hi.Some? && hi.value <= k
    case At(k, v) =>
      && k in m && m[k] == v && (hi.Some? ==> k < hi.value)
      && forall o :: o in m && (hi.Some? ==> o < hi.value) ==> o <= k
  }

  datatype Move = Seek(target: UserKey) | SeekToFirst | SeekToLast | Next | Prev

  /** The cursor moves of a sorted map; stepping needs a key to step from. */
  ghost predicate Moved(m: map<UserKey, string>, before: Cursor, move: Move, after: Cursor) {
    match move
    case Seek(t) => IsFirst(m, Some(t), false, after)
    case SeekToFirst => IsFirst(m, None, false, after)
    case SeekToLast => IsLast(m, None, after)
    case Next => if before.At? then IsFirst(m, Some(before.key), true, after) else after == before
    case Prev => if before.At? then IsLast(m, Some(before.key), after) else after == before
  }

  /** The map and the moves leave the cursor no choice. */
  lemma MovesAreDetermined(m: map<UserKey, string>, before: Cursor, move: Move, a: Cursor, b: Cursor)
    requires Moved(m, before, move, a) && Moved(m, before, move, b)
    ensures a == b
  {
  }

  /** A suffix reading every key above a bound as the snapshot does. */
  ghost predicate Faithful(es: seq<Entry>, s: nat, lo: nat, bound: Option<UserKey>, strict: bool)
    requires lo <= |es|
  {
    forall k :: Above(bound, strict, k) ==> ReadFrom(es, lo, k, s) == Visible(EntrySet(es), k, s)
  }

  lemma ViewHolds(es: seq<Entry>, s: nat, k: UserKey)
    ensures k in View(es, s) <==> Visible(EntrySet(es), k, s).Some?
    ensures k in View(es, s) ==> View(es, s)[k] == Visible(EntrySet(es), k, s).value
  {
    if Visible(EntrySet(es), k, s).Some? {
      var e :| IsNewest(EntrySet(es), k, s, e) && e.typ.Value?;
      assert e in es && e.user == k;
    }
  }

  // ------------------------------------------------------ moving forward

  predicate Passes(skipping: bool, skip: UserKey, k: UserKey) {
    skipping ==> skip < k
  }

  /** Having walked from `start` to `pos` without yielding: every key past the bound
      with a visible entry on the way is deleted, and is being skipped. */
  ghost predicate Walked(es: seq<Entry>, s: nat, start: nat, pos: nat, bounded: bool, bound: UserKey,
                         skipping: bool, skip: UserKey)
    requires start <= pos <= |es|
  {
    && (bounded ==> skipping && bound <= skip)
    && (skipping ==> (bounded && skip == bound) || exists j :: start <= j < pos && es[j].user == skip && es[j].sn <= s)
    && forall i :: start <= i < pos && es[i].sn <= s && Passes(bounded, bound, es[i].user) ==>
         skipping && es[i].user <= skip && ReadFrom(es, start, es[i].user, s) == None
  }

  /** A visible value past everything skipped is the next key of the walk. */
  lemma YieldIsFirst(es: seq<Entry>, s: nat, start: nat, pos: nat, bounded: bool, bound: UserKey, skipping: bool, skip: UserKey)
    requires SortedEntries(es) && start <= pos < |es|
    requires Walked(es, s, start, pos, bounded, bound, skipping, skip)
    requires es[pos].sn <= s && es[pos].typ.Value? && !(skipping && es[pos].user <= skip)
    ensures Passes(bounded, bound, es[pos].user)
    ensures ReadFrom(es, start, es[pos].user, s) == Some(es[pos].value)
    ensures forall k :: k < es[pos].user && Passes(bounded, bound, k) ==> ReadFrom(es, start, k, s) == None
    ensures forall i :: start <= i < pos ==> es[i].user != es[pos].user || es[i].sn > s
  {
    var u := es[pos].user;
    ReadFromSkips(es, start, pos, u, s);
    forall k | k < u && Passes(bounded, bound, k) ensures ReadFrom(es, start, k, s) == None {
      AbsentOrDeleted(es, s, start, pos, bounded, bound, skipping, skip, k);
    }
  }

  lemma AbsentOrDeleted(es: seq<Entry>, s: nat, start: nat, pos: nat, bounded: bool, bound: UserKey,
                        skipping: bool, skip: UserKey, k: UserKey)
    requires SortedEntries(es) && start <= pos <= |es|
    requires Walked(es, s, start, pos, bounded, bound, skipping, skip)
    requires Passes(bounded, bound, k) && (pos < |es| ==> k < es[pos].user)
    ensures ReadFrom(es, start, k, s) == None
  {
    if i :| start <= i < |es| && es[i].user == k && es[i].sn <= s {
      if pos <= i { UsersAscend(es, pos, i); }
    } else {
      ReadFromSkips(es, start, |es|, k, s);
    }
  }

  /** A key that is skipped although it is past the bound has been seen deleted. */
  lemma SkippedWasSeen(es: seq<Entry>, s: nat, start: nat, pos: nat, bounded: bool, bound: UserKey,
                       skipping: bool, skip: UserKey)
    requires SortedEntries(es) && start <= pos < |es|
    requires Walked(es, s, start, pos, bounded, bound, skipping, skip)
    requires Passes(bounded, bound, es[pos].user) && skipping && es[pos].user <= skip
    ensures exists j :: start <= j < pos && es[j].user == es[pos].user && es[j].sn <= s
  {
    var j :| start <= j < pos && es[j].user == skip && es[j].sn <= s;
    UsersAscend(es, j, pos);
  }

  /** One more entry passed over. */
  lemma WalkOn(es: seq<Entry>, s: nat, start: nat, pos: nat, bounded: bool, bound: UserKey,
               skipping: bool, skip: UserKey, skipping': bool, skip': UserKey)
    requires SortedEntries(es) && start <= pos < |es|
    requires Walked(es, s, start, pos, bounded, bound, skipping, skip)
    requires if es[pos].sn <= s && es[pos].typ.Deletion? then skipping' && skip' == es[pos].user
             else skipping' == skipping && skip' == skip
    requires es[pos].sn <= s && es[pos].typ.Value? ==> skipping && es[pos].user <= skip
    requires bounded ==> BoundedBelow(es, s, start, bound)
    ensures Walked(es, s, start, pos + 1, bounded, bound, skipping', skip')
  {
    forall i | start <= i < pos + 1 && es[i].sn <= s && Passes(bounded, bound, es[i].user)
      ensures skipping' && es[i].user <= skip' && ReadFrom(es, start, es[i].user, s) == None
    {
      UsersAscend(es, i, pos);
      if i == pos {
        if es[pos].typ.Value? { SkippedWasSeen(es, s, start, pos, bounded, bound, skipping, skip); }
        if j :| start <= j < pos && es[j].user == es[pos].user && es[j].sn <= s {
        } else {
          ReadFromSkips(es, start, pos, es[pos].user, s);
        }
      }
    }
  }

  /** Visible entries from `start` on belong to keys not below the bound. */
  ghost predicate BoundedBelow(es: seq<Entry>, s: nat, start: nat, bound: UserKey) {
    forall i :: start <= i < |es| && es[i].sn <= s ==> bound <= es[i].user
  }

  // ----------------------------------------------------- moving backward

  /** Having walked back to just after `lo - 1`, the last value read is the answer
      for its key, and every later key below the bound is absent. `hi` bounds the
      keys in question, and `found` tells whether a value is pending. */
  ghost predicate WalkedBack(es: seq<Entry>, s: nat, lo: nat, hi: Option<UserKey>, found: bool, key: UserKey, value: string)
    requires lo <= |es|
  {
    if found then
      && (hi.Some? ==> key < hi.value)
      && ReadFrom(es, lo, key, s) == Some(value)
      && (forall k :: key < k && (hi.Some? ==> k < hi.value) ==> ReadFrom(es, lo, k, s) == None)
      && (forall i :: lo <= i < |es| && es[i].sn <= s ==> key <= es[i].user)
    else
      forall k :: (hi.Some? ==> k < hi.value) ==> ReadFrom(es, lo, k, s) == None
  }

  /** One entry further back; a visible one replaces what is pending. */
  lemma StepBack(es: seq<Entry>, s: nat, lo: nat, hi: Option<UserKey>, found: bool, key: UserKey, value: string,
                 found': bool, key': UserKey, value': string)
    requires SortedEntries(es) && lo < |es| && WalkedBack(es, s, lo + 1, hi, found, key, value)
    requires hi.Some? ==> es[lo].user < hi.value
    requires if es[lo].sn <= s then
               && (found ==> es[lo].user >= key)
               && found' == es[lo].typ.Value?
               && (found' ==> key' == es[lo].user && value' == es[lo].value)
             else found' == found && key' == key && value' == value
    ensures WalkedBack(es, s, lo, hi, found', key', value')
  {
    hide SortedEntries;
    var e := es[lo];
    forall i | lo <= i < |es| ensures e.user <= es[i].user { UsersAscend(es, lo, i); }
    forall k
      ensures ReadFrom(es, lo, k, s) ==
        if e.user == k && e.sn <= s then (if e.typ.Value? then Some(e.value) else None) else ReadFrom(es, lo + 1, k, s)
    {}
    forall k | k < e.user ensures ReadFrom(es, lo, k, s) == None {
      ReadFromSkips(es, lo, |es|, k, s);
    }
  }

  // --------------------------------------------------------- the iterator

  datatype Direction = Forward | Reverse

  class DbIter {
    const iter: InternalIterator
    const sequence: Sequence
    var savedKey: UserKey
    var savedValue: string
    var direction: Direction
    var valid: bool

    constructor (iter: InternalIterator, sequence: Sequence)
      requires SortedEntries(iter.entries) && UniqueSeqs(EntrySet(iter.entries)) && iter.pos <= |iter.entries|
      ensures this.iter == iter && this.sequence == sequence
      ensures Invariant() && Cursor() == Off
    {
      this.iter, this.sequence := iter, sequence;
      savedKey, savedValue := 0.0, "";
      direction, valid := Forward, false;
    }

    /** A cleared saved key holds no particular key. */
    method ClearSavedKey()
      modifies `savedKey
    {
      savedKey := 0.0;
    }

    ghost predicate Base()
      reads this, iter
    {
      SortedEntries(iter.entries) && UniqueSeqs(EntrySet(iter.entries)) && iter.pos <= |iter.entries|
    }

    ghost predicate Invariant()
      reads this, iter
    {
      && Base()
      && (valid ==> if direction == Forward then AtEntry() else BeforeEntries())
    }

    /** Forward, the internal iterator is at the entry that yields key and value. */
    ghost predicate AtEntry()
      reads this, iter
    {
      && iter.Valid()
      && Visible(EntrySet(iter.entries), iter.entries[iter.pos].user, sequence) == Some(iter.entries[iter.pos].value)
    }

    /** In reverse, it stands before the entries of the saved key, with nothing
        visible in between. */
    ghost predicate BeforeEntries()
      reads this, iter
    {
      && Visible(EntrySet(iter.entries), savedKey, sequence) == Some(savedValue)
      && (iter.Valid() ==> iter.entries[iter.pos].user < savedKey)
      && BoundedBelow(iter.entries, sequence, After(), savedKey)
    }

    /** The index after the internal position; an invalid position is before all. */
    ghost function After(): nat
      reads this, iter
    {
      if iter.Valid() then iter.pos + 1 else 0
    }

    ghost function Cursor(): Cursor
      reads this, iter
    {
      if !valid || (direction == Forward && !iter.Valid()) then Off
      else if direction == Forward then At(iter.entries[iter.pos].user, iter.entries[iter.pos].value)
      else At(savedKey, savedValue)
    }

    ghost function Map(): map<UserKey, string>
      reads this, iter
    {
      View(iter.entries, sequence)
    }

    method Key() returns (k: UserKey)
      requires Invariant() && valid
      ensures k == Cursor().key
    {
      k := if direction == Forward then iter.entries[iter.pos].user else savedKey;
    }

    method Value() returns (v: string)
      requires Invariant() && valid
      ensures v == Cursor().value
    {
      v := if direction == Forward then iter.entries[iter.pos].value else savedValue;
    }

    /** Walks forward from the internal position to the first entry to yield. `lo`
        and `strict` say which keys are in question. */
    method FindNextUserEntry(skip: bool, ghost lo: Option<UserKey>, ghost strict: bool)
      requires Base() && iter.Valid() && direction == Forward
      requires skip == strict && (skip ==> lo == Some(savedKey) && BoundedBelow(iter.entries, sequence, iter.pos, savedKey))
      requires !skip && lo.Some? ==> forall i :: iter.pos <= i < |iter.entries| ==> lo.value <= iter.entries[i].user
      requires Faithful(iter.entries, sequence, iter.pos, lo, strict)
      modifies this, iter`pos
      ensures Invariant() && direction == Forward
      ensures IsFirst(Map(), lo, strict, Cursor())
    {
      hide SortedEntries, UniqueSeqs, Visible, Walked, Faithful, BoundedBelow, ReadFrom, IsFirst, View;
      ghost var es, start, bound := iter.entries, iter.pos, savedKey;
      WalkStart(es, sequence, start, skip, bound);
      var skipping := skip;
      while true
        invariant Base() && direction == Forward && iter.Valid() && start <= iter.pos
        invariant Walked(es, sequence, start, iter.pos, skip, bound, skipping, savedKey)
        decreases |es| - iter.pos
      {
        var e := iter.entries[iter.pos];
        ghost var skipped, key := skipping, savedKey;
        if e.sn <= sequence {
          match e.typ
          case Deletion =>
            savedKey, skipping := e.user, true;
          case Value =>
            if skipping && e.user <= savedKey {
            } else {
              Yielded(es, sequence, start, iter.pos, lo, strict, bound, skipping, savedKey);
              valid := true;
              ClearSavedKey();
              return;
            }
        }
        WalkOn(es, sequence, start, iter.pos, skip, bound, skipped, key, skipping, savedKey);
        ghost var p := iter.pos;
        iter.Next();
        if !iter.Valid() {
          Exhausted(es, sequence, start, lo, strict, bound, skipping, savedKey);
          break;
        }
      }
      ClearSavedKey();
      valid := false;
    }

    /** Walks backward from the internal position to the last visible key below `hi`. */
    method FindPrevUserEntry(ghost hi: Option<UserKey>)
      requires Base() && direction == Reverse
      requires WalkedBack(iter.entries, sequence, After(), hi, false, 0.0, "")
      requires iter.Valid() && hi.Some? ==> iter.entries[iter.pos].user < hi.value
      modifies this, iter`pos
      ensures Invariant() && IsLast(Map(), hi, Cursor())
    {
      hide SortedEntries, UniqueSeqs, Visible, WalkedBack, BoundedBelow, ReadFrom, IsLast, View;
      ghost var es := iter.entries;
      var valueType := Deletion;
      NothingPending(es, sequence, After(), hi, savedKey, savedValue);
      if iter.Valid() {
        while true
          invariant Base() && direction == Reverse && iter.Valid()
          invariant hi.Some? ==> es[iter.pos].user < hi.value
          invariant WalkedBack(es, sequence, iter.pos + 1, hi, valueType.Value?, savedKey, savedValue)
          decreases iter.pos
        {
          var e := iter.entries[iter.pos];
          ghost var found, key, value := valueType.Value?, savedKey, savedValue;
          if e.sn <= sequence {
            if !valueType.Deletion? && e.user < savedKey {
              break;
            }
            valueType := e.typ;
            if valueType.Deletion? {
              ClearSavedKey();
              savedValue := "";
            } else {
              savedKey, savedValue := e.user, e.value;
            }
          }
          StepBack(es, sequence, iter.pos, hi, found, key, value, valueType.Value?, savedKey, savedValue);
          if iter.pos > 0 { UsersAscend(es, iter.pos - 1, iter.pos); }
          iter.Prev();
          if !iter.Valid() {
            break;
          }
        }
      }
      BackIsLast(es, sequence, After(), iter.Valid(), hi, valueType.Value?, savedKey, savedValue);
      if valueType.Deletion? {
        valid := false;
        ClearSavedKey();
        savedValue := "";
        direction := Forward;
      } else {
        valid := true;
      }
    }

    method Next()
      requires Invariant() && valid
      modifies this, iter`pos
      ensures Invariant() && Moved(Map(), old(Cursor()), Move.Next, Cursor())
    {
      hide SortedEntries, UniqueSeqs, Visible, BoundedBelow, ReadFrom, IsFirst, View, Faithful;
      ghost var es, k := iter.entries, Cursor().key;
      if direction == Reverse {
        direction := Forward;
        if !iter.Valid() {
          iter.SeekToFirst();
        } else {
          iter.Next();
        }
        BelowAreSmaller(es, sequence, iter.pos, savedKey);
        FaithfulAbove(es, sequence, iter.pos, savedKey);
        if !iter.Valid() {
          WalkStart(es, sequence, |es|, true, savedKey);
          Exhausted(es, sequence, |es|, Some(savedKey), true, savedKey, true, savedKey);
          valid := false;
          ClearSavedKey();
          return;
        }
      } else {
        savedKey := iter.entries[iter.pos].user;
        FromHereOn(es, sequence, iter.pos);
      }
      FindNextUserEntry(true, Some(savedKey), true);
    }

    method Prev()
      requires Invariant() && valid
      modifies this, iter`pos
      ensures Invariant() && Moved(Map(), old(Cursor()), Move.Prev, Cursor())
    {
      hide SortedEntries, UniqueSeqs, Visible, BoundedBelow, ReadFrom, IsLast, View, WalkedBack;
      ghost var es := iter.entries;
      if direction == Forward {
        savedKey := iter.entries[iter.pos].user;
        while true
          invariant Base() && direction == Forward && iter.Valid() && savedKey == old(Cursor()).key
          invariant es[iter.pos].user >= savedKey
          decreases iter.pos
        {
          ghost var p := iter.pos;
          iter.Prev();
          if !iter.Valid() {
            AllAtLeast(es, sequence, savedKey);
            valid := false;
            ClearSavedKey();
            savedValue := "";
            return;
          }
          if iter.entries[iter.pos].user < savedKey {
            break;
          }
        }
        direction := Reverse;
        NoSmallerAfter(es, sequence, iter.pos + 1, savedKey);
      }
      NothingBelow(es, sequence, After(), savedKey);
      FindPrevUserEntry(Some(savedKey));
    }

    method Seek(target: UserKey)
      requires Invariant()
      modifies this, iter`pos
      ensures Invariant() && Moved(Map(), Off, Move.Seek(target), Cursor())
    {
      hide SortedEntries, UniqueSeqs, Visible, ReadFrom, IsFirst, View, Faithful;
      ghost var es := iter.entries;
      direction := Forward;
      savedValue := "";
      ClearSavedKey();
      iter.Seek(LookupKey(target, sequence));
      FaithfulFromSeek(es, sequence, iter.pos, target);
      if iter.Valid() {
        FindNextUserEntry(false, Some(target), false);
      } else {
        WalkStart(es, sequence, |es|, false, savedKey);
        Exhausted(es, sequence, |es|, Some(target), false, savedKey, false, savedKey);
        valid := false;
      }
    }

    method SeekToFirst()
      requires Invariant()
      modifies this, iter`pos
      ensures Invariant() && Moved(Map(), Off, Move.SeekToFirst, Cursor())
    {
      hide SortedEntries, UniqueSeqs, Visible, ReadFrom, IsFirst, View, Faithful;
      ghost var es := iter.entries;
      direction := Forward;
      savedValue := "";
      iter.SeekToFirst();
      FaithfulFromStart(es, sequence);
      if iter.Valid() {
        FindNextUserEntry(false, None, false);
      } else {
        WalkStart(es, sequence, |es|, false, savedKey);
        Exhausted(es, sequence, |es|, None, false, savedKey, false, savedKey);
        valid := false;
      }
    }

    method SeekToLast()
      requires Invariant()
      modifies this, iter`pos
      ensures Invariant() && Moved(Map(), Off, Move.SeekToLast, Cursor())
    {
      hide SortedEntries, UniqueSeqs, Visible, IsLast, View;
      direction := Reverse;
      savedValue := "";
      iter.SeekToLast();
      FindPrevUserEntry(None);
    }

    /** An entry that is too new for the snapshot joins the entries: the cursor stays where it
        is, over the same map. */
    method Gain(e: Entry)
      requires Invariant() && e.sn > sequence
      requires UniqueSeqs(EntrySet(iter.entries) + {e}) && forall o :: o in iter.entries ==> o.Key() != e.Key()
      modifies iter
      ensures Invariant() && Cursor() == old(Cursor()) && Map() == old(Map())
      ensures EntrySet(iter.entries) == old(EntrySet(iter.entries)) + {e}
    {
      hide Visible, View, UniqueSeqs, Less, SortedEntries, BoundedBelow, EntrySet, WithEntry;
      ghost var es, after := iter.entries, After();
      WithEntryIsSorted(es, e);
      WithEntryShifts(es, e, iter.pos);
      if valid && direction == Reverse {
        GainKeepsBound(es, e, sequence, after, savedKey);
        TooNewIsUnseen(es, e, sequence, savedKey);
      }
      if iter.Valid() {
        TooNewIsUnseen(es, e, sequence, es[iter.pos].user);
      }
      TooNewKeepsView(es, e, sequence);
      iter.Gain(e);
    }

    /** One move; there must be a current key to step from. */
    method Perform(move: Move) returns (c: Cursor)
      requires Invariant()
      modifies this, iter`pos
      ensures Invariant() && c == Cursor() && Moved(Map(), old(Cursor()), move, c)
    {
      hide Visible, View, IsFirst, IsLast, SortedEntries, UniqueSeqs, BoundedBelow;
      match move {
        case Seek(t) => Seek(t);
        case SeekToFirst => SeekToFirst();
        case SeekToLast => SeekToLast();
        case Next => if valid { Next(); }
        case Prev => if valid { Prev(); }
      }
      c := Off;
      if valid {
        var k := Key();
        var v := Value();
        c := At(k, v);
      }
    }

    /** Applies any list of moves; stepping is skipped while there is no current
        key. The keys and values seen are those of the map cursor. */
    method Run(moves: seq<Move>) returns (trace: seq<Cursor>)
      requires Invariant()
      modifies this, iter`pos
      ensures Invariant() && |trace| == |moves|
      ensures Trace(Map(), old(Cursor()), moves, trace) && Map() == old(Map())
    {
      hide Visible, View, Moved, Trace, Invariant;
      trace := [];
      EmptyTrace(Map(), Cursor());
      ghost var start := Cursor();
      for i := 0 to |moves|
        invariant Invariant() && |trace| == i
        invariant Trace(Map(), start, moves[..i], trace)
        invariant Cursor() == Prior(start, trace, i)
      {
        var c := Perform(moves[i]);
        TraceGrows(Map(), start, moves, trace, c);
        trace := trace + [c];
      }
      assert moves[..|moves|] == moves;
    }
  }

  lemma WithEntryShifts(es: seq<Entry>, e: Entry, i: nat)
    requires i <= |es|
    ensures var n, r := SeekIndex(es, e.Key()), WithEntry(es, e);
      && |r| == |es| + 1 && (i < |es| ==> r[if n <= i then i + 1 else i] == es[i])
  {
  }

  lemma TooNewIsUnseen(es: seq<Entry>, e: Entry, s: nat, k: UserKey)
    requires e.sn > s && UniqueSeqs(EntrySet(es) + {e})
    ensures Visible(EntrySet(es) + {e}, k, s) == Visible(EntrySet(es), k, s)
  {
    hide Visible, EntrySet;
    SubsetIsUnique(EntrySet(es), EntrySet(es) + {e});
    AddingNewer(EntrySet(es), {e}, k, s);
  }

  lemma TooNewKeepsView(es: seq<Entry>, e: Entry, s: nat)
    requires e.sn > s && UniqueSeqs(EntrySet(es) + {e}) && EntrySet(WithEntry(es, e)) == EntrySet(es) + {e}
    ensures View(WithEntry(es, e), s) == View(es, s)
  {
    hide Visible, UniqueSeqs, WithEntry;
    var r := WithEntry(es, e);
    forall k ensures Visible(EntrySet(r), k, s) == Visible(EntrySet(es), k, s) {
      TooNewIsUnseen(es, e, s, k);
    }
    forall k ensures k in View(r, s) <==> k in View(es, s) {
      if Visible(EntrySet(es), k, s).Some? { VisibleIsHeld(EntrySet(es), k, s); }
    }
  }

  lemma GainKeepsBound(es: seq<Entry>, e: Entry, s: nat, start: nat, bound: UserKey)
    requires e.sn > s && BoundedBelow(es, s, start, bound)
    ensures BoundedBelow(WithEntry(es, e), s, if SeekIndex(es, e.Key()) < start then start + 1 else start, bound)
  {
    var n, r := SeekIndex(es, e.Key()), WithEntry(es, e);
    assert r[n] == e && (forall i :: 0 <= i < n ==> r[i] == es[i]) && forall i :: n < i < |r| ==> r[i] == es[i - 1];
  }

  lemma SubsetIsUnique(S: set<Entry>, T: set<Entry>)
    requires UniqueSeqs(T) && S <= T
    ensures UniqueSeqs(S)
  {
  }

  lemma VisibleIsHeld(S: set<Entry>, k: UserKey, at: nat)
    requires Visible(S, k, at).Some?
    ensures exists e :: e in S && e.user == k
  {
    var e :| IsNewest(S, k, at, e);
  }

  /** Each cursor of the trace is where the map cursor moves from the one before. */
  ghost predicate Trace(m: map<UserKey, string>, start: Cursor, moves: seq<Move>, trace: seq<Cursor>) {
    && |trace| == |moves|
    && forall i :: 0 <= i < |moves| ==> Moved(m, Prior(start, trace, i), moves[i], trace[i])
  }

  ghost function Prior(start: Cursor, trace: seq<Cursor>, i: nat): Cursor
    requires i <= |trace|
  {
    if i == 0 then start else trace[i - 1]
  }

  lemma EmptyTrace(m: map<UserKey, string>, start: Cursor)
    ensures Trace(m, start, [], [])
  {
  }

  lemma TraceGrows(m: map<UserKey, string>, start: Cursor, moves: seq<Move>, trace: seq<Cursor>, c: Cursor)
    requires |trace| < |moves| && Trace(m, start, moves[..|trace|], trace)
    requires Moved(m, Prior(start, trace, |trace|), moves[|trace|], c)
    ensures Trace(m, start, moves[..|trace| + 1], trace + [c])
  {
    hide Moved;
    var n, all := |trace|, trace + [c];
    forall i | 0 <= i < n + 1 ensures Moved(m, Prior(start, all, i), moves[..n + 1][i], all[i]) {
      assert Prior(start, all, i) == Prior(start, trace, i);
      if i < n { assert moves[..n][i] == moves[i] && Moved(m, Prior(start, trace, i), moves[..n][i], trace[i]); }
    }
  }

  lemma {:induction false} TraceIsDetermined(m: map<UserKey, string>, start: Cursor, moves: seq<Move>,
                                             a: seq<Cursor>, b: seq<Cursor>, n: nat)
    requires Trace(m, start, moves, a) && Trace(m, start, moves, b) && n <= |moves|
    ensures a[..n] == b[..n]
  {
    hide Moved;
    if n > 0 {
      TraceIsDetermined(m, start, moves, a, b, n - 1);
      if n > 1 {
        assert a[n - 2] == a[..n - 1][n - 2] && b[n - 2] == b[..n - 1][n - 2];
      }
      assert Prior(start, a, n - 1) == Prior(start, b, n - 1);
      MovesAreDetermined(m, Prior(start, a, n - 1), moves[n - 1], a[n - 1], b[n - 1]);
    }
  }

  lemma NothingPending(es: seq<Entry>, s: nat, lo: nat, hi: Option<UserKey>, key: UserKey, value: string)
    requires lo <= |es| && WalkedBack(es, s, lo, hi, false, 0.0, "")
    ensures WalkedBack(es, s, lo, hi, false, key, value)
  {
  }

  lemma SuffixReads(es: seq<Entry>, s: nat, lo: nat, k: UserKey)
    requires SortedEntries(es) && UniqueSeqs(EntrySet(es)) && lo <= |es|
    requires forall i :: 0 <= i < lo ==> es[i].user != k || es[i].sn > s
    ensures ReadFrom(es, lo, k, s) == Visible(EntrySet(es), k, s)
  {
    ReadFromSkips(es, 0, lo, k, s);
    ReadFromIsVisible(es, k, s);
  }

  lemma BackIsLast(es: seq<Entry>, s: nat, lo: nat, stopped: bool, hi: Option<UserKey>, found: bool, key: UserKey, value: string)
    requires SortedEntries(es) && UniqueSeqs(EntrySet(es)) && lo <= |es|
    requires WalkedBack(es, s, lo, hi, found, key, value)
    requires if stopped then 0 < lo && found && es[lo - 1].user < key else lo == 0
    ensures IsLast(View(es, s), hi, if found then At(key, value) else Off)
    ensures found ==> Visible(EntrySet(es), key, s) == Some(value) && BoundedBelow(es, s, lo, key)
  {
    hide SortedEntries, UniqueSeqs, Visible, ReadFrom, View;
    forall i | 0 <= i < lo ensures es[i].user < key {
      UsersAscend(es, i, lo - 1);
    }
    forall k | !found || key <= k ensures ReadFrom(es, lo, k, s) == Visible(EntrySet(es), k, s) {
      SuffixReads(es, s, lo, k);
    }
    if found { ViewHolds(es, s, key); }
    forall k | k in View(es, s) ensures (hi.Some? && hi.value <= k) || (found && k <= key) {
      ViewHolds(es, s, k);
    }
  }

  lemma BelowAreSmaller(es: seq<Entry>, s: nat, p: nat, key: UserKey)
    requires SortedEntries(es) && p <= |es| && (p > 0 ==> es[p - 1].user < key)
    ensures forall i :: 0 <= i < p ==> es[i].user < key
  {
    forall i | 0 <= i < p ensures es[i].user < key { UsersAscend(es, i, p - 1); }
  }

  lemma FaithfulAbove(es: seq<Entry>, s: nat, p: nat, key: UserKey)
    requires SortedEntries(es) && UniqueSeqs(EntrySet(es)) && p <= |es|
    requires forall i :: 0 <= i < p ==> es[i].user <= key
    ensures Faithful(es, s, p, Some(key), true)
  {
    hide SortedEntries, UniqueSeqs, Visible, ReadFrom;
    forall k | key < k ensures ReadFrom(es, p, k, s) == Visible(EntrySet(es), k, s) {
      SuffixReads(es, s, p, k);
    }
  }

  lemma FromHereOn(es: seq<Entry>, s: nat, p: nat)
    requires SortedEntries(es) && UniqueSeqs(EntrySet(es)) && p < |es|
    ensures Faithful(es, s, p, Some(es[p].user), true) && BoundedBelow(es, s, p, es[p].user)
  {
    forall i | 0 <= i < p ensures es[i].user <= es[p].user { UsersAscend(es, i, p); }
    forall i | p <= i < |es| ensures es[p].user <= es[i].user { UsersAscend(es, p, i); }
    FaithfulAbove(es, s, p, es[p].user);
  }

  lemma AllAtLeast(es: seq<Entry>, s: nat, key: UserKey)
    requires SortedEntries(es) && (es != [] ==> key <= es[0].user)
    ensures IsLast(View(es, s), Some(key), Off)
  {
    forall i | 0 <= i < |es| ensures key <= es[i].user { UsersAscend(es, 0, i); }
    hide SortedEntries, Visible;
    forall k | k in View(es, s) ensures key <= k {
      var e :| e in es && e.user == k;
    }
  }

  lemma NoSmallerAfter(es: seq<Entry>, s: nat, p: nat, key: UserKey)
    requires SortedEntries(es) && p <= |es| && (p < |es| ==> key <= es[p].user)
    ensures BoundedBelow(es, s, p, key)
  {
    forall i | p <= i < |es| ensures key <= es[i].user { UsersAscend(es, p, i); }
  }

  lemma NothingBelow(es: seq<Entry>, s: nat, p: nat, key: UserKey)
    requires p <= |es| && BoundedBelow(es, s, p, key)
    ensures WalkedBack(es, s, p, Some(key), false, 0.0, "")
  {
    forall k | k < key ensures ReadFrom(es, p, k, s) == None {
      ReadFromSkips(es, p, |es|, k, s);
    }
  }

  lemma FaithfulFromSeek(es: seq<Entry>, s: Sequence, p: nat, target: UserKey)
    requires SortedEntries(es) && UniqueSeqs(EntrySet(es)) && p == SeekIndex(es, LookupKey(target, s))
    ensures Faithful(es, s, p, Some(target), false)
    ensures forall i :: p <= i < |es| ==> target <= es[i].user
  {
    forall i | p <= i < |es| ensures target <= es[i].user { UsersAscend(es, p, i); }
    forall i | 0 <= i < p ensures es[i].user < target || (es[i].user == target && es[i].sn > s) {
      assert Less(es[i].Key(), LookupKey(target, s));
    }
    hide SortedEntries, UniqueSeqs, Visible, ReadFrom, Less;
    forall k | target <= k ensures ReadFrom(es, p, k, s) == Visible(EntrySet(es), k, s) {
      SuffixReads(es, s, p, k);
    }
  }

  lemma FaithfulFromStart(es: seq<Entry>, s: nat)
    requires SortedEntries(es) && UniqueSeqs(EntrySet(es))
    ensures Faithful(es, s, 0, None, false)
  {
    hide SortedEntries, UniqueSeqs, Visible, ReadFrom;
    forall k ensures ReadFrom(es, 0, k, s) == Visible(EntrySet(es), k, s) {
      SuffixReads(es, s, 0, k);
    }
  }

  lemma WalkStart(es: seq<Entry>, s: nat, start: nat, bounded: bool, bound: UserKey)
    requires start <= |es|
    ensures Walked(es, s, start, start, bounded, bound, bounded, bound)
  {
  }

  lemma Yielded(es: seq<Entry>, s: nat, start: nat, pos: nat, lo: Option<UserKey>, strict: bool, bound: UserKey,
                skipping: bool, skip: UserKey)
    requires SortedEntries(es) && UniqueSeqs(EntrySet(es)) && start <= pos < |es|
    requires strict ==> lo == Some(bound)
    requires !strict && lo.Some? ==> forall i :: start <= i < |es| ==> lo.value <= es[i].user
    requires Faithful(es, s, start, lo, strict)
    requires Walked(es, s, start, pos, strict, bound, skipping, skip)
    requires es[pos].sn <= s && es[pos].typ.Value? && !(skipping && es[pos].user <= skip)
    ensures Visible(EntrySet(es), es[pos].user, s) == Some(es[pos].value)
    ensures IsFirst(View(es, s), lo, strict, At(es[pos].user, es[pos].value))
  {
    hide SortedEntries, UniqueSeqs, Visible, Walked, ReadFrom, View;
    YieldIsFirst(es, s, start, pos, strict, bound, skipping, skip);
    var u := es[pos].user;
    assert Above(lo, strict, u);
    ViewHolds(es, s, u);
    forall k | k in View(es, s) && Above(lo, strict, k) ensures u <= k {
      ViewHolds(es, s, k);
      assert ReadFrom(es, start, k, s) == Visible(EntrySet(es), k, s);
    }
  }

  lemma Exhausted(es: seq<Entry>, s: nat, start: nat, lo: Option<UserKey>, strict: bool, bound: UserKey,
                  skipping: bool, skip: UserKey)
    requires SortedEntries(es) && start <= |es|
    requires strict ==> lo == Some(bound)
    requires Faithful(es, s, start, lo, strict)
    requires Walked(es, s, start, |es|, strict, bound, skipping, skip)
    ensures IsFirst(View(es, s), lo, strict, Off)
  {
    hide SortedEntries, Visible, Walked, ReadFrom, View;
    forall k | Above(lo, strict, k) ensures k !in View(es, s) {
      ViewHolds(es, s, k);
      AbsentOrDeleted(es, s, start, |es|, strict, bound, skipping, skip, k);
    }
  }
}
