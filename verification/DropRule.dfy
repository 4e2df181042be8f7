/** Which entries a compaction may drop without any live snapshot noticing. */
module DropRule {
  import opened DbFormat

  /** A newer input entry of the same user key already serves the oldest snapshot. */
  ghost predicate Hidden(input: set<Entry>, snapshot: nat, e: Entry) {
    exists n :: n in input && n.user == e.user && n.sn > e.sn && n.sn <= snapshot
  }

  /** A tombstone every live snapshot sees, of a key absent from all deeper levels. */
  predicate Obsolete(snapshot: nat, base: UserKey -> bool, e: Entry) {
    e.typ.Deletion? && e.sn <= snapshot && base(e.user)
  }

  ghost predicate Dropped(input: set<Entry>, snapshot: nat, base: UserKey -> bool, e: Entry) {
    Hidden(input, snapshot, e) || Obsolete(snapshot, base, e)
  }

  ghost function Kept(input: set<Entry>, snapshot: nat, base: UserKey -> bool): set<Entry> {
    set e | e in input && !Dropped(input, snapshot, base, e)
  }

  /** The one way dropping can change a read: a dropped tombstone was the newest
      thing under the oldest snapshot, and directly below it, outside the inputs,
      sits an older value. */
  ghost predicate Resurrects(input: set<Entry>, rest: set<Entry>, snapshot: nat, base: UserKey -> bool,
                             t: Entry, v: Entry) {
    && t in input && Obsolete(snapshot, base, t) && !Hidden(input, snapshot, t)
    && v.typ.Value? && v.sn < t.sn
    && IsNewest(rest, t.user, snapshot, v)
  }

  ghost predicate SafeToDrop(input: set<Entry>, rest: set<Entry>, snapshot: nat, base: UserKey -> bool) {
    forall t, v :: !Resurrects(input, rest, snapshot, base, t, v)
  }

  /** Dropping keeps every read of every snapshot not older than `snapshot`. */
  lemma DroppingKeepsRead(input: set<Entry>, rest: set<Entry>, snapshot: nat, base: UserKey -> bool,
                          k: UserKey, s: nat)
    requires UniqueSeqs(input + rest) && SafeToDrop(input, rest, snapshot, base) && s >= snapshot
    ensures Visible(input + rest, k, s) == Visible(Kept(input, snapshot, base) + rest, k, s)
  {
    var before, kept := input + rest, Kept(input, snapshot, base);
    var after := kept + rest;
    assert UniqueSeqs(after);
    if exists o :: o in before && o.user == k && o.sn <= s {
      var e := NewestExists(before, k, s);
      VisibleIs(before, k, s, e);
      if e in after {
        VisibleIs(after, k, s, e);
      } else {
        assert Dropped(input, snapshot, base, e);
        DroppedNewestIsTombstone(input, rest, snapshot, base, k, s, e);
      }
    }
  }

  /** If the newest visible entry is dropped, it is a tombstone, and what remains
      below it reads as absent too. */
  lemma DroppedNewestIsTombstone(input: set<Entry>, rest: set<Entry>, snapshot: nat, base: UserKey -> bool,
                                 k: UserKey, s: nat, e: Entry)
    requires UniqueSeqs(input + rest) && SafeToDrop(input, rest, snapshot, base) && s >= snapshot
    requires IsNewest(input + rest, k, s, e) && e in input && e !in rest
    requires Dropped(input, snapshot, base, e)
    ensures Obsolete(snapshot, base, e)
    ensures Visible(Kept(input, snapshot, base) + rest, k, s) == None
  {
    var after := Kept(input, snapshot, base) + rest;
    assert !Hidden(input, snapshot, e);
    forall v | IsNewest(after, k, s, v) ensures v.typ.Deletion? {
      assert v in input + rest && v != e && v.sn < e.sn by {
        assert e !in Kept(input, snapshot, base);
      }
      if v in Kept(input, snapshot, base) {
        assert Hidden(input, snapshot, v);
      } else {
        assert IsNewest(rest, k, snapshot, v) by {
          forall o | o in rest && o.user == k && o.sn <= snapshot ensures o.sn <= v.sn {
            assert o in after;
          }
        }
        assert !Resurrects(input, rest, snapshot, base, e, v);
      }
    }
  }

  /** Conversely a resurrected value is seen by the oldest snapshot. */
  lemma ResurrectionShows(input: set<Entry>, rest: set<Entry>, snapshot: nat, base: UserKey -> bool,
                          t: Entry, v: Entry)
    requires UniqueSeqs(input + rest) && Resurrects(input, rest, snapshot, base, t, v)
    ensures Visible(input + rest, t.user, snapshot) != Visible(Kept(input, snapshot, base) + rest, t.user, snapshot)
  {
    var before, after := input + rest, Kept(input, snapshot, base) + rest;
    forall o | o in input && o.user == t.user && o.sn <= snapshot ensures o.sn <= t.sn {}
    assert IsNewest(before, t.user, snapshot, t);
    VisibleIs(before, t.user, snapshot, t);
    forall o | o in after && o.user == t.user && o.sn <= snapshot ensures o.sn <= v.sn {
      assert o in input && o.sn < t.sn ==> Hidden(input, snapshot, o);
    }
    assert IsNewest(after, t.user, snapshot, v);
    assert UniqueSeqs(after);
    VisibleIs(after, t.user, snapshot, v);
  }

  /** Reads at all snapshots from `snapshot` on are kept exactly when no dropped
      tombstone resurrects a value. */
  lemma ReadsKeptIffSafe(input: set<Entry>, rest: set<Entry>, snapshot: nat, base: UserKey -> bool)
    requires UniqueSeqs(input + rest)
    ensures SafeToDrop(input, rest, snapshot, base) <==>
            (forall k, s :: s >= snapshot ==>
               Visible(input + rest, k, s) == Visible(Kept(input, snapshot, base) + rest, k, s))
  {
    if SafeToDrop(input, rest, snapshot, base) {
      forall k, s | s >= snapshot
        ensures Visible(input + rest, k, s) == Visible(Kept(input, snapshot, base) + rest, k, s)
      {
        DroppingKeepsRead(input, rest, snapshot, base, k, s);
      }
    } else {
      var t, v :| Resurrects(input, rest, snapshot, base, t, v);
      ResurrectionShows(input, rest, snapshot, base, t, v);
    }
  }
}
