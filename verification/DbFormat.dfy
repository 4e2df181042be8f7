/** Internal keys: a user key, a sequence number and a value type, ordered by
    increasing user key and then by decreasing (sequence, type). */
module DbFormat {

  datatype Option<+T> = None | Some(value: T)

  /** The engine uses a user key only through the user comparator, which is a
      total order. Every countable total order embeds into the reals, so a real
      stands for the position of a key in that order. */
  type UserKey = real

  const MAX_SEQUENCE: nat := 0xff_ffff_ffff_ffff
  type Sequence = s: nat | s <= MAX_SEQUENCE witness 0

  datatype ValueType = Deletion | Value

  datatype InternalKey = InternalKey(user: UserKey, sn: Sequence, typ: ValueType)

  datatype Entry = Entry(user: UserKey, sn: Sequence, typ: ValueType, value: string) {
    function Key(): InternalKey { InternalKey(user, sn, typ) }
  }

  function TypeCode(t: ValueType): nat {
    match t
    case Deletion => 0
    case Value => 1
  }

  /** The 64-bit trailer of an encoded internal key. */
  function PackSequenceAndType(sn: Sequence, t: ValueType): (tag: nat)
    ensures tag < 0x1_0000_0000_0000_0000
  {
    sn * 256 + TypeCode(t)
  }

  /** The three-way comparison of the engine: the packed trailers are compared
      as single numbers, the larger one first. */
  function Compare(a: InternalKey, b: InternalKey): int {
    if a.user < b.user then -1
    else if a.user > b.user then 1
    else
      var anum := PackSequenceAndType(a.sn, a.typ);
      var bnum := PackSequenceAndType(b.sn, b.typ);
      if anum > bnum then -1 else if anum < bnum then 1 else 0
  }

  /** The intended order: user key up, then sequence down, then type down. */
  predicate Less(a: InternalKey, b: InternalKey) {
    || a.user < b.user
    || (a.user == b.user && (a.sn > b.sn || (a.sn == b.sn && a.typ.Value? && b.typ.Deletion?)))
  }

  lemma LessIsAsymmetric(a: InternalKey, b: InternalKey)
    requires Less(a, b)
    ensures !Less(b, a)
  {
  }

  lemma LessIsTotal(a: InternalKey, b: InternalKey)
    ensures a == b || Less(a, b) || Less(b, a)
  {
  }

  lemma LessIsTransitive(a: InternalKey, b: InternalKey, c: InternalKey)
    requires Less(a, b) && Less(b, c)
    ensures Less(a, c)
  {
  }

  predicate AtMost(a: InternalKey, b: InternalKey) { !Less(b, a) }

  /** Comparing packed trailers is the lexicographic order, and only equal keys
      compare equal: the type byte never leaks into the sequence. */
  lemma CompareIsLexicographic(a: InternalKey, b: InternalKey)
    ensures Compare(a, b) < 0 <==> Less(a, b)
    ensures Compare(a, b) > 0 <==> Less(b, a)
    ensures Compare(a, b) == 0 <==> a == b
  {
    if a.user == b.user && a.sn != b.sn {
      if a.sn < b.sn {
        assert a.sn * 256 + 256 <= b.sn * 256;
      } else {
        assert b.sn * 256 + 256 <= a.sn * 256;
      }
    }
  }

  /** The key used to look up `user` at snapshot `s`. */
  function LookupKey(user: UserKey, s: Sequence): InternalKey {
    InternalKey(user, s, Value)
  }

  // --------------------------------------------------------------- writes

  /** One operation of a write batch; a deletion has an empty value. */
  datatype Op = Op(user: UserKey, typ: ValueType, value: string)

  /** The entries a batch inserts: the i-th operation gets sequence `first + i`. */
  ghost function BatchEntries(ops: seq<Op>, first: nat): set<Entry>
    requires first + |ops| <= MAX_SEQUENCE + 1
  {
    set i | 0 <= i < |ops| :: Entry(ops[i].user, first + i, ops[i].typ, ops[i].value)
  }

  // ---------------------------------------------------------------- reads

  /** `e` is the newest entry of `k` in `S` that snapshot `s` may see. */
  ghost predicate IsNewest(S: set<Entry>, k: UserKey, s: nat, e: Entry) {
    && e in S && e.user == k && e.sn <= s
    && forall o :: o in S && o.user == k && o.sn <= s ==> o.sn <= e.sn
  }

  /** No two entries of one user key carry the same sequence number. */
  ghost predicate UniqueSeqs(S: set<Entry>) {
    forall a, b :: a in S && b in S && a.user == b.user && a.sn == b.sn ==> a == b
  }

  /** What a reader at snapshot `s` gets for `k`: the value of the newest entry
      not newer than `s`, or nothing if that is a tombstone or does not exist. */
  ghost function Visible(S: set<Entry>, k: UserKey, s: nat): Option<string> {
    if e :| IsNewest(S, k, s, e) && e.typ.Value? then Some(e.value) else None
  }

  lemma VisibleIs(S: set<Entry>, k: UserKey, s: nat, e: Entry)
    requires UniqueSeqs(S) && IsNewest(S, k, s, e)
    ensures Visible(S, k, s) == if e.typ.Value? then Some(e.value) else None
  {
    forall o | IsNewest(S, k, s, o) ensures o == e {
      assert o.sn == e.sn;
    }
  }

  lemma {:induction false} NewestExists(S: set<Entry>, k: UserKey, s: nat) returns (e: Entry)
    requires exists o :: o in S && o.user == k && o.sn <= s
    ensures IsNewest(S, k, s, e)
    decreases |S|
  {
    var o :| o in S && o.user == k && o.sn <= s;
    var rest := set x | x in S && x.user == k && x.sn <= s && x.sn > o.sn;
    if rest == {} {
      e := o;
      forall x | x in S && x.user == k && x.sn <= s ensures x.sn <= e.sn {
        assert x.sn > o.sn ==> x in rest;
      }
    } else {
      var w :| w in rest;
      assert rest < S by { assert o !in rest; }
      SubsetSize(rest, S);
      e := NewestExists(rest, k, s);
      forall x | x in S && x.user == k && x.sn <= s ensures x.sn <= e.sn {
        assert x.sn > o.sn ==> x in rest;
      }
    }
  }

  lemma SubsetSize<T>(a: set<T>, b: set<T>)
    requires a < b
    ensures |a| < |b|
  {
    assert b == a + (b - a);
    assert |b| == |a| + |b - a|;
    var x :| x in b && x !in a;
    assert x in b - a;
  }

  /** What is too new for a reader makes no difference to it. */
  lemma AddingNewer(S: set<Entry>, added: set<Entry>, k: UserKey, at: nat)
    requires UniqueSeqs(S) && UniqueSeqs(S + added)
    requires forall e :: e in added ==> e.sn > at
    ensures Visible(S + added, k, at) == Visible(S, k, at)
  {
    if exists o :: o in S && o.user == k && o.sn <= at {
      var e := NewestExists(S, k, at);
      assert IsNewest(S + added, k, at, e);
      VisibleIs(S, k, at, e);
      VisibleIs(S + added, k, at, e);
    }
  }
}
