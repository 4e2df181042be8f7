/** The skip list: linked nodes of random height, kept in key order. */
module SkipLists {
  import opened DbFormat

  /** The comparator is that of internal keys. */
  type Key = InternalKey

  const MAX_HEIGHT := 12

  class Node {
    const key: Key
    const height: nat
    var next: seq<Node?>

    constructor (key: Key, height: nat)
      ensures this.key == key && this.height == height
      ensures next == seq(height, _ => null)
    {
      this.key, this.height := key, height;
      next := seq(height, _ => null);
    }
  }

  /** `x` is the first node after index `i` that is higher than `l`, or null. */
  ghost predicate IsSucc(all: seq<Node>, i: nat, l: nat, x: Node?) {
    if x == null then forall j :: i < j < |all| ==> all[j].height <= l
    else exists j :: i < j < |all| && all[j] == x && x.height > l && forall m :: i < m < j ==> all[m].height <= l
  }

  ghost predicate Ascending(nodes: seq<Node>) {
    forall i, j :: 0 <= i < j < |nodes| ==> Less(nodes[i].key, nodes[j].key)
  }

  /** Every node of level `l` links to the next node of that level. */
  ghost predicate LinksAt(all: seq<Node>, l: nat)
    reads all
  {
    forall i :: 0 <= i < |all| && all[i].height > l ==>
      |all[i].next| == all[i].height && IsSucc(all, i, l, all[i].next[l])
  }

  /** `all` with `x` put in after index `p`. */
  ghost function Inserted(all: seq<Node>, p: nat, x: Node): seq<Node>
    requires p < |all|
  {
    all[..p + 1] + [x] + all[p + 1..]
  }

  lemma InsertedAt(all: seq<Node>, p: nat, x: Node)
    requires p < |all|
    ensures |Inserted(all, p, x)| == |all| + 1 && Inserted(all, p, x)[p + 1] == x
    ensures forall i :: 0 <= i <= p ==> Inserted(all, p, x)[i] == all[i]
    ensures forall i :: p < i < |all| ==> Inserted(all, p, x)[i + 1] == all[i]
  {
  }

  /** `q` is the last index up to `p` whose node is higher than `l`. */
  ghost predicate IsPred(all: seq<Node>, p: nat, l: nat, q: nat)
    requires p < |all|
  {
    q <= p && all[q].height > l && forall m :: q < m <= p ==> all[m].height <= l
  }

  /** Links that start elsewhere are not affected by an insertion ... */
  lemma SuccElsewhere(all: seq<Node>, p: nat, x: Node, l: nat, q: nat, i: nat, y: Node?)
    requires p < |all| && IsPred(all, p, l, q) && i < |all| && i != q && all[i].height > l
    requires IsSucc(all, i, l, y)
    ensures IsSucc(Inserted(all, p, x), if i <= p then i else i + 1, l, y)
  {
    var more := Inserted(all, p, x);
    InsertedAt(all, p, x);
    if y != null {
      var j :| i < j < |all| && all[j] == y && forall m :: i < m < j ==> all[m].height <= l;
      if i <= p {
        assert i < q && j <= q;
        assert more[j] == y;
      } else {
        assert more[j + 1] == y;
        forall m | i + 1 < m < j + 1 ensures more[m].height <= l { assert more[m] == all[m - 1]; }
      }
    } else {
      assert i <= p ==> i < q;
      forall m | i + 1 < m < |more| ensures more[m].height <= l { assert more[m] == all[m - 1]; }
    }
  }

  /** ... and at the predecessor the new node takes over its old link. */
  lemma SuccSplit(all: seq<Node>, p: nat, x: Node, l: nat, q: nat, y: Node?)
    requires p < |all| && IsPred(all, p, l, q) && IsSucc(all, q, l, y) && x.height > l
    ensures IsSucc(Inserted(all, p, x), q, l, x)
    ensures IsSucc(Inserted(all, p, x), p + 1, l, y)
  {
    var more := Inserted(all, p, x);
    InsertedAt(all, p, x);
    assert more[p + 1] == x;
    if y != null {
      var j :| q < j < |all| && all[j] == y && forall m :: q < m < j ==> all[m].height <= l;
      assert j > p;
      assert more[j + 1] == y;
      forall m | p + 1 < m < j + 1 ensures more[m].height <= l { assert more[m] == all[m - 1]; }
    } else {
      forall m | p + 1 < m < |more| ensures more[m].height <= l { assert more[m] == all[m - 1]; }
    }
  }

  /** `q` is the last index of level `l` whose node is before `key`. */
  ghost predicate LastBefore(all: seq<Node>, l: nat, key: Key, q: nat) {
    && q < |all| && all[q].height > l && (q == 0 || Less(all[q].key, key))
    && forall m :: q < m < |all| && all[m].height > l ==> AtMost(key, all[m].key)
  }

  ghost predicate IsLastBefore(all: seq<Node>, l: nat, key: Key, y: Node) {
    exists q: nat :: LastBefore(all, l, key, q) && y == all[q]
  }

  ghost predicate PrevsFrom(all: seq<Node>, key: Key, prev: seq<Node>, level: nat) {
    forall l :: level <= l < |prev| ==> IsLastBefore(all, l, key, prev[l])
  }

  lemma PrevsGrow(all: seq<Node>, key: Key, prev: seq<Node>, level: nat, i: nat)
    requires level < |prev| && PrevsFrom(all, key, prev, level + 1) && LastBefore(all, level, key, i)
    ensures PrevsFrom(all, key, prev[level := all[i]], level)
  {
    assert IsLastBefore(all, level, key, all[i]);
    hide LastBefore, IsLastBefore;
    var more := prev[level := all[i]];
    forall l | level <= l < |more| ensures IsLastBefore(all, l, key, more[l]) {
      assert l > level ==> more[l] == prev[l];
    }
  }

  /** `y` is the last node of level `l` up to index `n`. */
  ghost predicate IsPrev(all: seq<Node>, n: nat, l: nat, y: Node)
    requires n < |all|
  {
    exists q: nat :: IsPred(all, n, l, q) && y == all[q]
  }

  ghost predicate Preds(all: seq<Node>, n: nat, prev: seq<Node>)
    requires n < |all|
  {
    forall l :: 0 <= l < |prev| ==> IsPrev(all, n, l, prev[l])
  }

  /** A link from a node of the list leads to a node of the list. */
  lemma SuccIsNode(all: seq<Node>, i: nat, l: nat, x: Node?) returns (j: nat)
    requires IsSucc(all, i, l, x)
    ensures if x == null then j == |all| else i < j < |all| && all[j] == x && x.height > l
    ensures forall m :: i < m < j ==> all[m].height <= l
  {
    if x == null {
      j := |all|;
    } else {
      j :| i < j < |all| && all[j] == x && forall m :: i < m < j ==> all[m].height <= l;
    }
  }

  /** `r` is the least key not below `key`. */
  ghost predicate IsCeiling(keys: set<Key>, key: Key, r: Key) {
    r in keys && AtMost(key, r) && forall k :: k in keys && AtMost(key, k) ==> AtMost(r, k)
  }

  /** `r` is the greatest key below `key`. */
  ghost predicate IsBelow(keys: set<Key>, key: Key, r: Key) {
    r in keys && Less(r, key) && forall k :: k in keys && Less(k, key) ==> AtMost(k, r)
  }

  /** The nodes of `s` that reach level `l`. */
  ghost function Level(s: seq<Node>, l: nat): seq<Node> {
    if s == [] then [] else (if s[0].height > l then [s[0]] else []) + Level(s[1..], l)
  }

  /** Each level is a sublist of the one below. */
  lemma {:induction false} LevelThins(s: seq<Node>, l: nat, higher: nat)
    requires l <= higher
    ensures Level(Level(s, l), higher) == Level(s, higher)
  {
    if s != [] {
      LevelThins(s[1..], l, higher);
      var rest := Level(s[1..], l);
      if s[0].height > l {
        assert Level(s, l) == [s[0]] + rest && ([s[0]] + rest)[1..] == rest;
      } else {
        assert Level(s, l) == rest;
      }
    }
  }

  /** A level holds just the nodes that reach it. */
  lemma {:induction false} LevelMembers(s: seq<Node>, l: nat)
    ensures forall i :: 0 <= i < |Level(s, l)| ==> Level(s, l)[i] in s && Level(s, l)[i].height > l
    ensures forall i :: 0 <= i < |s| && s[i].height > l ==> s[i] in Level(s, l)
  {
    if s != [] {
      LevelMembers(s[1..], l);
      var rest := Level(s[1..], l);
      assert Level(s, l) == (if s[0].height > l then [s[0]] else []) + rest;
      hide Level;
      assert s == [s[0]] + s[1..];
    }
  }

  lemma {:induction false} LevelAscends(s: seq<Node>, l: nat)
    requires Ascending(s)
    ensures Ascending(Level(s, l))
  {
    if s != [] {
      LevelAscends(s[1..], l);
      LevelMembers(s[1..], l);
      AscendingCons(s, l, Level(s[1..], l));
      hide Ascending;
    }
  }

  lemma AscendingCons(s: seq<Node>, l: nat, rest: seq<Node>)
    requires s != [] && Ascending(s) && Ascending(rest)
    requires forall i :: 0 <= i < |rest| ==> rest[i] in s[1..]
    ensures Ascending((if s[0].height > l then [s[0]] else []) + rest)
  {
    forall i | 0 <= i < |rest| ensures Less(s[0].key, rest[i].key) {
      var j :| 0 <= j < |s[1..]| && s[1..][j] == rest[i];
      assert s[j + 1] == rest[i];
    }
  }

  lemma {:induction false} LevelFrom(all: seq<Node>, i: nat, j: nat, l: nat)
    requires i <= j <= |all| && forall m :: i <= m < j ==> all[m].height <= l
    ensures Level(all[i..], l) == Level(all[j..], l)
    decreases j - i
  {
    if i < j {
      assert all[i..][1..] == all[i + 1..];
      LevelFrom(all, i + 1, j, l);
    }
  }

  lemma {:induction false} LevelLinkedFrom(all: seq<Node>, i: nat, l: nat, k: nat)
    requires i <= |all| && LinksAt(all, l) && k < |Level(all[i..], l)|
    ensures l < |Level(all[i..], l)[k].next|
    ensures Level(all[i..], l)[k].next[l] ==
            if k + 1 < |Level(all[i..], l)| then Level(all[i..], l)[k + 1] else null
    decreases |all| - i
  {
    hide IsSucc;
    var level := Level(all[i..], l);
    assert i < |all|;
    assert all[i..][1..] == all[i + 1..] && all[i..][0] == all[i];
    if all[i].height <= l {
      LevelLinkedFrom(all, i + 1, l, k);
    } else if k > 0 {
      LevelLinkedFrom(all, i + 1, l, k - 1);
    } else {
      var j := SuccIsNode(all, i, l, all[i].next[l]);
      LevelFrom(all, i + 1, j, l);
      assert j < |all| ==> all[j..][0] == all[j];
    }
  }

  class SkipList {
    const head: Node
    var maxHeight: nat
    ghost var nodes: seq<Node>

    constructor ()
      ensures Valid() && nodes == [] && fresh(head) && Keys() == {}
    {
      head := new Node(InternalKey(0.0, 0, Deletion), MAX_HEIGHT);
      maxHeight := 1;
      nodes := [];
    }

    ghost function All(): seq<Node>
      reads this
    {
      [head] + nodes
    }

    ghost predicate Shape()
      reads this
    {
      && head.height == MAX_HEIGHT && head !in nodes && Ascending(nodes)
      && 1 <= maxHeight <= MAX_HEIGHT
      && forall i :: 0 <= i < |nodes| ==> 1 <= nodes[i].height <= maxHeight
    }

    ghost predicate Valid()
      reads this, head, nodes
    {
      && Shape()
      && forall l :: 0 <= l < MAX_HEIGHT ==> LinksAt(All(), l)
    }

    ghost function Keys(): set<Key>
      reads this
    {
      set n | n in nodes :: n.key
    }

    /** The node at index `i` of `All` comes before `key`: the head does. */
    ghost predicate Before(i: nat, key: Key)
      reads this
      requires i <= |nodes|
    {
      i == 0 || Less(nodes[i - 1].key, key)
    }

    /** `n` counts the nodes with a key below `key`. */
    ghost predicate Splits(n: nat, key: Key)
      reads this
    {
      && n <= |nodes|
      && (forall i :: 0 <= i < n ==> Less(nodes[i].key, key))
      && (forall i :: n <= i < |nodes| ==> AtMost(key, nodes[i].key))
    }

    lemma BeforeIsSplit(i: nat, key: Key)
      requires Shape() && i <= |nodes| && Before(i, key)
      requires i < |nodes| ==> AtMost(key, nodes[i].key)
      ensures Splits(i, key)
    {
    }

    /** From the first node of a level that is not before `key`, all are not. */
    static lemma TailIsLarger(all: seq<Node>, i: nat, j: nat, l: nat, key: Key)
      requires i < |all| && all[i].height > l && (i == 0 || Less(all[i].key, key))
      requires all != [] && Ascending(all[1..]) && i < j <= |all|
      requires forall m :: i < m < j ==> all[m].height <= l
      requires j < |all| ==> AtMost(key, all[j].key)
      ensures LastBefore(all, l, key, i)
    {
      forall m | i < m < |all| && all[m].height > l ensures AtMost(key, all[m].key) {
        assert j <= m;
        if j < m { assert all[1..][j - 1] == all[j] && all[1..][m - 1] == all[m]; }
      }
    }

    /** The link of a node at a level it reaches. */
    lemma LinkAt(i: nat, l: nat)
      requires Valid() && i < |All()| && All()[i].height > l && l < MAX_HEIGHT
      ensures |All()[i].next| == All()[i].height && IsSucc(All(), i, l, All()[i].next[l])
    {
      assert LinksAt(All(), l);
    }

    lemma ShapeBounds()
      requires Valid()
      ensures 1 <= maxHeight <= MAX_HEIGHT && head.height == MAX_HEIGHT && Shape()
      ensures Ascending(All()[1..])
    {
      assert All()[1..] == nodes;
    }

    /** On the lowest level the next node is the neighbour. */
    lemma BottomLink(i: nat, j: nat)
      requires Shape() && i < j <= |All()| && forall m :: i < m < j ==> All()[m].height <= 0
      ensures j == i + 1
    {
      var m := i + 1;
      assert m < |All()| ==> All()[m] == nodes[m - 1] && All()[m].height >= 1;
    }

    static lemma NoPrevs(all: seq<Node>, key: Key, prev: seq<Node>)
      ensures PrevsFrom(all, key, prev, |prev|)
    {
    }

    lemma PrevsArePreds(n: nat, key: Key, prev: seq<Node>)
      requires Splits(n, key) && PrevsFrom(All(), key, prev, 0)
      ensures Preds(All(), n, prev)
    {
      forall l | 0 <= l < |prev| ensures IsPrev(All(), n, l, prev[l]) {
        assert IsLastBefore(All(), l, key, prev[l]);
        var q: nat :| LastBefore(All(), l, key, q) && prev[l] == All()[q];
        LastBeforeIsPred(n, key, l, q);
      }
    }

    lemma LastBeforeIsPred(n: nat, key: Key, l: nat, q: nat)
      requires Splits(n, key) && LastBefore(All(), l, key, q)
      ensures IsPred(All(), n, l, q)
    {
      var all := All();
      assert forall k :: 0 < k < |all| ==> all[k] == nodes[k - 1];
      forall m | q < m <= n ensures all[m].height <= l {
        assert all[m] == nodes[m - 1];
      }
    }

    /** The earliest node at or after `key`, and for each level in use the last node
        of that level before `key`. */
    method FindGreaterOrEqual(key: Key) returns (r: Node?, prev: seq<Node>, ghost n: nat)
      requires Valid()
      ensures Splits(n, key) && r == if n < |nodes| then nodes[n] else null
      ensures |prev| == maxHeight
      ensures Preds(All(), n, prev)
    {
      hide IsPred, Preds, PrevsFrom, LastBefore, IsSucc, Valid, Shape, Splits, Ascending;
      ghost var all := All();
      ShapeBounds();
      NoPrevs(all, key, seq(maxHeight, _ => head));
      var x: Node := head;
      ghost var i: nat := 0;
      var level: nat := maxHeight - 1;
      prev := seq(maxHeight, _ => head);
      while true
        invariant 0 <= level < maxHeight && i <= |nodes| && x == all[i] && x.height > level
        invariant Before(i, key)
        invariant |prev| == maxHeight
        invariant PrevsFrom(all, key, prev, level + 1)
        decreases level, |nodes| - i
      {
        LinkAt(i, level);
        var next := x.next[level];
        ghost var j := SuccIsNode(all, i, level, next);
        if next != null && Less(next.key, key) {
          x, i := next, j;
        } else {
          TailIsLarger(all, i, j, level, key);
          PrevsGrow(all, key, prev, level, i);
          prev := prev[level := x];
          if level == 0 {
            r, n := next, i;
            BottomLink(i, j);
            BeforeIsSplit(i, key);
            PrevsArePreds(n, key, prev);
            return;
          }
          level := level - 1;
        }
      }
    }

    /** The latest node before `key`; the head when there is none. */
    method FindLessThan(key: Key) returns (x: Node, ghost n: nat)
      requires Valid()
      ensures Splits(n, key) && x == All()[n]
    {
      hide LastBefore, IsSucc, Valid, Shape, Splits;
      ghost var all := All();
      ShapeBounds();
      x, n := head, 0;
      var level: nat := maxHeight - 1;
      while true
        invariant 0 <= level < maxHeight && n <= |nodes| && x == all[n] && x.height > level
        invariant Before(n, key)
        decreases level, |nodes| - n
      {
        LinkAt(n, level);
        var next := x.next[level];
        ghost var j := SuccIsNode(all, n, level, next);
        if next == null || AtMost(key, next.key) {
          if level == 0 {
            BottomLink(n, j);
            BeforeIsSplit(n, key);
            return;
          }
          level := level - 1;
        } else {
          x, n := next, j;
        }
      }
    }

    /** The last node; the head when the list is empty. */
    method FindLast() returns (x: Node)
      requires Valid()
      ensures x == All()[|nodes|]
    {
      hide IsSucc, Valid, Shape;
      ghost var all := All();
      ShapeBounds();
      x := head;
      ghost var i: nat := 0;
      var level: nat := maxHeight - 1;
      while true
        invariant 0 <= level < maxHeight && i <= |nodes| && x == all[i] && x.height > level
        decreases level, |nodes| - i
      {
        LinkAt(i, level);
        var next := x.next[level];
        ghost var j := SuccIsNode(all, i, level, next);
        if next == null {
          if level == 0 {
            BottomLink(i, j);
            return;
          }
          level := level - 1;
        } else {
          x, i := next, j;
        }
      }
    }

    method Contains(key: Key) returns (b: bool)
      requires Valid()
      ensures b <==> key in Keys()
    {
      var x, prev, n := FindGreaterOrEqual(key);
      SplitIsCeiling(n, key);
      b := x != null && key == x.key;
    }

    /** The two sides of a split, as bounds on the set of keys. */
    lemma SplitIsCeiling(n: nat, key: Key)
      requires Shape() && Splits(n, key)
      ensures if n < |nodes| then IsCeiling(Keys(), key, nodes[n].key) else forall k :: k in Keys() ==> Less(k, key)
      ensures if n > 0 then IsBelow(Keys(), key, nodes[n - 1].key) else forall k :: k in Keys() ==> AtMost(key, k)
    {
      if n < |nodes| { assert nodes[n].key in Keys(); }
      if n > 0 { assert nodes[n - 1].key in Keys(); }
    }

    /** The nodes a level holds are chained by its links, in key order, from the head on. */
    lemma LevelIsLinked(l: nat, k: nat)
      requires Valid() && l < MAX_HEIGHT && k < |Level(All(), l)|
      ensures l < |Level(All(), l)[k].next|
      ensures Level(All(), l)[k].next[l] == if k + 1 < |Level(All(), l)| then Level(All(), l)[k + 1] else null
    {
      assert All()[0..] == All();
      assert LinksAt(All(), l);
      LevelLinkedFrom(All(), 0, l, k);
    }

    lemma FirstIsLinked()
      requires Valid()
      ensures |head.next| > 0 && head.next[0] == if nodes == [] then null else nodes[0]
      ensures nodes == [] <==> Keys() == {}
      ensures nodes != [] ==> nodes[0].key in Keys() && forall k :: k in Keys() ==> AtMost(nodes[0].key, k)
    {
      LinkAt(0, 0);
      var j := SuccIsNode(All(), 0, 0, head.next[0]);
      BottomLink(0, j);
      if nodes != [] { assert nodes[0].key in Keys(); }
    }

    lemma LastIsMax()
      requires Shape()
      ensures nodes == [] <==> Keys() == {}
      ensures nodes != [] ==> nodes[|nodes| - 1].key in Keys() && nodes[|nodes| - 1] != head
      ensures nodes != [] ==> forall k :: k in Keys() ==> AtMost(k, nodes[|nodes| - 1].key)
    {
      if nodes != [] { assert nodes[|nodes| - 1].key in Keys(); }
    }

    lemma NextIsAbove(x: Node)
      requires Valid() && x in nodes
      ensures |x.next| > 0 && (x.next[0] == null || x.next[0] in nodes)
      ensures if x.next[0] == null then forall k :: k in Keys() ==> AtMost(k, x.key)
              else IsBelow(Keys(), x.next[0].key, x.key)
    {
      var i :| 0 <= i < |nodes| && nodes[i] == x;
      LinkAt(i + 1, 0);
      var j := SuccIsNode(All(), i + 1, 0, x.next[0]);
      BottomLink(i + 1, j);
      assert x.key in Keys();
    }

    lemma Separate()
      requires Shape()
      ensures forall i, j :: 0 <= i < j < |All()| ==> All()[i] != All()[j]
    {
      var all := All();
      forall i, j | 0 <= i < j < |all| ensures all[i] != all[j] {
        assert all[j] == nodes[j - 1];
        if i > 0 { assert all[i] == nodes[i - 1]; }
      }
    }

    /** Above the height in use only the head has links, and they are unset. */
    lemma PrevAbove(n: nat, l: nat)
      requires Shape() && n <= |nodes| && maxHeight <= l < MAX_HEIGHT
      ensures IsPrev(All(), n, l, head)
    {
      var all := All();
      forall m | 0 < m <= n ensures all[m].height <= l { assert all[m] == nodes[m - 1]; }
      assert IsPred(all, n, l, 0) && all[0] == head;
    }

    /** Inserts a key that is not present. The random height is a parameter. */
    method Insert(key: Key, height: nat)
      requires Valid() && key !in Keys() && 1 <= height <= MAX_HEIGHT
      modifies this, head, nodes
      ensures Valid() && Keys() == old(Keys()) + {key}
      ensures maxHeight == if height > old(maxHeight) then height else old(maxHeight)
      ensures forall n :: n in old(nodes) ==> n in nodes
      ensures forall n :: n in nodes && n !in old(nodes) ==> fresh(n) && n.key == key && n.height == height
    {
      hide IsSucc, LinksAt, Preds, IsPrev, Ascending, Inserted;
      var r, prev, n := FindGreaterOrEqual(key);
      Separate();
      StrictSplit(n, key);
      if height > maxHeight {
        prev := ExtendPrev(n, prev, height);
        maxHeight := height;
      }
      ghost var all, before := All(), nodes;
      var x := new Node(key, height);
      assert forall l :: 0 <= l < MAX_HEIGHT ==> LinksAt(all, l);
      LinkAll(all, n, x, prev);
      nodes := nodes[..n] + [x] + nodes[n..];
      assert All() == Inserted(all, n, x) by { AllGrows(before, n, x); }
      ShapeAfter(before, n, x);
    }

    lemma AllGrows(before: seq<Node>, n: nat, x: Node)
      requires n <= |before| && nodes == before[..n] + [x] + before[n..]
      ensures All() == Inserted([head] + before, n, x)
    {
    }

    /** Levels not in use so far are entered from the head. */
    method ExtendPrev(ghost n: nat, prev: seq<Node>, height: nat) returns (more: seq<Node>)
      requires Shape() && n <= |nodes| && |prev| == maxHeight && Preds(All(), n, prev)
      requires maxHeight < height <= MAX_HEIGHT
      ensures |more| == height && Preds(All(), n, more)
    {
      more := prev;
      var i := maxHeight;
      while i < height
        invariant maxHeight <= i <= height && |more| == i
        invariant Preds(All(), n, more)
      {
        PrevAbove(n, i);
        more := more + [head];
        i := i + 1;
      }
    }

    lemma StrictSplit(n: nat, key: Key)
      requires Splits(n, key) && key !in Keys()
      ensures forall i :: n <= i < |nodes| ==> Less(key, nodes[i].key)
    {
      forall i | n <= i < |nodes| ensures Less(key, nodes[i].key) { assert nodes[i].key in Keys(); }
    }

    /** The list's shape and keys once `x` has taken its place among `before`. */
    lemma ShapeAfter(before: seq<Node>, n: nat, x: Node)
      requires n <= |before| && nodes == before[..n] + [x] + before[n..]
      requires head.height == MAX_HEIGHT && head !in before && x != head && Ascending(before)
      requires 1 <= maxHeight <= MAX_HEIGHT && 1 <= x.height <= maxHeight
      requires forall i :: 0 <= i < |before| ==> 1 <= before[i].height <= maxHeight
      requires forall i :: 0 <= i < n ==> Less(before[i].key, x.key)
      requires forall i :: n <= i < |before| ==> Less(x.key, before[i].key)
      ensures Shape()
      ensures Keys() == (set m | m in before :: m.key) + {x.key}
      ensures forall m :: m in nodes <==> m in before || m == x
    {
      PutIn(before, n, x, nodes);
      hide Ascending;
      forall i | 0 <= i < |nodes| ensures 1 <= nodes[i].height <= maxHeight {
        assert nodes[i] in nodes;
      }
    }

    /** A list with one node put in. */
    static lemma PutIn(before: seq<Node>, n: nat, x: Node, after: seq<Node>)
      requires n <= |before| && after == before[..n] + [x] + before[n..] && Ascending(before)
      requires forall i :: 0 <= i < n ==> Less(before[i].key, x.key)
      requires forall i :: n <= i < |before| ==> Less(x.key, before[i].key)
      ensures Ascending(after)
      ensures forall m :: m in after <==> m in before || m == x
    {
      PutInMembers(before, n, x, after);
      forall i, j | 0 <= i < j < |after| ensures Less(after[i].key, after[j].key) {
        assert after[i] == if i < n then before[i] else if i == n then x else before[i - 1];
        assert after[j] == if j < n then before[j] else if j == n then x else before[j - 1];
      }
    }

    static lemma PutInMembers(before: seq<Node>, n: nat, x: Node, after: seq<Node>)
      requires n <= |before| && after == before[..n] + [x] + before[n..]
      ensures forall m :: m in after <==> m in before || m == x
    {
      assert before == before[..n] + before[n..];
    }

    /** The linking loop: afterwards `x` is in its place on every level. */
    static method LinkAll(ghost all: seq<Node>, ghost n: nat, x: Node, prev: seq<Node>)
      requires n < |all| && x !in all && 1 <= x.height <= MAX_HEIGHT && |x.next| == x.height
      requires forall i, j :: 0 <= i < j < |all| ==> all[i] != all[j]
      requires x.height <= |prev| && Preds(all, n, prev)
      requires forall l :: 0 <= l < MAX_HEIGHT ==> LinksAt(all, l)
      modifies x, all
      ensures forall l :: 0 <= l < MAX_HEIGHT ==> LinksAt(Inserted(all, n, x), l)
    {
      hide LinksAt, IsPrev, Inserted;
      var i := 0;
      while i < x.height
        invariant i <= x.height && |x.next| == x.height
        invariant forall l :: 0 <= l < i ==> LinksAt(Inserted(all, n, x), l)
        invariant forall l :: i <= l < MAX_HEIGHT ==> LinksAt(all, l)
      {
        assert IsPrev(all, n, i, prev[i]);
        PrevIsNode(all, n, i, prev[i]);
        LinkNext(all, n, x, i, prev[i]);
        i := i + 1;
      }
      forall l | x.height <= l < MAX_HEIGHT ensures LinksAt(Inserted(all, n, x), l) {
        LowNode(all, n, x, l);
      }
    }

    /** A node that does not reach a level leaves its links in order. */
    static lemma LowNode(all: seq<Node>, p: nat, x: Node, l: nat)
      requires p < |all| && x !in all && x.height <= l && LinksAt(all, l)
      ensures LinksAt(Inserted(all, p, x), l)
    {
      var more := Inserted(all, p, x);
      InsertedIs(all, p, x, 0);
      hide Inserted, IsSucc;
      forall i | 0 <= i < |more| && more[i].height > l
        ensures |more[i].next| == more[i].height && IsSucc(more, i, l, more[i].next[l])
      {
        var k := if i <= p then i else i - 1;
        InsertedIs(all, p, x, i);
        LowNodeSucc(all, p, x, l, k, all[k].next[l]);
      }
    }

    static lemma LowNodeSucc(all: seq<Node>, p: nat, x: Node, l: nat, i: nat, y: Node?)
      requires p < |all| && x.height <= l && i < |all| && IsSucc(all, i, l, y)
      ensures IsSucc(Inserted(all, p, x), if i <= p then i else i + 1, l, y)
    {
      var more := Inserted(all, p, x);
      InsertedAt(all, p, x);
      hide Inserted;
      var k := if i <= p then i else i + 1;
      if y != null {
        var j :| i < j < |all| && all[j] == y && forall m :: i < m < j ==> all[m].height <= l;
        var t := if j <= p then j else j + 1;
        assert more[t] == y;
        forall m | k < m < t ensures more[m].height <= l {
          assert more[m] == if m <= p then all[m] else if m == p + 1 then x else all[m - 1];
        }
      } else {
        forall m | k < m < |more| ensures more[m].height <= l {
          assert more[m] == if m <= p then all[m] else if m == p + 1 then x else all[m - 1];
        }
      }
    }

    /** Links `x` into level `l` behind `y`: first the new node's link, then the link
        that publishes it. */
    static method LinkLevel(ghost all: seq<Node>, ghost p: nat, x: Node, l: nat, y: Node)
      requires p < |all| && x !in all && y in all && x.height > l && |x.next| == x.height
      requires LinksAt(all, l) && IsPrev(all, p, l, y)
      requires forall i, j :: 0 <= i < j < |all| ==> all[i] != all[j]
      modifies x, y
      ensures LinksAt(Inserted(all, p, x), l)
      ensures |x.next| == |old(x.next)| && |y.next| == |old(y.next)|
      ensures forall m :: 0 <= m < |x.next| && m != l ==> x.next[m] == old(x.next[m])
      ensures forall m :: 0 <= m < |y.next| && m != l ==> y.next[m] == old(y.next[m])
    {
      ghost var q: nat :| IsPred(all, p, l, q) && y == all[q];
      PrevIsNode(all, p, l, y);
      hide IsSucc, IsPrev, IsPred, Inserted;
      var next := y.next[l];
      ghost var links := seq(|all|, k requires 0 <= k < |all| reads all =>
                               if l < |all[k].next| then all[k].next[l] else null);
      x.next := x.next[l := next];
      y.next := y.next[l := x];
      hide LinksAt;
      Relinked(all, p, x, l, q, links);
    }

    /** Links that go where `links` says but for those of `all[q]` and `x` are in order. */
    static lemma Relinked(all: seq<Node>, p: nat, x: Node, l: nat, q: nat, links: seq<Node?>)
      requires p < |all| && x.height > l && |x.next| == x.height && IsPred(all, p, l, q) && |links| == |all|
      requires forall k :: 0 <= k < |all| && all[k].height > l ==> IsSucc(all, k, l, links[k])
      requires forall k :: 0 <= k < |all| && all[k].height > l ==> |all[k].next| == all[k].height
      requires forall k :: 0 <= k < |all| && all[k].height > l && k != q ==> all[k].next[l] == links[k]
      requires all[q].next[l] == x && x.next[l] == links[q]
      ensures LinksAt(Inserted(all, p, x), l)
    {
      var more := Inserted(all, p, x);
      InsertedIs(all, p, x, 0);
      hide IsSucc, IsPred, Inserted;
      forall i | 0 <= i < |more| && more[i].height > l
        ensures |more[i].next| == more[i].height && IsSucc(more, i, l, more[i].next[l])
      {
        RelinkedAt(all, p, x, l, q, links, i);
      }
    }

    static lemma RelinkedAt(all: seq<Node>, p: nat, x: Node, l: nat, q: nat, links: seq<Node?>, i: nat)
      requires p < |all| && x.height > l && |x.next| == x.height && IsPred(all, p, l, q) && |links| == |all|
      requires forall k :: 0 <= k < |all| && all[k].height > l ==> IsSucc(all, k, l, links[k])
      requires forall k :: 0 <= k < |all| && all[k].height > l ==> |all[k].next| == all[k].height
      requires forall k :: 0 <= k < |all| && all[k].height > l && k != q ==> all[k].next[l] == links[k]
      requires all[q].next[l] == x && x.next[l] == links[q]
      requires i <= |all| == |Inserted(all, p, x)| - 1 && Inserted(all, p, x)[i].height > l
      ensures var y := Inserted(all, p, x)[i];
        |y.next| == y.height && IsSucc(Inserted(all, p, x), i, l, y.next[l])
    {
      InsertedIs(all, p, x, i);
      hide IsSucc, Inserted, IsPred;
      if i == p + 1 || i == q {
        QIsNode(all, p, l, q);
        SuccSplit(all, p, x, l, q, links[q]);
      } else {
        var k := if i <= p then i else i - 1;
        SuccElsewhere(all, p, x, l, q, k, links[k]);
      }
    }

    static lemma InsertedIs(all: seq<Node>, p: nat, x: Node, i: nat)
      requires p < |all| && i <= |all|
      ensures |Inserted(all, p, x)| == |all| + 1
      ensures Inserted(all, p, x)[i] == if i <= p then all[i] else if i == p + 1 then x else all[i - 1]
    {
    }

    static lemma QIsNode(all: seq<Node>, p: nat, l: nat, q: nat)
      requires p < |all| && IsPred(all, p, l, q)
      ensures q <= p && all[q].height > l
    {
    }

    /** One round of the linking loop: level `i` joins the levels already linked. */
    static method LinkNext(ghost all: seq<Node>, ghost p: nat, x: Node, i: nat, y: Node)
      requires p < |all| && x !in all && i < x.height <= MAX_HEIGHT && |x.next| == x.height
      requires forall j, k :: 0 <= j < k < |all| ==> all[j] != all[k]
      requires IsPrev(all, p, i, y) && y in all
      requires forall l :: 0 <= l < i ==> LinksAt(Inserted(all, p, x), l)
      requires forall l :: i <= l < MAX_HEIGHT ==> LinksAt(all, l)
      modifies x, y
      ensures |x.next| == x.height
      ensures forall l :: 0 <= l <= i ==> LinksAt(Inserted(all, p, x), l)
      ensures forall l :: i < l < MAX_HEIGHT ==> LinksAt(all, l)
    {
      hide IsSucc, IsPrev, Inserted;
      ghost var more := Inserted(all, p, x);
      LinkLevel(all, p, x, i, y);
      forall l | 0 <= l < i ensures LinksAt(more, l) {
        assert old(LinksAt(more, l));
      }
      forall l | i < l < MAX_HEIGHT ensures LinksAt(all, l) {
        assert old(LinksAt(all, l));
      }
    }
  }

  lemma PrevIsNode(all: seq<Node>, n: nat, l: nat, y: Node)
    requires n < |all| && IsPrev(all, n, l, y)
    ensures y in all && y.height > l
  {
  }

  /** A position in a list: a node, or none. */
  class Iterator {
    const list: SkipList
    var node: Node?

    constructor (list: SkipList)
      ensures this.list == list && node == null
    {
      this.list := list;
      node := null;
    }

    ghost predicate Valid()
      reads this, list, list.head, list.nodes
    {
      list.Valid() && (node == null || node in list.nodes)
    }

    /** The first key at or after `target`. */
    method Seek(target: Key)
      requires Valid()
      modifies this
      ensures Valid()
      ensures if node == null then forall k :: k in list.Keys() ==> Less(k, target)
              else IsCeiling(list.Keys(), target, node.key)
    {
      var r, prev, n := list.FindGreaterOrEqual(target);
      list.SplitIsCeiling(n, target);
      node := r;
    }

    method SeekToFirst()
      requires Valid()
      modifies this
      ensures Valid() && (node == null <==> list.Keys() == {})
      ensures node != null ==> node.key in list.Keys() && forall k :: k in list.Keys() ==> AtMost(node.key, k)
    {
      list.FirstIsLinked();
      node := list.head.next[0];
    }

    method SeekToLast()
      requires Valid()
      modifies this
      ensures Valid() && (node == null <==> list.Keys() == {})
      ensures node != null ==> node.key in list.Keys() && forall k :: k in list.Keys() ==> AtMost(k, node.key)
    {
      var x := list.FindLast();
      list.LastIsMax();
      node := if x == list.head then null else x;
    }

    /** The next greater key. */
    method Next()
      requires Valid() && node != null
      modifies this
      ensures Valid()
      ensures if node == null then forall k :: k in list.Keys() ==> AtMost(k, old(node.key))
              else IsBelow(list.Keys(), node.key, old(node.key))
    {
      list.NextIsAbove(node);
      node := node.next[0];
    }

    /** The next smaller key: there are no back links, so it is searched for. */
    method Prev()
      requires Valid() && node != null
      modifies this
      ensures Valid()
      ensures if node == null then forall k :: k in list.Keys() ==> AtMost(old(node.key), k)
              else IsBelow(list.Keys(), old(node.key), node.key)
    {
      var x, n := list.FindLessThan(node.key);
      list.SplitIsCeiling(n, node.key);
      list.Separate();
      node := if x == list.head then null else x;
    }
  }
}
