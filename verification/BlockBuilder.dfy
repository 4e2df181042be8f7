/** Building a block. */
module BlockBuilders {
  import opened Coding
  import opened Blocks

  /** The layout after one more entry, which may be a restart point. */
  ghost function Extended(l: Layout, key: bytes, value: bytes, shared: nat, restart: bool): Layout
    requires shared <= |key| && |l.offsets| > 0
  {
    var end := l.offsets[|l.offsets| - 1] + |EntryBytes(shared, key[shared..], value)|;
    Layout(l.entries + [Pair(key, value)], l.shared + [shared], l.offsets + [end],
           if restart then l.restarts + [|l.entries|] else l.restarts)
  }

  lemma ExtendedIsLaidOut(area: bytes, l: Layout, key: bytes, value: bytes, shared: nat, restart: bool)
    requires LaidOut(area, l) && shared <= |key|
    requires shared > 0 ==> |l.entries| > 0 && shared <= |l.entries[|l.entries| - 1].key|
                            && key[..shared] == l.entries[|l.entries| - 1].key[..shared]
    ensures LaidOut(area + EntryBytes(shared, key[shared..], value), Extended(l, key, value, shared, restart))
  {
    var b := EntryBytes(shared, key[shared..], value);
    var area', l' := area + b, Extended(l, key, value, shared, restart);
    var n := |l.entries|;
    hide EntryBytes;
    forall i | 0 <= i < |l'.entries| ensures EntryAt(area', l', i) {
      if i < n {
        EntryKept(area, l, b, l', i);
      } else {
        assert area'[l'.offsets[n]..l'.offsets[n + 1]] == b;
      }
    }
  }

  lemma EntryKept(area: bytes, l: Layout, b: bytes, l': Layout, i: nat)
    requires LaidOut(area, l) && i < |l.entries| <= |l'.entries| == |l'.shared| && |l'.offsets| == |l'.entries| + 1
    requires forall j :: 0 <= j < |l.entries| ==> l'.entries[j] == l.entries[j] && l'.shared[j] == l.shared[j]
    requires forall j :: 0 <= j <= |l.entries| ==> l'.offsets[j] == l.offsets[j]
    ensures EntryAt(area + b, l', i)
  {
    hide EntryBytes;
    assert EntryAt(area, l, i);
    assert (area + b)[l.offsets[i]..l.offsets[i + 1]] == area[l.offsets[i]..l.offsets[i + 1]];
  }

  /** The restart array and its length. */
  function RestartBytes(points: seq<nat>): (b: bytes)
    ensures |b| == 4 * |points|
  {
    if points == [] then [] else RestartBytes(points[..|points| - 1]) + Fixed(points[|points| - 1], 4)
  }

  lemma {:induction false} RestartBytesRead(area: bytes, points: seq<nat>, tail: bytes, r: nat)
    requires r < |points| && forall i :: 0 <= i < |points| ==> points[i] < MAX_UINT32
    ensures RestartPoint(area + RestartBytes(points) + tail, |area|, r) == points[r]
  {
    var n := |points| - 1;
    var data := area + RestartBytes(points) + tail;
    var last := Fixed(points[n], 4);
    hide RestartPoint, Fixed;
    if r < n {
      var more := area + RestartBytes(points[..n]) + (last + tail);
      assert data == more;
      RestartBytesRead(area, points[..n], last + tail, r);
    } else {
      PointIs(data, |area|, r, points[n]);
    }
  }

  lemma PointIs(data: bytes, restarts: nat, r: nat, point: nat)
    requires restarts + 4 * r + 4 <= |data| && point < MAX_UINT32
    requires data[restarts + 4 * r..restarts + 4 * r + 4] == Fixed(point, 4)
    ensures RestartPoint(data, restarts, r) == point
  {
    Fixed32Fits();
    FixedRoundTrip(point, 4);
  }

  /** The offsets recorded for the restart points of a layout. */
  ghost predicate RestartsMatch(restarts: seq<nat>, l: Layout) {
    && RestartsOk(l) && |restarts| == |l.restarts| && |l.offsets| == |l.entries| + 1
    && (|l.entries| == 0 ==> |restarts| == 1)
    && (forall r :: 0 <= r < |restarts| && l.entries != [] ==> l.restarts[r] < |l.entries|)
    && forall r :: 0 <= r < |restarts| ==> l.restarts[r] < |l.offsets| && restarts[r] == l.offsets[l.restarts[r]]
  }

  lemma NoRestartBytes()
    ensures RestartBytes([]) == []
  {
  }

  lemma NextRestart(points: seq<nat>, i: nat)
    requires i < |points|
    ensures RestartBytes(points[..i + 1]) == RestartBytes(points[..i]) + Fixed(points[i], 4)
  {
    assert points[..i + 1][..i] == points[..i];
  }

  lemma RestartsMatchAfter(restarts: seq<nat>, l: Layout, key: bytes, value: bytes, shared: nat, restart: bool)
    requires RestartsMatch(restarts, l) && shared <= |key|
    requires if restart then l.entries != [] && shared == 0 else l.entries == [] ==> shared == 0
    ensures RestartsMatch(if restart then restarts + [l.offsets[|l.entries|]] else restarts, Extended(l, key, value, shared, restart))
  {
    hide EntryBytes;
    var l' := Extended(l, key, value, shared, restart);
    assert forall i :: 0 <= i < |l.shared| ==> l'.shared[i] == l.shared[i];
    assert forall i :: 0 <= i < |l.offsets| ==> l'.offsets[i] == l.offsets[i];
    assert forall i :: 0 <= i < |l.restarts| ==> l'.restarts[i] == l.restarts[i];
    hide Extended;
  }

  /** `n` is the length of the longest common prefix. */
  ghost predicate CommonPrefix(a: bytes, b: bytes, n: nat) {
    n <= |a| && n <= |b| && a[..n] == b[..n] && (n < |a| && n < |b| ==> a[n] != b[n])
  }

  /** Every `interval`th entry is a restart point with its whole key; the others share the
      longest common prefix with the one before. */
  ghost predicate Compressed(l: Layout, interval: nat)
    requires interval > 0
  {
    && |l.shared| == |l.entries| && |l.restarts| > 0
    && (forall r :: 0 <= r < |l.restarts| ==> l.restarts[r] == r * interval)
    && (|l.restarts| - 1) * interval <= |l.entries| <= |l.restarts| * interval
    && (|l.restarts| > 1 ==> (|l.restarts| - 1) * interval < |l.entries|)
    && forall i :: 0 <= i < |l.entries| ==> SharesAsItMust(l, interval, i)
  }

  ghost predicate SharesAsItMust(l: Layout, interval: nat, i: nat)
    requires interval > 0 && |l.shared| == |l.entries| && i < |l.entries|
  {
    if i % interval == 0 then l.shared[i] == 0
    else i > 0 && CommonPrefix(l.entries[i - 1].key, l.entries[i].key, l.shared[i])
  }

  /** An entry is a restart point exactly if its number is a multiple of the interval. */
  lemma RestartIffMultiple(l: Layout, interval: nat, i: nat)
    requires interval > 0 && Compressed(l, interval) && i < |l.entries|
    ensures i in l.restarts <==> i % interval == 0
  {
    var q := i / interval;
    assert i == q * interval + i % interval;
    if i in l.restarts {
      var r :| 0 <= r < |l.restarts| && l.restarts[r] == i;
      Multiple(r, interval, 0);
    }
    if i % interval == 0 {
      QuotientBelow(i, |l.restarts|, interval);
      assert l.restarts[q] == i;
    }
  }

  lemma QuotientBelow(i: nat, m: nat, n: nat)
    requires n > 0 && i < m * n
    ensures i / n < m
  {
    var q := i / n;
    assert i == q * n + i % n;
    if m <= q { Scaling(m, q, n); }
  }

  lemma Scaling(a: nat, b: nat, n: nat)
    requires a <= b
    ensures a * n <= b * n
  {
  }

  lemma Multiple(r: nat, n: nat, c: nat)
    requires c < n
    ensures (r * n + c) % n == c
  {
    if r > 0 {
      Multiple(r - 1, n, c);
      assert r * n + c == (r - 1) * n + c + n;
      PlusOnce((r - 1) * n + c, n);
    }
  }

  lemma PlusOnce(x: nat, n: nat)
    requires n > 0
    ensures (x + n) % n == x % n
  {
    var q := x / n;
    assert x + n == (q + 1) * n + x % n;
    Quotient(x + n, q + 1, n, x % n);
  }

  lemma Quotient(x: nat, q: nat, n: nat, c: nat)
    requires c < n && x == q * n + c
    ensures x % n == c
  {
    var p := x / n;
    assert x == p * n + x % n;
    if p < q { Scaling(p + 1, q, n); } else if q < p { Scaling(q + 1, p, n); }
  }

  lemma CompressedAfter(l: Layout, interval: nat, key: bytes, value: bytes, shared: nat, restart: bool, counter: nat)
    requires interval > 0 && Compressed(l, interval) && shared <= |key| && |l.offsets| == |l.entries| + 1
    requires |l.entries| == (|l.restarts| - 1) * interval + counter && counter <= interval && restart == (counter == interval)
    requires counter == 0 ==> l.entries == []
    requires if counter == 0 || restart then shared == 0 else CommonPrefix(l.entries[|l.entries| - 1].key, key, shared)
    ensures Compressed(Extended(l, key, value, shared, restart), interval)
    ensures |l.entries| + 1 ==
            (|Extended(l, key, value, shared, restart).restarts| - 1) * interval + if restart then 1 else counter + 1
  {
    hide EntryBytes, CommonPrefix;
    var n, r := |l.entries|, |l.restarts|;
    var l' := Extended(l, key, value, shared, restart);
    assert r * interval == (r - 1) * interval + interval && (r + 1) * interval == r * interval + interval;
    if restart {
      Multiple(r, interval, 0);
    } else {
      Multiple(r - 1, interval, counter);
    }
    assert n % interval == if restart then 0 else counter;
    forall i | 0 <= i < n + 1 ensures SharesAsItMust(l', interval, i) {
      if i < n {
        assert SharesAsItMust(l, interval, i);
        assert l'.entries[i] == l.entries[i] && l'.shared[i] == l.shared[i] && (i > 0 ==> l'.entries[i - 1] == l.entries[i - 1]);
      } else {
        assert l'.entries[n].key == key && l'.shared[n] == shared && (n > 0 ==> l'.entries[n - 1] == l.entries[n - 1]);
      }
    }
    forall k | 0 <= k < |l'.restarts| ensures l'.restarts[k] == k * interval {
      assert k < r ==> l'.restarts[k] == l.restarts[k];
    }
  }

  class BlockBuilder {
    const lt: Before
    const interval: nat
    var buffer: bytes
    var restarts: seq<nat>
    var counter: nat
    var finished: bool
    var lastKey: bytes
    ghost var layout: Layout

    constructor (lt: Before, interval: nat)
      requires interval >= 1
      ensures Valid() && !finished && layout.entries == [] && this.lt == lt && this.interval == interval
    {
      this.lt, this.interval := lt, interval;
      buffer, restarts, counter, finished, lastKey := [], [0], 0, false, [];
      layout := Layout([], [], [0], [0]);
    }

    ghost predicate Valid()
      reads this
    {
      && interval >= 1 && counter <= interval && (layout.entries == [] <==> counter == 0)
      && Compressed(layout, interval) && |layout.entries| == (|layout.restarts| - 1) * interval + counter
      && (!finished ==> LaidOut(buffer, layout) && RestartsMatch(restarts, layout)
                        && lastKey == if layout.entries == [] then [] else layout.entries[|layout.entries| - 1].key)
    }

    /** Adds an entry that comes after all that were added. */
    method Add(key: bytes, value: bytes)
      requires Valid() && !finished && (layout.entries == [] || lt(lastKey, key))
      modifies this
      ensures Valid() && !finished && layout.entries == old(layout.entries) + [Pair(key, value)]
      ensures Compressed(layout, interval)
    {
      hide EntryBytes, LaidOut, RestartsMatch, Compressed;
      LaidOutEnd(buffer, layout);
      var shared := 0;
      var restart := counter >= interval;
      if counter < interval {
        var least := if |lastKey| < |key| then |lastKey| else |key|;
        while shared < least && lastKey[shared] == key[shared]
          invariant shared <= least && lastKey[..shared] == key[..shared]
        {
          shared := shared + 1;
        }
      } else {
        restarts := restarts + [|buffer|];
        counter := 0;
      }
      ExtendedIsLaidOut(buffer, layout, key, value, shared, restart);
      RestartsMatchAfter(old(restarts), layout, key, value, shared, restart);
      CompressedAfter(layout, interval, key, value, shared, restart, if restart then interval else counter);
      layout := Extended(layout, key, value, shared, restart);
      buffer := buffer + EntryBytes(shared, key[shared..], value);
      assert lastKey[..shared] + key[shared..] == key;
      lastKey := lastKey[..shared] + key[shared..];
      counter := counter + 1;
    }

    /** The finished block holds what was added, if its offsets and lengths fit their words. */
    method Finish() returns (data: bytes)
      requires Valid() && !finished
      modifies this
      ensures Valid() && finished && layout == old(layout)
      ensures Small(layout) ==> IsBlock(data, layout)
    {
      ghost var area := buffer;
      hide LaidOut, Fixed, RestartPoint, RestartsMatch, Small, IsBlock, EntryAt, RestartBytes, Compressed;
      NoRestartBytes();
      var i := 0;
      while i < |restarts|
        invariant 0 <= i <= |restarts| && buffer == area + RestartBytes(restarts[..i])
        invariant restarts == old(restarts) && layout == old(layout) && counter == old(counter) && interval >= 1 && !finished
      {
        NextRestart(restarts, i);
        buffer := buffer + Fixed(restarts[i], 4);
        i := i + 1;
      }
      assert restarts[..|restarts|] == restarts;
      buffer := buffer + Fixed(|restarts|, 4);
      finished := true;
      data := buffer;
      if Small(layout) {
        FinishedIsBlock(area, layout, restarts, data);
      }
    }
  }

  /** `data` is a whole block with layout `l`. */
  ghost predicate IsBlock(data: bytes, l: Layout) {
    && |l.restarts| > 0 && |data| >= 4 * (|l.restarts| + 1) && NumRestarts(data) == |l.restarts|
    && Describes(data, |data| - 4 * (|l.restarts| + 1), l)
  }

  function NumRestarts(data: bytes): nat
    requires |data| >= 4
  {
    RestartPoint(data, |data| - 4, 0)
  }

  lemma LaidOutEnd(area: bytes, l: Layout)
    requires LaidOut(area, l)
    ensures |l.offsets| == |l.entries| + 1 && l.offsets[|l.entries|] == |area| && |l.shared| == |l.entries|
  {
  }

  lemma FinishedIsBlock(area: bytes, l: Layout, restarts: seq<nat>, data: bytes)
    requires LaidOut(area, l) && RestartsMatch(restarts, l) && Small(l)
    requires data == area + RestartBytes(restarts) + Fixed(|restarts|, 4)
    ensures IsBlock(data, l)
  {
    hide LaidOut, Fixed, RestartPoint, Small, Describes, NumRestarts;
    FinishedIsDescribed(area, l, restarts, data);
  }

  lemma FinishedIsDescribed(area: bytes, l: Layout, restarts: seq<nat>, data: bytes)
    requires LaidOut(area, l) && RestartsOk(l) && Small(l) && |restarts| == |l.restarts|
    requires forall r :: 0 <= r < |restarts| ==> l.restarts[r] < |l.offsets| && restarts[r] == l.offsets[l.restarts[r]]
    requires data == area + RestartBytes(restarts) + Fixed(|restarts|, 4)
    ensures Describes(data, |area|, l) && NumRestarts(data) == |l.restarts|
  {
    hide RestartPoint, LaidOut, Fixed, RestartsOk;
    assert data[..|area|] == area;
    forall r | 0 <= r < |l.restarts| ensures RestartPoint(data, |area|, r) == l.offsets[l.restarts[r]] {
      RestartBytesRead(area, restarts, Fixed(|restarts|, 4), r);
    }
    PointIs(data, |data| - 4, 0, |restarts|);
  }
}
