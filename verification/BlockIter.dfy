/** Reading a block: positions, seeks by binary search over restart points, and steps back. */
module BlockIters {
  import opened DbFormat
  import opened Coding
  import opened Blocks
  import opened BlockBuilders

  /** Parsing that starts at entry `j` with `key` read so far has what entry `j` shares. */
  ghost predicate ReadyFor(l: Layout, j: nat, offset: nat, key: bytes) {
    && |l.shared| == |l.entries| && |l.offsets| == |l.entries| + 1 && j <= |l.entries| && offset == l.offsets[j]
    && (j < |l.entries| ==>
          l.shared[j] <= |key| && l.shared[j] <= |l.entries[j].key| && key[..l.shared[j]] == l.entries[j].key[..l.shared[j]])
  }

  /** Decoding entry `j` of a block gives its lengths, and where its key and value are. */
  lemma DecodesEntry(area: bytes, l: Layout, j: nat)
    requires LaidOut(area, l) && Small(l) && j < |l.entries|
    ensures l.shared[j] <= |l.entries[j].key| && l.offsets[j] + 3 <= l.offsets[j + 1] <= |area|
    ensures var h := DecodeEntry(area[l.offsets[j]..]);
      && h.Some? && h.value.shared == l.shared[j] && h.value.nonShared == |l.entries[j].key| - l.shared[j]
      && h.value.valueLength == |l.entries[j].value|
      && l.offsets[j] + h.value.size + h.value.nonShared + h.value.valueLength == l.offsets[j + 1]
      && var p := l.offsets[j] + h.value.size;
         area[p..p + h.value.nonShared] == l.entries[j].key[l.shared[j]..]
         && area[p + h.value.nonShared..l.offsets[j + 1]] == l.entries[j].value
  {
    hide *;
    EntryParts(area, l, j);
    var e := l.entries[j];
    DecodesBytes(area, l.offsets[j], l.offsets[j + 1], l.shared[j], e.key[l.shared[j]..], e.value);
  }

  lemma EntryParts(area: bytes, l: Layout, j: nat)
    requires LaidOut(area, l) && Small(l) && j < |l.entries|
    ensures |l.shared| == |l.entries| && |l.offsets| == |l.entries| + 1
    ensures l.shared[j] <= |l.entries[j].key| < MAX_UINT32 && |l.entries[j].value| < MAX_UINT32
    ensures l.offsets[j] <= l.offsets[j + 1] <= |area| < MAX_UINT32
    ensures area[l.offsets[j]..l.offsets[j + 1]] == EntryBytes(l.shared[j], l.entries[j].key[l.shared[j]..], l.entries[j].value)
  {
    hide EntryBytes;
    assert EntryAt(area, l, j);
  }

  lemma DecodesBytes(area: bytes, s: nat, t: nat, shared: nat, delta: bytes, value: bytes)
    requires s <= t <= |area| < MAX_UINT32 && area[s..t] == EntryBytes(shared, delta, value)
    requires shared < MAX_UINT32
    ensures s + 3 <= t
    ensures var h := DecodeEntry(area[s..]);
      && h.Some? && h.value.shared == shared && h.value.nonShared == |delta| && h.value.valueLength == |value|
      && s + h.value.size + |delta| + |value| == t
      && area[s + h.value.size..t - |value|] == delta && area[t - |value|..t] == value
  {
    hide Varint, DecodeEntry;
    var b := EntryBytes(shared, delta, value);
    assert |b| >= |delta| + |value|;
    hide EntryBytes;
    assert area[s..] == b + area[t..] by {
      assert area[s..] == area[s..t] + area[t..];
    }
    EntryRoundTrip(shared, delta, value, area[t..]);
    var size := |b| - |delta| - |value|;
    SliceOfSlice(area, s, t, size, size + |delta|);
    SliceOfSlice(area, s, t, size + |delta|, |b|);
    assert b[size + |delta|..|b|] == b[size + |delta|..];
  }

  /** The next entry shares a prefix of this one's key. */
  lemma ReadyAfter(area: bytes, l: Layout, j: nat)
    requires LaidOut(area, l) && j < |l.entries|
    ensures ReadyFor(l, j + 1, l.offsets[j + 1], l.entries[j].key)
  {
    if j + 1 < |l.entries| {
      assert EntryAt(area, l, j + 1);
    }
  }

  lemma ReadyAtRestart(data: bytes, restarts: nat, l: Layout, r: nat)
    requires Describes(data, restarts, l) && r < |l.restarts|
    ensures restarts + 4 * r + 4 <= |data| && l.restarts[r] <= |l.entries|
    ensures l.restarts[r] < |l.entries| <==> l.entries != []
    ensures ReadyFor(l, l.restarts[r], RestartPoint(data, restarts, r), [])
  {
    hide RestartPoint, EntryAt;
  }

  lemma OffsetOrder(data: bytes, restarts: nat, l: Layout, i: nat, j: nat)
    requires Describes(data, restarts, l) && i <= |l.entries| && j <= |l.entries|
    ensures |l.offsets| == |l.entries| + 1 && restarts <= |data|
    ensures l.offsets[i] < l.offsets[j] <==> i < j
    ensures l.offsets[|l.entries|] == restarts
  {
    hide RestartPoint, EntryAt;
    if i < j { OffsetsAscend(data[..restarts], l, i, j); } else { OffsetsAscend(data[..restarts], l, j, i); }
  }

  /** What the decoder sees at an offset: the entries from there to the restart array. */
  function Ahead(data: bytes, restarts: nat, offset: nat): bytes
    requires offset <= restarts <= |data|
  {
    data[..restarts][offset..]
  }

  /** No header in the data, wherever one is looked for, has lengths whose sum wraps. */
  ghost predicate HeadersFit(data: bytes, restarts: nat)
    requires restarts <= |data|
  {
    forall offset :: 0 <= offset <= restarts ==>
      var s := Ahead(data, restarts, offset);
      DecodeHeader(s).Some? ==> !SumWraps(DecodeHeader(s).value, s)
  }

  /** Where the entry that is accepted at `offset` goes on behind the entries. */
  predicate RunsOut(data: bytes, restarts: nat, offset: nat)
    requires offset <= restarts <= |data|
  {
    var s := Ahead(data, restarts, offset);
    DecodeEntry(s).Some? && !EndsWithin(DecodeEntry(s).value, s)
  }

  /** An accepted entry runs out of the data somewhere if and only if some header's sum wraps. */
  lemma FitIffNoneRunsOut(data: bytes, restarts: nat)
    requires restarts <= |data| && restarts < MAX_UINT32
    ensures HeadersFit(data, restarts) <==> forall offset :: 0 <= offset <= restarts ==> !RunsOut(data, restarts, offset)
  {
    hide DecodeHeader, DecodeEntry, SumWraps, EndsWithin;
    forall offset | 0 <= offset <= restarts
      ensures var s := Ahead(data, restarts, offset);
        RunsOut(data, restarts, offset) <==> DecodeHeader(s).Some? && SumWraps(DecodeHeader(s).value, s)
    {
      RunsOutIff(data, restarts, offset);
    }
  }

  lemma RunsOutIff(data: bytes, restarts: nat, offset: nat)
    requires offset <= restarts <= |data| && restarts < MAX_UINT32
    ensures var s := Ahead(data, restarts, offset);
      RunsOut(data, restarts, offset) <==> DecodeHeader(s).Some? && SumWraps(DecodeHeader(s).value, s)
  {
    var s := Ahead(data, restarts, offset);
    hide DecodeHeader, SumWraps, EndsWithin;
    if DecodeHeader(s).Some? {
      AcceptedIff(s, DecodeHeader(s).value);
    }
  }

  class Iter {
    const lt: Before
    const data: bytes
    /** Offset of the restart array, and its length. */
    const restarts: nat
    const numRestarts: nat
    var current: nat
    var restartIndex: nat
    var key: bytes
    /** The value is the slice of the data between these. */
    var valueStart: nat
    var valueEnd: nat
    var corrupt: bool
    /** An accepted entry went on behind the entries; what the source does then is undefined,
        and the model stops. */
    var overrun: bool
    /** The block that was built, if the data is one, and the entry this is at. */
    ghost const layout: Layout
    ghost var index: nat

    constructor (lt: Before, data: bytes, restarts: nat, numRestarts: nat, ghost layout: Layout)
      requires numRestarts > 0 && restarts + 4 * numRestarts <= |data| && restarts < MAX_UINT32
      ensures Safe() && AtEnd() && !corrupt && !overrun && index == |layout.entries| && Sound()
      ensures this.lt == lt && this.data == data && this.restarts == restarts
      ensures this.numRestarts == numRestarts && this.layout == layout
    {
      this.lt, this.data, this.restarts, this.numRestarts := lt, data, restarts, numRestarts;
      current, restartIndex, key, valueStart, valueEnd, corrupt := restarts, numRestarts, [], 0, 0, false;
      this.layout := layout;
      overrun, index := false, |layout.entries|;
    }

    /** The offsets are those of a block whose restart array fits. */
    ghost predicate Opened()
      reads this
    {
      numRestarts > 0 && restarts + 4 * numRestarts <= |data| && restarts < MAX_UINT32
    }

    /** What holds for any data: an overrun needs a header whose sum wraps, and without one
        every access is within the block. */
    ghost predicate Safe()
      reads this
    {
      && Opened() && (overrun ==> !HeadersFit(data, restarts)) && current <= restarts
      && (current < restarts ==> restartIndex < numRestarts && current + 3 <= valueEnd <= restarts && valueStart <= valueEnd)
    }

    predicate Valid()
      reads this
    {
      current < restarts
    }

    predicate AtEnd()
      reads this
    {
      current == restarts
    }

    function Value(): bytes
      reads this
      requires Safe() && Valid()
    {
      data[valueStart..valueEnd]
    }

    /** The data is the built block. */
    ghost predicate Built()
      reads this
    {
      Describes(data, restarts, layout) && numRestarts == |layout.restarts|
    }

    /** The iterator of a built block shows the entry with number `index`, or is at the end. */
    ghost predicate Sound()
      reads this
      requires Safe()
    {
      Built() ==>
        && !overrun && index <= |layout.entries|
        && (if index == |layout.entries| then AtEnd()
            else Shows(index) && restartIndex < numRestarts && GetRestartPoint(restartIndex) <= current)
    }

    ghost predicate Shows(i: nat)
      reads this
      requires Safe() && i < |layout.entries|
    {
      && |layout.offsets| == |layout.entries| + 1 && current == layout.offsets[i] && valueEnd == layout.offsets[i + 1]
      && key == layout.entries[i].key && Valid() && Value() == layout.entries[i].value
    }

    function GetRestartPoint(r: nat): nat
      reads this
      requires r < numRestarts && restarts + 4 * numRestarts <= |data|
    {
      RestartPoint(data, restarts, r)
    }

    method SeekToRestartPoint(r: nat)
      requires r < numRestarts && restarts + 4 * numRestarts <= |data|
      modifies `restartIndex, `key, `valueStart, `valueEnd
      ensures key == [] && restartIndex == r && valueStart == valueEnd == GetRestartPoint(r)
    {
      key := [];
      restartIndex := r;
      valueStart := GetRestartPoint(r);
      valueEnd := GetRestartPoint(r);
    }

    method CorruptionError()
      modifies `current, `restartIndex, `corrupt, `key, `valueStart, `valueEnd
      ensures current == restarts && restartIndex == numRestarts && corrupt && key == [] && valueStart == valueEnd == 0
    {
      current, restartIndex, corrupt, key, valueStart, valueEnd := restarts, numRestarts, true, [], 0, 0;
    }

    method StopOutside()
      modifies `current, `restartIndex, `overrun
      ensures current == restarts && restartIndex == numRestarts && overrun
    {
      current, restartIndex, overrun := restarts, numRestarts, true;
    }

    /** Moves on to the last restart point before the current entry. */
    method RaiseRestartIndex()
      requires Opened() && restartIndex < numRestarts
      modifies `restartIndex
      ensures old(restartIndex) <= restartIndex < numRestarts
      ensures GetRestartPoint(old(restartIndex)) <= current ==> GetRestartPoint(restartIndex) <= current
      ensures restartIndex + 1 < numRestarts ==> GetRestartPoint(restartIndex + 1) >= current
    {
      hide RestartPoint;
      while restartIndex + 1 < numRestarts && GetRestartPoint(restartIndex + 1) < current
        invariant old(restartIndex) <= restartIndex < numRestarts
        invariant GetRestartPoint(old(restartIndex)) <= current ==> GetRestartPoint(restartIndex) <= current
      {
        restartIndex := restartIndex + 1;
      }
    }

    /** Reads the entry that follows the current value. In a built block that is entry `j`. */
    method ParseNextKey(ghost j: nat) returns (ok: bool)
      requires Opened() && restartIndex < numRestarts && (overrun ==> !HeadersFit(data, restarts))
      modifies this
      ensures Safe() && ok == Valid() && index == j
      ensures overrun <==> old(overrun) || (old(valueEnd) < restarts && RunsOut(data, restarts, old(valueEnd))
                                            && DecodeEntry(Ahead(data, restarts, old(valueEnd))).value.shared <= old(|key|))
      ensures ok ==> current == old(valueEnd)
      ensures ok && GetRestartPoint(old(restartIndex)) <= current ==> GetRestartPoint(restartIndex) <= current
      ensures Built() && old(ReadyFor(layout, j, valueEnd, key)) ==>
                corrupt == old(corrupt) && overrun == old(overrun) && if j < |layout.entries| then Shows(j) else AtEnd()
    {
      hide ReadFixed, RestartPoint, DecodeEntry, Describes, ReadyFor, HeadersFit;
      ghost var ready := Built() && ReadyFor(layout, j, valueEnd, key);
      index := j;
      current := valueEnd;
      if current >= restarts {
        current := restarts;
        restartIndex := numRestarts;
        ok := false;
        if ready { PastLast(data, restarts, layout, j, valueEnd, key); }
        return;
      }
      var ahead := Ahead(data, restarts, current);
      var h := DecodeEntry(ahead);
      if ready { ReadyDecodes(data, restarts, layout, j, current, key); }
      if h == None || |key| < h.value.shared {
        CorruptionError();
        ok := false;
      } else if !EndsWithin(h.value, ahead) {
        FitIffNoneRunsOut(data, restarts);
        assert RunsOut(data, restarts, current);
        StopOutside();
        ok := false;
      } else {
        var p := current + h.value.size;
        key := key[..h.value.shared] + data[p..p + h.value.nonShared];
        valueStart := p + h.value.nonShared;
        valueEnd := valueStart + h.value.valueLength;
        RaiseRestartIndex();
        ok := true;
      }
    }

    method Next()
      requires Safe() && Sound() && Valid()
      modifies this
      ensures Safe() && Sound()
      ensures Built() ==> index == old(index) + 1 && corrupt == old(corrupt)
      ensures Valid() ==> old(current) < current
    {
      hide RestartPoint, Describes, ReadyFor, HeadersFit, RunsOut, DecodeEntry;
      if Built() { ReadyAfterShown(data, restarts, layout, index); }
      var ok := ParseNextKey(index + 1);
      if Built() && index < |layout.entries| { OffsetOrder(data, restarts, layout, old(index), index); }
    }

    method SeekToFirst()
      requires Safe() && Sound()
      modifies this
      ensures Safe() && Sound()
      ensures Built() ==> index == 0 && corrupt == old(corrupt)
    {
      hide RestartPoint, Describes, ReadyFor, HeadersFit, RunsOut, DecodeEntry;
      if Built() { ReadyAtRestart(data, restarts, layout, 0); FirstRestart(data, restarts, layout); }
      SeekToRestartPoint(0);
      var ok := ParseNextKey(0);
    }

    /** Parses on from entry `j` up to the entry that ends at `limit`, where entry `i` begins. */
    method ParseUpTo(limit: nat, ghost j: nat, ghost i: nat)
      requires Opened() && restartIndex < numRestarts && (overrun ==> !HeadersFit(data, restarts))
      requires Built() ==>
                 && j <= i <= |layout.entries| == |layout.offsets| - 1 && limit == layout.offsets[i] && (j == i ==> i == |layout.entries|)
                 && !overrun && ReadyFor(layout, j, valueEnd, key) && GetRestartPoint(restartIndex) <= valueEnd
      modifies this
      ensures Safe() && Sound()
      ensures Built() ==> corrupt == old(corrupt) && index == if j < i then i - 1 else i
    {
      hide RestartPoint, Describes, ReadyFor, HeadersFit, RunsOut, DecodeEntry;
      ghost var k, c := j, corrupt;
      var ok := ParseNextKey(k);
      while ok && valueEnd < limit
        invariant Safe() && ok == Valid() && index == k
        invariant Built() ==> corrupt == c && (k < i || j == i == k) && Sound()
        decreases ok, restarts - valueEnd
      {
        if Built() {
          ReadyAfterShown(data, restarts, layout, k);
          OffsetOrder(data, restarts, layout, k + 1, i);
        }
        k := k + 1;
        ok := ParseNextKey(k);
      }
      if Built() && ok { OffsetOrder(data, restarts, layout, k + 1, i); }
    }

    method SeekToLast()
      requires Safe() && Sound()
      modifies this
      ensures Safe() && Sound()
      ensures Built() ==> corrupt == old(corrupt) && index == if layout.entries == [] then 0 else |layout.entries| - 1
    {
      hide RestartPoint, Describes, ReadyFor, HeadersFit;
      ghost var j: nat := if Built() then layout.restarts[numRestarts - 1] else 0;
      if Built() {
        ReadyAtRestart(data, restarts, layout, numRestarts - 1);
        RestartIsOffset(data, restarts, layout, numRestarts - 1);
        OffsetOrder(data, restarts, layout, 0, 0);
      }
      SeekToRestartPoint(numRestarts - 1);
      ParseUpTo(restarts, j, |layout.entries|);
    }

    /** Scans back to a restart point before `original`, if there is one. */
    method LowerRestartIndex(original: nat) returns (found: bool)
      requires Opened() && restartIndex < numRestarts
      modifies `restartIndex
      ensures restartIndex <= old(restartIndex)
      ensures if found then GetRestartPoint(restartIndex) < original else restartIndex == 0 && GetRestartPoint(0) >= original
    {
      hide RestartPoint;
      while GetRestartPoint(restartIndex) >= original
        invariant restartIndex <= old(restartIndex)
        decreases restartIndex
      {
        if restartIndex == 0 {
          return false;
        }
        restartIndex := restartIndex - 1;
      }
      found := true;
    }

    /** Scans back to a restart point before the entry, then forward to the entry before it. */
    method Prev()
      requires Safe() && Sound() && Valid()
      modifies this
      ensures Safe() && Sound()
      ensures Built() ==> corrupt == old(corrupt) && index == if old(index) == 0 then |layout.entries| else old(index) - 1
    {
      hide RestartPoint, Describes, ReadyFor, HeadersFit;
      var original := current;
      ghost var i := index;
      var found := LowerRestartIndex(original);
      if !found {
        if Built() { FirstRestart(data, restarts, layout); OffsetOrder(data, restarts, layout, 0, i); FirstOffset(data, restarts, layout); }
        index := |layout.entries|;
        current := restarts;
        restartIndex := numRestarts;
        return;
      }
      ghost var j: nat := if Built() then layout.restarts[restartIndex] else 0;
      if Built() {
        ReadyAtRestart(data, restarts, layout, restartIndex);
        RestartIsOffset(data, restarts, layout, restartIndex);
        OffsetOrder(data, restarts, layout, j, i);
      }
      SeekToRestartPoint(restartIndex);
      ParseUpTo(original, j, i);
    }

    /** The key at a restart point is before the target. */
    ghost predicate IsBefore(restart: nat, target: bytes)
      reads this
    {
      restart < |layout.restarts| && layout.restarts[restart] < |layout.entries| && lt(layout.entries[layout.restarts[restart]].key, target)
    }

    /** The binary search of `Seek`: a restart point with a key before the target, or the
        first one, and the next one's key is not before it. An entry that cannot be decoded
        ends it. */
    method FindRestart(target: bytes) returns (found: bool, left: nat, outside: bool)
      requires Safe()
      ensures left < numRestarts && (Built() ==> found) && (outside ==> !found && !HeadersFit(data, restarts))
      ensures Built() && left > 0 ==> IsBefore(left, target)
      ensures Built() && left + 1 < numRestarts ==> !IsBefore(left + 1, target)
    {
      hide RestartPoint, Describes, ReadyFor, Transitive, Ascending, HeadersFit, DecodeEntry;
      left, outside := 0, false;
      var right := numRestarts - 1;
      while left < right
        invariant 0 <= left <= right < numRestarts && !outside
        invariant Built() && left > 0 ==> IsBefore(left, target)
        invariant Built() && right + 1 < numRestarts ==> !IsBefore(right + 1, target)
      {
        var mid := (left + right + 1) / 2;
        var offset := GetRestartPoint(mid);
        var h := if offset <= restarts then DecodeEntry(Ahead(data, restarts, offset)) else None;
        if Built() { RestartDecodes(data, restarts, layout, mid); }
        if h == None || h.value.shared != 0 {
          return false, left, false;
        }
        var p := offset + h.value.size;
        if p + h.value.nonShared > restarts {
          FitIffNoneRunsOut(data, restarts);
          assert RunsOut(data, restarts, offset);
          return false, left, true;
        }
        var midKey := data[p..p + h.value.nonShared];
        if lt(midKey, target) {
          left := mid;
        } else {
          right := mid - 1;
        }
      }
      found := true;
    }

    /** Binary search for the last restart point before the target, then a linear search. */
    method Seek(target: bytes)
      requires Safe() && Sound() && Transitive(lt) && (Built() ==> Ascending(lt, layout.entries))
      modifies this
      ensures Safe() && Sound()
      ensures Built() ==>
                && corrupt == old(corrupt)
                && (forall i :: 0 <= i < index ==> lt(layout.entries[i].key, target))
                && (index < |layout.entries| ==> !lt(layout.entries[index].key, target))
    {
      hide RestartPoint, Describes, ReadyFor, Transitive, Ascending, HeadersFit, RunsOut, DecodeEntry;
      ghost var c := corrupt;
      var found, left, outside := FindRestart(target);
      if outside {
        StopOutside();
        return;
      }
      if !found {
        CorruptionError();
        return;
      }
      ghost var j: nat := if Built() then layout.restarts[left] else 0;
      if Built() {
        ReadyAtRestart(data, restarts, layout, left);
        RestartIsOffset(data, restarts, layout, left);
        BeforeRestart(data, restarts, layout, lt, target, left);
      }
      SeekToRestartPoint(left);
      while true
        invariant Opened() && restartIndex < numRestarts && (overrun ==> !HeadersFit(data, restarts)) && (Built() ==> !overrun)
        invariant GetRestartPoint(restartIndex) <= valueEnd
        invariant Built() ==> corrupt == c && ReadyFor(layout, j, valueEnd, key) && j <= |layout.entries|
        invariant Built() ==> forall i :: 0 <= i < j ==> lt(layout.entries[i].key, target)
        decreases restarts - valueEnd
      {
        var ok := ParseNextKey(j);
        if !ok {
          return;
        }
        if !lt(key, target) {
          return;
        }
        if Built() { ReadyAfterShown(data, restarts, layout, j); }
        j := j + 1;
      }
    }
  }

  lemma ReadyAfterShown(data: bytes, restarts: nat, l: Layout, j: nat)
    requires Describes(data, restarts, l) && j < |l.entries|
    ensures |l.offsets| == |l.entries| + 1 && ReadyFor(l, j + 1, l.offsets[j + 1], l.entries[j].key)
  {
    hide EntryAt, RestartPoint;
    ReadyAfter(data[..restarts], l, j);
  }

  lemma FirstRestart(data: bytes, restarts: nat, l: Layout)
    requires Describes(data, restarts, l)
    ensures l.restarts[0] == 0 && restarts + 4 <= |data| && RestartPoint(data, restarts, 0) == 0
  {
    hide EntryAt, RestartPoint;
  }

  lemma FirstOffset(data: bytes, restarts: nat, l: Layout)
    requires Describes(data, restarts, l)
    ensures l.offsets[0] == 0
  {
    hide EntryAt, RestartPoint;
  }

  lemma RestartIsOffset(data: bytes, restarts: nat, l: Layout, r: nat)
    requires Describes(data, restarts, l) && r < |l.restarts|
    ensures restarts + 4 * r + 4 <= |data| && |l.offsets| == |l.entries| + 1 && l.restarts[r] <= |l.entries|
    ensures RestartPoint(data, restarts, r) == l.offsets[l.restarts[r]]
  {
    hide EntryAt, RestartPoint;
  }

  /** At a restart point the whole key is stored. */
  lemma RestartDecodes(data: bytes, restarts: nat, l: Layout, r: nat)
    requires Describes(data, restarts, l) && 0 < r < |l.restarts|
    ensures restarts + 4 * r + 4 <= |data| && l.restarts[r] < |l.entries|
    ensures var offset := RestartPoint(data, restarts, r);
      && offset <= restarts
      && var h := DecodeEntry(Ahead(data, restarts, offset));
      && h.Some? && h.value.shared == 0
      && var p := offset + h.value.size;
      p + h.value.nonShared <= restarts <= |data| && data[p..p + h.value.nonShared] == l.entries[l.restarts[r]].key
  {
    var area, j := data[..restarts], l.restarts[r];
    hide EntryAt, RestartPoint, DecodeEntry;
    DecodesEntry(area, l, j);
    var h := DecodeEntry(area[l.offsets[j]..]).value;
    var p := l.offsets[j] + h.size;
    assert l.entries[j].key[0..] == l.entries[j].key;
    SameSlice(data, restarts, p, p + h.nonShared);
  }

  /** Entries before a restart point whose key is before the target are before it too. */
  lemma BeforeRestart(data: bytes, restarts: nat, l: Layout, lt: Before, target: bytes, r: nat)
    requires Describes(data, restarts, l) && r < |l.restarts| && Transitive(lt) && Ascending(lt, l.entries)
    requires r > 0 ==> l.restarts[r] < |l.entries| && lt(l.entries[l.restarts[r]].key, target)
    ensures l.restarts[r] <= |l.entries|
    ensures forall i :: 0 <= i < l.restarts[r] ==> lt(l.entries[i].key, target)
  {
    hide EntryAt, RestartPoint;
  }

  lemma PastLast(data: bytes, restarts: nat, l: Layout, j: nat, offset: nat, key: bytes)
    requires Describes(data, restarts, l) && ReadyFor(l, j, offset, key) && offset >= restarts
    ensures j == |l.entries|
  {
    OffsetOrder(data, restarts, l, j, |l.entries|);
  }

  lemma ReadyDecodes(data: bytes, restarts: nat, l: Layout, j: nat, offset: nat, key: bytes)
    requires Describes(data, restarts, l) && ReadyFor(l, j, offset, key) && offset < restarts <= |data|
    ensures j < |l.entries| && |l.offsets| == |l.entries| + 1 && offset == l.offsets[j]
    ensures var h := DecodeEntry(Ahead(data, restarts, offset));
      && h.Some? && h.value.shared <= |key|
      && var p := offset + h.value.size;
      var q := p + h.value.nonShared;
      && q <= q + h.value.valueLength == l.offsets[j + 1] <= restarts
      && key[..h.value.shared] + data[p..q] == l.entries[j].key && data[q..l.offsets[j + 1]] == l.entries[j].value
  {
    hide *;
    ReadyPlace(l, j, offset, key);
    OffsetOrder(data, restarts, l, j, |l.entries|);
    ReadyIs(l, j, offset, key);
    DecodesInData(data, restarts, l, j);
    var h := DecodeEntry(Ahead(data, restarts, offset)).value;
    JoinKey(key, l.shared[j], l.entries[j].key, data[offset + h.size..offset + h.size + h.nonShared]);
  }

  lemma DecodesInData(data: bytes, restarts: nat, l: Layout, j: nat)
    requires Describes(data, restarts, l) && j < |l.entries|
    ensures restarts <= |data| && |l.shared| == |l.entries| && |l.offsets| == |l.entries| + 1
    ensures l.shared[j] <= |l.entries[j].key| && l.offsets[j] <= l.offsets[j + 1] <= restarts
    ensures var h := DecodeEntry(Ahead(data, restarts, l.offsets[j]));
      && h.Some? && h.value.shared == l.shared[j]
      && var p := l.offsets[j] + h.value.size;
      var q := p + h.value.nonShared;
      && q + h.value.valueLength == l.offsets[j + 1]
      && data[p..q] == l.entries[j].key[l.shared[j]..] && data[q..l.offsets[j + 1]] == l.entries[j].value
  {
    hide *;
    DescribedArea(data, restarts, l);
    var area := data[..restarts];
    LaidOutSizes(area, l);
    DecodesEntry(area, l, j);
    AheadIs(data, restarts, l.offsets[j]);
    var h := DecodeEntry(area[l.offsets[j]..]).value;
    var p := l.offsets[j] + h.size;
    SameSlice(data, restarts, p, p + h.nonShared);
    SameSlice(data, restarts, p + h.nonShared, l.offsets[j + 1]);
  }

  lemma AheadIs(data: bytes, restarts: nat, offset: nat)
    requires offset <= restarts <= |data|
    ensures Ahead(data, restarts, offset) == data[..restarts][offset..]
  {
  }

  lemma DescribedArea(data: bytes, restarts: nat, l: Layout)
    requires Describes(data, restarts, l)
    ensures restarts <= |data| && LaidOut(data[..restarts], l) && Small(l)
  {
    hide LaidOut, Small, RestartsOk, RestartPoint;
  }

  lemma JoinKey(last: bytes, n: nat, key: bytes, delta: bytes)
    requires n <= |last| && n <= |key| && last[..n] == key[..n] && delta == key[n..]
    ensures last[..n] + delta == key
  {
  }

  lemma ReadyPlace(l: Layout, j: nat, offset: nat, key: bytes)
    requires ReadyFor(l, j, offset, key)
    ensures |l.offsets| == |l.entries| + 1 && |l.shared| == |l.entries| && j <= |l.entries| && offset == l.offsets[j]
  {
  }

  lemma ReadyIs(l: Layout, j: nat, offset: nat, key: bytes)
    requires ReadyFor(l, j, offset, key) && j < |l.entries|
    ensures offset == l.offsets[j] && l.shared[j] <= |key| && l.shared[j] <= |l.entries[j].key|
    ensures key[..l.shared[j]] == l.entries[j].key[..l.shared[j]]
  {
  }

  lemma SameSlice(data: bytes, restarts: nat, p: nat, q: nat)
    requires p <= q <= restarts <= |data|
    ensures data[p..q] == data[..restarts][p..q]
  {
  }

  /** Opening a block: the trailing restart array must fit in it. `None` is a corrupt block. Of
      the offset of the array a word is kept. */
  function Open(data: bytes): (r: Option<nat>)
    ensures r.Some? ==> |data| >= 4 && r.value + 4 * NumRestarts(data) <= |data| && r.value < MAX_UINT32
    ensures r.Some? && |data| < MAX_UINT32 ==> r.value + 4 * (NumRestarts(data) + 1) == |data|
  {
    if |data| < 4 || NumRestarts(data) > (|data| - 4) / 4 then None
    else
      NumRestartsIsWord(data);
      Some((|data| - 4 * ((NumRestarts(data) + 1) % MAX_UINT32)) % MAX_UINT32)
  }

  lemma NumRestartsIsWord(data: bytes)
    requires |data| >= 4
    ensures NumRestarts(data) < MAX_UINT32
  {
    assert data[|data| - 4 + 4 * 0..|data| - 4 + 4 * 0 + 4] == data[|data| - 4..];
    StoredFits(data[|data| - 4..]);
  }

  datatype Opened = BadBlock | EmptyBlock | Entries(it: Iter)

  /** A block with one restart point can be opened and runs out at its first entry. */
  lemma WrappingBlockRunsOut()
    ensures var data := WRAPPING + Fixed(0, 4) + Fixed(1, 4);
      Open(data) == Some(7) && !HeadersFit(data, 7) && RestartPoint(data, 7, 0) == 0 && RunsOut(data, 7, 0)
  {
    var data := WRAPPING + Fixed(0, 4) + Fixed(1, 4);
    hide Fixed, Open, HeadersFit, RestartPoint, RunsOut;
    RunsOutIn(data);
  }

  lemma RunsOutIn(data: bytes)
    requires |data| == 15 && data[..7] == WRAPPING && data[7..11] == Fixed(0, 4) && data[11..15] == Fixed(1, 4)
    ensures Open(data) == Some(7) && !HeadersFit(data, 7) && RestartPoint(data, 7, 0) == 0 && RunsOut(data, 7, 0)
  {
    hide Fixed;
    PointIs(data, 7, 0, 0);
    PointIs(data, 11, 0, 1);
    hide RestartPoint;
    assert Ahead(data, 7, 0) == WRAPPING;
    WrappedHeaderIsAccepted();
    hide DecodeHeader, DecodeEntry;
    FitIffNoneRunsOut(data, 7);
    assert RunsOut(data, 7, 0);
  }

  /** The offset of the restart array of a whole block. */
  lemma BlockOpens(data: bytes, l: Layout)
    requires IsBlock(data, l)
    ensures Open(data) == Some(|data| - 4 * (|l.restarts| + 1)) && NumRestarts(data) == |l.restarts| > 0
  {
    var restarts := |data| - 4 * (|l.restarts| + 1);
    OffsetOrder(data, restarts, l, 0, 0);
    assert restarts < MAX_UINT32;
    hide Describes, NumRestarts;
    var n := |l.restarts| + 1;
    NumRestartsIsWord(data);
    if n == MAX_UINT32 {
      assert (restarts + 4 * MAX_UINT32) % MAX_UINT32 == restarts;
    }
  }

  method NewIterator(lt: Before, data: bytes, ghost layout: Layout) returns (r: Opened)
    ensures r == BadBlock <==> Open(data) == None
    ensures r == EmptyBlock <==> Open(data).Some? && NumRestarts(data) == 0
    ensures r.Entries? ==>
              && fresh(r.it) && r.it.Safe() && r.it.Sound() && r.it.lt == lt && r.it.layout == layout
              && (IsBlock(data, layout) ==> r.it.Built())
    ensures IsBlock(data, layout) ==> r.Entries?
  {
    hide IsBlock, Describes, NumRestarts;
    if IsBlock(data, layout) { BlockOpens(data, layout); IsBlockIs(data, layout); }
    if |data| < 4 || NumRestarts(data) > (|data| - 4) / 4 {
      return BadBlock;
    }
    if NumRestarts(data) == 0 {
      return EmptyBlock;
    }
    NumRestartsIsWord(data);
    var restarts := (|data| - 4 * ((NumRestarts(data) + 1) % MAX_UINT32)) % MAX_UINT32;
    var it := new Iter(lt, data, restarts, NumRestarts(data), layout);
    return Entries(it);
  }

  lemma IsBlockIs(data: bytes, l: Layout)
    requires IsBlock(data, l)
    ensures |data| >= 4 * (|l.restarts| + 1) && Describes(data, |data| - 4 * (|l.restarts| + 1), l)
  {
    hide Describes;
  }

  /** An upper bound, from the entries alone, on the size of any block that holds them: at most
      three five-byte lengths and a restart point for each, and the number of restart points. */
  ghost function SizeBound(entries: seq<Pair>): nat {
    if entries == [] then 4
    else
      var last := entries[|entries| - 1];
      SizeBound(entries[..|entries| - 1]) + |last.key| + |last.value| + 19
  }

  lemma {:induction false} BoundGrows(entries: seq<Pair>, n: nat)
    requires n <= |entries|
    ensures SizeBound(entries) >= SizeBound(entries[..n]) + 19 * (|entries| - n)
    decreases |entries| - n
  {
    if n < |entries| {
      BoundGrows(entries, n + 1);
      assert entries[..n + 1][..n] == entries[..n];
    } else {
      assert entries[..n] == entries;
    }
  }

  lemma EntryFits(entries: seq<Pair>, i: nat)
    requires i < |entries|
    ensures SizeBound(entries[..i + 1]) == SizeBound(entries[..i]) + |entries[i].key| + |entries[i].value| + 19
    ensures SizeBound(entries[..i + 1]) <= SizeBound(entries)
  {
    assert entries[..i + 1][..i] == entries[..i];
    BoundGrows(entries, i + 1);
  }

  lemma ShortVarint(v: uint32)
    ensures |Varint(v)| <= 5
  {
    Varint32Fits();
    VarintRoundTrip(v, 5, []);
  }

  lemma ShortEntry(shared: nat, delta: bytes, value: bytes)
    requires shared < MAX_UINT32 && |delta| < MAX_UINT32 && |value| < MAX_UINT32
    ensures |EntryBytes(shared, delta, value)| <= |delta| + |value| + 15
  {
    hide Varint;
    ShortVarint(shared);
    ShortVarint(|delta|);
    ShortVarint(|value|);
  }

  lemma {:induction false} OffsetsFit(area: bytes, l: Layout, n: nat)
    requires LaidOut(area, l) && SizeBound(l.entries) < MAX_UINT32 && n <= |l.entries|
    ensures l.offsets[n] <= SizeBound(l.entries[..n])
  {
    if n > 0 {
      OffsetsFit(area, l, n - 1);
      assert EntryAt(area, l, n - 1);
      EntryFits(l.entries, n - 1);
      var entry, shared := l.entries[n - 1], l.shared[n - 1];
      hide LaidOut, EntryBytes, SizeBound;
      ShortEntry(shared, entry.key[shared..], entry.value);
    }
  }

  lemma {:induction false} RestartsClimb(l: Layout, r: nat)
    requires RestartsOk(l) && r < |l.restarts|
    ensures l.restarts[r] >= r
  {
    if r > 0 { RestartsClimb(l, r - 1); }
  }

  /** Entries that are small together make a block whose lengths and offsets fit their words. */
  lemma BoundedIsSmall(area: bytes, l: Layout)
    requires LaidOut(area, l) && RestartsOk(l) && SizeBound(l.entries) < MAX_UINT32
    ensures Small(l)
  {
    LaidOutSizes(area, l);
    BoundGrows(l.entries, 0);
    RestartsClimb(l, |l.restarts| - 1);
    assert |l.restarts| <= |l.entries| + 1;
    hide LaidOut, RestartsOk;
    forall i | 0 <= i < |l.entries|
      ensures |l.entries[i].key| < MAX_UINT32 && |l.entries[i].value| < MAX_UINT32
    {
      EntryFits(l.entries, i);
    }
    forall i | 0 <= i < |l.offsets| ensures l.offsets[i] < MAX_UINT32 {
      OffsetsFit(area, l, i);
      BoundGrows(l.entries, i);
    }
  }

  /** Round trip: a block built from any ascending entries, at any restart interval, opens and
      is read from front to back as the same entries, if together they are small enough. */
  method BuildAndRead(lt: Before, interval: nat, entries: seq<Pair>) returns (read: seq<Pair>)
    requires interval >= 1 && Ascending(lt, entries)
    ensures SizeBound(entries) < MAX_UINT32 ==> read == entries
  {
    hide Small, Describes, NumRestarts, LaidOut, RestartsOk, SizeBound;
    var builder := new BlockBuilder(lt, interval);
    var i := 0;
    while i < |entries|
      invariant i <= |entries| && builder.Valid() && !builder.finished && builder.layout.entries == entries[..i]
      invariant fresh(builder) && builder.lt == lt
    {
      assert entries[..i + 1] == entries[..i] + [entries[i]];
      builder.Add(entries[i].key, entries[i].value);
      i := i + 1;
    }
    ghost var layout := builder.layout;
    assert entries[..i] == entries;
    if SizeBound(entries) < MAX_UINT32 {
      BoundedIsSmall(builder.buffer, layout);
    }
    var data := builder.Finish();
    read := ReadBlock(lt, data, layout);
  }

  method ReadBlock(lt: Before, data: bytes, ghost layout: Layout) returns (read: seq<Pair>)
    ensures IsBlock(data, layout) ==> read == layout.entries
  {
    hide Describes, NumRestarts, RestartPoint;
    read := [];
    var r := NewIterator(lt, data, layout);
    if r.Entries? {
      var it := r.it;
      it.SeekToFirst();
      while it.Valid()
        invariant it.Safe() && it.Sound() && fresh(it) && (it.Built() ==> read == layout.entries[..it.index])
        invariant it.layout == layout
        decreases it.restarts - it.current
      {
        read := read + [Pair(it.key, it.Value())];
        it.Next();
      }
    }
  }

  // ---------------------------------------------------------------- one block, one content

  /** A block holds one list of entries: what it was built from is determined by its bytes. */
  lemma {:induction false} LayoutIsUnique(area: bytes, l: Layout, m: Layout, n: nat)
    requires LaidOut(area, l) && LaidOut(area, m) && Small(l) && Small(m) && n <= |l.entries| && n <= |m.entries|
    ensures l.entries[..n] == m.entries[..n] && l.offsets[..n + 1] == m.offsets[..n + 1]
  {
    if n > 0 {
      LayoutIsUnique(area, l, m, n - 1);
      var i := n - 1;
      LaidOutSizes(area, l);
      LaidOutSizes(area, m);
      hide LaidOut, Small;
      assert l.offsets[..n] == m.offsets[..n] && l.offsets[i] == l.offsets[..n][i] == m.offsets[i];
      SameEntry(area, l, m, i);
      assert l.offsets[..n + 1] == l.offsets[..n] + [l.offsets[n]];
      assert m.offsets[..n + 1] == m.offsets[..n] + [m.offsets[n]];
      assert l.entries[..n] == l.entries[..i] + [l.entries[i]];
      assert m.entries[..n] == m.entries[..i] + [m.entries[i]];
    }
  }

  lemma LaidOutSizes(area: bytes, l: Layout)
    requires LaidOut(area, l)
    ensures |l.shared| == |l.entries| && |l.offsets| == |l.entries| + 1
  {
  }

  /** Two entries decoded from the same place, after the same key, are the same. */
  lemma SameEntry(area: bytes, l: Layout, m: Layout, i: nat)
    requires LaidOut(area, l) && LaidOut(area, m) && Small(l) && Small(m) && i < |l.entries| && i < |m.entries|
    requires l.entries[..i] == m.entries[..i] && l.offsets[i] == m.offsets[i]
    ensures l.entries[i] == m.entries[i] && l.offsets[i + 1] == m.offsets[i + 1]
  {
    hide DecodeEntry, LaidOut, Small;
    DecodesEntry(area, l, i);
    DecodesEntry(area, m, i);
    SameKey(area, l, m, i);
  }

  lemma SameKey(area: bytes, l: Layout, m: Layout, i: nat)
    requires LaidOut(area, l) && LaidOut(area, m) && i < |l.entries| && i < |m.entries|
    requires l.entries[..i] == m.entries[..i] && l.shared[i] == m.shared[i]
    requires l.shared[i] <= |l.entries[i].key| && m.shared[i] <= |m.entries[i].key|
    requires l.entries[i].key[l.shared[i]..] == m.entries[i].key[m.shared[i]..]
    ensures l.entries[i].key == m.entries[i].key
  {
    assert EntryAt(area, l, i) && EntryAt(area, m, i);
    var s := l.shared[i];
    assert i > 0 ==> l.entries[i - 1] == l.entries[..i][i - 1] == m.entries[i - 1];
    assert l.entries[i].key == l.entries[i].key[..s] + l.entries[i].key[s..];
    assert m.entries[i].key == m.entries[i].key[..s] + m.entries[i].key[s..];
  }

  lemma EntriesAreUnique(data: bytes, restarts: nat, l: Layout, m: Layout)
    requires Describes(data, restarts, l) && Describes(data, restarts, m)
    ensures l.entries == m.entries
  {
    var area := data[..restarts];
    var n := if |l.entries| < |m.entries| then |l.entries| else |m.entries|;
    hide EntryAt, RestartPoint;
    LayoutIsUnique(area, l, m, n);
    assert l.offsets[n] == l.offsets[..n + 1][n] == m.offsets[n];
    OffsetOrder(data, restarts, l, n, |l.entries|);
    OffsetOrder(data, restarts, m, n, |m.entries|);
    assert l.entries[..n] == l.entries && m.entries[..n] == m.entries;
  }
}
