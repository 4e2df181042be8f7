/** Filter blocks: one filter for each 2 KB of table offsets, looked up by block offset. */
module FilterBlocks {
  import opened DbFormat
  import opened Coding

  const FILTER_BASE_LG := 11
  const FILTER_BASE := 2048

  /** A filter policy: how a filter is made from keys, and what it says about a key. */
  datatype Policy = Policy(create: seq<bytes> -> bytes, mayMatch: (bytes, bytes) -> bool)

  /** All that is asked of a policy. */
  ghost predicate AcceptsItsKeys(p: Policy) {
    forall keys, k :: k in keys ==> p.mayMatch(k, p.create(keys))
  }

  ghost function Concat(parts: seq<bytes>): bytes {
    if parts == [] then [] else Concat(parts[..|parts| - 1]) + parts[|parts| - 1]
  }

  lemma {:induction false} ConcatPart(parts: seq<bytes>, i: nat)
    requires i < |parts|
    ensures |Concat(parts[..i])| + |parts[i]| == |Concat(parts[..i + 1])| <= |Concat(parts)|
    ensures Concat(parts)[|Concat(parts[..i])|..|Concat(parts[..i + 1])|] == parts[i]
  {
    var n := |parts| - 1;
    assert parts[..i + 1][..i] == parts[..i];
    if i < n {
      ConcatPart(parts[..n], i);
      assert parts[..n][..i] == parts[..i] && parts[..n][..i + 1] == parts[..i + 1];
      var whole, part := Concat(parts), Concat(parts[..n]);
      var a, b := |Concat(parts[..i])|, |Concat(parts[..i + 1])|;
      assert whole == part + parts[n];
      assert whole[a..b] == part[a..b];
    } else {
      assert parts[..n + 1] == parts;
    }
  }

  /** The filter made from the keys of one range of offsets; without keys it is empty. */
  function FilterOf(p: Policy, keys: seq<bytes>): bytes {
    if keys == [] then [] else p.create(keys)
  }

  ghost function FiltersOf(p: Policy, groups: seq<seq<bytes>>): seq<bytes> {
    seq(|groups|, i requires 0 <= i < |groups| => FilterOf(p, groups[i]))
  }

  /** Little-endian words one after the other. */
  function Words(ws: seq<nat>): (b: bytes)
    ensures |b| == 4 * |ws|
  {
    if ws == [] then [] else Words(ws[..|ws| - 1]) + Fixed(ws[|ws| - 1], 4)
  }

  lemma {:induction false} WordAt(front: bytes, ws: seq<nat>, tail: bytes, i: nat)
    requires i < |ws| && ws[i] < MAX_UINT32
    ensures ReadFixed((front + Words(ws) + tail)[|front| + 4 * i..|front| + 4 * i + 4]) == ws[i]
  {
    var n := |ws| - 1;
    hide Fixed, ReadFixed;
    if i < n {
      assert front + Words(ws) + tail == front + Words(ws[..n]) + (Fixed(ws[n], 4) + tail);
      WordAt(front, ws[..n], Fixed(ws[n], 4) + tail, i);
    } else {
      var all := front + Words(ws) + tail;
      assert all[|front| + 4 * i..|front| + 4 * i + 4] == Fixed(ws[n], 4);
      Fixed32Fits();
      FixedRoundTrip(ws[n], 4);
    }
  }

  /** The finished block: filters, their offsets, where the offsets start, the parameter. */
  ghost function BlockBytes(p: Policy, groups: seq<seq<bytes>>, offsets: seq<nat>): bytes {
    var result := Concat(FiltersOf(p, groups));
    result + Words(offsets + [|result|]) + [FILTER_BASE_LG]
  }

  ghost predicate OffsetsOf(p: Policy, groups: seq<seq<bytes>>, offsets: seq<nat>) {
    && |offsets| == |groups|
    && forall i :: 0 <= i < |groups| ==> offsets[i] == |Concat(FiltersOf(p, groups)[..i])|
  }

  class FilterBlockBuilder {
    const policy: Policy
    var keys: bytes
    var start: seq<nat>
    var result: bytes
    var filterOffsets: seq<nat>
    /** Where the current block starts, the keys not in a filter yet, and those of each filter. */
    ghost var blockOffset: nat
    ghost var pending: seq<bytes>
    ghost var groups: seq<seq<bytes>>
    /** Every key with the offset of its block. */
    ghost var added: set<(nat, bytes)>

    constructor (policy: Policy)
      ensures Valid() && this.policy == policy && added == {} && blockOffset == 0
    {
      this.policy := policy;
      keys, start, result, filterOffsets := [], [], [], [];
      blockOffset, pending, groups, added := 0, [], [], {};
    }

    /** The keys added are in the filter of their range, or wait for the next one. */
    ghost predicate Built()
      reads this
    {
      && keys == Concat(pending) && |start| == |pending|
      && (forall i :: 0 <= i < |pending| ==> start[i] == |Concat(pending[..i])|)
      && result == Concat(FiltersOf(policy, groups)) && OffsetsOf(policy, groups, filterOffsets)
      && Grouped(added, groups, pending)
    }

    ghost predicate Valid()
      reads this
    {
      Built() && |filterOffsets| == blockOffset / FILTER_BASE
    }

    method StartBlock(offset: nat)
      requires Valid() && offset >= blockOffset
      modifies this
      ensures Valid() && blockOffset == offset && added == old(added)
    {
      hide Concat, Grouped, OffsetsOf;
      var index := offset / FILTER_BASE;
      while index > |filterOffsets|
        invariant Built() && added == old(added) && |filterOffsets| <= index
        decreases index - |filterOffsets|
      {
        GenerateFilter();
      }
      blockOffset := offset;
    }

    method AddKey(key: bytes)
      requires Valid()
      modifies this
      ensures Valid() && blockOffset == old(blockOffset) && added == old(added) + {(blockOffset, key)}
    {
      hide FiltersOf;
      start := start + [|keys|];
      keys := keys + key;
      assert (pending + [key])[..|pending|] == pending;
      assert forall i :: 0 <= i <= |pending| ==> (pending + [key])[..i] == pending[..i];
      pending := pending + [key];
      added := added + {(blockOffset, key)};
    }

    /** Makes the filter of the keys that wait, which may be none. */
    method GenerateFilter()
      requires Built()
      modifies this
      ensures Built() && added == old(added) && groups == old(groups) + [old(pending)] && pending == []
      ensures |filterOffsets| == |old(filterOffsets)| + 1
    {
      hide Concat;
      GroupGrows(policy, groups, pending, filterOffsets);
      GroupedGrows(added, groups, pending);
      NoParts();
      assert pending[..|pending|] == pending && result + [] == result;
      var numKeys := |start|;
      filterOffsets := filterOffsets + [|result|];
      if numKeys > 0 {
        start := start + [|keys|];
        var tmpKeys: seq<bytes> := [];
        var i := 0;
        while i < numKeys
          invariant |start| == numKeys + 1 == |pending| + 1 && keys == Concat(pending)
          invariant 0 <= i <= numKeys && tmpKeys == pending[..i]
          invariant forall j :: 0 <= j <= |pending| ==> start[j] == |Concat(pending[..j])|
          invariant result == old(result) && pending == old(pending) && groups == old(groups) && added == old(added)
          invariant filterOffsets == old(filterOffsets) + [|result|]
        {
          ConcatPart(pending, i);
          tmpKeys := tmpKeys + [keys[start[i]..start[i + 1]]];
          i := i + 1;
        }
        assert tmpKeys == pending;
        result := result + policy.create(tmpKeys);
      }
      keys, start := [], [];
      groups := groups + [pending];
      pending := [];
    }

    /** Closes the block. Offsets must fit the words they are stored in. */
    method Finish() returns (block: bytes)
      requires Valid()
      modifies this
      ensures added == old(added) && Grouped(added, groups, []) && OffsetsOf(policy, groups, filterOffsets)
      ensures block == BlockBytes(policy, groups, filterOffsets)
    {
      hide Concat, OffsetsOf, Fixed, Grouped;
      if start != [] {
        GenerateFilter();
      } else {
        assert pending == [];
      }
      ghost var filters, offsets, made := result, filterOffsets, groups;
      var arrayOffset := |result|;
      var i := 0;
      while i < |filterOffsets|
        invariant 0 <= i <= |filterOffsets| && result == filters + Words(filterOffsets[..i])
        invariant filterOffsets == offsets && groups == made && added == old(added)
      {
        assert filterOffsets[..i + 1][..i] == filterOffsets[..i];
        result := result + Fixed(filterOffsets[i], 4);
        i := i + 1;
      }
      assert filterOffsets[..|filterOffsets|] == filterOffsets;
      assert (filterOffsets + [arrayOffset])[..|filterOffsets|] == filterOffsets;
      result := result + Fixed(arrayOffset, 4);
      result := result + [FILTER_BASE_LG];
      block := result;
    }
  }

  ghost predicate Grouped(added: set<(nat, bytes)>, groups: seq<seq<bytes>>, pending: seq<bytes>) {
    forall a :: a in added ==>
      a.0 / FILTER_BASE <= |groups| && a.1 in if a.0 / FILTER_BASE < |groups| then groups[a.0 / FILTER_BASE] else pending
  }

  lemma NoParts()
    ensures Concat([]) == []
  {
  }

  lemma GroupedGrows(added: set<(nat, bytes)>, groups: seq<seq<bytes>>, pending: seq<bytes>)
    requires Grouped(added, groups, pending)
    ensures Grouped(added, groups + [pending], [])
  {
  }

  lemma GroupGrows(p: Policy, groups: seq<seq<bytes>>, pending: seq<bytes>, offsets: seq<nat>)
    requires OffsetsOf(p, groups, offsets)
    ensures var filters := FiltersOf(p, groups);
      && Concat(FiltersOf(p, groups + [pending])) == Concat(filters) + FilterOf(p, pending)
      && OffsetsOf(p, groups + [pending], offsets + [|Concat(filters)|])
  {
    var filters, more := FiltersOf(p, groups), FiltersOf(p, groups + [pending]);
    assert more[..|groups|] == filters && more[|groups|] == FilterOf(p, pending);
    forall i | 0 <= i <= |groups| ensures more[..i] == filters[..i] {}
  }

  // ---------------------------------------------------------------- reading

  /** What a reader finds in the trailer: where the offsets are, how many, and the parameter. */
  datatype Trailer = Trailer(offsets: nat, num: nat, baseLg: nat)

  function ReadTrailer(contents: bytes): Option<Trailer> {
    var n := |contents|;
    if n < 5 then None
    else
      var lastWord := ReadFixed(contents[n - 5..n - 1]);
      if lastWord > n - 5 then None else Some(Trailer(lastWord, (n - 5 - lastWord) / 4, contents[n - 1]))
  }

  lemma {:induction false} PowPositive(b: nat, n: nat)
    requires b > 0
    ensures Pow(b, n) > 0
  {
    if n > 0 { PowPositive(b, n - 1); }
  }

  function Shift(x: nat, n: nat): nat {
    PowPositive(2, n);
    x / Pow(2, n)
  }

  /** Whether a key may be in the block that starts at some offset. Errors count as matches. */
  function KeyMayMatch(p: Policy, contents: bytes, blockOffset: nat, key: bytes): bool {
    match ReadTrailer(contents)
    case None => true
    case Some(t) =>
      var index := Shift(blockOffset, t.baseLg);
      if index >= t.num then true
      else
        var at := t.offsets + index * 4;
        assert at + 8 <= |contents| - 1 by { assert index * 4 + 4 <= t.num * 4; }
        var start, limit := ReadFixed(contents[at..at + 4]), ReadFixed(contents[at + 4..at + 8]);
        if start <= limit && limit <= t.offsets then p.mayMatch(key, contents[start..limit])
        else start != limit
  }

  lemma ShiftIsIndex(x: nat)
    ensures Shift(x, FILTER_BASE_LG) == x / FILTER_BASE
  {
    assert Pow(2, 4) == 16 && Pow(2, 8) == 256 && Pow(2, 11) == 2048;
  }

  lemma TrailerIs(p: Policy, groups: seq<seq<bytes>>, offsets: seq<nat>)
    requires OffsetsOf(p, groups, offsets) && |Concat(FiltersOf(p, groups))| < MAX_UINT32
    ensures ReadTrailer(BlockBytes(p, groups, offsets)) == Some(Trailer(|Concat(FiltersOf(p, groups))|, |groups|, FILTER_BASE_LG))
  {
    var result := Concat(FiltersOf(p, groups));
    var ws := offsets + [|result|];
    assert |offsets| == |groups|;
    hide Concat, FiltersOf, OffsetsOf, Words, ReadFixed;
    WordAt(result, ws, [FILTER_BASE_LG], |groups|);
  }

  /** The filter that is consulted for an offset is the one made from the keys of its range. */
  lemma ConsultsItsFilter(p: Policy, groups: seq<seq<bytes>>, offsets: seq<nat>, blockOffset: nat, key: bytes)
    requires OffsetsOf(p, groups, offsets) && |Concat(FiltersOf(p, groups))| < MAX_UINT32
    ensures var i := blockOffset / FILTER_BASE;
      KeyMayMatch(p, BlockBytes(p, groups, offsets), blockOffset, key) ==
      (i >= |groups| || p.mayMatch(key, FilterOf(p, groups[i])))
  {
    TrailerIs(p, groups, offsets);
    ShiftIsIndex(blockOffset);
    var i := blockOffset / FILTER_BASE;
    if i < |groups| {
      EntryIs(p, groups, offsets, i);
    }
    hide ReadTrailer, Shift, FilterOf, FiltersOf, OffsetsOf, Concat, BlockBytes, ReadFixed;
  }

  lemma EntryIs(p: Policy, groups: seq<seq<bytes>>, offsets: seq<nat>, i: nat)
    requires OffsetsOf(p, groups, offsets) && |Concat(FiltersOf(p, groups))| < MAX_UINT32 && i < |groups|
    ensures var block, at := BlockBytes(p, groups, offsets), |Concat(FiltersOf(p, groups))| + i * 4;
      && at + 8 <= |block|
      && var start, limit := ReadFixed(block[at..at + 4]), ReadFixed(block[at + 4..at + 8]);
      start <= limit <= |Concat(FiltersOf(p, groups))| && block[start..limit] == FilterOf(p, groups[i])
  {
    WordsAre(p, groups, offsets, i);
    hide ReadFixed, OffsetsOf, FilterOf, FiltersOf;
    var filters := FiltersOf(p, groups);
    var ws := offsets + [|Concat(filters)|];
    ConcatPart(filters, i);
    hide Concat, Words;
    var block := BlockBytes(p, groups, offsets);
    assert block == Concat(filters) + Words(ws) + [FILTER_BASE_LG];
    hide BlockBytes;
    PartOfFront(Concat(filters), Words(ws) + [FILTER_BASE_LG], block, |Concat(filters[..i])|, |Concat(filters[..i + 1])|);
    WordAt(Concat(filters), ws, [FILTER_BASE_LG], i);
    WordAt(Concat(filters), ws, [FILTER_BASE_LG], i + 1);
    assert |Concat(filters)| + 4 * (i + 1) == |Concat(filters)| + 4 * i + 4;
  }

  lemma PartOfFront(front: bytes, tail: bytes, all: bytes, a: nat, b: nat)
    requires a <= b <= |front| && all == front + tail
    ensures all[a..b] == front[a..b]
  {
  }

  /** The words around a filter: where it starts and where it ends. */
  lemma WordsAre(p: Policy, groups: seq<seq<bytes>>, offsets: seq<nat>, i: nat)
    requires OffsetsOf(p, groups, offsets) && i < |groups|
    ensures var filters := FiltersOf(p, groups);
      var ws := offsets + [|Concat(filters)|];
      && |filters| == |groups| && filters[i] == FilterOf(p, groups[i]) && |ws| == |groups| + 1
      && ws[i] == |Concat(filters[..i])| && ws[i + 1] == |Concat(filters[..i + 1])|
  {
    hide Concat;
    var filters := FiltersOf(p, groups);
    assert filters[..|groups|] == filters;
  }

  /** No false negatives: a key that was added may match at the offset of its block, whatever
      the policy does beyond accepting the keys a filter was made from. */
  lemma NoFalseNegatives(p: Policy, added: set<(nat, bytes)>, groups: seq<seq<bytes>>, offsets: seq<nat>, blockOffset: nat, key: bytes)
    requires AcceptsItsKeys(p) && Grouped(added, groups, []) && OffsetsOf(p, groups, offsets)
    requires |Concat(FiltersOf(p, groups))| < MAX_UINT32 && (blockOffset, key) in added
    ensures KeyMayMatch(p, BlockBytes(p, groups, offsets), blockOffset, key)
  {
    ConsultsItsFilter(p, groups, offsets, blockOffset, key);
    hide KeyMayMatch, BlockBytes, OffsetsOf, Concat;
    var i := blockOffset / FILTER_BASE;
    assert i < |groups| ==> key in groups[i] && FilterOf(p, groups[i]) == p.create(groups[i]);
  }
}
