/** Where a compaction cuts its outputs, told from the merged input: at the places where the
    overlap with the grandparents, or the table, has become too large. */
module OutputCuts {
  import opened DbFormat
  import opened TableFiles
  import opened CompactionInputs

  // ------------------------------------------------ stops for the grandparents

  /** How many of the grandparents end before `key`. */
  function Passed(files: seq<File>, key: InternalKey): (n: nat)
    ensures n <= |files|
  {
    if files == [] || !Less(files[0].largest, key) then 0 else 1 + Passed(files[1..], key)
  }

  lemma {:induction false} PassedIs(files: seq<File>, key: InternalKey, n: nat)
    requires n <= |files| && forall j :: 0 <= j < n ==> Less(files[j].largest, key)
    requires n < |files| ==> !Less(files[n].largest, key)
    ensures Passed(files, key) == n
  {
    hide Less;
    if n > 0 { PassedIs(files[1..], key, n - 1); }
  }

  /** The bytes of the grandparents that end between two keys. */
  function Between(files: seq<File>, a: InternalKey, b: InternalKey): nat {
    if Passed(files, a) <= Passed(files, b) then TotalFileSize(files[Passed(files, a)..Passed(files, b)]) else 0
  }

  /** The place from which overlap is counted at place `i`: the last stop, or the beginning. */
  function LastStop(stops: seq<bool>, i: nat): (j: nat)
    requires i <= |stops|
    ensures j <= i
  {
    if i == 0 then 0 else if stops[i - 1] then i - 1 else LastStop(stops, i - 1)
  }

  /** There is a stop at place `i` exactly if more than ten file sizes of grandparents end between
      the last stop and there. */
  ghost predicate StopIsRight(files: seq<File>, maxFileSize: nat, input: seq<Entry>, stops: seq<bool>, i: nat)
    requires i < |stops| <= |input|
  {
    stops[i] <==> Between(files, input[LastStop(stops, i)].Key(), input[i].Key()) > 10 * maxFileSize
  }

  ghost predicate StopsRight(files: seq<File>, maxFileSize: nat, input: seq<Entry>, stops: seq<bool>) {
    |stops| <= |input| && forall i :: 0 <= i < |stops| ==> StopIsRight(files, maxFileSize, input, stops, i)
  }

  lemma {:induction false} LastStopKept(stops: seq<bool>, b: bool, i: nat)
    requires i <= |stops|
    ensures LastStop(stops + [b], i) == LastStop(stops, i)
  {
    if i > 0 { LastStopKept(stops, b, i - 1); }
  }

  lemma OneMoreStop(files: seq<File>, maxFileSize: nat, input: seq<Entry>, stops: seq<bool>, stop: bool)
    requires StopsRight(files, maxFileSize, input, stops) && |stops| < |input|
    requires stop <==> Between(files, input[LastStop(stops, |stops|)].Key(), input[|stops|].Key()) > 10 * maxFileSize
    ensures StopsRight(files, maxFileSize, input, stops + [stop])
  {
    hide Between, LastStop, StopIsRight;
    StopKept(files, maxFileSize, input, stops, stop, |stops|);
    forall i | 0 <= i < |stops| ensures StopIsRight(files, maxFileSize, input, stops + [stop], i) {
      StopKept(files, maxFileSize, input, stops, stop, i);
    }
  }

  lemma StopKept(files: seq<File>, maxFileSize: nat, input: seq<Entry>, stops: seq<bool>, stop: bool, i: nat)
    requires i <= |stops| < |input|
    requires if i < |stops| then StopIsRight(files, maxFileSize, input, stops, i)
             else (stop <==> Between(files, input[LastStop(stops, i)].Key(), input[i].Key()) > 10 * maxFileSize)
    ensures StopIsRight(files, maxFileSize, input, stops + [stop], i)
  {
    hide Between, LastStop;
    LastStopKept(stops, stop, i);
  }

  lemma {:induction false} SizesAdd(files: seq<File>, a: nat, b: nat, c: nat)
    requires a <= b <= c <= |files|
    ensures TotalFileSize(files[a..c]) == TotalFileSize(files[a..b]) + TotalFileSize(files[b..c])
    decreases c - b
  {
    if b < c {
      SizesAdd(files, a, b, c - 1);
      assert files[a..c][..c - a - 1] == files[a..c - 1] && files[b..c][..c - b - 1] == files[b..c - 1];
    } else {
      assert files[b..c] == [];
    }
  }

  lemma {:induction false} PassedEnd(files: seq<File>, key: InternalKey)
    ensures forall j :: 0 <= j < Passed(files, key) ==> Less(files[j].largest, key)
  {
    hide Less;
    if files != [] { PassedEnd(files[1..], key); }
  }

  lemma {:induction false} PassedGrows(files: seq<File>, a: InternalKey, b: InternalKey)
    requires a == b || Less(a, b)
    ensures Passed(files, a) <= Passed(files, b)
  {
    if files != [] { PassedGrows(files[1..], a, b); }
  }

  /** The grandparents that were passed before a place, and then those between it and the place
      before, are those between the last stop and the place. */
  lemma NextCount(files: seq<File>, input: seq<Entry>, stops: seq<bool>, was: nat, now: nat, span: nat)
    requires SortedEntries(input) && |stops| < |input| && was <= now <= |files|
    requires |stops| > 0 ==> was == Passed(files, input[|stops| - 1].Key())
    requires |stops| == 0 ==> was == 0
    requires forall j :: was <= j < now ==> Less(files[j].largest, input[|stops|].Key())
    requires now < |files| ==> !Less(files[now].largest, input[|stops|].Key())
    requires span == if |stops| == 0 then 0
                     else Between(files, input[LastStop(stops, |stops|)].Key(), input[|stops| - 1].Key()) + TotalFileSize(files[was..now])
    ensures now == Passed(files, input[|stops|].Key())
    ensures span == Between(files, input[LastStop(stops, |stops|)].Key(), input[|stops|].Key())
  {
    var i, key := |stops|, input[|stops|].Key();
    if i == 0 {
      PassedIs(files, key, now);
      assert files[now..now] == [];
    } else {
      var first := LastStop(stops, i);
      LastStopIsBefore(stops, i);
      KeysAscend(input, first, i - 1);
      KeysAscend(input, i - 1, i);
      hide SortedEntries, LastStop, Less;
      PassesOn(files, input[first].Key(), input[i - 1].Key(), key, now);
    }
  }

  lemma PassesOn(files: seq<File>, first: InternalKey, last: InternalKey, key: InternalKey, now: nat)
    requires (first == last || Less(first, last)) && (last == key || Less(last, key))
    requires Passed(files, last) <= now <= |files|
    requires forall j :: Passed(files, last) <= j < now ==> Less(files[j].largest, key)
    requires now < |files| ==> !Less(files[now].largest, key)
    ensures now == Passed(files, key)
    ensures Between(files, first, last) + TotalFileSize(files[Passed(files, last)..now]) == Between(files, first, key)
  {
    var was := Passed(files, last);
    PassedEnd(files, last);
    forall j | 0 <= j < was ensures Less(files[j].largest, key) { assert Less(files[j].largest, last); }
    hide Less, TotalFileSize;
    PassedIs(files, key, now);
    PassedGrows(files, first, last);
    hide Passed;
    SizesAdd(files, Passed(files, first), was, now);
  }

  /** Counting begins anew at a stop, and goes on otherwise. */
  lemma StopCounts(files: seq<File>, input: seq<Entry>, stops: seq<bool>, stop: bool)
    requires |stops| < |input|
    ensures LastStop(stops + [stop], |stops| + 1) == if stop then |stops| else LastStop(stops, |stops|)
    ensures Between(files, input[|stops|].Key(), input[|stops|].Key()) == 0
  {
    LastStopKept(stops, stop, |stops|);
    hide Passed;
    var n := Passed(files, input[|stops|].Key());
    assert files[n..n] == [];
  }

  lemma NothingStops(files: seq<File>, maxFileSize: nat, input: seq<Entry>)
    ensures StopsRight(files, maxFileSize, input, [])
  {
  }

  lemma LastStopIsBefore(stops: seq<bool>, i: nat)
    requires 0 < i <= |stops|
    ensures LastStop(stops, i) < i
  {
  }

  lemma KeysAscend(input: seq<Entry>, i: nat, j: nat)
    requires SortedEntries(input) && i <= j < |input|
    ensures input[i].Key() == input[j].Key() || Less(input[i].Key(), input[j].Key())
  {
  }

  // ---------------------------------------------------------------- outputs

  /** The entries at some places of the input. */
  function At(input: seq<Entry>, places: seq<nat>): seq<Entry>
    requires forall k :: 0 <= k < |places| ==> places[k] < |input|
  {
    seq(|places|, k requires 0 <= k < |places| => input[places[k]])
  }

  predicate NoStop(stops: seq<bool>, a: nat, b: nat) {
    forall m :: a < m <= b && m < |stops| ==> !stops[m]
  }

  ghost predicate Places(input: seq<Entry>, p: seq<nat>, end: nat) {
    && p != [] && end <= |input|
    && (forall k :: 0 <= k < |p| ==> p[k] < end)
    && forall j, k :: 0 <= j < k < |p| ==> p[j] < p[k]
  }

  /** Nothing within an output asks for a cut. */
  ghost predicate Unbroken(input: seq<Entry>, stops: seq<bool>, size: seq<Entry> -> nat, max: nat, p: seq<nat>)
    requires Places(input, p, |input|)
  {
    forall k :: 0 < k < |p| ==> GoesOn(input, stops, size, max, p, k)
  }

  /** The output is not cut before its entry `k`. */
  ghost predicate GoesOn(input: seq<Entry>, stops: seq<bool>, size: seq<Entry> -> nat, max: nat, p: seq<nat>, k: nat)
    requires Places(input, p, |input|) && 0 < k < |p|
  {
    size(At(input, p[..k])) < max && NoStop(stops, p[k - 1], p[k])
  }

  /** Behind an output, and up to `next`, something does. */
  ghost predicate EndsBefore(input: seq<Entry>, stops: seq<bool>, size: seq<Entry> -> nat, max: nat, p: seq<nat>, next: nat)
    requires Places(input, p, |input|)
  {
    size(At(input, p)) >= max || exists m :: p[|p| - 1] < m <= next && m < |stops| && stops[m]
  }

  /** `outs` tells for each output from which places of the input its entries are. An output ends
      exactly where its table has become too large, where there is a stop before its next entry,
      or with the input. */
  ghost predicate CutRight(input: seq<Entry>, stops: seq<bool>, size: seq<Entry> -> nat, max: nat, outs: seq<seq<nat>>) {
    && (forall f :: 0 <= f < |outs| ==> Places(input, outs[f], |input|) && Unbroken(input, stops, size, max, outs[f]))
    && forall f :: 0 < f < |outs| ==> ComesNext(input, stops, size, max, outs[f - 1], outs[f])
  }

  /** An output ends where it has to, and the next one comes behind it. */
  ghost predicate ComesNext(input: seq<Entry>, stops: seq<bool>, size: seq<Entry> -> nat, max: nat, p: seq<nat>, next: seq<nat>)
    requires Places(input, p, |input|) && Places(input, next, |input|)
  {
    p[|p| - 1] < next[0] && EndsBefore(input, stops, size, max, p, next[0])
  }

  /** All places up to the last stop flag are dealt with: `outs` are finished, `p` is being built. */
  ghost predicate CutSoFar(input: seq<Entry>, stops: seq<bool>, size: seq<Entry> -> nat, max: nat, outs: seq<seq<nat>>, p: seq<nat>) {
    var n := |stops|;
    && n <= |input| && CutRight(input, stops, size, max, outs)
    && (forall f :: 0 <= f < |outs| ==> Places(input, outs[f], n))
    && (p != [] ==>
          && Places(input, p, n) && Unbroken(input, stops, size, max, p) && size(At(input, p)) < max
          && NoStop(stops, p[|p| - 1], n)
          && (outs != [] ==> ComesNext(input, stops, size, max, outs[|outs| - 1], p)))
    && (p == [] && outs != [] ==> EndsBefore(input, stops, size, max, outs[|outs| - 1], n))
  }

  lemma NothingCut(input: seq<Entry>, size: seq<Entry> -> nat, max: nat)
    ensures CutSoFar(input, [], size, max, [], [])
  {
  }

  lemma UnbrokenLater(input: seq<Entry>, stops: seq<bool>, b: bool, size: seq<Entry> -> nat, max: nat, p: seq<nat>)
    requires |stops| < |input| && Places(input, p, |stops|) && Places(input, p, |input|) && Unbroken(input, stops, size, max, p)
    ensures Unbroken(input, stops + [b], size, max, p)
  {
    hide At;
    var later := stops + [b];
    forall k | 0 < k < |p| ensures GoesOn(input, later, size, max, p, k) {
      assert GoesOn(input, stops, size, max, p, k);
    }
  }

  lemma EndsLater(input: seq<Entry>, stops: seq<bool>, b: bool, size: seq<Entry> -> nat, max: nat, p: seq<nat>, next: nat, next': nat)
    requires Places(input, p, |input|) && EndsBefore(input, stops, size, max, p, next) && next <= next'
    ensures EndsBefore(input, stops + [b], size, max, p, next')
  {
    hide At;
    if size(At(input, p)) < max {
      var m :| p[|p| - 1] < m <= next && m < |stops| && stops[m];
      assert (stops + [b])[m];
    }
  }

  lemma CutRightLater(input: seq<Entry>, stops: seq<bool>, b: bool, size: seq<Entry> -> nat, max: nat, outs: seq<seq<nat>>)
    requires |stops| < |input| && CutRight(input, stops, size, max, outs)
    requires forall f :: 0 <= f < |outs| ==> Places(input, outs[f], |stops|)
    ensures CutRight(input, stops + [b], size, max, outs)
  {
    hide Unbroken, EndsBefore, At;
    forall f | 0 <= f < |outs| ensures Unbroken(input, stops + [b], size, max, outs[f]) {
      UnbrokenLater(input, stops, b, size, max, outs[f]);
    }
    forall f | 0 < f < |outs| ensures ComesNext(input, stops + [b], size, max, outs[f - 1], outs[f]) {
      assert ComesNext(input, stops, size, max, outs[f - 1], outs[f]);
      EndsLater(input, stops, b, size, max, outs[f - 1], outs[f][0], outs[f][0]);
    }
  }

  lemma PlacesLater(input: seq<Entry>, p: seq<nat>, n: nat, m: nat)
    requires Places(input, p, n) && n <= m <= |input|
    ensures Places(input, p, m)
  {
  }

  /** One more finished output. */
  lemma OneMoreOutput(input: seq<Entry>, stops: seq<bool>, size: seq<Entry> -> nat, max: nat, outs: seq<seq<nat>>, p: seq<nat>)
    requires CutRight(input, stops, size, max, outs) && Places(input, p, |input|) && Unbroken(input, stops, size, max, p)
    requires outs != [] ==> ComesNext(input, stops, size, max, outs[|outs| - 1], p)
    ensures CutRight(input, stops, size, max, outs + [p])
  {
    hide Unbroken, EndsBefore, Places;
  }

  /** The next place asks for a stop, or does not; with one, what is being built is finished. */
  lemma NextPlace(input: seq<Entry>, stops: seq<bool>, stop: bool, size: seq<Entry> -> nat, max: nat, outs: seq<seq<nat>>, p: seq<nat>)
    requires CutSoFar(input, stops, size, max, outs, p) && |stops| < |input|
    ensures CutBefore(input, stops + [stop], size, max, if stop && p != [] then outs + [p] else outs, if stop then [] else p)
  {
    hide Unbroken, EndsBefore, At, NoStop;
    var n, later := |stops|, stops + [stop];
    CutRightLater(input, stops, stop, size, max, outs);
    if outs != [] { AllPlacesLater(input, outs, n); }
    if p != [] {
      PlacesLater(input, p, n, n + 1);
      PlacesLater(input, p, n, |input|);
      UnbrokenLater(input, stops, stop, size, max, p);
      if outs != [] {
        EndsLater(input, stops, stop, size, max, outs[|outs| - 1], p[0], p[0]);
      }
      if stop {
        OneMoreOutput(input, later, size, max, outs, p);
        StopEnds(input, later, size, max, p, n);
      } else {
        StillNoStop(stops, p[|p| - 1]);
      }
    } else if outs != [] {
      EndsLater(input, stops, stop, size, max, outs[|outs| - 1], n, n);
    }
  }

  lemma AllPlacesLater(input: seq<Entry>, outs: seq<seq<nat>>, n: nat)
    requires n < |input| && forall f :: 0 <= f < |outs| ==> Places(input, outs[f], n)
    ensures forall f :: 0 <= f < |outs| ==> Places(input, outs[f], n + 1)
  {
  }

  lemma StopEnds(input: seq<Entry>, stops: seq<bool>, size: seq<Entry> -> nat, max: nat, p: seq<nat>, n: nat)
    requires Places(input, p, |input|) && p[|p| - 1] < n < |stops| && stops[n]
    ensures EndsBefore(input, stops, size, max, p, n)
  {
  }

  lemma StillNoStop(stops: seq<bool>, a: nat)
    requires NoStop(stops, a, |stops|)
    ensures NoStop(stops + [false], a, |stops|)
  {
  }

  /** The stop flag of the last place is known, its entry not yet dealt with. */
  ghost predicate CutBefore(input: seq<Entry>, stops: seq<bool>, size: seq<Entry> -> nat, max: nat, outs: seq<seq<nat>>, p: seq<nat>) {
    && 0 < |stops| <= |input| && CutRight(input, stops, size, max, outs)
    && var n := |stops| - 1;
       && (forall f :: 0 <= f < |outs| ==> Places(input, outs[f], n + 1) && outs[f][|outs[f]| - 1] < n)
       && (p != [] ==>
             && Places(input, p, n + 1) && p[|p| - 1] < n && Unbroken(input, stops, size, max, p) && size(At(input, p)) < max
             && NoStop(stops, p[|p| - 1], n)
             && (outs != [] ==> ComesNext(input, stops, size, max, outs[|outs| - 1], p)))
       && (p == [] && outs != [] ==> EndsBefore(input, stops, size, max, outs[|outs| - 1], n))
  }

  lemma EntryDropped(input: seq<Entry>, stops: seq<bool>, size: seq<Entry> -> nat, max: nat, outs: seq<seq<nat>>, p: seq<nat>)
    requires CutBefore(input, stops, size, max, outs, p)
    ensures CutSoFar(input, stops, size, max, outs, p)
  {
    hide Unbroken, At, Places;
  }

  lemma Grown(input: seq<Entry>, stops: seq<bool>, size: seq<Entry> -> nat, max: nat, p: seq<nat>, n: nat)
    requires n < |input| && (p != [] ==> Places(input, p, n + 1) && p[|p| - 1] < n && Places(input, p, |input|))
    requires p != [] ==> Unbroken(input, stops, size, max, p) && size(At(input, p)) < max && NoStop(stops, p[|p| - 1], n)
    ensures Places(input, p + [n], n + 1) && Places(input, p + [n], |input|) && Unbroken(input, stops, size, max, p + [n])
  {
    hide NoStop;
    var q := p + [n];
    forall k | 0 < k < |q| ensures GoesOn(input, stops, size, max, q, k) {
      assert q[..k] == p[..k];
      if k == |p| { assert p[..k] == p; } else { assert GoesOn(input, stops, size, max, p, k); }
    }
  }

  /** The last place's entry is kept; it ends its output if that has become large enough. */
  lemma EntryKept(input: seq<Entry>, stops: seq<bool>, size: seq<Entry> -> nat, max: nat, outs: seq<seq<nat>>, p: seq<nat>)
    requires CutBefore(input, stops, size, max, outs, p)
    ensures var q := p + [|stops| - 1];
      && (forall k :: 0 <= k < |q| ==> q[k] < |input|)
      && if size(At(input, q)) >= max then CutSoFar(input, stops, size, max, outs + [q], []) else CutSoFar(input, stops, size, max, outs, q)
  {
    hide Unbroken, EndsBefore, At, NoStop;
    var n := |stops| - 1;
    var q := p + [n];
    if p != [] { PlacesLater(input, p, n + 1, |input|); }
    Grown(input, stops, size, max, p, n);
    if size(At(input, q)) >= max {
      OneMoreOutput(input, stops, size, max, outs, q);
      LargeEnds(input, stops, size, max, q, n + 1);
    } else {
      NoneLeft(stops, n);
    }
  }

  lemma LargeEnds(input: seq<Entry>, stops: seq<bool>, size: seq<Entry> -> nat, max: nat, p: seq<nat>, n: nat)
    requires Places(input, p, |input|) && size(At(input, p)) >= max
    ensures EndsBefore(input, stops, size, max, p, n)
  {
  }

  lemma NoneLeft(stops: seq<bool>, n: nat)
    requires |stops| == n + 1
    ensures NoStop(stops, n, n + 1)
  {
  }

  /** At the end of the input what is being built is finished. */
  lemma InputEnds(input: seq<Entry>, stops: seq<bool>, size: seq<Entry> -> nat, max: nat, outs: seq<seq<nat>>, p: seq<nat>)
    requires CutSoFar(input, stops, size, max, outs, p)
    ensures CutRight(input, stops, size, max, if p == [] then outs else outs + [p])
  {
    hide Unbroken, EndsBefore, At, NoStop;
    if p != [] {
      PlacesLater(input, p, |stops|, |input|);
      OneMoreOutput(input, stops, size, max, outs, p);
    }
  }
}
