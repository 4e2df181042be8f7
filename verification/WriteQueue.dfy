/** Group commit: writers queue up, the front one leads, merges followers' batches
    into one record and publishes them by moving the last sequence number. Mutexed
    sections are single steps; logging and inserting happen outside the mutex, one
    insertion at a time. */
module WriteQueue {
  import opened DbFormat

  /** A batch with the size of its encoding. */
  datatype Batch = Batch(ops: seq<Op>, bytes: nat)

  /** A null batch only waits for its turn. */
  datatype Writer = Writer(batch: Option<Batch>, sync: bool)

  const SMALL_WRITE: nat := 0x2_0000
  const MAX_GROUP: nat := 0x10_0000

  function MaxGroupSize(first: nat): nat {
    if first <= SMALL_WRITE then first + SMALL_WRITE else MAX_GROUP
  }

  function OpsOf(w: Writer): seq<Op> {
    if w.batch.Some? then w.batch.value.ops else []
  }

  function BytesOf(w: Writer): nat {
    if w.batch.Some? then w.batch.value.bytes else 0
  }

  function GroupOps(ws: seq<Writer>): seq<Op> {
    if ws == [] then [] else GroupOps(ws[..|ws| - 1]) + OpsOf(ws[|ws| - 1])
  }

  function GroupBytes(ws: seq<Writer>): nat {
    if ws == [] then 0 else GroupBytes(ws[..|ws| - 1]) + BytesOf(ws[|ws| - 1])
  }

  function Batches(ws: seq<Writer>): nat {
    if ws == [] then 0 else Batches(ws[..|ws| - 1]) + if ws[|ws| - 1].batch.Some? then 1 else 0
  }

  /** May `w` join the group `taken`, which its first writer leads? */
  predicate MayJoin(taken: seq<Writer>, w: Writer)
    requires taken != []
  {
    && !(w.sync && !taken[0].sync)
    && (w.batch.Some? ==> GroupBytes(taken) + w.batch.value.bytes <= MaxGroupSize(BytesOf(taken[0])))
  }

  /** The group is the longest prefix of the queue each of whose writers may join
      those before it. */
  predicate IsGroup(queue: seq<Writer>, n: nat) {
    && 0 < n <= |queue|
    && (forall i :: 1 <= i < n ==> MayJoin(queue[..i], queue[i]))
    && (n < |queue| ==> !MayJoin(queue[..n], queue[n]))
  }

  lemma GroupIsUnique(queue: seq<Writer>, m: nat, n: nat)
    requires IsGroup(queue, m) && IsGroup(queue, n)
    ensures m == n
  {
    hide MayJoin;
    JoinsBefore(queue, n);
    JoinsBefore(queue, m);
  }

  lemma JoinsBefore(queue: seq<Writer>, n: nat)
    requires IsGroup(queue, n)
    ensures forall i :: 1 <= i < n ==> MayJoin(queue[..i], queue[i])
    ensures n < |queue| ==> !MayJoin(queue[..n], queue[n])
  {
  }

  lemma EmptyGroup()
    ensures GroupOps([]) == [] && GroupBytes([]) == 0 && Batches([]) == 0
  {
  }

  lemma GroupSnoc(ws: seq<Writer>, n: nat)
    requires n < |ws|
    ensures GroupOps(ws[..n + 1]) == GroupOps(ws[..n]) + OpsOf(ws[n])
    ensures GroupBytes(ws[..n + 1]) == GroupBytes(ws[..n]) + BytesOf(ws[n])
    ensures Batches(ws[..n + 1]) == Batches(ws[..n]) + if ws[n].batch.Some? then 1 else 0
  {
    assert ws[..n + 1][..n] == ws[..n];
  }

  lemma {:induction false} BytesGrow(ws: seq<Writer>, m: nat, n: nat)
    requires m <= n <= |ws|
    ensures GroupBytes(ws[..m]) <= GroupBytes(ws[..n])
    decreases n - m
  {
    hide GroupOps, GroupBytes, Batches;
    if m < n {
      BytesGrow(ws, m, n - 1);
      GroupSnoc(ws, n - 1);
    }
  }

  /** What `queue[..j + 1]` asks of the leader: no sync write that the leader is not. */
  predicate NoSyncBeyond(queue: seq<Writer>, j: nat)
    requires j < |queue|
  {
    forall i :: 0 < i <= j && queue[i].sync ==> queue[0].sync
  }

  /** With the first `m` writers the group has at most 131072 bytes more than its leader, or
      1048576 if the leader alone has more than 131072. */
  ghost predicate WithinLimit(queue: seq<Writer>, m: nat)
    requires 0 < m <= |queue|
  {
    var leader, total := BytesOf(queue[0]), GroupBytes(queue[..m]);
    if leader <= 131072 then total <= leader + 131072 else total <= 1048576
  }

  /** A leader whose batch has at most 131072 bytes takes every follower up to which the others
      add at most 131072; one with a larger batch takes them up to 1048576 bytes in all. */
  lemma GroupReaches(queue: seq<Writer>, n: nat, j: nat)
    requires IsGroup(queue, n) && j < |queue| && NoSyncBeyond(queue, j) && WithinLimit(queue, j + 1)
    ensures j < n
  {
    hide GroupOps, GroupBytes, Batches;
    if n <= j {
      assert queue[..n][0] == queue[0];
      BytesGrow(queue, n + 1, j + 1);
      GroupSnoc(queue, n);
    }
  }

  /** A group with a follower's batch stays within that limit. */
  lemma GroupIsBounded(queue: seq<Writer>, n: nat, i: nat)
    requires IsGroup(queue, n) && 0 < i < n && queue[i].batch.Some?
    ensures WithinLimit(queue, n)
  {
    hide MayJoin, GroupBytes;
    BoundedBefore(queue, n, i);
  }

  lemma {:induction false} BoundedBefore(queue: seq<Writer>, m: nat, i: nat)
    requires 0 < i < m <= |queue| && queue[i].batch.Some?
    requires forall k :: 1 <= k < m ==> MayJoin(queue[..k], queue[k])
    ensures WithinLimit(queue, m)
    decreases m
  {
    hide GroupOps, GroupBytes, Batches;
    var last := m - 1;
    assert MayJoin(queue[..last], queue[last]);
    assert queue[..last][0] == queue[0];
    GroupSnoc(queue, last);
    if queue[last].batch.None? { BoundedBefore(queue, last, i); }
  }

  /** Merges the front writer's batch with those that may join it. The caller's batch
      is used as it is unless another one is appended; then all go to `tmp`. */
  method BuildBatchGroup(queue: seq<Writer>, tmp: seq<Op>)
    returns (n: nat, updates: seq<Op>, usesTmp: bool, newTmp: seq<Op>)
    requires queue != [] && queue[0].batch.Some?
    requires tmp == []
    ensures IsGroup(queue, n)
    ensures updates == GroupOps(queue[..n])
    ensures usesTmp == (Batches(queue[..n]) > 1)
    ensures newTmp == if usesTmp then updates else []
    ensures forall j :: 0 <= j < |queue| && NoSyncBeyond(queue, j) && WithinLimit(queue, j + 1) ==> j < n
    ensures (exists i :: 0 < i < n && queue[i].batch.Some?) ==> WithinLimit(queue, n)
    ensures forall i :: 0 < i < n && queue[i].sync ==> queue[0].sync
  {
    hide GroupOps, GroupBytes, Batches;
    EmptyGroup();
    assert queue[..0] == [];
    var first := queue[0];
    var result := first.batch.value.ops;
    var size := first.batch.value.bytes;
    var maxSize := MAX_GROUP;
    if size <= SMALL_WRITE {
      maxSize := size + SMALL_WRITE;
    }
    newTmp, usesTmp := tmp, false;
    GroupSnoc(queue, 0);
    assert queue[..1] == [first];
    n := 1;
    while n < |queue|
      invariant 1 <= n <= |queue|
      invariant forall i :: 1 <= i < n ==> MayJoin(queue[..i], queue[i])
      invariant result == GroupOps(queue[..n]) && size == GroupBytes(queue[..n])
      invariant Batches(queue[..n]) >= 1 && usesTmp == (Batches(queue[..n]) > 1)
      invariant newTmp == if usesTmp then result else []
    {
      var w := queue[n];
      GroupSnoc(queue, n);
      ghost var taken := queue[..n];
      assert taken[0] == first;
      if w.sync && !first.sync {
        break;
      }
      if w.batch.Some? {
        if size + w.batch.value.bytes > maxSize {
          break;
        }
        size := size + w.batch.value.bytes;
        if !usesTmp {
          newTmp, usesTmp := newTmp + first.batch.value.ops, true;
          OneBatch(queue, n);
        }
        newTmp := newTmp + w.batch.value.ops;
        result := newTmp;
      }
      n := n + 1;
    }
    updates := result;
    GroupLimits(queue, n);
  }

  lemma GroupLimits(queue: seq<Writer>, n: nat)
    requires IsGroup(queue, n) && 0 < n <= |queue|
    ensures forall j :: 0 <= j < |queue| && NoSyncBeyond(queue, j) && WithinLimit(queue, j + 1) ==> j < n
    ensures (exists i :: 0 < i < n && queue[i].batch.Some?) ==> WithinLimit(queue, n)
    ensures forall i :: 0 < i < n && queue[i].sync ==> queue[0].sync
  {
    hide IsGroup, MayJoin, WithinLimit, NoSyncBeyond;
    forall j | 0 <= j < |queue| && NoSyncBeyond(queue, j) && WithinLimit(queue, j + 1) ensures j < n {
      GroupReaches(queue, n, j);
    }
    if i :| 0 < i < n && queue[i].batch.Some? {
      GroupIsBounded(queue, n, i);
    }
    SyncIsCovered(queue, n);
  }

  lemma SyncIsCovered(queue: seq<Writer>, n: nat)
    requires IsGroup(queue, n)
    ensures forall i :: 0 < i < n && queue[i].sync ==> queue[0].sync
  {
    forall i | 0 < i < n && queue[i].sync ensures queue[0].sync {
      assert MayJoin(queue[..i], queue[i]) && queue[..i][0] == queue[0];
    }
  }

  /** Null batches contribute no operations. */
  lemma {:induction false} OneBatch(queue: seq<Writer>, n: nat)
    requires 0 < n <= |queue| && queue[0].batch.Some? && Batches(queue[..n]) <= 1
    ensures GroupOps(queue[..n]) == queue[0].batch.value.ops
  {
    GroupSnoc(queue, n - 1);
    if n > 1 {
      FirstCounts(queue, n - 1);
      OneBatch(queue, n - 1);
    } else {
      assert queue[..0] == [];
    }
  }

  lemma {:induction false} FirstCounts(queue: seq<Writer>, n: nat)
    requires 0 < n <= |queue| && queue[0].batch.Some?
    ensures Batches(queue[..n]) >= 1
  {
    GroupSnoc(queue, n - 1);
    if n > 1 { FirstCounts(queue, n - 1); }
  }

  // ------------------------------------------------------- the protocol

  /** An operation at the sequence number it was inserted under. */
  datatype Placed = Placed(sn: nat, op: Op)

  /** Where a writing thread is. A leader waits for room, writes the log record and
      inserts into the memtable; the last two happen outside the mutex. */
  datatype Pc =
    | Waiting
    | MakingRoom
    | Logging(members: seq<nat>, ops: seq<Op>, first: nat)
    | Inserting(members: seq<nat>, ops: seq<Op>, first: nat, done: nat)
    | Returned(ok: bool)
  {
    predicate Leads() { MakingRoom? || Logging? || Inserting? }
    predicate Writes() { Logging? || Inserting? }
  }

  /** A finished group: who was in it, what it wrote and where. */
  datatype Group = Group(members: seq<nat>, ops: seq<Op>, first: nat, ok: bool)

  /** `arrivals` and `groups` record history; the rest is the engine's state. */
  datatype State = State(
    writers: map<nat, Writer>,
    pcs: map<nat, Pc>,
    queue: seq<nat>,
    tmpBatch: seq<Op>,
    lastSequence: nat,
    mem: set<Placed>,
    snapshots: set<nat>,
    arrivals: seq<nat>,
    groups: seq<Group>)

  ghost predicate Init(s: State) {
    s == State(map[], map[], [], [], 0, {}, {}, [], [])
  }

  datatype Action =
    | Enqueue(id: nat, writer: Writer)
    | Lead(id: nat)
    | NoGroup(id: nat, ok: bool)
    | FormGroup(id: nat)
    | Log(id: nat, ok: bool)
    | InsertOne(id: nat)
    | Finish(id: nat, ok: bool)
    | TakeSnapshot

  ghost predicate Known(writers: map<nat, Writer>, ids: seq<nat>) {
    forall i :: 0 <= i < |ids| ==> ids[i] in writers
  }

  ghost function WritersOf(writers: map<nat, Writer>, ids: seq<nat>): seq<Writer>
    requires Known(writers, ids)
  {
    seq(|ids|, i requires 0 <= i < |ids| => writers[ids[i]])
  }

  /** Popping a group: its members leave the front of the queue and return the
      leader's status. */
  ghost function Popped(s: State, g: Group): State {
    s.(queue := if |g.members| <= |s.queue| then s.queue[|g.members|..] else [],
       pcs := s.pcs + map i | i in g.members :: Returned(g.ok),
       groups := s.groups + [g])
  }

  ghost predicate Step(s: State, act: Action, t: State) {
    match act
    case Enqueue(id, w) =>
      && id !in s.pcs
      && t == s.(writers := s.writers[id := w], pcs := s.pcs[id := Waiting], queue := s.queue + [id],
                 arrivals := s.arrivals + [id])
    case Lead(id) =>
      // a thread goes on as soon as it is at the front and not done
      && id in s.pcs && s.pcs[id] == Waiting && s.queue != [] && s.queue[0] == id
      && t == s.(pcs := s.pcs[id := MakingRoom])
    case NoGroup(id, ok) =>
      // no room could be made, or the leader only waited for its turn
      && id in s.pcs && s.pcs[id] == MakingRoom && id in s.writers
      && (ok ==> s.writers[id].batch.None?)
      && t == Popped(s, Group([id], [], s.lastSequence + 1, ok))
    case FormGroup(id) =>
      && id in s.pcs && s.pcs[id] == MakingRoom && id in s.writers && s.writers[id].batch.Some?
      && Known(s.writers, s.queue)
      && exists n: nat :: n <= |s.queue| && IsGroup(WritersOf(s.writers, s.queue), n) && Formed(s, id, n, t)
    case Log(id, ok) =>
      && id in s.pcs && s.pcs[id].Logging?
      && var p := s.pcs[id];
         t == if ok then s.(pcs := s.pcs[id := Inserting(p.members, p.ops, p.first, 0)])
              else Finished(s, p, false)
    case InsertOne(id) =>
      && id in s.pcs && s.pcs[id].Inserting? && s.pcs[id].done < |s.pcs[id].ops|
      && var p := s.pcs[id];
         t == s.(mem := s.mem + {Placed(p.first + p.done, p.ops[p.done])},
                 pcs := s.pcs[id := p.(done := p.done + 1)])
    case Finish(id, ok) =>
      && id in s.pcs && s.pcs[id].Inserting? && (ok ==> s.pcs[id].done == |s.pcs[id].ops|)
      && t == Finished(s, s.pcs[id], ok)
    case TakeSnapshot =>
      t == s.(snapshots := s.snapshots + {s.lastSequence})
  }

  /** The leader's atomic section: the group, its sequence numbers, the temporary batch. */
  ghost predicate Formed(s: State, id: nat, n: nat, t: State)
    requires Known(s.writers, s.queue) && n <= |s.queue|
  {
    var ws := WritersOf(s.writers, s.queue)[..n];
    t == s.(pcs := s.pcs[id := Logging(s.queue[..n], GroupOps(ws), s.lastSequence + 1)],
            tmpBatch := if Batches(ws) > 1 then s.tmpBatch + GroupOps(ws) else s.tmpBatch)
  }

  /** Back under the mutex: clear the temporary batch, move the last sequence, pop. */
  ghost function Finished(s: State, p: Pc, ok: bool): State
    requires p.Writes()
  {
    Popped(s.(tmpBatch := [], lastSequence := s.lastSequence + |p.ops|), Group(p.members, p.ops, p.first, ok))
  }

  // ----------------------------------------------------------- invariant

  ghost function Members(groups: seq<Group>): seq<nat> {
    if groups == [] then [] else Members(groups[..|groups| - 1]) + groups[|groups| - 1].members
  }

  ghost predicate Distinct(ids: seq<nat>) {
    forall i, j :: 0 <= i < j < |ids| ==> ids[i] != ids[j]
  }

  /** The thread at the front of the queue. */
  ghost function Front(s: State): Pc {
    if s.queue != [] && s.queue[0] in s.pcs then s.pcs[s.queue[0]] else Waiting
  }

  /** Arrival order is: members of finished groups, then the queue. */
  ghost predicate OrderInv(s: State) {
    && Distinct(s.arrivals) && Known(s.writers, s.arrivals)
    && s.arrivals == Members(s.groups) + s.queue
    && (forall id :: id in s.pcs <==> id in s.arrivals)
    && (forall id :: id in Members(s.groups) ==> id in s.pcs && s.pcs[id].Returned?)
  }

  /** Only the front of the queue leads; the others wait. */
  ghost predicate LeaderInv(s: State) {
    && (forall i :: 0 <= i < |s.queue| ==> s.queue[i] in s.pcs)
    && (forall i :: 1 <= i < |s.queue| ==> s.pcs[s.queue[i]] == Waiting)
    && (s.queue != [] ==> s.pcs[s.queue[0]] == Waiting || s.pcs[s.queue[0]].Leads())
  }

  /** A group's leader covers its sync writers, and the group writes exactly its
      members' batches in order. */
  ghost predicate GoodGroup(writers: map<nat, Writer>, members: seq<nat>, ops: seq<Op>) {
    && members != [] && Known(writers, members)
    && (forall i :: 0 <= i < |members| && writers[members[i]].sync ==> writers[members[0]].sync)
    && ops == GroupOps(WritersOf(writers, members))
  }

  ghost predicate GroupInv(s: State, g: Group) {
    && g.members != [] && Known(s.writers, g.members)
    && (forall i :: 0 <= i < |g.members| ==> g.members[i] in s.pcs && s.pcs[g.members[i]] == Returned(g.ok))
    && (g.ok || g.ops != [] ==> GoodGroup(s.writers, g.members, g.ops))
  }

  /** Groups take consecutive ranges of sequence numbers. */
  ghost predicate Ranges(groups: seq<Group>, last: nat) {
    if groups == [] then last == 0
    else
      var g := groups[|groups| - 1];
      g.first >= 1 && g.first + |g.ops| == last + 1 && Ranges(groups[..|groups| - 1], g.first - 1)
  }

  ghost predicate PhaseInv(s: State) {
    var p := Front(s);
    && (!p.Writes() ==> s.tmpBatch == [])
    && (p.Writes() ==>
          && p.members <= s.queue && GoodGroup(s.writers, p.members, p.ops)
          && p.first == s.lastSequence + 1)
    && (p.Inserting? ==> p.done <= |p.ops|)
  }

  /** `p` is one of the first `n` operations of a group. */
  ghost predicate PlacedBy(p: Placed, first: nat, ops: seq<Op>, n: nat) {
    first <= p.sn < first + n && p.sn - first < |ops| && p.op == ops[p.sn - first]
  }

  ghost predicate AllPlaced(mem: set<Placed>, first: nat, ops: seq<Op>, n: nat) {
    forall i :: 0 <= i < n && i < |ops| ==> Placed(first + i, ops[i]) in mem
  }

  /** The memtable holds all of every successful group and, beyond the last sequence,
      just what the current leader has inserted so far. */
  ghost predicate MemInv(s: State) {
    var f := Front(s);
    && (forall g :: g in s.groups && g.ok ==> AllPlaced(s.mem, g.first, g.ops, |g.ops|))
    && (forall p :: p in s.mem && p.sn > s.lastSequence ==> f.Inserting? && PlacedBy(p, f.first, f.ops, f.done))
    && (f.Inserting? ==> AllPlaced(s.mem, f.first, f.ops, f.done))
  }

  ghost predicate OutsideGroup(r: nat, g: Group) {
    r < g.first || g.first + |g.ops| <= r + 1
  }

  /** A snapshot never falls inside a group. */
  ghost predicate SnapshotInv(s: State) {
    forall r :: r in s.snapshots ==> r <= s.lastSequence && forall g :: g in s.groups ==> OutsideGroup(r, g)
  }

  ghost predicate Inv(s: State) {
    && OrderInv(s) && LeaderInv(s) && PhaseInv(s) && Ranges(s.groups, s.lastSequence) && MemInv(s) && SnapshotInv(s)
    && forall g :: g in s.groups ==> GroupInv(s, g)
  }

  lemma InitInv(s: State)
    requires Init(s)
    ensures Inv(s)
  {
    hide GroupInv, GoodGroup, OutsideGroup, AllPlaced, PlacedBy, Step;
  }

  /** A leading thread is the front of the queue, so there is never more than one. */
  lemma OneLeader(s: State, a: nat, b: nat)
    requires Inv(s) && a in s.pcs && b in s.pcs && s.pcs[a].Leads() && s.pcs[b].Leads()
    ensures a == b && s.queue != [] && s.queue[0] == a
  {
    LeaderIsFront(s, a);
    LeaderIsFront(s, b);
  }

  lemma LeaderIsFront(s: State, id: nat)
    requires OrderInv(s) && LeaderInv(s) && id in s.pcs && s.pcs[id].Leads()
    ensures s.queue != [] && s.queue[0] == id && Front(s) == s.pcs[id]
  {
    assert id in s.arrivals;
    assert id !in Members(s.groups);
    var i :| 0 <= i < |s.queue| && s.queue[i] == id;
  }

  // ------------------------------------------------ every step keeps it

  lemma MembersSnoc(groups: seq<Group>, g: Group)
    ensures Members(groups + [g]) == Members(groups) + g.members
  {
    assert (groups + [g])[..|groups|] == groups;
  }

  /** Finished members and queued writers are different threads. */
  lemma QueuedNotFinished(s: State, i: nat)
    requires OrderInv(s) && i < |s.queue|
    ensures s.queue[i] !in Members(s.groups) && s.queue[i] in s.pcs
    ensures forall j :: 0 <= j < |s.queue| && j != i ==> s.queue[j] != s.queue[i]
  {
    var m := Members(s.groups);
    assert s.arrivals[|m| + i] == s.queue[i];
    forall j | 0 <= j < |s.queue| && j != i ensures s.queue[j] != s.queue[i] {
      assert s.arrivals[|m| + j] == s.queue[j];
    }
    forall k | 0 <= k < |m| ensures m[k] != s.queue[i] {
      assert s.arrivals[k] == m[k];
    }
  }

  lemma PoppedStatus(s: State, g: Group)
    ensures var t := Popped(s, g);
      && (forall id :: id in t.pcs <==> id in s.pcs || id in g.members)
      && (forall id :: id in g.members ==> t.pcs[id] == Returned(g.ok))
      && forall id :: id in t.pcs && id !in g.members ==> t.pcs[id] == s.pcs[id]
  {
  }

  lemma PoppedOrder(s: State, g: Group)
    requires OrderInv(s) && g.members <= s.queue
    ensures s.arrivals == Members(Popped(s, g).groups) + Popped(s, g).queue
    ensures Members(Popped(s, g).groups) == Members(s.groups) + g.members
    ensures forall id :: id in g.members ==> id in s.arrivals
  {
    hide Distinct, Known, Members;
    MembersSnoc(s.groups, g);
    var q := s.queue[|g.members|..];
    assert s.queue == g.members + q;
    assert Members(s.groups) + (g.members + q) == Members(s.groups) + g.members + q;
  }

  lemma PoppedThreads(s: State, g: Group)
    requires OrderInv(s) && g.members <= s.queue
    ensures forall id :: id in Popped(s, g).pcs <==> id in s.arrivals
  {
    PoppedStatus(s, g);
    PoppedOrder(s, g);
    hide Distinct, Known, Members, Popped;
  }

  lemma PoppedReturned(s: State, g: Group)
    requires OrderInv(s) && g.members <= s.queue
    ensures forall id :: id in Members(Popped(s, g).groups) ==> id in Popped(s, g).pcs && Popped(s, g).pcs[id].Returned?
  {
    PoppedStatus(s, g);
    PoppedOrder(s, g);
    hide Distinct, Known, Members, Popped;
    forall id | id in Members(s.groups) + g.members ensures id in Popped(s, g).pcs && Popped(s, g).pcs[id].Returned? {
      assert id in g.members || id in Members(s.groups);
    }
  }

  lemma PopKeepsArrivals(s: State, g: Group)
    requires OrderInv(s) && g.members <= s.queue
    ensures OrderInv(Popped(s, g))
  {
    PoppedThreads(s, g);
    PoppedReturned(s, g);
    PoppedOrder(s, g);
    hide Distinct, Known, Members;
    assert Popped(s, g).arrivals == s.arrivals && Popped(s, g).writers == s.writers;
    hide Popped;
  }

  lemma PopKeepsLeader(s: State, g: Group)
    requires OrderInv(s) && LeaderInv(s) && g.members != [] && g.members <= s.queue
    ensures LeaderInv(Popped(s, g)) && Front(Popped(s, g)) == Waiting
  {
    hide OrderInv;
    var t, n := Popped(s, g), |g.members|;
    forall i | 0 <= i < |t.queue| ensures t.queue[i] in t.pcs && t.pcs[t.queue[i]] == Waiting {
      assert t.queue[i] == s.queue[n + i];
      QueuedNotFinished(s, n + i);
      forall j | 0 <= j < n ensures g.members[j] != t.queue[i] { assert g.members[j] == s.queue[j]; }
    }
  }

  /** Groups finished earlier are not affected by popping another one. */
  lemma PopKeepsGroups(s: State, g: Group, h: Group)
    requires OrderInv(s) && LeaderInv(s) && g.members != [] && g.members <= s.queue
    requires h in s.groups && GroupInv(s, h)
    ensures GroupInv(Popped(s, g), h)
  {
    hide GoodGroup;
    forall i | 0 <= i < |h.members| ensures h.members[i] !in g.members {
      MemberOf(s.groups, h, i);
      if h.members[i] in g.members {
        var j :| 0 <= j < |g.members| && g.members[j] == h.members[i];
        assert s.queue[j] == g.members[j];
        QueuedNotFinished(s, j);
      }
    }
  }

  lemma {:induction false} MemberOf(groups: seq<Group>, h: Group, i: nat)
    requires h in groups && i < |h.members|
    ensures h.members[i] in Members(groups)
  {
    var n := |groups| - 1;
    if h != groups[n] { MemberOf(groups[..n], h, i); }
  }

  /** The writer of an old group is not the one that arrives or moves now. */
  lemma GroupMemberReturned(s: State, h: Group, i: nat, id: nat)
    requires OrderInv(s) && h in s.groups && i < |h.members|
    requires id !in s.pcs || !s.pcs[id].Returned?
    ensures h.members[i] != id
  {
    MemberOf(s.groups, h, i);
  }

  lemma EnqueueKeepsInv(s: State, id: nat, w: Writer, t: State)
    requires Inv(s) && Step(s, Enqueue(id, w), t)
    ensures Inv(t)
  {
    hide OrderInv, LeaderInv, PhaseInv, PlacedBy, AllPlaced, Ranges, GroupInv, OutsideGroup, Front;
    EnqueueKeepsOrder(s, id, w, t);
    EnqueueKeepsFront(s, id, w, t);
    forall g | g in t.groups ensures GroupInv(t, g) {
      EnqueueKeepsGroup(s, id, w, t, g);
    }
  }

  lemma EnqueueKeepsGroup(s: State, id: nat, w: Writer, t: State, g: Group)
    requires OrderInv(s) && Step(s, Enqueue(id, w), t) && g in s.groups && GroupInv(s, g)
    ensures GroupInv(t, g)
  {
    hide OrderInv, GroupOps;
    forall i | 0 <= i < |g.members| ensures g.members[i] != id { GroupMemberReturned(s, g, i, id); }
    KnownKept(s, id, w, g.members);
  }

  lemma KnownKept(s: State, id: nat, w: Writer, ids: seq<nat>)
    requires Known(s.writers, ids) && forall i :: 0 <= i < |ids| ==> ids[i] != id
    ensures Known(s.writers[id := w], ids) && WritersOf(s.writers[id := w], ids) == WritersOf(s.writers, ids)
  {
  }

  lemma EnqueueKeepsOrder(s: State, id: nat, w: Writer, t: State)
    requires OrderInv(s) && LeaderInv(s) && Step(s, Enqueue(id, w), t)
    ensures OrderInv(t) && LeaderInv(t)
  {
    EnqueueKeepsLeader(s, id, w, t);
    hide LeaderInv;
    ArrivalKeepsOrder(s, id, w, t);
  }

  lemma ArrivalKeepsOrder(s: State, id: nat, w: Writer, t: State)
    requires OrderInv(s) && id !in s.pcs && t.groups == s.groups && t.writers == s.writers[id := w]
    requires t.pcs == s.pcs[id := Waiting] && t.queue == s.queue + [id] && t.arrivals == s.arrivals + [id]
    ensures OrderInv(t)
  {
    hide Members;
    assert id !in s.arrivals;
    Arrive(s.writers, s.arrivals, id, w);
    hide Distinct, Known;
    assert Members(s.groups) + (s.queue + [id]) == Members(s.groups) + s.queue + [id];
    forall x | x in Members(t.groups) ensures x in t.pcs && t.pcs[x].Returned? {
      assert x in s.pcs && x != id;
    }
  }

  lemma Arrive(writers: map<nat, Writer>, arrivals: seq<nat>, id: nat, w: Writer)
    requires Distinct(arrivals) && Known(writers, arrivals) && id !in arrivals
    ensures Distinct(arrivals + [id]) && Known(writers[id := w], arrivals + [id])
  {
  }

  lemma EnqueueKeepsLeader(s: State, id: nat, w: Writer, t: State)
    requires OrderInv(s) && LeaderInv(s) && Step(s, Enqueue(id, w), t)
    ensures LeaderInv(t)
  {
    forall i | 0 <= i < |s.queue| ensures s.queue[i] != id && t.queue[i] == s.queue[i] { QueuedNotFinished(s, i); }
    hide OrderInv;
  }

  lemma EnqueueKeepsFront(s: State, id: nat, w: Writer, t: State)
    requires Inv(s) && Step(s, Enqueue(id, w), t)
    ensures Front(t) == Front(s) && PhaseInv(t)
  {
    hide PlacedBy, AllPlaced, GroupOps, Ranges, MemInv, SnapshotInv, GroupInv;
    if s.queue != [] {
      QueuedNotFinished(s, 0);
      assert t.queue[0] == s.queue[0];
      var p := Front(s);
      if p.Writes() {
        forall i | 0 <= i < |p.members| ensures p.members[i] != id {
          assert p.members[i] == s.queue[i];
          QueuedNotFinished(s, i);
        }
        KnownKept(s, id, w, p.members);
      }
    }
  }

  /** Steps in which the front thread only moves on keep the order of things. */
  lemma FrontMovesOrder(s: State, id: nat, p: Pc, t: State)
    requires OrderInv(s) && LeaderInv(s) && id in s.pcs && s.queue != [] && s.queue[0] == id
    requires t.writers == s.writers && t.arrivals == s.arrivals && t.groups == s.groups && t.queue == s.queue
    requires t.pcs == s.pcs[id := p] && p.Leads()
    ensures OrderInv(t) && LeaderInv(t) && Front(t) == p
    ensures forall g :: g in s.groups && GroupInv(s, g) ==> GroupInv(t, g)
  {
    QueuedNotFinished(s, 0);
    hide GoodGroup;
    forall g | g in s.groups && GroupInv(s, g) ensures GroupInv(t, g) {
      forall i | 0 <= i < |g.members| ensures g.members[i] != id { MemberOf(s.groups, g, i); }
    }
  }

  lemma LeadKeepsInv(s: State, id: nat, t: State)
    requires Inv(s) && Step(s, Lead(id), t)
    ensures Inv(t)
  {
    hide OrderInv, LeaderInv, PlacedBy, AllPlaced, Ranges, GroupInv, OutsideGroup, GoodGroup;
    FrontMovesOrder(s, id, MakingRoom, t);
  }

  lemma {:induction false} GroupTake(writers: map<nat, Writer>, ids: seq<nat>, n: nat)
    requires Known(writers, ids) && n <= |ids|
    ensures Known(writers, ids[..n]) && WritersOf(writers, ids[..n]) == WritersOf(writers, ids)[..n]
  {
  }

  lemma FormedGroupIsGood(writers: map<nat, Writer>, queue: seq<nat>, n: nat)
    requires Known(writers, queue) && IsGroup(WritersOf(writers, queue), n)
    ensures GoodGroup(writers, queue[..n], GroupOps(WritersOf(writers, queue)[..n]))
  {
    hide GroupOps, GroupBytes;
    var ws := WritersOf(writers, queue);
    GroupTake(writers, queue, n);
    forall i | 0 <= i < n && writers[queue[..n][i]].sync ensures writers[queue[..n][0]].sync {
      if i > 0 {
        assert MayJoin(ws[..i], ws[i]);
        assert ws[..i][0] == ws[0];
      }
    }
  }

  lemma FormKeepsInv(s: State, id: nat, t: State)
    requires Inv(s) && Step(s, FormGroup(id), t)
    ensures Inv(t)
  {
    hide OrderInv, LeaderInv, PlacedBy, AllPlaced, Ranges, GroupInv, OutsideGroup, GoodGroup, IsGroup, GroupOps, Batches;
    LeaderIsFront(s, id);
    var n: nat :| n <= |s.queue| && IsGroup(WritersOf(s.writers, s.queue), n) && Formed(s, id, n, t);
    GroupFits(WritersOf(s.writers, s.queue), n);
    FormedGroupIsGood(s.writers, s.queue, n);
    FrontMovesOrder(s, id, Logging(s.queue[..n], GroupOps(WritersOf(s.writers, s.queue)[..n]), s.lastSequence + 1), t);
  }

  lemma GroupFits(ws: seq<Writer>, n: nat)
    requires IsGroup(ws, n)
    ensures 0 < n <= |ws|
  {
  }

  lemma LogOkKeepsInv(s: State, id: nat, t: State)
    requires Inv(s) && Step(s, Log(id, true), t)
    ensures Inv(t)
  {
    hide OrderInv, LeaderInv, PlacedBy, Ranges, GroupInv, OutsideGroup, GoodGroup;
    LeaderIsFront(s, id);
    var p := s.pcs[id];
    FrontMovesOrder(s, id, Inserting(p.members, p.ops, p.first, 0), t);
  }

  lemma InsertKeepsInv(s: State, id: nat, t: State)
    requires Inv(s) && Step(s, InsertOne(id), t)
    ensures Inv(t)
  {
    hide OrderInv, LeaderInv, Ranges, GroupInv, OutsideGroup, GoodGroup;
    LeaderIsFront(s, id);
    var p := s.pcs[id];
    FrontMovesOrder(s, id, p.(done := p.done + 1), t);
  }

  lemma RangesGrow(groups: seq<Group>, last: nat, g: Group)
    requires Ranges(groups, last) && g.first == last + 1
    ensures Ranges(groups + [g], last + |g.ops|)
  {
    assert (groups + [g])[..|groups|] == groups;
  }

  /** Every finished group ends at or before the last sequence. */
  lemma {:induction false} GroupsEnd(groups: seq<Group>, last: nat, g: Group)
    requires Ranges(groups, last) && g in groups
    ensures g.first >= 1 && g.first + |g.ops| <= last + 1
  {
    var n := |groups| - 1;
    if g != groups[n] { GroupsEnd(groups[..n], groups[n].first - 1, g); }
  }

  /** What the members of a popped group need. */
  ghost predicate MayPop(s: State, g: Group) {
    && g.members != [] && g.members <= s.queue && g.first == s.lastSequence + 1
    && (g.ok || g.ops != [] ==> GoodGroup(s.writers, g.members, g.ops))
    && (g.ok ==> AllPlaced(s.mem, g.first, g.ops, |g.ops|))
    && forall p :: p in s.mem && p.sn > s.lastSequence ==> p.sn < g.first + |g.ops|
  }

  /** Moving the last sequence past a group and popping it keeps the invariant. */
  lemma PopKeepsInv(s: State, g: Group, t: State)
    requires Inv(s) && MayPop(s, g)
    requires t == Popped(s.(tmpBatch := [], lastSequence := s.lastSequence + |g.ops|), g)
    ensures Inv(t)
  {
    hide OrderInv, LeaderInv, AllPlaced, Ranges, GroupInv, OutsideGroup, GoodGroup, PhaseInv, MemInv, SnapshotInv, Front, Popped;
    var m := s.(tmpBatch := [], lastSequence := s.lastSequence + |g.ops|);
    SameOrder(s, m);
    PopKeepsArrivals(m, g);
    PopKeepsLeader(m, g);
    RangesGrow(s.groups, s.lastSequence, g);
    PoppedRest(m, g);
    PoppedFront(t);
    PoppedGroups(s, m, g);
    PoppedSnapshots(s, g, t);
    PoppedMem(s, g, t);
  }

  /** Popping only changes the queue, where threads are, and the list of groups. */
  lemma PoppedRest(m: State, g: Group)
    ensures var t := Popped(m, g);
      && t.groups == m.groups + [g] && t.tmpBatch == m.tmpBatch && t.lastSequence == m.lastSequence
      && t.mem == m.mem && t.snapshots == m.snapshots
  {
  }

  lemma PoppedGroups(s: State, m: State, g: Group)
    requires OrderInv(m) && LeaderInv(m) && g.members != [] && g.members <= m.queue
    requires g.ok || g.ops != [] ==> GoodGroup(m.writers, g.members, g.ops)
    requires m == s.(tmpBatch := m.tmpBatch, lastSequence := m.lastSequence)
    requires forall h :: h in s.groups ==> GroupInv(s, h)
    ensures forall h :: h in Popped(m, g).groups ==> GroupInv(Popped(m, g), h)
  {
    hide OrderInv, LeaderInv, GroupInv, GoodGroup;
    PoppedGroup(m, g);
    forall h | h in Popped(m, g).groups ensures GroupInv(Popped(m, g), h) {
      if h != g {
        assert h in s.groups && GroupInv(s, h);
        SameGroup(s, m, h);
        PopKeepsGroups(m, g, h);
      }
    }
  }

  lemma SameOrder(s: State, m: State)
    requires OrderInv(s) && LeaderInv(s)
    requires m == s.(tmpBatch := m.tmpBatch, lastSequence := m.lastSequence)
    ensures OrderInv(m) && LeaderInv(m)
  {
  }

  lemma SameGroup(s: State, m: State, h: Group)
    requires GroupInv(s, h) && m == s.(tmpBatch := m.tmpBatch, lastSequence := m.lastSequence, snapshots := m.snapshots)
    ensures GroupInv(m, h)
  {
  }

  lemma PoppedFront(t: State)
    requires t.tmpBatch == [] && Front(t) == Waiting
    ensures PhaseInv(t)
  {
  }

  lemma PoppedGroup(m: State, g: Group)
    requires OrderInv(m) && LeaderInv(m) && g.members != [] && g.members <= m.queue
    requires g.ok || g.ops != [] ==> GoodGroup(m.writers, g.members, g.ops)
    ensures GroupInv(Popped(m, g), g)
  {
    hide GoodGroup, OrderInv, LeaderInv;
    QueueKnown(m);
    forall i | 0 <= i < |g.members| ensures g.members[i] in m.writers {
      assert m.queue[i] == g.members[i];
    }
  }

  lemma QueueKnown(m: State)
    requires OrderInv(m)
    ensures Known(m.writers, m.queue)
  {
    forall i | 0 <= i < |m.queue| ensures m.queue[i] in m.writers {
      assert m.arrivals[|Members(m.groups)| + i] == m.queue[i];
    }
  }

  lemma PoppedSnapshots(s: State, g: Group, t: State)
    requires SnapshotInv(s) && g.first == s.lastSequence + 1
    requires t.snapshots == s.snapshots && t.groups == s.groups + [g] && t.lastSequence == s.lastSequence + |g.ops|
    ensures SnapshotInv(t)
  {
  }

  lemma PoppedMem(s: State, g: Group, t: State)
    requires MemInv(s) && t.mem == s.mem && t.groups == s.groups + [g] && t.lastSequence == s.lastSequence + |g.ops|
    requires g.first == s.lastSequence + 1 && Front(t) == Waiting
    requires g.ok ==> AllPlaced(s.mem, g.first, g.ops, |g.ops|)
    requires forall p :: p in s.mem && p.sn > s.lastSequence ==> p.sn < g.first + |g.ops|
    ensures MemInv(t)
  {
    hide AllPlaced;
  }

  lemma NoGroupKeepsInv(s: State, id: nat, ok: bool, t: State)
    requires Inv(s) && Step(s, NoGroup(id, ok), t)
    ensures Inv(t)
  {
    hide OrderInv, LeaderInv, Ranges, GroupInv, OutsideGroup, GoodGroup, PlacedBy, SnapshotInv, AllPlaced;
    LeaderIsFront(s, id);
    if ok { NullGroup(s.writers, id); }
    assert MayPop(s, Group([id], [], s.lastSequence + 1, ok)) by {
      NothingPlaced([], s.lastSequence + 1, s.mem);
    }
    PopKeepsInv(s, Group([id], [], s.lastSequence + 1, ok), t);
  }

  lemma NothingPlaced(ops: seq<Op>, first: nat, mem: set<Placed>)
    requires ops == []
    ensures AllPlaced(mem, first, ops, |ops|)
  {
  }

  lemma NullGroup(writers: map<nat, Writer>, id: nat)
    requires id in writers && writers[id].batch.None?
    ensures GoodGroup(writers, [id], [])
  {
    var ws := WritersOf(writers, [id]);
    assert ws[..0] == [] && ws[0] == writers[id];
    EmptyGroup();
  }

  lemma LogFailKeepsInv(s: State, id: nat, t: State)
    requires Inv(s) && Step(s, Log(id, false), t)
    ensures Inv(t)
  {
    var p := s.pcs[id];
    LeaderIsFront(s, id);
    hide OrderInv, LeaderInv, Ranges, GroupInv, OutsideGroup, PlacedBy, AllPlaced, GroupOps;
    PopKeepsInv(s, Group(p.members, p.ops, p.first, false), t);
  }

  lemma MayFinish(s: State, id: nat, ok: bool)
    requires Inv(s) && id in s.pcs && s.pcs[id].Inserting? && (ok ==> s.pcs[id].done == |s.pcs[id].ops|)
    ensures MayPop(s, Group(s.pcs[id].members, s.pcs[id].ops, s.pcs[id].first, ok))
  {
    LeaderIsFront(s, id);
    hide OrderInv, LeaderInv, Ranges, GroupInv, OutsideGroup, AllPlaced, GroupOps;
  }

  lemma FinishKeepsInv(s: State, id: nat, ok: bool, t: State)
    requires Inv(s) && Step(s, Finish(id, ok), t)
    ensures Inv(t)
  {
    var p := s.pcs[id];
    MayFinish(s, id, ok);
    hide Inv, MayPop, Popped;
    PopKeepsInv(s, Group(p.members, p.ops, p.first, ok), t);
  }

  lemma SnapshotKeepsInv(s: State, t: State)
    requires Inv(s) && Step(s, TakeSnapshot, t)
    ensures Inv(t)
  {
    SameFront(s, t);
    hide OrderInv, LeaderInv, PhaseInv, MemInv, GroupInv, Ranges, OutsideGroup;
    forall g | g in s.groups ensures OutsideGroup(s.lastSequence, g) && GroupInv(t, g) {
      GroupsEnd(s.groups, s.lastSequence, g);
      SameGroup(s, t, g);
    }
  }

  /** A snapshot changes nothing that the queue's own invariants speak of. */
  lemma SameFront(s: State, t: State)
    requires t == s.(snapshots := t.snapshots)
    ensures OrderInv(s) ==> OrderInv(t)
    ensures LeaderInv(s) ==> LeaderInv(t)
    ensures PhaseInv(s) ==> PhaseInv(t)
    ensures MemInv(s) ==> MemInv(t)
  {
    hide Members, Distinct, Known, GoodGroup, PlacedBy, AllPlaced;
  }

  /** Every step of every interleaving keeps the invariant. */
  lemma StepKeepsInv(s: State, act: Action, t: State)
    requires Inv(s) && Step(s, act, t)
    ensures Inv(t)
  {
    hide Inv;
    match act
    case Enqueue(id, w) => EnqueueKeepsInv(s, id, w, t);
    case Lead(id) => LeadKeepsInv(s, id, t);
    case NoGroup(id, ok) => NoGroupKeepsInv(s, id, ok, t);
    case FormGroup(id) => FormKeepsInv(s, id, t);
    case Log(id, ok) => if ok { LogOkKeepsInv(s, id, t); } else { LogFailKeepsInv(s, id, t); }
    case InsertOne(id) => InsertKeepsInv(s, id, t);
    case Finish(id, ok) => FinishKeepsInv(s, id, ok, t);
    case TakeSnapshot => SnapshotKeepsInv(s, t);
  }

  ghost predicate Run(states: seq<State>, acts: seq<Action>) {
    && |states| == |acts| + 1 && Init(states[0])
    && forall i :: 0 <= i < |acts| ==> Step(states[i], acts[i], states[i + 1])
  }

  lemma {:induction false} ReachableInv(states: seq<State>, acts: seq<Action>, n: nat)
    requires Run(states, acts) && n <= |acts|
    ensures Inv(states[n])
  {
    hide Step, Inv, Init;
    if n > 0 {
      ReachableInv(states, acts, n - 1);
      StepKeepsInv(states[n - 1], acts[n - 1], states[n]);
    } else {
      InitInv(states[0]);
    }
  }

  // ------------------------------------------------------- what it promises

  /** The temporary batch is empty whenever a group is formed. */
  lemma TmpBatchEmptyAtStart(s: State, id: nat, t: State)
    requires Inv(s) && Step(s, FormGroup(id), t)
    ensures s.tmpBatch == []
  {
    hide OrderInv, GoodGroup, MemInv, SnapshotInv, Ranges;
    LeaderIsFront(s, id);
  }

  /** Positions of members in the flattened list of groups. */
  lemma {:induction false} FlatPosition(groups: seq<Group>, i: nat, j: nat) returns (n: nat)
    requires i < |groups| && j < |groups[i].members|
    ensures n == |Members(groups[..i])| + j < |Members(groups)| && Members(groups)[n] == groups[i].members[j]
    ensures |Members(groups[..i])| + |groups[i].members| <= |Members(groups)|
  {
    var last := |groups| - 1;
    if i < last {
      n := FlatPosition(groups[..last], i, j);
      assert groups[..last][..i] == groups[..i];
    } else {
      n := |Members(groups[..i])| + j;
    }
  }

  lemma {:induction false} FlatMonotone(groups: seq<Group>, i: nat, k: nat)
    requires i < k <= |groups|
    ensures |Members(groups[..i])| + |groups[i].members| <= |Members(groups[..k])|
  {
    assert groups[..k][..k - 1] == groups[..k - 1];
    if i < k - 1 {
      FlatMonotone(groups, i, k - 1);
    }
  }

  lemma {:induction false} FlatFind(groups: seq<Group>, id: nat) returns (i: nat, j: nat)
    requires id in Members(groups)
    ensures i < |groups| && j < |groups[i].members| && groups[i].members[j] == id
  {
    var last := |groups| - 1;
    if id in groups[last].members {
      i := last;
      j :| 0 <= j < |groups[last].members| && groups[last].members[j] == id;
    } else {
      i, j := FlatFind(groups[..last], id);
    }
  }

  /** No writer is in two groups, or twice in one. */
  lemma MembershipIsUnique(s: State, i: nat, j: nat, k: nat, l: nat)
    requires OrderInv(s)
    requires i < |s.groups| && j < |s.groups[i].members| && k < |s.groups| && l < |s.groups[k].members|
    requires s.groups[i].members[j] == s.groups[k].members[l]
    ensures i == k && j == l
  {
    var m := FlatPosition(s.groups, i, j);
    var n := FlatPosition(s.groups, k, l);
    assert s.arrivals[m] == s.arrivals[n];
    if i < k { FlatMonotone(s.groups, i, k); }
    if k < i { FlatMonotone(s.groups, k, i); }
  }

  /** A writer whose write returned OK was a member of exactly one group, that group
      succeeded, and its operations are the members' batches one after the other. */
  lemma ReturnedOkWasInOneGroup(s: State, id: nat) returns (i: nat, j: nat)
    requires Inv(s) && id in s.pcs && s.pcs[id] == Returned(true)
    ensures i < |s.groups| && j < |s.groups[i].members| && s.groups[i].members[j] == id
    ensures s.groups[i].ok && GoodGroup(s.writers, s.groups[i].members, s.groups[i].ops)
    ensures forall k, l :: 0 <= k < |s.groups| && 0 <= l < |s.groups[k].members| && s.groups[k].members[l] == id ==>
              k == i && l == j
  {
    hide PhaseInv, MemInv, SnapshotInv, Ranges, GoodGroup;
    assert id in s.arrivals;
    NotQueued(s, id);
    i, j := FlatFind(s.groups, id);
    assert GroupInv(s, s.groups[i]);
    forall k, l | 0 <= k < |s.groups| && 0 <= l < |s.groups[k].members| && s.groups[k].members[l] == id
      ensures k == i && l == j
    {
      MembershipIsUnique(s, i, j, k, l);
    }
  }

  lemma NotQueued(s: State, id: nat)
    requires OrderInv(s) && LeaderInv(s) && id in s.pcs && s.pcs[id].Returned?
    ensures id in Members(s.groups)
  {
    assert id in s.arrivals;
    forall i | 0 <= i < |s.queue| ensures !s.pcs[s.queue[i]].Returned? {}
  }

  /** Within its group a member's batch is a contiguous run of operations. */
  lemma {:induction false} MemberRun(ws: seq<Writer>, j: nat) returns (at: nat)
    requires j < |ws|
    ensures at == |GroupOps(ws[..j])| && at + |OpsOf(ws[j])| <= |GroupOps(ws)|
    ensures GroupOps(ws)[at..at + |OpsOf(ws[j])|] == OpsOf(ws[j])
  {
    var last := |ws| - 1;
    if j < last {
      at := MemberRun(ws[..last], j);
      assert ws[..last][..j] == ws[..j];
      assert GroupOps(ws)[at..at + |OpsOf(ws[j])|] == GroupOps(ws[..last])[at..at + |OpsOf(ws[j])|];
    } else {
      at := |GroupOps(ws[..j])|;
    }
  }

  /** Later groups write strictly after earlier ones, the next one right behind. */
  lemma {:induction false} GroupsAreConsecutive(groups: seq<Group>, last: nat, i: nat, k: nat)
    requires Ranges(groups, last) && i < k < |groups|
    ensures groups[i].first + |groups[i].ops| <= groups[k].first
    ensures k == i + 1 ==> groups[i].first + |groups[i].ops| == groups[k].first
  {
    var n := |groups| - 1;
    var before := groups[..n];
    if k == n {
      if i < n - 1 {
        GroupsAreConsecutive(before, groups[n].first - 1, i, n - 1);
      }
    } else {
      GroupsAreConsecutive(before, groups[n].first - 1, i, k);
    }
  }

  /** What a reader at snapshot `r` finds in the memtable. */
  ghost function Seen(s: State, r: nat): set<Placed> {
    set p | p in s.mem && p.sn <= r
  }

  /** A reader sees all operations of a successful group or none of them. */
  lemma AllOrNone(s: State, r: nat, g: Group)
    requires Inv(s) && r in s.snapshots && g in s.groups && g.ok
    ensures || (forall i :: 0 <= i < |g.ops| ==> Placed(g.first + i, g.ops[i]) in Seen(s, r))
            || (forall p :: p in Seen(s, r) ==> !(g.first <= p.sn < g.first + |g.ops|))
  {
    hide OrderInv, LeaderInv, PhaseInv, Ranges;
    assert OutsideGroup(r, g);
    assert AllPlaced(s.mem, g.first, g.ops, |g.ops|);
  }

  /** What a reader sees is a prefix of commit order: groups up to some point are
      within its snapshot, all later ones are beyond it. */
  lemma SeesPrefixOfCommits(s: State, r: nat) returns (n: nat)
    requires Inv(s) && r in s.snapshots
    ensures n <= |s.groups|
    ensures forall i :: 0 <= i < n ==> s.groups[i].first + |s.groups[i].ops| <= r + 1
    ensures forall i :: n <= i < |s.groups| ==> r < s.groups[i].first + |s.groups[i].ops|
    ensures forall i :: n <= i < |s.groups| && s.groups[i].ops != [] ==> r < s.groups[i].first
  {
    hide OrderInv, LeaderInv, PhaseInv, MemInv, Ranges;
    n := |s.groups|;
    while n > 0 && s.groups[n - 1].first + |s.groups[n - 1].ops| > r + 1
      invariant n <= |s.groups|
      invariant forall i :: n <= i < |s.groups| ==> r + 1 < s.groups[i].first + |s.groups[i].ops|
    {
      n := n - 1;
    }
    forall i | 0 <= i < n ensures s.groups[i].first + |s.groups[i].ops| <= r + 1 {
      if i < n - 1 {
        GroupsAreConsecutive(s.groups, s.lastSequence, i, n - 1);
      }
    }
    forall i | n <= i < |s.groups| ensures OutsideGroup(r, s.groups[i]) {
      assert s.groups[i] in s.groups;
    }
  }

  /** Once a snapshot is taken, nothing is ever inserted at or below it. */
  lemma StepKeepsView(s: State, act: Action, t: State, r: nat)
    requires Inv(s) && Step(s, act, t) && r in s.snapshots
    ensures r in t.snapshots && Seen(t, r) == Seen(s, r)
  {
    hide OrderInv, Ranges, GoodGroup, GroupInv, OutsideGroup;
    if act.InsertOne? {
      LeaderIsFront(s, act.id);
    }
  }

  /** A snapshot's view of the memtable is the same in every later state of a run,
      whatever writes are in progress when it is taken. */
  lemma {:induction false} ViewIsStable(states: seq<State>, acts: seq<Action>, m: nat, n: nat, r: nat)
    requires Run(states, acts) && m <= n <= |acts| && r in states[m].snapshots
    ensures r in states[n].snapshots && Seen(states[n], r) == Seen(states[m], r)
    decreases n
  {
    hide Step, Inv, Init, Seen;
    if m < n {
      ViewIsStable(states, acts, m, n - 1, r);
      ReachableInv(states, acts, n - 1);
      StepKeepsView(states[n - 1], acts[n - 1], states[n], r);
    }
  }
}
