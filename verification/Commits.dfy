/** The write queue over the store: finishing a group is one write step, and until then nobody
    reads what its leader inserts. */
module Commits {
  import opened DbFormat
  import Lsm
  import WriteQueue

  type Queue = WriteQueue.State
  type Store = Lsm.State

  function EntryOf(p: WriteQueue.Placed): Entry
    requires p.sn <= MAX_SEQUENCE
  {
    Entry(p.op.user, p.sn, p.op.typ, p.op.value)
  }

  /** What the leader has inserted so far of a group that is not finished. */
  ghost function Pending(q: Queue): set<Entry> {
    set p | p in q.mem && q.lastSequence < p.sn <= MAX_SEQUENCE :: EntryOf(p)
  }

  datatype Both = Both(queue: Queue, store: Store)

  datatype Joint =
    | InQueue(move: WriteQueue.Action)
    | Commit(id: nat)
    | InStore(work: Lsm.Action)

  /** Threads move in the queue or the store works, or a leader finishes its group: then its
      operations are one write of the store. */
  ghost predicate JointStep(b: Both, j: Joint, c: Both) {
    match j
    case InQueue(act) =>
      && WriteQueue.Step(b.queue, act, c.queue) && c.queue.lastSequence == b.queue.lastSequence && !act.Finish?
      && c.store == b.store
    case Commit(id) =>
      && WriteQueue.Step(b.queue, WriteQueue.Finish(id, true), c.queue)
      && Lsm.Step(b.store, Lsm.Write(b.queue.pcs[id].ops), c.store)
    case InStore(act) =>
      !act.Write? && Lsm.Step(b.store, act, c.store) && c.queue == b.queue
  }

  ghost predicate JointInv(b: Both) {
    WriteQueue.Inv(b.queue) && Lsm.Inv(b.store) && b.store.lastSequence == b.queue.lastSequence
  }

  // ------------------------------------------------------- one group, one write

  lemma FinishingLeader(q: Queue, id: nat, q': Queue)
    requires WriteQueue.Inv(q) && WriteQueue.Step(q, WriteQueue.Finish(id, true), q')
    ensures id in q.pcs && q.pcs[id].Inserting? && q.pcs[id].done == |q.pcs[id].ops| && WriteQueue.Front(q) == q.pcs[id]
    ensures q.pcs[id].first == q.lastSequence + 1 && q'.lastSequence == q.lastSequence + |q.pcs[id].ops|
    ensures q'.mem == q.mem
  {
    hide WriteQueue.OrderInv, WriteQueue.LeaderInv, WriteQueue.GroupInv, WriteQueue.MemInv, WriteQueue.SnapshotInv,
      WriteQueue.Ranges, WriteQueue.GoodGroup;
    WriteQueue.LeaderIsFront(q, id);
  }

  /** When a leader finishes, what it inserted is exactly its group under the next sequence
      numbers, and nothing is left pending. */
  lemma FinishedIsBatch(q: Queue, id: nat, q': Queue)
    requires WriteQueue.Inv(q) && WriteQueue.Step(q, WriteQueue.Finish(id, true), q') && q'.lastSequence <= MAX_SEQUENCE
    ensures id in q.pcs && q.pcs[id].Inserting? && q.lastSequence + |q.pcs[id].ops| == q'.lastSequence
    ensures Pending(q) == BatchEntries(q.pcs[id].ops, q.lastSequence + 1) && Pending(q') == {}
  {
    hide WriteQueue.Inv, WriteQueue.Step, WriteQueue.Front, Pending, BatchEntries, HasAll, HasOnly;
    FinishingLeader(q, id, q');
    LeaderInsertedAll(q, q.pcs[id].ops);
    PendingIsBatch(q, q.pcs[id].ops);
    NothingIsPending(q, q.pcs[id].ops, q');
  }

  /** The memtable has all of these operations, next after the last sequence number ... */
  ghost predicate HasAll(q: Queue, ops: seq<Op>) {
    WriteQueue.AllPlaced(q.mem, q.lastSequence + 1, ops, |ops|)
  }

  /** ... and beyond the last sequence number nothing else. */
  ghost predicate HasOnly(q: Queue, ops: seq<Op>) {
    forall p :: p in q.mem && p.sn > q.lastSequence ==> WriteQueue.PlacedBy(p, q.lastSequence + 1, ops, |ops|)
  }

  lemma NothingIsPending(q: Queue, ops: seq<Op>, q': Queue)
    requires HasOnly(q, ops) && q'.mem == q.mem && q'.lastSequence == q.lastSequence + |ops|
    ensures Pending(q') == {}
  {
  }

  lemma PendingIsBatch(q: Queue, ops: seq<Op>)
    requires q.lastSequence + |ops| <= MAX_SEQUENCE && HasAll(q, ops) && HasOnly(q, ops)
    ensures Pending(q) == BatchEntries(ops, q.lastSequence + 1)
  {
    hide HasAll, HasOnly, Pending, BatchEntries;
    BatchIsPending(q, ops);
    PendingIsInBatch(q, ops);
  }

  lemma BatchIsPending(q: Queue, ops: seq<Op>)
    requires q.lastSequence + |ops| <= MAX_SEQUENCE && HasAll(q, ops)
    ensures BatchEntries(ops, q.lastSequence + 1) <= Pending(q)
  {
    var first := q.lastSequence + 1;
    forall e | e in BatchEntries(ops, first) ensures e in Pending(q) {
      var i :| 0 <= i < |ops| && e == Entry(ops[i].user, first + i, ops[i].typ, ops[i].value);
      assert e == EntryOf(WriteQueue.Placed(first + i, ops[i]));
    }
  }

  lemma PendingIsInBatch(q: Queue, ops: seq<Op>)
    requires q.lastSequence + |ops| <= MAX_SEQUENCE && HasOnly(q, ops)
    ensures Pending(q) <= BatchEntries(ops, q.lastSequence + 1)
  {
    var first := q.lastSequence + 1;
    forall e | e in Pending(q) ensures e in BatchEntries(ops, first) {
      var p :| p in q.mem && q.lastSequence < p.sn <= MAX_SEQUENCE && EntryOf(p) == e;
      var i := p.sn - first;
      assert e == Entry(ops[i].user, first + i, ops[i].typ, ops[i].value);
    }
  }

  lemma LeaderInsertedAll(q: Queue, ops: seq<Op>)
    requires WriteQueue.Inv(q) && WriteQueue.Front(q).Inserting? && WriteQueue.Front(q).ops == ops
    requires WriteQueue.Front(q).first == q.lastSequence + 1 && WriteQueue.Front(q).done == |ops|
    ensures HasAll(q, ops) && HasOnly(q, ops)
  {
    hide WriteQueue.OrderInv, WriteQueue.LeaderInv, WriteQueue.GroupInv, WriteQueue.PhaseInv, WriteQueue.SnapshotInv,
      WriteQueue.Ranges, WriteQueue.AllPlaced, WriteQueue.PlacedBy;
  }

  /** A group that is finished with success is a write step of any store at the same sequence
      number: the store gains what the leader inserted. */
  lemma CommitIsWrite(q: Queue, id: nat, q': Queue, s: Store)
    requires WriteQueue.Inv(q) && WriteQueue.Step(q, WriteQueue.Finish(id, true), q')
    requires s.lastSequence == q.lastSequence && q'.lastSequence < MAX_SEQUENCE
    ensures id in q.pcs && q.pcs[id].Inserting?
    ensures var t := s.(mem := s.mem + Pending(q), lastSequence := q'.lastSequence);
      Lsm.Step(s, Lsm.Write(q.pcs[id].ops), t) && JointStep(Both(q, s), Commit(id), Both(q', t))
  {
    hide WriteQueue.Inv, WriteQueue.Step, Pending, BatchEntries;
    FinishedIsBatch(q, id, q');
  }

  // ------------------------------------------------------------- both together

  lemma JointStepKeepsInv(b: Both, j: Joint, c: Both)
    requires JointInv(b) && JointStep(b, j, c)
    ensures JointInv(c)
  {
    hide WriteQueue.Inv, WriteQueue.Step, Lsm.Inv, Lsm.WriteStep, Lsm.SwitchStep, Lsm.FlushStep, Lsm.MoveStep, Lsm.BeginStep,
      Lsm.InstallStep, Lsm.CompactStep;
    match j
    case InQueue(act) => WriteQueue.StepKeepsInv(b.queue, act, c.queue);
    case Commit(id) =>
      FinishingLeader(b.queue, id, c.queue);
      WriteQueue.StepKeepsInv(b.queue, WriteQueue.Finish(id, true), c.queue);
      Lsm.StepKeepsInv(b.store, Lsm.Write(b.queue.pcs[id].ops), c.store);
      WriteMoves(b.store, b.queue.pcs[id].ops, c.store);
    case InStore(act) =>
      Lsm.StepKeepsInv(b.store, act, c.store);
      OthersKeepSequence(b.store, act, c.store);
  }

  lemma WriteMoves(s: Store, ops: seq<Op>, t: Store)
    requires Lsm.Step(s, Lsm.Write(ops), t)
    ensures Lsm.WriteStep(s, ops, t) && t.lastSequence == s.lastSequence + |ops|
  {
  }

  lemma OthersKeepSequence(s: Store, act: Lsm.Action, t: Store)
    requires Lsm.Step(s, act, t) && !act.Write?
    ensures t.lastSequence == s.lastSequence
  {
  }

  ghost predicate JointRun(states: seq<Both>, steps: seq<Joint>) {
    && |states| == |steps| + 1 && WriteQueue.Init(states[0].queue) && states[0].store == Lsm.EMPTY_STORE
    && forall i :: 0 <= i < |steps| ==> JointStep(states[i], steps[i], states[i + 1])
  }

  lemma {:induction false} JointRunKeepsInv(states: seq<Both>, steps: seq<Joint>, n: nat)
    requires JointRun(states, steps) && n <= |steps|
    ensures JointInv(states[n])
  {
    hide JointStep, WriteQueue.Inv, Lsm.Inv;
    if n > 0 {
      JointRunKeepsInv(states, steps, n - 1);
      JointStepKeepsInv(states[n - 1], steps[n - 1], states[n]);
    } else {
      WriteQueue.InitInv(states[0].queue);
      Lsm.EmptyStoreIsValid();
    }
  }

  // ------------------------------------------------------------------ reads

  /** The memtable also holds what a leader is inserting; no read up to the last sequence
      number sees any of it. */
  lemma PendingIsUnseen(b: Both, k: UserKey, at: nat)
    requires JointInv(b) && at <= b.store.lastSequence
    ensures Visible(Lsm.All(b.store) + Pending(b.queue), k, at) == Lsm.Read(b.store, k, at)
  {
    hide WriteQueue.Inv, Lsm.Inv, Visible, Lsm.All, Pending;
    Lsm.AllInv(b.store);
    PendingIsNew(b.queue);
    hide JointInv;
    JoinIsUnique(Lsm.All(b.store), Pending(b.queue), b.store.lastSequence);
    AddingNewer(Lsm.All(b.store), Pending(b.queue), k, at);
  }

  lemma PendingIsNew(q: Queue)
    requires WriteQueue.Inv(q)
    ensures UniqueSeqs(Pending(q)) && forall e :: e in Pending(q) ==> e.sn > q.lastSequence
  {
    hide WriteQueue.OrderInv, WriteQueue.LeaderInv, WriteQueue.GroupInv, WriteQueue.PhaseInv, WriteQueue.SnapshotInv,
      WriteQueue.Ranges, WriteQueue.AllPlaced;
  }

  lemma JoinIsUnique(S: set<Entry>, T: set<Entry>, last: nat)
    requires UniqueSeqs(S) && UniqueSeqs(T) && Lsm.SequencesUpTo(S, last) && forall e :: e in T ==> e.sn > last
    ensures UniqueSeqs(S + T)
  {
  }

  /** Readers see all of a group or nothing: while it is written every read stays as it is, and
      finishing it gives each key at once what the group's last operation on it leaves. */
  lemma GroupAppearsAtOnce(b: Both, j: Joint, c: Both, k: UserKey)
    requires JointInv(b) && JointStep(b, j, c)
    ensures j.InQueue? ==> forall at :: Lsm.Read(c.store, k, at) == Lsm.Read(b.store, k, at)
    ensures j.Commit? ==> j.id in b.queue.pcs && b.queue.pcs[j.id].Inserting?
    ensures j.Commit? ==>
      var ops := b.queue.pcs[j.id].ops;
      Lsm.Read(c.store, k, c.store.lastSequence) ==
        match Lsm.LastOp(ops, k)
        case None => Lsm.Read(b.store, k, b.store.lastSequence)
        case Some(n) => if n < |ops| && ops[n].typ.Value? then Some(ops[n].value) else None
  {
    hide WriteQueue.Inv, WriteQueue.Step, Lsm.Inv, Lsm.Step, Lsm.Read;
    if j.Commit? {
      FinishingLeader(b.queue, j.id, c.queue);
      WriteMoves(b.store, b.queue.pcs[j.id].ops, c.store);
      Lsm.WriteUpdatesLatest(b.store, b.queue.pcs[j.id].ops, c.store, k);
    }
  }
}
