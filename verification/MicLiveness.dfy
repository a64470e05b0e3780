/** A batch on the coprocessor runtime: one host thread pushes the jobs of a batch and then polls
    until it has them all back (pushJobs followed by pullJobs). Under any fair schedule of the
    threads the batch completes, if the ring has room for all its jobs; with one worker, exactly
    if both rings and the worker have. */
module MicLiveness {
  import opened Rings
  import opened MicMachine
  import opened MicSafety
  import opened MicSoleProducers
  import opened Totals

  datatype Args = Args(jobType: int, numThreads: int, jobId: int, params: int)

  /** Jobs to push, and how many results to poll for afterwards. */
  datatype Batch = Batch(jobs: seq<Args>, wanted: nat)

  /** The next step of thread t when the host, thread number `workers`, runs the batch. */
  function BatchNext(s: State, batch: Batch, t: nat): State
    requires s.Valid()
  {
    if t >= |s.threads| then s
    else if t == s.workers && s.threads[t].AtHead? then
      if |s.pushed| < |batch.jobs| then
        var a := batch.jobs[|s.pushed|];
        s.StartPush(t, a.jobType, a.numThreads, a.jobId, a.params)
      else if |s.polled| < batch.wanted then s.StartPoll(t)
      else s
    else s.Next(t)
  }

  /** The state after k steps of a schedule. */
  ghost function At(s: State, batch: Batch, sched: nat -> nat, k: nat): (x: State)
    requires s.Valid()
    ensures x.Valid() && (BatchInv(s, batch) ==> BatchInv(x, batch))
  {
    if k == 0 then s
    else
      var before := At(s, batch, sched, k - 1);
      NextStaysValid(before, batch, sched(k - 1));
      BatchNext(before, batch, sched(k - 1))
  }

  lemma NextStaysValid(s: State, batch: Batch, t: nat)
    requires s.Valid()
    ensures BatchNext(s, batch, t).Valid() && (BatchInv(s, batch) ==> BatchInv(BatchNext(s, batch, t), batch))
  {
    if BatchInv(s, batch) {
      NextKeepsBatchInv(s, batch, t);
    }
    ThreadStaysValid(s, batch, t);
    hide BatchInv, BatchNext, State.Valid;
  }

  lemma ThreadStaysValid(s: State, batch: Batch, t: nat)
    requires s.Valid()
    ensures BatchNext(s, batch, t).Valid()
  {
    if t < |s.threads| {
      var pc, q := s.threads[t], s.RingOf(t, s.threads[t]);
      if IsEnq(pc) {
        EnqStaysValid(pc, q, t);
      } else if IsDeq(pc) {
        DeqStaysValid(pc, q, t);
      }
    }
    hide EnqNext, DeqNext, Fits, Ring.Valid;
  }

  lemma EnqStaysValid(pc: Pc, q: Guarded, t: nat)
    requires IsEnq(pc) && q.ring.Valid() && Fits(pc, q.ring.Cap())
    ensures var (pc', q') := EnqNext(pc, q, t);
            q'.ring.Valid() && q'.ring.Cap() == q.ring.Cap() && Fits(pc', q.ring.Cap())
  {
  }

  lemma DeqStaysValid(pc: Pc, q: Guarded, t: nat)
    requires IsDeq(pc) && q.ring.Valid() && Fits(pc, q.ring.Cap())
    ensures var (pc', q') := DeqNext(pc, q, t);
            q'.ring.Valid() && q'.ring.Cap() == q.ring.Cap() && Fits(pc', q.ring.Cap())
  {
  }

  // ---------- what a batch keeps ----------

  ghost predicate BatchInv(s: State, batch: Batch)
    ensures BatchInv(s, batch) ==> s.Valid()
  {
    Inv(s) && !s.kill && 1 <= s.workers && |s.threads| == s.workers + 1 &&
    (|batch.jobs| <= s.Cap() - 1 || SoleWorker(s)) && PrefixOf(s.pushed, batch.jobs) &&
    (|batch.jobs| >= 2 * s.Cap() ==> StillPushing(s, |batch.jobs|)) &&
    (forall t :: 0 <= t < |s.threads| ==> !s.threads[t].Exited?) &&
    var host := s.threads[s.workers];
    |s.polled| <= batch.wanted <= |batch.jobs| &&
    (IsDeq(host) || host.Holding? ==> |s.pushed| == |batch.jobs| && |s.polled| < batch.wanted) &&
    (host.FullFront? ==> host.index == s.newJobs.ring.rear)
  }

  /** With one worker each ring has a single producer, and may be full. */
  ghost predicate SoleWorker(s: State)
    requires s.Valid()
  {
    s.workers == 1 && Producers(s)
  }

  /** The host has not got to polling. */
  ghost predicate StillPushing(s: State, n: nat)
    requires s.workers < |s.threads|
  {
    var host := s.threads[s.workers];
    s.polled == [] && !IsDeq(host) && !host.Holding? && (|s.pushed| == n ==> Hand(host) != None)
  }

  /** The pushed jobs are the first ones of the batch. */
  ghost predicate PrefixOf(pushed: seq<Job>, jobs: seq<Args>) {
    |pushed| <= |jobs| &&
    forall i :: 0 <= i < |pushed| ==>
      Args(pushed[i].jobType, pushed[i].numThreads, pushed[i].jobId, pushed[i].params) == jobs[i]
  }

  lemma NextIsApply(s: State, batch: Batch, t: nat)
    requires s.Valid()
    ensures BatchNext(s, batch, t) == s || exists a :: BatchNext(s, batch, t) == Apply(s, a)
  {
    if t < |s.threads| {
      if t == s.workers && s.threads[t].AtHead? {
        if |s.pushed| < |batch.jobs| {
          var b := batch.jobs[|s.pushed|];
          assert BatchNext(s, batch, t) == Apply(s, Push(t, b.jobType, b.numThreads, b.jobId, b.params));
        } else {
          assert BatchNext(s, batch, t) == s || BatchNext(s, batch, t) == Apply(s, Poll(t));
        }
      } else {
        assert BatchNext(s, batch, t) == Apply(s, Run(t));
      }
    }
  }

  lemma NextKeepsInvariant(s: State, batch: Batch, t: nat)
    requires BatchInv(s, batch)
    ensures Inv(BatchNext(s, batch, t))
  {
    NextIsApply(s, batch, t);
    if BatchNext(s, batch, t) != s {
      var a :| BatchNext(s, batch, t) == Apply(s, a);
      RoomyInBatch(s, batch);
      StepKeepsInv(s, a);
    }
  }

  lemma RoomyInBatch(s: State, batch: Batch)
    requires BatchInv(s, batch)
    ensures Roomy(s)
  {
    if |batch.jobs| <= s.Cap() - 1 {
      BoundedIsRoomy(s);
    } else {
      ProducersAreRoomy(s);
    }
  }

  lemma NextKeepsSoleWorker(s: State, batch: Batch, t: nat)
    requires BatchInv(s, batch) && SoleWorker(s)
    ensures BatchNext(s, batch, t).Valid() && SoleWorker(BatchNext(s, batch, t))
  {
    NextIsApply(s, batch, t);
    assert s.Valid();
    hide Inv, Producers, BatchNext, Apply;
    NextKeepsThreads(s, batch, t);
    if BatchNext(s, batch, t) != s {
      var a :| BatchNext(s, batch, t) == Apply(s, a);
      StepKeepsProducers(s, a);
      InvIsValid(BatchNext(s, batch, t));
    }
  }

  lemma InvIsValid(s: State)
    requires Inv(s)
    ensures s.Valid()
  {
  }

  // With more jobs than the rings and the worker can hold, the last push never publishes.
  lemma NextKeepsPushing(s: State, batch: Batch, t: nat)
    requires BatchInv(s, batch) && |batch.jobs| >= 2 * s.Cap() && Inv(BatchNext(s, batch, t))
    ensures BatchNext(s, batch, t).workers < |BatchNext(s, batch, t).threads|
    ensures StillPushing(BatchNext(s, batch, t), |batch.jobs|)
  {
    var s' := BatchNext(s, batch, t);
    NextKeepsThreads(s, batch, t);
    if t < s.workers {
      WorkerLeavesRear(s, t);
      hide Inv, State.Next;
    } else if t == s.workers {
      HostPushes(s, batch);
      if |s'.pushed| == |batch.jobs| && Hand(s'.threads[t]) == None {
        AllHeld(s');
        assert false;
      }
    }
  }

  lemma HostPushes(s: State, batch: Batch)
    requires s.Valid() && s.workers < |s.threads| && StillPushing(s, |batch.jobs|) && |s.pushed| <= |batch.jobs|
    requires !s.threads[s.workers].Exited?
    ensures var s' := BatchNext(s, batch, s.workers);
            |s'.threads| == |s.threads| && s'.workers == s.workers && s'.polled == [] &&
            s'.newJobs.ring.Cap() == s.Cap() && !IsDeq(s'.threads[s.workers]) && !s'.threads[s.workers].Holding?
  {
    var host := s.threads[s.workers];
    hide EnqNext, Ring.Valid;
    if IsEnq(host) {
      HostEnqueues(host, s.RingOf(s.workers, host), s.workers);
    }
  }

  lemma HandsOfTwo(w: Job -> nat, threads: seq<Pc>)
    requires |threads| == 2
    ensures InHands(w, threads) == InHand(w, threads[0]) + InHand(w, threads[1])
  {
    assert threads[1..][1..] == [];
    assert InHands(w, threads[1..]) == InHand(w, threads[1]) + InHands(w, []);
  }

  // What one worker and a host without a job in hand leave in the two rings.
  lemma AllHeld(s: State)
    requires Inv(s) && s.workers == 1 && |s.threads| == 2 && Hand(s.threads[1]) == None && s.polled == []
    ensures |s.pushed| <= 2 * s.Cap() - 1
  {
    JobsAddUp(s);
    var one := (job: Job) => 1;
    HandsOfTwo(one, s.threads);
    hide Inv, InHands, Ring.Items;
  }

  // Only the host moves the Rear of newJobs.
  lemma WorkerLeavesRear(s: State, t: nat)
    requires s.Valid() && t < s.workers
    ensures s.Next(t).newJobs.ring.rear == s.newJobs.ring.rear
    ensures s.Next(t).newJobs.ring.Cap() == s.Cap() && s.Next(t).pushed == s.pushed && s.Next(t).polled == s.polled && s.Next(t).kill == s.kill
    ensures s.Next(t).workers == s.workers && |s.Next(t).threads| == |s.threads|
    ensures forall u :: 0 <= u < |s.threads| && u != t ==> s.Next(t).threads[u] == s.threads[u]
    ensures s.Next(t).threads[t].Exited? ==> s.kill || s.threads[t].Exited?
  {
  }

  lemma HostKeepsScript(s: State, batch: Batch)
    requires BatchInv(s, batch)
    ensures var s' := BatchNext(s, batch, s.workers);
            s'.newJobs.ring.Cap() == s.Cap() && PrefixOf(s'.pushed, batch.jobs) && s'.kill == s.kill &&
            s'.workers == s.workers && |s'.threads| == |s.threads| &&
            (forall u :: 0 <= u < s.workers ==> s'.threads[u] == s.threads[u]) &&
            var host := s'.threads[s.workers];
            !host.Exited? && |s'.polled| <= batch.wanted &&
            (IsDeq(host) || host.Holding? ==> |s'.pushed| == |batch.jobs| && |s'.polled| < batch.wanted) &&
            (host.FullFront? ==> host.index == s'.newJobs.ring.rear)
  {
    var host := s.threads[s.workers];
    assert s.Valid();
    hide Inv, Ring.Items, Ring.Occ, Ring.Valid, EnqNext, DeqNext;
    if IsEnq(host) {
      HostEnqueues(host, s.RingOf(s.workers, host), s.workers);
    } else if IsDeq(host) {
      HostDequeues(host, s.RingOf(s.workers, host), s.workers);
    }
  }

  lemma HostEnqueues(pc: Pc, q: Guarded, t: nat)
    requires IsEnq(pc) && q.ring.Valid() && Fits(pc, q.ring.Cap())
    ensures var (pc', q') := EnqNext(pc, q, t);
            q'.ring.Cap() == q.ring.Cap() && !pc'.Exited? && !IsDeq(pc') && !pc'.Holding? &&
            (pc'.FullFront? ==> pc'.index == q'.ring.rear)
  {
  }

  lemma HostDequeues(pc: Pc, q: Guarded, t: nat)
    requires IsDeq(pc) && q.ring.Valid() && Fits(pc, q.ring.Cap())
    ensures var (pc', q') := DeqNext(pc, q, t);
            q'.ring.Cap() == q.ring.Cap() && !pc'.Exited? && !pc'.FullFront?
  {
  }

  lemma NextKeepsBatchInv(s: State, batch: Batch, t: nat)
    requires BatchInv(s, batch)
    ensures BatchInv(BatchNext(s, batch, t), batch)
  {
    NextKeepsInvariant(s, batch, t);
    if |batch.jobs| > s.Cap() - 1 {
      NextKeepsSoleWorker(s, batch, t);
    }
    if |batch.jobs| >= 2 * s.Cap() {
      NextKeepsPushing(s, batch, t);
    }
    hide SoleWorker, StillPushing;
    if t < s.workers {
      WorkerLeavesRear(s, t);
    } else if t == s.workers {
      HostKeepsScript(s, batch);
    }
    hide State.Next;
  }

  /** A push of a batch that the ring has room for never finds newJobs full. */
  lemma PushNeverFindsRingFull(s: State, batch: Batch)
    requires BatchInv(s, batch) && |batch.jobs| <= s.Cap() - 1 && s.threads[s.workers].FullFront?
    ensures BatchNext(s, batch, s.workers).threads[s.workers].EnqLock?
  {
    RoomToPublish(s, s.workers);
    TestsMeasureOccupancy(s.newJobs.ring);
  }

  // ---------- the measure ----------

  // How far a job in a thread's hand still is from being polled.
  function Stage(pc: Pc, isHost: bool): nat {
    if Hand(pc) == None then 0
    else if !isHost then 3
    else if IsEnq(pc) then 5 else 1
  }

  function Stages(s: State): seq<nat> {
    seq(|s.threads|, t requires 0 <= t < |s.threads| => Stage(s.threads[t], t >= s.workers))
  }

  /** Stage-weighted count of the unfinished jobs. */
  function Work(s: State, n: nat): int
    requires s.Valid()
  {
    6 * (n - |s.pushed|) + 4 * s.newJobs.ring.Occ() + 2 * s.finishedJobs.ring.Occ() + Total(Stages(s))
  }

  /** Steps thread t still takes before it changes the work, or finds its ring empty or full.
      A test that has read a stale index costs one more round. */
  function Rank(pc: Pc, incoming: Ring<Job>, outgoing: Ring<Job>): nat
    requires incoming.Valid() && outgoing.Valid() && Fits(pc, incoming.Cap()) && Fits(pc, outgoing.Cap())
  {
    match pc
    case EnqUnlock => 14
    case GotUnlock(_) => 12
    case Holding(_) => 11
    case FullFront(_, rear) =>
      if outgoing.IsFull() then 0 else if Wrap(rear + 2, outgoing.Cap()) == outgoing.front then 10 else 8
    case FullRear(_) => if outgoing.IsFull() then 0 else 9
    case EnqLock(_) => 7
    case EnqRead(_) => 6
    case EnqWrite(_, _) => 5
    case EnqPublish(_, _) => 4
    case Exited => 0
    case _ => if incoming.IsEmpty() then EmptyRank(pc, incoming) else NonEmptyRank(pc, incoming)
  }

  function EmptyRank(pc: Pc, incoming: Ring<Job>): nat
    requires incoming.Valid() && Fits(pc, incoming.Cap())
  {
    match pc
    case EmptyFront(rear) => if Wrap(rear + 1, incoming.Cap()) == incoming.front then 0 else 9
    case DeqLock => 8
    case LockedRear => 7
    case LockedFront(_) => 6
    case NoneUnlock => 5
    case _ => 0
  }

  function NonEmptyRank(pc: Pc, incoming: Ring<Job>): nat
    requires incoming.Valid() && Fits(pc, incoming.Cap())
  {
    match pc
    case NoneUnlock => 13
    case EmptyFront(rear) => if Wrap(rear + 1, incoming.Cap()) == incoming.front then 13 else 10
    case AtHead => 12
    case EmptyRear => 11
    case DeqLock => 9
    case LockedRear => 8
    case LockedFront(_) => 7
    case DeqReadFront => 6
    case DeqReadSlot(_) => 5
    case DeqReadAgain(_) => 4
    case _ => 3
  }

  function RankOf(s: State, t: nat): nat
    requires s.Valid() && t < |s.threads|
  {
    if t < s.workers then Rank(s.threads[t], s.newJobs.ring, s.finishedJobs.ring)
    else Rank(s.threads[t], s.finishedJobs.ring, s.newJobs.ring)
  }

  function Ranks(s: State): seq<nat>
    requires s.Valid()
  {
    seq(|s.threads|, t requires 0 <= t < |s.threads| => RankOf(s, t))
  }

  ghost predicate Below(s': State, s: State, n: nat)
    requires s'.Valid() && s.Valid()
  {
    Work(s', n) < Work(s, n) || (Work(s', n) == Work(s, n) && Total(Ranks(s')) < Total(Ranks(s)))
  }

  /** An idle step of t: waiting for a mutex, looking into an empty ring or for room in a full
      one, or a host whose batch is done. */
  ghost predicate Idle(s: State, batch: Batch, t: nat)
    requires BatchInv(s, batch) && t < |s.threads|
  {
    var pc := s.threads[t];
    if pc.EnqLock? || pc.DeqLock? then s.RingOf(t, pc).holder != None
    else if t == s.workers && pc.AtHead? && |s.pushed| < |batch.jobs| then false
    else if t == s.workers && pc.AtHead? && |s.polled| == batch.wanted then true
    else RankOf(s, t) == 0
  }

  // ---------- every step that is not idle goes down ----------

  lemma RingMoved(s: State, s': State, t: nat, n: nat)
    requires s.Valid() && s'.Valid() && t < |s.threads| && |s.threads| == |s'.threads| && s.workers == s'.workers
    requires s'.threads == s.threads[t := s'.threads[t]]
    requires 6 * (n - |s'.pushed|) + 4 * s'.newJobs.ring.Occ() + 2 * s'.finishedJobs.ring.Occ() +
             Stage(s'.threads[t], t >= s.workers) <
             6 * (n - |s.pushed|) + 4 * s.newJobs.ring.Occ() + 2 * s.finishedJobs.ring.Occ() +
             Stage(s.threads[t], t >= s.workers)
    ensures Work(s', n) < Work(s, n) && Below(s', s, n)
  {
    var x := Stage(s'.threads[t], t >= s.workers);
    assert Stages(s') == Stages(s)[t := x];
    TotalUpdate(Stages(s), t, x);
  }

  // The two indices of both rings unchanged: only t's own rank and stage move.
  ghost predicate SameIndices(s: State, s': State) {
    s'.newJobs.ring.front == s.newJobs.ring.front && s'.newJobs.ring.rear == s.newJobs.ring.rear &&
    s'.finishedJobs.ring.front == s.finishedJobs.ring.front && s'.finishedJobs.ring.rear == s.finishedJobs.ring.rear &&
    s'.newJobs.ring.Cap() == s.newJobs.ring.Cap() && s'.finishedJobs.ring.Cap() == s.finishedJobs.ring.Cap()
  }

  lemma OnlyRankMoved(s: State, s': State, t: nat, n: nat)
    requires s.Valid() && s'.Valid() && t < |s.threads| && |s.threads| == |s'.threads| && s.workers == s'.workers
    requires s'.threads == s.threads[t := s'.threads[t]] && SameIndices(s, s') && |s'.pushed| == |s.pushed|
    requires Stage(s'.threads[t], t >= s.workers) == Stage(s.threads[t], t >= s.workers)
    ensures Work(s', n) == Work(s, n)
    ensures Total(Ranks(s')) == Total(Ranks(s)) - RankOf(s, t) + RankOf(s', t)
  {
    assert Stages(s') == Stages(s);
    forall u | 0 <= u < |s.threads| && u != t ensures RankOf(s', u) == RankOf(s, u) {
      assert s'.threads[u] == s.threads[u];
    }
    assert Ranks(s') == Ranks(s)[t := RankOf(s', t)];
    TotalUpdate(Ranks(s), t, RankOf(s', t));
  }

  lemma EnqDescends(s: State, batch: Batch, t: nat)
    requires BatchInv(s, batch) && t < |s.threads| && IsEnq(s.threads[t]) && !Idle(s, batch, t)
    ensures var s' := BatchNext(s, batch, t); s'.Valid() && Below(s', s, |batch.jobs|)
  {
    var s' := BatchNext(s, batch, t);
    NextKeepsBatchInv(s, batch, t);
    var pc := s.threads[t];
    var q := s.RingOf(t, pc);
    assert Knows(pc, q.ring);
    if pc.EnqPublish? {
      RoomyInBatch(s, batch);
      PublishDescends(s, t, |batch.jobs|);
    } else {
      EnqRankFalls(s, batch, t);
      hide Inv;
      OnlyRankMoved(s, s', t, |batch.jobs|);
    }
  }

  lemma PublishDescends(s: State, t: nat, n: nat)
    requires Inv(s) && Roomy(s) && t < |s.threads| && s.threads[t].EnqPublish? && s.Next(t).Valid()
    ensures Work(s.Next(t), n) < Work(s, n) && Below(s.Next(t), s, n)
  {
    var pc, q := s.threads[t], s.RingOf(t, s.threads[t]);
    var r' := q.ring.MoveRear(pc.index);
    assert s.Next(t) == s.WithRing(t, pc, q.(ring := r')).Move(t, EnqUnlock);
    assert Knows(pc, q.ring);
    PublishAppends(q.ring);
    hide *;
    PublishLowersWork(s, t, r', s.Next(t), n);
  }

  lemma PublishLowersWork(s: State, t: nat, r': Ring<Job>, s': State, n: nat)
    requires s.Valid() && t < |s.threads| && s.threads[t].EnqPublish? && s'.Valid()
    requires var pc := s.threads[t]; var q := s.RingOf(t, pc);
             r'.Valid() && r'.Occ() == q.ring.Occ() + 1 &&
             s' == s.WithRing(t, pc, q.(ring := r')).Move(t, EnqUnlock)
    ensures Work(s', n) < Work(s, n) && Below(s', s, n)
  {
    RingMoved(s, s', t, n);
  }

  lemma EnqRankFalls(s: State, batch: Batch, t: nat)
    requires BatchInv(s, batch) && t < |s.threads| && IsEnq(s.threads[t]) && !s.threads[t].EnqPublish? && !Idle(s, batch, t)
    requires s.Next(t).Valid()
    ensures var s' := s.Next(t);
            s'.threads == s.threads[t := s'.threads[t]] && SameIndices(s, s') && s'.pushed == s.pushed &&
              s'.workers == s.workers &&
            Stage(s'.threads[t], t >= s.workers) == Stage(s.threads[t], t >= s.workers) &&
            RankOf(s', t) < RankOf(s, t)
  {
    var pc := s.threads[t];
    var q := s.RingOf(t, pc);
    assert s.Valid();
    hide BatchInv;
    EnqRankStep(pc, q, if t < s.workers then s.newJobs.ring else s.finishedJobs.ring, t);
    var (pc', q') := EnqNext(pc, q, t);
    assert s.Next(t) == s.WithRing(t, pc, q').Move(t, pc');
    hide EnqNext, Rank, Fits, Ring.Valid, Hand;
  }

  lemma EnqRankStep(pc: Pc, q: Guarded, incoming: Ring<Job>, t: nat)
    requires IsEnq(pc) && !pc.EnqPublish? && q.ring.Valid() && incoming.Valid() && incoming.Cap() == q.ring.Cap()
    requires Fits(pc, q.ring.Cap())
    requires if pc.EnqLock? then q.holder == None else Rank(pc, incoming, q.ring) > 0
    ensures var (pc', q') := EnqNext(pc, q, t);
            q'.ring.front == q.ring.front && q'.ring.rear == q.ring.rear && q'.ring.Cap() == q.ring.Cap() &&
            Fits(pc', q.ring.Cap()) && Hand(pc') == Hand(pc) && (IsEnq(pc') || pc' == AtHead) &&
            Rank(pc', incoming, q'.ring) < Rank(pc, incoming, q.ring)
  {
  }

  /** Between the two reads of IsFull. */
  predicate AtTest(pc: Pc) { pc.FullRear? || pc.FullFront? }

  // A thread that finds its ring full has a current Rear, and there is but one worker.
  lemma FullIsCurrent(s: State, batch: Batch, t: nat)
    requires BatchInv(s, batch) && t < |s.threads| && AtTest(s.threads[t])
    requires s.RingOf(t, s.threads[t]).ring.IsFull()
    ensures s.threads[t].FullFront? ==> s.threads[t].index == s.RingOf(t, s.threads[t]).ring.rear
    ensures |batch.jobs| > s.Cap() - 1 && SoleWorker(s)
  {
    if |batch.jobs| <= s.Cap() - 1 {
      RoomToPublish(s, t);
      TestsMeasureOccupancy(s.newJobs.ring);
      TestsMeasureOccupancy(s.finishedJobs.ring);
    }
    assert SoleWorker(s);
    assert Alone(s.threads[t], s.RingOf(t, s.threads[t]).ring);
    hide Inv, Ring.Items, Ring.Occ;
  }

  lemma DeqDescends(s: State, batch: Batch, t: nat)
    requires BatchInv(s, batch) && t < |s.threads| && IsDeq(s.threads[t]) && !Idle(s, batch, t)
    ensures var s' := BatchNext(s, batch, t); s'.Valid() && Below(s', s, |batch.jobs|)
  {
    var s' := BatchNext(s, batch, t);
    NextKeepsBatchInv(s, batch, t);
    var pc := s.threads[t];
    var q := s.RingOf(t, pc);
    assert Knows(pc, q.ring);
    if pc.DeqAdvance? {
      TakeDescends(s, t, |batch.jobs|);
    } else {
      DeqRankFalls(s, batch, t);
      hide Inv;
      OnlyRankMoved(s, s', t, |batch.jobs|);
    }
  }

  lemma TakeDescends(s: State, t: nat, n: nat)
    requires s.Valid() && t < |s.threads| && s.threads[t].DeqAdvance? && s.Next(t).Valid()
    requires Knows(s.threads[t], s.RingOf(t, s.threads[t]).ring)
    ensures Work(s.Next(t), n) < Work(s, n) && Below(s.Next(t), s, n)
  {
    var pc, q := s.threads[t], s.RingOf(t, s.threads[t]);
    AdvanceDropsHead(q.ring);
    hide Ring.Items;
    RingMoved(s, s.Next(t), t, n);
  }

  lemma DeqRankStep(pc: Pc, q: Guarded, outgoing: Ring<Job>, t: nat)
    requires IsDeq(pc) && !pc.DeqAdvance? && q.ring.Valid() && outgoing.Valid() && outgoing.Cap() == q.ring.Cap()
    requires Fits(pc, q.ring.Cap()) && Knows(pc, q.ring)
    requires if pc.DeqLock? then q.holder == None else Rank(pc, q.ring, outgoing) > 0
    ensures var (pc', q') := DeqNext(pc, q, t);
            q'.ring == q.ring && Fits(pc', q.ring.Cap()) && Hand(pc') == Hand(pc) &&
            Rank(pc', q.ring, outgoing) < Rank(pc, q.ring, outgoing)
  {
    TestsMeasureOccupancy(q.ring);
  }

  lemma DeqRankFalls(s: State, batch: Batch, t: nat)
    requires BatchInv(s, batch) && t < |s.threads| && IsDeq(s.threads[t]) && !s.threads[t].DeqAdvance? && !Idle(s, batch, t)
    requires s.Next(t).Valid()
    ensures var s' := s.Next(t);
            s'.threads == s.threads[t := s'.threads[t]] && SameIndices(s, s') && s'.pushed == s.pushed &&
              s'.workers == s.workers &&
            Stage(s'.threads[t], t >= s.workers) == Stage(s.threads[t], t >= s.workers) &&
            RankOf(s', t) < RankOf(s, t)
  {
    var pc := s.threads[t];
    var q := s.RingOf(t, pc);
    assert Knows(pc, q.ring);
    DeqRankStep(pc, q, if t < s.workers then s.finishedJobs.ring else s.newJobs.ring, t);
    var (pc', q') := DeqNext(pc, q, t);
    assert s.Next(t) == s.WithRing(t, pc, q').Move(t, pc');
  }

  lemma LocalRankFalls(s: State, batch: Batch, t: nat)
    requires BatchInv(s, batch) && t < |s.threads| && !IsEnq(s.threads[t]) && !IsDeq(s.threads[t]) && !Idle(s, batch, t)
    requires t == s.workers ==> !s.threads[t].Holding? && |s.pushed| == |batch.jobs|
    requires BatchNext(s, batch, t).Valid()
    ensures var s' := BatchNext(s, batch, t);
            s' == s.(threads := s.threads[t := s'.threads[t]]) &&
            Stage(s'.threads[t], t >= s.workers) == Stage(s.threads[t], t >= s.workers) &&
            RankOf(s', t) < RankOf(s, t)
  {
    JobsAddUp(s);
  }

  lemma LocalDescends(s: State, batch: Batch, t: nat)
    requires BatchInv(s, batch) && t < |s.threads| && !IsEnq(s.threads[t]) && !IsDeq(s.threads[t]) && !Idle(s, batch, t)
    ensures var s' := BatchNext(s, batch, t); s'.Valid() && Below(s', s, |batch.jobs|)
  {
    var s' := BatchNext(s, batch, t);
    NextKeepsBatchInv(s, batch, t);
    if t == s.workers && (s.threads[t].Holding? || |s.pushed| < |batch.jobs|) {
      RingMoved(s, s', t, |batch.jobs|);
    } else {
      LocalRankFalls(s, batch, t);
      OnlyRankMoved(s, s', t, |batch.jobs|);
    }
  }

  /** Every step that is not idle makes the measure smaller. */
  lemma StepDescends(s: State, batch: Batch, t: nat)
    requires BatchInv(s, batch) && t < |s.threads| && !Idle(s, batch, t)
    ensures BatchInv(BatchNext(s, batch, t), batch)
    ensures Below(BatchNext(s, batch, t), s, |batch.jobs|)
  {
    NextKeepsBatchInv(s, batch, t);
    if IsEnq(s.threads[t]) {
      EnqDescends(s, batch, t);
    } else if IsDeq(s.threads[t]) {
      DeqDescends(s, batch, t);
    } else {
      LocalDescends(s, batch, t);
    }
  }

  /** An idle step moves nothing but t's own program counter, and no measure. */
  lemma IdleChangesNothing(s: State, batch: Batch, t: nat)
    requires BatchInv(s, batch) && t < |s.threads| && Idle(s, batch, t)
    ensures var s' := BatchNext(s, batch, t);
            BatchInv(s', batch) &&
            s' == s.(threads := s.threads[t := s'.threads[t]]) &&
            Work(s', |batch.jobs|) == Work(s, |batch.jobs|) && Total(Ranks(s')) == Total(Ranks(s))
  {
    var s' := BatchNext(s, batch, t);
    NextKeepsBatchInv(s, batch, t);
    IdleStep(s, batch, t);
    OnlyRankMoved(s, s', t, |batch.jobs|);
  }

  lemma DeqIdleStep(pc: Pc, q: Guarded, outgoing: Ring<Job>, t: nat)
    requires IsDeq(pc) && q.ring.Valid() && outgoing.Valid() && outgoing.Cap() == q.ring.Cap() && Fits(pc, q.ring.Cap())
    requires Knows(pc, q.ring)
    requires if pc.DeqLock? then q.holder != None else Rank(pc, q.ring, outgoing) == 0
    ensures var (pc', q') := DeqNext(pc, q, t);
            q' == q && Fits(pc', q.ring.Cap()) && Hand(pc') == Hand(pc) == None &&
            Rank(pc', q.ring, outgoing) == Rank(pc, q.ring, outgoing)
  {
    TestsMeasureOccupancy(q.ring);
  }

  lemma IdleStep(s: State, batch: Batch, t: nat)
    requires BatchInv(s, batch) && t < |s.threads| && Idle(s, batch, t)
    requires BatchNext(s, batch, t).Valid()
    ensures var s' := BatchNext(s, batch, t);
            s' == s.(threads := s.threads[t := s'.threads[t]]) && RankOf(s', t) == RankOf(s, t) &&
            Stage(s'.threads[t], t >= s.workers) == Stage(s.threads[t], t >= s.workers)
  {
    JobsAddUp(s);
    if IsDeq(s.threads[t]) {
      IdleDeqStep(s, batch, t);
    } else if AtTest(s.threads[t]) {
      IdleTestStep(s, batch, t);
    } else {
      IdleLocalStep(s, batch, t);
    }
  }

  lemma IdleDeqStep(s: State, batch: Batch, t: nat)
    requires BatchInv(s, batch) && t < |s.threads| && Idle(s, batch, t) && IsDeq(s.threads[t])
    requires BatchNext(s, batch, t).Valid()
    ensures var s' := BatchNext(s, batch, t);
            s' == s.(threads := s.threads[t := s'.threads[t]]) && RankOf(s', t) == RankOf(s, t) &&
            Stage(s'.threads[t], t >= s.workers) == Stage(s.threads[t], t >= s.workers)
  {
    var pc, q := s.threads[t], s.RingOf(t, s.threads[t]);
    assert Knows(pc, q.ring);
    hide Inv;
    DeqIdleStep(pc, q, if t < s.workers then s.finishedJobs.ring else s.newJobs.ring, t);
    assert BatchNext(s, batch, t) == s.Move(t, DeqNext(pc, q, t).0);
  }

  // A test that finds the ring full starts again.
  lemma IdleTestStep(s: State, batch: Batch, t: nat)
    requires BatchInv(s, batch) && t < |s.threads| && Idle(s, batch, t) && AtTest(s.threads[t])
    ensures var s' := BatchNext(s, batch, t);
            s'.Valid() && |s'.threads| == |s.threads| &&
            s' == s.(threads := s.threads[t := s'.threads[t]]) && RankOf(s', t) == RankOf(s, t) &&
            Stage(s'.threads[t], t >= s.workers) == Stage(s.threads[t], t >= s.workers) && AtTest(s'.threads[t])
  {
    assert s.RingOf(t, s.threads[t]).ring.IsFull();
    FullIsCurrent(s, batch, t);
    assert s.Valid();
    hide BatchInv, Ring.Items, Ring.Occ;
    var pc := s.threads[t];
    var q := s.RingOf(t, pc);
    var pc' := if pc.FullRear? then FullFront(pc.job, q.ring.rear) else FullRear(pc.job);
    assert EnqNext(pc, q, t) == (pc', q);
    assert BatchNext(s, batch, t) == s.Move(t, pc');
  }

  lemma IdleLocalStep(s: State, batch: Batch, t: nat)
    requires BatchInv(s, batch) && t < |s.threads| && Idle(s, batch, t) && !IsDeq(s.threads[t])
    requires !AtTest(s.threads[t])
    requires BatchNext(s, batch, t).Valid()
    ensures var s' := BatchNext(s, batch, t);
            s' == s.(threads := s.threads[t := s'.threads[t]]) && RankOf(s', t) == RankOf(s, t) &&
            Stage(s'.threads[t], t >= s.workers) == Stage(s.threads[t], t >= s.workers)
  {
    assert s.Valid();
    hide Inv;
    var pc := s.threads[t];
    assert s.threads == s.threads[t := pc];
    assert pc.EnqLock? || pc.AtHead?;
    assert BatchNext(s, batch, t) ==
           if pc.EnqLock? || (t == s.workers && |s.polled| == batch.wanted) then s else s.Move(t, EmptyRear);
  }

  // ---------- some thread always has a step that is not idle ----------

  lemma MutexHolderNotIdle(s: State, batch: Batch, t: nat)
    requires BatchInv(s, batch) && t < |s.threads| && Critical(s.threads[t])
    ensures !Idle(s, batch, t)
  {
    var pc := s.threads[t];
    assert Knows(pc, s.RingOf(t, pc).ring);
    TestsMeasureOccupancy(s.newJobs.ring);
    TestsMeasureOccupancy(s.finishedJobs.ring);
  }

  lemma {:induction false} SomeHand(threads: seq<Pc>) returns (t: nat)
    requires InHands((job: Job) => 1, threads) > 0
    ensures t < |threads| && Hand(threads[t]) != None
  {
    if Hand(threads[0]) != None {
      t := 0;
    } else {
      t := SomeHand(threads[1..]);
      t := t + 1;
    }
  }

  lemma JobsAddUp(s: State)
    requires Inv(s)
    ensures |s.pushed| == s.newJobs.ring.Occ() + s.finishedJobs.ring.Occ() + InHands((job: Job) => 1, s.threads) + |s.polled|
  {
    var one := (job: Job) => 1;
    assert Sum(one, s.pushed) == Places(one, s);
    SumOfOnes(s.pushed);
    SumOfOnes(s.polled);
    SumOfOnes(s.newJobs.ring.Items());
    SumOfOnes(s.finishedJobs.ring.Items());
  }

  /** Both calls of the host have returned: all is pushed, and polled as often as wanted. */
  ghost predicate HostDone(s: State, batch: Batch) {
    s.workers < |s.threads| && s.threads[s.workers] == AtHead && |s.pushed| == |batch.jobs| && |s.polled| == batch.wanted
  }

  /** Both rings are full, and every thread has a job that it looks for room for. */
  ghost predicate Jammed(s: State)
    requires s.Valid()
  {
    s.newJobs.ring.IsFull() && s.finishedJobs.ring.IsFull() &&
    forall t :: 0 <= t < |s.threads| ==> AtTest(s.threads[t])
  }

  /** Until the host is done, or all are jammed, some thread has a step that is not idle. */
  lemma SomeoneNotIdle(s: State, batch: Batch) returns (t: nat)
    requires BatchInv(s, batch) && !HostDone(s, batch) && !Jammed(s)
    ensures t < |s.threads| && !Idle(s, batch, t)
  {
    if u :| 0 <= u < |s.threads| && Critical(s.threads[u]) {
      t := u;
      MutexHolderNotIdle(s, batch, t);
    } else {
      MutexesFree(s);
      hide Inv, Idle, SoleWorker, StillPushing;
      if |s.pushed| < |batch.jobs| || IsEnq(s.threads[s.workers]) {
        t := PusherOrWorker(s, batch);
      } else {
        t := PollerOrWorker(s, batch);
      }
    }
  }

  // With no thread in a mutex: a host that is pushing can move, unless newJobs is full. Then the
  // worker can fetch, or pass on what it has, unless finishedJobs is full, too.
  lemma PusherOrWorker(s: State, batch: Batch) returns (t: nat)
    requires BatchInv(s, batch) && !Jammed(s) && s.newJobs.holder == None && s.finishedJobs.holder == None
    requires forall u :: 0 <= u < |s.threads| ==> !Critical(s.threads[u])
    requires |s.pushed| < |batch.jobs| || IsEnq(s.threads[s.workers])
    ensures t < |s.threads| && !Idle(s, batch, t)
  {
    var host := s.threads[s.workers];
    t := s.workers;
    if AtTest(host) && s.newJobs.ring.IsFull() {
      t := 0;
      FullIsCurrent(s, batch, s.workers);
      TestsMeasureOccupancy(s.newJobs.ring);
      assert !s.newJobs.ring.IsEmpty();
      assert AtTest(s.threads[0]) ==> !s.finishedJobs.ring.IsFull();
    }
    hide Inv, Ring.Items, Ring.Occ, InHands, Producers;
  }

  // A host that is polling can move if there are results; if not, finishedJobs is not full, and a
  // worker with something to fetch, or a thread with a job in hand, can move.
  lemma PollerOrWorker(s: State, batch: Batch) returns (t: nat)
    requires BatchInv(s, batch) && !HostDone(s, batch) && s.newJobs.holder == None && s.finishedJobs.holder == None
    requires forall u :: 0 <= u < |s.threads| ==> !Critical(s.threads[u])
    requires |s.pushed| == |batch.jobs| && !IsEnq(s.threads[s.workers])
    ensures t < |s.threads| && !Idle(s, batch, t)
  {
    JobsAddUp(s);
    TestsMeasureOccupancy(s.newJobs.ring);
    TestsMeasureOccupancy(s.finishedJobs.ring);
    hide Inv, Ring.Items, InHands;
    if s.finishedJobs.ring.Occ() > 0 {
      t := s.workers;
    } else if s.newJobs.ring.Occ() > 0 {
      t := 0;
    } else if InHands((job: Job) => 1, s.threads) > 0 {
      t := SomeHand(s.threads);
    } else {
      t := s.workers;
    }
  }

  lemma MutexesFree(s: State)
    requires s.Valid() && MutexOk(s)
    requires forall u :: 0 <= u < |s.threads| ==> !Critical(s.threads[u])
    ensures s.newJobs.holder == None && s.finishedJobs.holder == None
  {
  }

  // ---------- main result ----------

  ghost predicate Later(sched: nat -> nat, t: nat, k: nat) {
    exists m: nat :: m >= k && sched(m) == t
  }

  /** Every thread is scheduled again and again. */
  ghost predicate Fair(sched: nat -> nat, threads: nat) {
    forall t: nat, k: nat :: t < threads ==> Later(sched, t, k)
  }

  lemma AtStart(s: State, batch: Batch, sched: nat -> nat)
    requires s.Valid()
    ensures At(s, batch, sched, 0) == s
  {
    hide BatchInv, BatchNext;
  }

  lemma AtNext(s: State, batch: Batch, sched: nat -> nat, k: nat)
    requires s.Valid()
    ensures At(s, batch, sched, k).Valid()
    ensures At(s, batch, sched, k + 1) == BatchNext(At(s, batch, sched, k), batch, sched(k))
  {
    assert At(s, batch, sched, k).Valid();
    hide BatchInv, BatchNext;
  }

  lemma BelowIsTransitive(s2: State, s1: State, s0: State, n: nat)
    requires s2.Valid() && s1.Valid() && s0.Valid() && Below(s2, s1, n)
    requires Below(s1, s0, n) || (Work(s1, n) == Work(s0, n) && Total(Ranks(s1)) == Total(Ranks(s0)))
    ensures Below(s2, s0, n)
  {
    hide Work, Total, Ranks;
  }

  lemma SameThreadStaysActive(s: State, batch: Batch, t: nat, u: nat)
    requires BatchInv(s, batch) && t < |s.threads| && !Idle(s, batch, t) && t != u
    requires u >= |s.threads| || Idle(s, batch, u)
    ensures var s' := BatchNext(s, batch, u);
            BatchInv(s', batch) && |s'.threads| == |s.threads| && !Idle(s', batch, t) &&
            Work(s', |batch.jobs|) == Work(s, |batch.jobs|) && Total(Ranks(s')) == Total(Ranks(s))
  {
    if u < |s.threads| {
      IdleChangesNothing(s, batch, u);
      hide Work, Total, Ranks;
      assert BatchNext(s, batch, u).threads[t] == s.threads[t];
    }
  }

  // Until t, which can move, is scheduled at step `due`, some step goes down.
  lemma {:induction false} DescendsBy(s: State, batch: Batch, sched: nat -> nat, k: nat, due: nat, t: nat) returns (m: nat)
    requires BatchInv(s, batch) && k <= due && sched(due) == t
    requires t < |At(s, batch, sched, k).threads| && !Idle(At(s, batch, sched, k), batch, t)
    ensures m > k && Below(At(s, batch, sched, m), At(s, batch, sched, k), |batch.jobs|)
    decreases due - k
  {
    hide *;
    AtNext(s, batch, sched, k);
    var here, u := At(s, batch, sched, k), sched(k);
    if u < |here.threads| && !Idle(here, batch, u) {
      StepDescends(here, batch, u);
      m := k + 1;
    } else {
      SameThreadStaysActive(here, batch, t, u);
      assert due != k;
      m := DescendsBy(s, batch, sched, k + 1, due, t);
      AtNext(s, batch, sched, k + 1);
      AtNext(s, batch, sched, m);
      BelowIsTransitive(At(s, batch, sched, m), At(s, batch, sched, k + 1), here, |batch.jobs|);
    }
  }

  lemma {:induction false} CompletesFrom(s: State, batch: Batch, sched: nat -> nat, k: nat) returns (m: nat)
    requires BatchInv(s, batch) && Fair(sched, |s.threads|)
    ensures HostDone(At(s, batch, sched, m), batch) || Jammed(At(s, batch, sched, m))
    decreases Work(At(s, batch, sched, k), |batch.jobs|), Total(Ranks(At(s, batch, sched, k)))
  {
    var here := At(s, batch, sched, k);
    if HostDone(here, batch) || Jammed(here) {
      m := k;
    } else {
      var t := SomeoneNotIdle(here, batch);
      ThreadsStay(s, batch, sched, k);
      assert Later(sched, t, k);
      var due: nat :| due >= k && sched(due) == t;
      var lower := DescendsBy(s, batch, sched, k, due, t);
      m := CompletesFrom(s, batch, sched, lower);
    }
  }

  lemma NextKeepsThreads(s: State, batch: Batch, t: nat)
    requires s.Valid()
    ensures var s' := BatchNext(s, batch, t); |s'.threads| == |s.threads| && s'.workers == s.workers
  {
  }

  lemma {:induction false} ThreadsStay(s: State, batch: Batch, sched: nat -> nat, k: nat)
    requires s.Valid()
    ensures |At(s, batch, sched, k).threads| == |s.threads| && At(s, batch, sched, k).workers == s.workers
  {
    hide *;
    AtStart(s, batch, sched);
    if k > 0 {
      ThreadsStay(s, batch, sched, k - 1);
      AtNext(s, batch, sched, k - 1);
      NextKeepsThreads(At(s, batch, sched, k - 1), batch, sched(k - 1));
    }
  }

  lemma StartHasBatchInv(s: State, batch: Batch)
    requires Init(s) && 1 <= s.workers && |s.threads| == s.workers + 1
    requires batch.wanted <= |batch.jobs| && (|batch.jobs| <= s.Cap() - 1 || s.workers == 1)
    ensures BatchInv(s, batch)
  {
    InitHasInv(s);
  }

  /** The host is done, its jobs were the batch's, and each is in exactly one place; polled for
      all of them, nothing is left in a ring or in a hand. */
  ghost predicate Complete(s: State, batch: Batch)
    requires s.Valid()
  {
    && HostDone(s, batch) && PrefixOf(s.pushed, batch.jobs)
    && (forall job :: Occurrences(job, s) == if job in s.pushed then 1 else 0)
    && (batch.wanted == |batch.jobs| ==> Drained(s))
  }

  ghost predicate Drained(s: State)
    requires s.Valid()
  {
    && s.newJobs.ring.Items() == [] && s.finishedJobs.ring.Items() == []
    && forall t :: 0 <= t < |s.threads| ==> Hand(s.threads[t]) == None
  }

  lemma DoneIsComplete(s: State, batch: Batch)
    requires BatchInv(s, batch) && HostDone(s, batch)
    ensures Complete(s, batch)
  {
    JobsAddUp(s);
    if batch.wanted == |batch.jobs| {
      forall t | 0 <= t < |s.threads| ensures Hand(s.threads[t]) == None {
        HandWithinHands((job: Job) => 1, s.threads, t);
      }
    }
    forall job ensures Occurrences(job, s) == if job in s.pushed then 1 else 0 {
      InvMeansOnce(s, job);
    }
  }

  lemma DoneStays(s: State, batch: Batch, t: nat)
    requires BatchInv(s, batch) && HostDone(s, batch)
    ensures HostDone(BatchNext(s, batch, t), batch)
  {
    if t < s.workers {
      WorkerLeavesRear(s, t);
      hide State.Next;
    }
  }

  lemma {:induction false} DoneForEver(s: State, batch: Batch, sched: nat -> nat, m: nat, k: nat)
    requires BatchInv(s, batch) && m <= k && HostDone(At(s, batch, sched, m), batch)
    ensures HostDone(At(s, batch, sched, k), batch)
    decreases k
  {
    hide *;
    if m < k {
      DoneForEver(s, batch, sched, m, k - 1);
      AtNext(s, batch, sched, k - 1);
      DoneStays(At(s, batch, sched, k - 1), batch, sched(k - 1));
    }
  }

  lemma JammedStays(s: State, batch: Batch, t: nat)
    requires BatchInv(s, batch) && Jammed(s)
    ensures BatchNext(s, batch, t).Valid() && Jammed(BatchNext(s, batch, t))
  {
    if t < |s.threads| {
      assert s.Valid();
      assert Idle(s, batch, t);
      IdleTestStep(s, batch, t);
      hide Inv, BatchNext, Idle;
    }
  }

  lemma {:induction false} JammedForEver(s: State, batch: Batch, sched: nat -> nat, m: nat, k: nat)
    requires BatchInv(s, batch) && m <= k && At(s, batch, sched, m).Valid() && Jammed(At(s, batch, sched, m))
    ensures At(s, batch, sched, k).Valid() && Jammed(At(s, batch, sched, k))
    decreases k
  {
    hide *;
    if m < k {
      JammedForEver(s, batch, sched, m, k - 1);
      AtNext(s, batch, sched, k - 1);
      JammedStays(At(s, batch, sched, k - 1), batch, sched(k - 1));
    }
  }

  /** Two jobs more than the two rings have room for, and nothing polled or ever to be. */
  lemma JamHolds(s: State, batch: Batch)
    requires BatchInv(s, batch) && Jammed(s)
    ensures |batch.jobs| >= 2 * s.Cap() && |s.pushed| == 2 * s.Cap() && s.polled == [] && !HostDone(s, batch)
  {
    FullIsCurrent(s, batch, s.workers);
    JobsAddUp(s);
    TestsMeasureOccupancy(s.newJobs.ring);
    TestsMeasureOccupancy(s.finishedJobs.ring);
    assert AtTest(s.threads[0]) && AtTest(s.threads[1]);
    HandsOfTwo((job: Job) => 1, s.threads);
    hide Inv, InHands, Ring.Items, Producers;
  }

  lemma DoneFits(s: State, batch: Batch)
    requires BatchInv(s, batch) && HostDone(s, batch)
    ensures |batch.jobs| <= 2 * s.Cap() - 1
  {
    hide Inv;
  }

  lemma {:induction false} CapStays(s: State, batch: Batch, sched: nat -> nat, k: nat)
    requires s.Valid()
    ensures At(s, batch, sched, k).Cap() == s.Cap()
  {
    hide *;
    AtStart(s, batch, sched);
    if k > 0 {
      CapStays(s, batch, sched, k - 1);
      AtNext(s, batch, sched, k - 1);
      NextKeepsCap(At(s, batch, sched, k - 1), batch, sched(k - 1));
    }
  }

  lemma NextKeepsCap(s: State, batch: Batch, t: nat)
    requires s.Valid()
    ensures BatchNext(s, batch, t).Cap() == s.Cap()
  {
  }

  /** A batch of at most Capacity-1 jobs with any number of workers, or of any size with one
      worker, pushed and then polled as often as wanted by one host thread. Under every fair
      schedule it completes, and stays so, if it has at most 2*Capacity-1 jobs; with more of them
      the push of job number 2*Capacity spins for ever, on full rings. */
  lemma BatchCompletes(s: State, batch: Batch, sched: nat -> nat) returns (m: nat)
    requires Init(s) && 1 <= s.workers && |s.threads| == s.workers + 1 && Fair(sched, |s.threads|)
    requires batch.wanted <= |batch.jobs| && (|batch.jobs| <= s.Cap() - 1 || s.workers == 1)
    ensures BatchInv(s, batch)
    ensures forall k :: m <= k ==>
              var x := At(s, batch, sched, k);
              x.Valid() &&
              if |batch.jobs| <= 2 * s.Cap() - 1 then Complete(x, batch)
              else Jammed(x) && |x.pushed| == 2 * s.Cap() && x.polled == [] && !HostDone(x, batch)
  {
    StartHasBatchInv(s, batch);
    hide *;
    m := CompletesFrom(s, batch, sched, 0);
    AtNext(s, batch, sched, m);
    forall k | m <= k
      ensures var x := At(s, batch, sched, k);
              x.Valid() &&
              if |batch.jobs| <= 2 * s.Cap() - 1 then Complete(x, batch)
              else Jammed(x) && |x.pushed| == 2 * s.Cap() && x.polled == [] && !HostDone(x, batch)
    {
      AtNext(s, batch, sched, k);
      CapStays(s, batch, sched, k);
      if Jammed(At(s, batch, sched, m)) {
        JammedForEver(s, batch, sched, m, k);
        JamHolds(At(s, batch, sched, k), batch);
      } else {
        DoneForEver(s, batch, sched, m, k);
        DoneFits(At(s, batch, sched, k), batch);
        DoneIsComplete(At(s, batch, sched, k), batch);
      }
    }
  }
}
