/** When fair scheduling alone makes blocking runs return: with one host, and with no more. A
    second host that keeps looking for its own result can hold the dequeue mutex whenever the
    owner of the head is scheduled. */
module CpuLivelock {
  import opened Rings
  import opened CpuMachine
  import opened CpuFifo
  import opened CpuBlockingRun
  import opened CpuProgress
  import opened CpuAlone
  import opened CpuPaths
  import opened CpuFairness
  import opened Turns

  // ---------- whole calls and passes, with nobody in between ----------

  function Entered(s: State, t: nat, job: Job): State
    requires t < |s.hosts| == |s.calls|
  {
    s.(hosts := s.hosts[t := Enqueuing(job, true, FullRear)], enqueueLock := Some(t),
       pushed := s.pushed + [job], calls := s.calls[t := s.calls[t] + 1])
  }

  lemma CallEnters(s: State, t: nat, job: Job)
    requires s.Valid() && t < |s.hosts| && s.hosts[t] == Idle && Fresh(s, job.jobId) && s.enqueueLock == None
    ensures Entered(s, t, job).Valid() && Reaches(s, Entered(s, t, job))
  {
    var called := s.(calls := s.calls[t := s.calls[t] + 1]);
    var s1 := called.Host(t, WantEnq(job, true));
    assert s.hosts[t := WantEnq(job, true)][t := Enqueuing(job, true, FullRear)] == s.hosts[t := Enqueuing(job, true, FullRear)];
    assert s1.Valid();
    assert Apply(s, BlockingRun(t, job)) == s1 && Apply(s1, Host(t)) == Entered(s, t, job);
    hide Reaches, Apply;
    OneStep(s, BlockingRun(t, job));
    OneStep(s1, Host(t));
    ReachesOn(s, s1, Entered(s, t, job));
  }

  lemma HostPublishes(s: State, t: nat, job: Job)
    requires s.Valid() && t < |s.hosts| && s.hosts[t] == Enqueuing(job, true, FullRear) && !s.newJobs.IsFull()
    ensures Reaches(s, s.(newJobs := s.newJobs.Enqueued(job), hosts := s.hosts[t := WantHead(job.jobId)], enqueueLock := None))
  {
    EnqueuedFits(s.newJobs, job);
    EnqueueAlone(s.newJobs, job);
    var s1 := HostAfter(s, t, job, Published(s.newJobs.Enqueued(job)));
    var s2 := s.(newJobs := s.newJobs.Enqueued(job), hosts := s.hosts[t := WantHead(job.jobId)], enqueueLock := None);
    assert s.hosts[t := EnqRelease(job.jobId, true)][t := WantHead(job.jobId)] == s.hosts[t := WantHead(job.jobId)];
    assert s1.Valid();
    assert Apply(s1, Host(t)) == s2;
    hide Reaches, EnqAlone, Apply, Ring.Enqueued, State.Valid;
    HostEnqPath(s, t, job, FullRear, 5);
    OneStep(s1, Host(t));
    ReachesOn(s, s1, s2);
  }

  /** A host starts a blocking run and gets to waiting for its result. */
  lemma CallPushes(s: State, t: nat, job: Job)
    requires s.Valid() && t < |s.hosts| && s.hosts[t] == Idle && Fresh(s, job.jobId) && s.enqueueLock == None
    requires !s.newJobs.IsFull()
    ensures Reaches(s, s.(newJobs := s.newJobs.Enqueued(job), hosts := s.hosts[t := WantHead(job.jobId)],
                          pushed := s.pushed + [job], calls := s.calls[t := s.calls[t] + 1]))
  {
    CallEnters(s, t, job);
    assert s.hosts[t := Enqueuing(job, true, FullRear)][t := WantHead(job.jobId)] == s.hosts[t := WantHead(job.jobId)];
    hide Reaches, Ring.Enqueued, Ring.IsFull, State.Valid, Fresh;
    HostPublishes(Entered(s, t, job), t, job);
    ReachesOn(s, Entered(s, t, job),
              s.(newJobs := s.newJobs.Enqueued(job), hosts := s.hosts[t := WantHead(job.jobId)],
                 pushed := s.pushed + [job], calls := s.calls[t := s.calls[t] + 1]));
  }

  lemma EnqueuedFits(r: Ring<Job>, job: Job)
    requires r.Valid()
    ensures r.Enqueued(job).Valid() && r.Enqueued(job).Cap() == r.Cap()
  {
  }

  lemma DequeuedFits(r: Ring<Job>)
    requires r.Valid()
    ensures r.Dequeued().Valid() && r.Dequeued().Cap() == r.Cap()
  {
  }

  /** The worker takes the head of newJobs. */
  lemma WorkerTakes(s: State)
    requires s.Valid() && s.worker == LoopHead && !s.kill && !s.newJobs.IsEmpty()
    ensures s.newJobs.Items() != []
    ensures Reaches(s, s.(newJobs := s.newJobs.Dequeued(), worker := Executing(s.newJobs.Items()[0])))
  {
    FrontAlone(s.newJobs);
    var job := s.newJobs.Items()[0];
    DequeueAlone(s.newJobs, job);
    var s1, s2 := s.(worker := Fetching(EmptyRear)), s.(worker := Fetching(AgainRear(job)));
    var s3 := s.(newJobs := s.newJobs.Dequeued(), worker := Executing(job));
    assert s1.Valid() && s2.Valid();
    assert Apply(s, Worker) == s1;
    hide Reaches, Ring.Dequeued, Ring.Valid, Ring.IsEmpty, Ring.Items, DeqAlone, State.Valid, State.WorkerNext;
    OneStep(s, Worker);
    WorkerDeqPath(s1, EmptyRear, 4);
    ReachesOn(s, s1, s2);
    WorkerDeqPath(s2, AgainRear(job), 4);
    ReachesOn(s, s2, s3);
  }

  /** The worker, with a job executed, publishes the result. */
  lemma WorkerPublishes(s: State, job: Job)
    requires s.Valid() && s.worker == Executing(job) && !s.finishedJobs.IsFull()
    ensures Reaches(s, s.(finishedJobs := s.finishedJobs.Enqueued(job), worker := LoopHead))
  {
    EnqueueAlone(s.finishedJobs, job);
    var s1, s2 := s.(worker := Storing(job, FullRear)), s.(finishedJobs := s.finishedJobs.Enqueued(job), worker := LoopHead);
    assert s1.Valid();
    assert Apply(s, Worker) == s1;
    hide Reaches, Ring.Enqueued, Ring.Valid, Ring.IsFull, EnqAlone, State.Valid, State.WorkerNext;
    OneStep(s, Worker);
    WorkerEnqPath(s1, job, FullRear, 5);
    ReachesOn(s, s1, s2);
  }

  /** A blocking run gets as far as its job being in the worker's hand. */
  lemma CallTaken(s: State, t: nat, job: Job) returns (s': State)
    requires s.Valid() && t < |s.hosts| && s.hosts[t] == Idle && Fresh(s, job.jobId) && s.enqueueLock == None
    requires s.worker == LoopHead && !s.kill && s.newJobs.Items() == []
    ensures s'.Valid() && Reaches(s, s')
    ensures s'.newJobs.Items() == [] && s'.finishedJobs == s.finishedJobs
    ensures s'.hosts == s.hosts[t := WantHead(job.jobId)] && s'.worker == Executing(job) && s'.kill == s.kill
    ensures s'.enqueueLock == s.enqueueLock && s'.dequeueLock == s.dequeueLock
  {
    var rn := s.newJobs.Enqueued(job);
    TestsMeasureOccupancy(s.newJobs);
    EnqueuedAppends(s.newJobs, job);
    TestsMeasureOccupancy(rn);
    AdvanceDropsHead(rn);
    EnqueuedFits(s.newJobs, job);
    DequeuedFits(rn);
    var s1 := s.(newJobs := rn, hosts := s.hosts[t := WantHead(job.jobId)],
                 pushed := s.pushed + [job], calls := s.calls[t := s.calls[t] + 1]);
    assert rn.Items()[0] == job;
    s' := s1.(newJobs := rn.Dequeued(), worker := Executing(job));
    assert s1.Valid() && s'.Valid();
    hide Reaches, Ring.Enqueued, Ring.Dequeued, Ring.Valid, Ring.IsEmpty, Ring.IsFull, Ring.Items, Ring.Occ, State.Valid;
    CallPushes(s, t, job);
    WorkerTakes(s1);
    ReachesOn(s, s1, s');
  }

  /** The worker publishes what it has in its hand. */
  lemma Finishes(s: State, job: Job) returns (s': State)
    requires s.Valid() && s.worker == Executing(job) && !s.finishedJobs.IsFull()
    ensures s'.Valid() && Reaches(s, s')
    ensures s'.newJobs == s.newJobs && s'.finishedJobs.Items() == s.finishedJobs.Items() + [job]
    ensures s'.hosts == s.hosts && s'.worker == LoopHead && s'.kill == s.kill
    ensures s'.enqueueLock == s.enqueueLock && s'.dequeueLock == s.dequeueLock
  {
    TestsMeasureOccupancy(s.finishedJobs);
    EnqueuedAppends(s.finishedJobs, job);
    EnqueuedFits(s.finishedJobs, job);
    s' := s.(finishedJobs := s.finishedJobs.Enqueued(job), worker := LoopHead);
    assert s'.Valid();
    hide Reaches, Ring.Enqueued, Ring.Valid, Ring.IsFull, Ring.Items, Ring.Occ, State.Valid;
    WorkerPublishes(s, job);
  }

  // ---------- the livelock ----------

  // The worker only repeats a test: for a job, or for room.
  ghost predicate WorkerSpins(s: State)
    requires s.Valid()
  {
    (s.worker == Fetching(EmptyRear) && s.newJobs.IsEmpty()) ||
    (s.worker.Storing? && s.worker.e == FullRear && s.finishedJobs.IsFull())
  }

  /** Host 1 owns the head of finishedJobs, host 0 does not, and both ask for the mutex. */
  ghost predicate Stuck(s: State)
    ensures Stuck(s) ==> |s.hosts| >= 2
  {
    && s.Valid() && !s.kill && WorkerSpins(s) && !s.finishedJobs.IsEmpty() && s.dequeueLock == None
    && s.finishedJobs.slots[s.finishedJobs.front].jobId == 1
    && |s.hosts| >= 2 && s.hosts[0] == WantHead(0) && s.hosts[1] == WantHead(1)
    && forall t :: 2 <= t < |s.hosts| ==> s.hosts[t].Idle?
  }

  /** Host 0 looks at the head and lets go again; while it looks, the others take turns. */
  function Unlucky(h: nat, k: nat): Mover
    requires h >= 2
  {
    if k % 9 == 1 then AHost(1 + Turn(h - 1, k / 9)) else if k % 9 <= 6 then AHost(0) else TheWorker
  }

  function UnluckyFor(h: nat): nat -> Mover
    requires h >= 2
  {
    (k: nat) => Unlucky(h, k)
  }

  function Looking(s: State, h: HostPc): State
    requires |s.hosts| >= 2
  {
    s.(hosts := s.hosts[0 := h], dequeueLock := Some(0))
  }

  function MidTest(s: State): WorkerPc {
    if s.worker.Storing? then Storing(s.worker.job, FullFront(s.finishedJobs.rear)) else Fetching(EmptyFront(s.newJobs.rear))
  }

  // The state p steps into a cycle.
  function Phase(s: State, p: nat): State
    requires |s.hosts| >= 2
  {
    if p == 1 || p == 2 then Looking(s, Waiting(0, EmptyRear))
    else if p == 3 then Looking(s, Waiting(0, EmptyFront(s.finishedJobs.rear)))
    else if p == 4 then Looking(s, Waiting(0, ReadFront))
    else if p == 5 then Looking(s, Waiting(0, ReadSlot(s.finishedJobs.front)))
    else if p == 6 then Looking(s, WaitRelease(0))
    else if p == 8 then s.(worker := MidTest(s))
    else s
  }

  lemma NextPhase(s: State, p: nat, m: Mover)
    requires Stuck(s) && p < 9
    requires if p == 1 then m.AHost? && 1 <= m.t < |s.hosts| else m == if p <= 6 then AHost(0) else TheWorker
    ensures Phase(s, p).Valid() && Go(Phase(s, p), m) == Phase(s, if p == 8 then 0 else p + 1)
  {
    if p == 0 || (2 <= p <= 6) {
      FirstHostMoves(s, p);
    } else if p == 1 {
      OthersWait(s, m.t);
    } else {
      WorkerTests(s, p);
    }
    hide State.HostNext, State.WorkerNext, Stuck, State.Valid;
  }

  lemma FirstHostMoves(s: State, p: nat)
    requires Stuck(s) && (p == 0 || (2 <= p <= 6))
    ensures Phase(s, p).Valid() && Phase(s, p).HostNext(0) == Phase(s, p + 1)
  {
    var x, y := Phase(s, p), Phase(s, p + 1);
    assert x.hosts[0 := y.hosts[0]] == y.hosts;
    hide Ring.Items;
  }

  // A host that asks for the mutex finds it taken, and the rest are not in a call.
  lemma OthersWait(s: State, t: nat)
    requires Stuck(s) && 1 <= t < |s.hosts|
    ensures Phase(s, 1).Valid() && Phase(s, 1).HostNext(t) == Phase(s, 1)
  {
  }

  lemma WorkerTests(s: State, p: nat)
    requires Stuck(s) && (p == 7 || p == 8)
    ensures Phase(s, p).Valid() && Phase(s, p).WorkerNext() == Phase(s, if p == 8 then 0 else 8)
  {
    hide Ring.Items;
  }

  lemma MoverInPhase(h: nat, k: nat)
    requires h >= 2
    ensures var m, p := Unlucky(h, k), k % 9;
            (if p == 1 then m.AHost? && 1 <= m.t < h else m == if p <= 6 then AHost(0) else TheWorker) &&
            (k + 1) % 9 == if p == 8 then 0 else p + 1
  {
  }

  ghost predicate Cyclic(s: State, sched: nat -> Mover)
    requires |s.hosts| >= 2
  {
    forall k: nat {:trigger sched(k)} :: Phase(s, k % 9).Valid() && Go(Phase(s, k % 9), sched(k)) == Phase(s, (k + 1) % 9)
  }

  lemma UnluckyIsCyclic(s: State)
    requires Stuck(s)
    ensures Cyclic(s, UnluckyFor(|s.hosts|))
  {
    hide Go, State.Valid, Unlucky, Phase, Stuck;
    forall k: nat
      ensures Phase(s, k % 9).Valid() && Go(Phase(s, k % 9), UnluckyFor(|s.hosts|)(k)) == Phase(s, (k + 1) % 9)
    {
      MoverInPhase(|s.hosts|, k);
      NextPhase(s, k % 9, Unlucky(|s.hosts|, k));
    }
  }

  lemma CyclicAt(s: State, sched: nat -> Mover, k: nat)
    requires |s.hosts| >= 2 && Cyclic(s, sched)
    ensures Phase(s, k % 9).Valid() && Go(Phase(s, k % 9), sched(k)) == Phase(s, (k + 1) % 9)
  {
    hide Go, State.Valid, Phase;
  }

  lemma {:induction false} Cycles(s: State, sched: nat -> Mover, k: nat)
    requires RunInv(s) && |s.hosts| >= 2 && Cyclic(s, sched)
    ensures At(s, sched, k) == Phase(s, k % 9)
  {
    hide *;
    if k == 0 {
      AtStart(s, sched);
      StartsAsIs(s);
    } else {
      hide *;
      CyclicAt(s, sched, k - 1);
      Cycles(s, sched, k - 1);
      AtNext(s, sched, k - 1);
    }
  }

  lemma StartsAsIs(s: State)
    requires |s.hosts| >= 2
    ensures Phase(s, 0) == s
  {
  }

  lemma UnluckyIsFair(h: nat)
    requires h >= 2
    ensures Fair(UnluckyFor(h), h)
  {
    forall k: nat ensures Later(UnluckyFor(h), TheWorker, k) {
      assert UnluckyFor(h)(9 * k + 7) == TheWorker;
    }
    forall t: nat, k: nat | t < h ensures Later(UnluckyFor(h), AHost(t), k) {
      if t == 0 {
        assert UnluckyFor(h)(9 * k) == AHost(0);
      } else {
        var q := TurnComes(h - 1, k, t - 1);
        assert UnluckyFor(h)(9 * q + 1) == AHost(t);
      }
    }
  }

  // ---------- a run that gets stuck ----------

  /** Setup with h hosts. */
  lemma Setup(n: nat, h: nat) returns (s: State)
    requires n >= 2
    ensures Init(s) && s.Cap() == n && |s.hosts| == h
    ensures s.newJobs.Items() == [] && s.finishedJobs.Items() == [] && s.enqueueLock == None
  {
    var blank := Job(0, 0, 0, 0);
    var ring := Ring(seq(n, _ => blank), 1, 0);
    s := State(ring, ring, None, None, false, LoopHead, seq(h, _ => Idle), [], [], seq(h, _ => 0));
  }

  /** Host 1 calls, and its result gets to finishedJobs. */
  lemma FirstFinishes(n: nat, h: nat, j1: Job) returns (s: State, s': State)
    requires n >= 2 && h >= 2 && j1.jobId == 1
    ensures Init(s) && s.Cap() == n && |s.hosts| == h && s'.Valid() && Reaches(s, s')
    ensures s'.newJobs.Items() == [] && s'.finishedJobs.Items() == [j1] && s'.worker == LoopHead
    ensures !s'.kill && s'.enqueueLock == None && s'.dequeueLock == None && s'.hosts == s.hosts[1 := WantHead(1)]
  {
    s := Setup(n, h);
    TestsMeasureOccupancy(s.finishedJobs);
    hide Reaches, Ring.Items, Ring.Occ, Ring.Valid, EnqFits, DeqFits;
    var s1 := CallTaken(s, 1, j1);
    hide Init, Ring.IsFull;
    s' := Finishes(s1, j1);
    ReachesOn(s, s1, s');
    assert [] + [j1] == [j1];
  }

  /** Then host 0 calls, and its job gets to the worker. */
  lemma BothCall(n: nat, h: nat, j1: Job, j0: Job) returns (s: State, s': State)
    requires n >= 2 && h >= 2 && j1.jobId == 1 && j0.jobId == 0
    ensures Init(s) && s.Cap() == n && |s.hosts| == h && s'.Valid() && Reaches(s, s')
    ensures s'.newJobs.Items() == [] && s'.finishedJobs.Items() == [j1] && s'.worker == Executing(j0)
    ensures !s'.kill && s'.dequeueLock == None && BothAsk(s') && |s'.hosts| == h
  {
    var s1: State;
    s, s1 := FirstFinishes(n, h, j1);
    hide State.Valid, Reaches, Ring.Items;
    s' := CallTaken(s1, 0, j0);
    ReachesOn(s, s1, s');
  }

  ghost predicate BothAsk(s: State) {
    |s.hosts| >= 2 && s.hosts[0] == WantHead(0) && s.hosts[1] == WantHead(1) &&
    forall t :: 2 <= t < |s.hosts| ==> s.hosts[t].Idle?
  }

  /** From there the worker looks for another job, or for room in finishedJobs when it has no
      second place; nobody has asked for the dequeue mutex yet. */
  lemma GetsStuck(n: nat, h: nat) returns (run: seq<State>)
    requires n >= 2 && h >= 2
    ensures IsBlockingRun(run) && run[0].Cap() == n && |run[0].hosts| == h
    ensures Stuck(run[|run| - 1]) && |run[|run| - 1].hosts| == h
  {
    var j1, j0 := Job(0, 1, 1, 0), Job(0, 1, 0, 0);
    var s, s' := BothCall(n, h, j1, j0);
    var end: State;
    hide Reaches, Init, Ring.Items, Ring.Occ;
    if s'.finishedJobs.IsFull() {
      end := s'.(worker := Storing(j0, FullRear));
      OneStep(s', Worker);
    } else {
      var s'' := Finishes(s', j0);
      ReachesOn(s, s', s'');
      end := s''.(worker := Fetching(EmptyRear));
      OneStep(s'', Worker);
      s' := s'';
    }
    ReachesOn(s, s', end);
    EndIsStuck(end, j1);
    run := RunTo(s, end);
  }

  lemma EndIsStuck(s: State, j1: Job)
    requires s.Valid() && !s.kill && s.newJobs.Items() == [] && j1.jobId == 1 && BothAsk(s) && s.dequeueLock == None
    requires s.finishedJobs.Items() != [] && s.finishedJobs.Items()[0] == j1
    requires s.worker == Fetching(EmptyRear) || (s.worker.Storing? && s.worker.e == FullRear && s.finishedJobs.IsFull())
    ensures Stuck(s)
  {
    TestsMeasureOccupancy(s.newJobs);
    TestsMeasureOccupancy(s.finishedJobs);
    HeadIsFrontSlot(s.finishedJobs);
  }

  lemma RunTo(s: State, end: State) returns (run: seq<State>)
    requires Init(s) && Reaches(s, end)
    ensures IsBlockingRun(run) && run[0] == s && run[|run| - 1] == end
  {
    run :| Path(run) && run[0] == s && run[|run| - 1] == end;
    hide Init, RunStep;
  }

  /** Fair scheduling is not enough with two hosts or more, for any capacity: after this run,
      under this fair schedule, the result of host 1 stands at the head of finishedJobs for ever
      and its call never returns. */
  lemma FairIsNotEnough(n: nat, h: nat) returns (run: seq<State>)
    requires n >= 2 && h >= 2
    ensures |run| > 0 && IsBlockingRun(run) && run[0].Cap() == n && |run[0].hosts| == h
    ensures var s := run[|run| - 1];
            RunInv(s) && |s.hosts| == h && Fair(UnluckyFor(h), h) &&
            forall k: nat ::
              var x := At(s, UnluckyFor(h), k);
              |x.hosts| == h && x.hosts[1] == WantHead(1) && x.Valid() && Owner(x, 1)
  {
    run := GetsStuck(n, h);
    var s := run[|run| - 1];
    RunKeepsRunInv(run, |run| - 1);
    UnluckyIsFair(h);
    UnluckyIsCyclic(s);
    hide RunInv, IsBlockingRun, Fair, At, UnluckyFor, Cyclic;
    forall k: nat
      ensures var x := At(s, UnluckyFor(h), k);
              |x.hosts| == h && x.hosts[1] == WantHead(1) && x.Valid() && Owner(x, 1)
    {
      Cycles(s, UnluckyFor(h), k);
      OwnerInEveryPhase(s, k % 9);
    }
  }

  lemma OwnerInEveryPhase(s: State, p: nat)
    requires Stuck(s) && p < 9
    ensures var x := Phase(s, p);
            |x.hosts| == |s.hosts| && x.hosts[1] == WantHead(1) && x.Valid() && Owner(x, 1)
  {
    TestsMeasureOccupancy(s.finishedJobs);
    HeadIsFrontSlot(s.finishedJobs);
    hide Ring.Items, Ring.Occ;
  }

  // ---------- the exact condition ----------

  lemma {:induction false} HostsStay(run: seq<State>, i: nat)
    requires IsBlockingRun(run) && i < |run|
    ensures |run[i].hosts| == |run[0].hosts|
  {
    if i > 0 {
      HostsStay(run, i - 1);
      assert RunStep(run[i - 1], run[i - 1 + 1]);
      var a :| Apply(run[i - 1], a) == run[i];
      ApplyKeepsHosts(run[i - 1], a);
    }
    hide Apply, Init;
  }

  lemma ApplyKeepsHosts(s: State, a: Action)
    requires s.Valid()
    ensures |Apply(s, a).hosts| == |s.hosts|
  {
    hide DeqNext, EnqNext;
  }

  /** The state is one of concurrent blocking runs, and from some step of the schedule on all
      calls have returned for ever. */
  ghost predicate AllReturn(s: State, sched: nat -> Mover) {
    RunInv(s) && exists m: nat :: ReturnedFrom(s, sched, m)
  }

  /** Every state of every blocking run with h hosts on rings of size n returns all its calls
      under every fair schedule. */
  ghost predicate FairRunsReturn(n: nat, h: nat) {
    forall run: seq<State>, i: nat, sched: nat -> Mover ::
      i < |run| && IsBlockingRun(run) && run[0].Cap() == n && |run[0].hosts| == h && Fair(sched, h) ==>
        AllReturn(run[i], sched)
  }

  /** For every capacity and number of hosts: all blocking runs return under all fair schedules
      exactly when there is at most one host. */
  lemma FairIsEnoughExactly(n: nat, h: nat)
    requires n >= 2
    ensures FairRunsReturn(n, h) <==> h <= 1
  {
    hide IsBlockingRun, Fair, At, RunInv, State.Valid, Owner, ReturnedFrom;
    if h <= 1 {
      forall run: seq<State>, i: nat, sched: nat -> Mover
        | i < |run| && IsBlockingRun(run) && run[0].Cap() == n && |run[0].hosts| == h && Fair(sched, h)
        ensures AllReturn(run[i], sched)
      {
        HostsStay(run, i);
        RunKeepsRunInv(run, i);
        LoneHostIsNotStarved(run[i], sched);
        ReturnsExactly(run[i], sched);
      }
    } else {
      var run := FairIsNotEnough(n, h);
      var s := run[|run| - 1];
      forall m: nat ensures !ReturnedFrom(s, UnluckyFor(h), m) {
        var x := At(s, UnluckyFor(h), m);
        assert x.hosts[1] == WantHead(1);
        NotReturned(s, UnluckyFor(h), m, 1);
      }
      assert !AllReturn(s, UnluckyFor(h));
    }
  }

  lemma NotReturned(s: State, sched: nat -> Mover, m: nat, t: nat)
    requires RunInv(s) && t < |At(s, sched, m).hosts| && !At(s, sched, m).hosts[t].Idle?
    ensures !ReturnedFrom(s, sched, m)
  {
    hide At, RunInv;
  }
}
