/** Concurrent blocking runs under fair schedules, in which every thread is scheduled again and
    again: every call returns exactly if the dequeue mutex starves nobody. */
module CpuFairness {
  import opened Rings
  import opened CpuMachine
  import opened CpuFifo
  import opened CpuBlockingRun
  import opened CpuProgress
  import opened Totals

  // ---------- the measure ----------

  function Weight(h: HostPc): nat { if h.WantEnq? then 6 else if h.DoneRelease? then 1 else 0 }

  function Weights(hosts: seq<HostPc>): seq<nat> {
    seq(|hosts|, t requires 0 <= t < |hosts| => Weight(hosts[t]))
  }

  /** Stage-weighted count of what the calls still have to do. */
  function Left(s: State): nat
    requires s.Valid()
  {
    Total(Weights(s.hosts)) + 5 * |InHost(s)| + 4 * s.newJobs.Occ() + 3 * |InWorker(s.worker)| + 2 * s.finishedJobs.Occ()
  }

  /** Nothing has moved between the places that jobs can be. */
  ghost predicate Calm(s: State, s': State) {
    && s.Valid() && s'.Valid()
    && SameFrame(s.newJobs, s'.newJobs) && SameFrame(s.finishedJobs, s'.finishedJobs)
    && InWorker(s'.worker) == InWorker(s.worker) && |s'.hosts| == |s.hosts| && Left(s') == Left(s)
    && (s.enqueueLock == None ==> s'.enqueueLock == None)
  }

  ghost predicate Lower(s: State, s': State) {
    s.Valid() && s'.Valid() && Left(s') < Left(s)
  }

  lemma CalmOn(a: State, b: State, c: State)
    requires Calm(a, b) && Calm(b, c)
    ensures Calm(a, c)
  {
    hide Left, Ring.Valid, Ring.Items, State.Valid;
  }

  // What a host's step does to the measure.
  lemma LeftMoves(s: State, t: nat, s': State)
    requires s.Valid() && s'.Valid() && t < |s.hosts| && |s'.hosts| == |s.hosts| && s'.hosts == s.hosts[t := s'.hosts[t]]
    requires s'.worker == s.worker
    ensures Left(s') - Left(s) == Weight(s'.hosts[t]) - Weight(s.hosts[t]) + 5 * (|InHost(s')| - |InHost(s)|)
                                  + 4 * (s'.newJobs.Occ() - s.newJobs.Occ())
                                  + 2 * (s'.finishedJobs.Occ() - s.finishedJobs.Occ())
  {
    hide Weight, InHost, InWorker, Ring.Occ;
    assert Weights(s'.hosts) == Weights(s.hosts)[t := Weight(s'.hosts[t])];
    TotalUpdate(Weights(s.hosts), t, Weight(s'.hosts[t]));
  }

  lemma SameFrameSameOcc(r: Ring<Job>, r': Ring<Job>)
    requires SameFrame(r, r')
    ensures r'.Occ() == r.Occ()
  {
  }

  // A producer's step short of the publish moves no job.
  lemma EnqIsCalm(e: Enq, job: Job, r: Ring<Job>)
    requires r.Valid() && EnqKnows(e, job, r)
    ensures EnqNext(e, job, r).EnqGo? ==> SameFrame(r, EnqNext(e, job, r).ring)
  {
    EnqStep(e, job, r);
    hide Ring.Items, EnqKnows;
  }

  // ---------- every step lowers the measure or is calm ----------

  // The two measures differ only by what the hosts contribute.
  lemma LeftFollowsWork(s: State, s': State)
    requires s.Valid() && s'.Valid() && s'.hosts == s.hosts
    ensures Left(s') - Left(s) == Work(s') - Work(s)
  {
    hide Ring.Occ, InHost, InWorker, State.Valid;
  }

  lemma WorkerMovesJob(s: State)
    requires Inv(s) && s.WorkerNext().Valid()
    requires (s.worker.Fetching? && s.worker.d.Advance?) || (s.worker.Storing? && s.worker.e.EnqPublish?)
    ensures Lower(s, s.WorkerNext())
  {
    WorkerTouches(s);
    assert s.Valid();
    hide Inv, State.WorkerNext, Work, Left, State.Valid;
    LeftFollowsWork(s, s.WorkerNext());
    if s.worker.Fetching? {
      FetchLowersWork(s);
    } else {
      StoreLowersWork(s);
    }
  }

  lemma CalmWorker(s: State)
    requires Inv(s) && s.WorkerNext().Valid()
    requires !(s.worker.Fetching? && s.worker.d.Advance?) && !(s.worker.Storing? && s.worker.e.EnqPublish?)
    ensures Calm(s, s.WorkerNext())
  {
    var s', w := s.WorkerNext(), s.worker;
    if w.Storing? {
      EnqIsCalm(w.e, w.job, s.finishedJobs);
      hide Fifo, MutexOk, EnqKnows, DeqNext, EnqNext, Ring.Items, Ring.Occ;
      RingsAreCalm(s, s');
    } else {
      hide Fifo, MutexOk, EnqNext, DeqKnows, EnqKnows, HostKnows, Ring.Items, Ring.Occ;
      RingsAreCalm(s, s');
    }
  }

  lemma RingsAreCalm(s: State, s': State)
    requires s.Valid() && s'.Valid() && SameFrame(s.newJobs, s'.newJobs) && SameFrame(s.finishedJobs, s'.finishedJobs)
    requires s'.hosts == s.hosts && s'.enqueueLock == s.enqueueLock && InWorker(s'.worker) == InWorker(s.worker)
    ensures Calm(s, s')
  {
    SameFrameSameOcc(s.newJobs, s'.newJobs);
    SameFrameSameOcc(s.finishedJobs, s'.finishedJobs);
    hide Ring.Occ, SameFrame, State.Valid;
  }

  lemma WorkerStep(s: State)
    requires RunInv(s)
    ensures var s' := s.WorkerNext();
            s'.hosts == s.hosts && s'.dequeueLock == s.dequeueLock && (Lower(s, s') || Calm(s, s'))
  {
    WorkerKeepsInv(s);
    assert s.WorkerNext().Valid();
    WorkerTouches(s);
    hide Lower, Calm, Inv, State.WorkerNext;
    if (s.worker.Fetching? && s.worker.d.Advance?) || (s.worker.Storing? && s.worker.e.EnqPublish?) {
      WorkerMovesJob(s);
    } else {
      CalmWorker(s);
    }
  }

  lemma WorkerTouches(s: State)
    requires s.Valid()
    ensures s.WorkerNext().hosts == s.hosts && s.WorkerNext().dequeueLock == s.dequeueLock
  {
  }

  ghost predicate HostStepped(s: State, t: nat, s': State) {
    && |s'.hosts| == |s.hosts| && (forall u :: 0 <= u < |s.hosts| && u != t ==> s'.hosts[u] == s.hosts[u])
    && s'.worker == s.worker && (Lower(s, s') || Calm(s, s'))
  }

  lemma EnqueuingSteps(s: State, t: nat)
    requires RunInv(s) && t < |s.hosts| && s.hosts[t].Enqueuing? && s.HostNext(t).Valid()
    ensures HostStepped(s, t, s.HostNext(t))
  {
    var s' := s.HostNext(t);
    assert HostKnows(s.hosts[t], s.newJobs, s.finishedJobs) && s.enqueueLock == Some(t);
    hide RunInv;
    EnqueuingMoves(s, t);
    hide State.HostNext, Ring.Occ, Ring.Items, InHost, EnqKnows, SameFrame, State.Valid;
    LeftMoves(s, t, s');
    hide Left;
  }

  lemma EnqueuingMoves(s: State, t: nat)
    requires s.Valid() && t < |s.hosts| && s.hosts[t].Enqueuing? && s.enqueueLock == Some(t)
    requires EnqKnows(s.hosts[t].e, s.hosts[t].job, s.newJobs)
    ensures var h, s' := s.hosts[t], s.HostNext(t);
            && |s'.hosts| == |s.hosts| && s'.hosts == s.hosts[t := s'.hosts[t]] && s'.worker == s.worker
            && s'.finishedJobs == s.finishedJobs && s'.enqueueLock == s.enqueueLock && Weight(s'.hosts[t]) == 0
            && SameFrame(s.finishedJobs, s'.finishedJobs) && |InHost(s)| == 1 && s'.newJobs.Valid()
            && if h.e.EnqPublish? then |InHost(s')| == 0 && s'.newJobs.Occ() == s.newJobs.Occ() + 1
               else |InHost(s')| == 1 && SameFrame(s.newJobs, s'.newJobs) && s'.newJobs.Occ() == s.newJobs.Occ()
  {
    var h, s' := s.hosts[t], s.HostNext(t);
    if h.e.EnqPublish? {
      PublishAppends(s.newJobs);
    } else {
      EnqIsCalm(h.e, h.job, s.newJobs);
      SameFrameSameOcc(s.newJobs, s'.newJobs);
    }
    hide Ring.Items, EnqKnows, Ring.Occ;
  }

  lemma TakeLowers(s: State, t: nat)
    requires RunInv(s) && t < |s.hosts| && s.hosts[t].Waiting? && s.hosts[t].d.Advance? && s.HostNext(t).Valid()
    ensures HostStepped(s, t, s.HostNext(t)) && Lower(s, s.HostNext(t))
  {
    var s' := s.HostNext(t);
    assert HostKnows(s.hosts[t], s.newJobs, s.finishedJobs) && s.enqueueLock != Some(t);
    TakenByHost(s, t);
    hide State.HostNext, Ring.Occ, Ring.Items, RunInv, State.Valid, Calm;
    LeftMoves(s, t, s');
    hide Left;
  }

  lemma TakenByHost(s: State, t: nat)
    requires s.Valid() && t < |s.hosts| && s.hosts[t].Waiting? && s.hosts[t].d.Advance? && s.enqueueLock != Some(t)
    requires DeqKnows(s.hosts[t].d, s.finishedJobs)
    ensures var s' := s.HostNext(t);
            && |s'.hosts| == |s.hosts| && s'.hosts == s.hosts[t := s'.hosts[t]] && s'.worker == s.worker
            && s'.newJobs == s.newJobs && s'.finishedJobs.Valid() && s'.finishedJobs.Occ() == s.finishedJobs.Occ() - 1
            && InHost(s') == InHost(s) && Weight(s'.hosts[t]) == 1
  {
    AdvanceDropsHead(s.finishedJobs);
    hide Ring.Items;
  }

  lemma WaitingSteps(s: State, t: nat)
    requires RunInv(s) && t < |s.hosts| && s.hosts[t].Waiting? && !s.hosts[t].d.Advance? && s.HostNext(t).Valid()
    ensures HostStepped(s, t, s.HostNext(t)) && Calm(s, s.HostNext(t))
  {
    var h, s' := s.hosts[t], s.HostNext(t);
    assert s.enqueueLock != Some(t);
    assert InHost(s') == InHost(s);
    assert s'.newJobs == s.newJobs && s'.finishedJobs == s.finishedJobs && Weight(s'.hosts[t]) == 0;
    assert |s'.hosts| == |s.hosts| && s'.hosts == s.hosts[t := s'.hosts[t]];
    hide Ring.Occ, Ring.Items, Control, Fifo, InHost, RunInv, DeqNext;
    LeftMoves(s, t, s');
    hide Left;
  }

  lemma OtherSteps(s: State, t: nat)
    requires RunInv(s) && t < |s.hosts| && !s.hosts[t].Waiting? && !s.hosts[t].Enqueuing? && s.HostNext(t).Valid()
    ensures HostStepped(s, t, s.HostNext(t))
    ensures s.hosts[t].DoneRelease? || (s.hosts[t].WantEnq? && s.enqueueLock == None) ==> Lower(s, s.HostNext(t))
  {
    var s' := s.HostNext(t);
    assert s.hosts[t].Idle? || IdOf(s.hosts[t]) != None;
    assert MutexOk(s);
    hide RunInv;
    OtherMoves(s, t);
    hide State.HostNext, Ring.Occ, Ring.Items, InHost, IdOf, MutexOk;
    LeftMoves(s, t, s');
    hide Left;
  }

  lemma OtherMoves(s: State, t: nat)
    requires s.Valid() && MutexOk(s) && t < |s.hosts| && !s.hosts[t].Waiting? && !s.hosts[t].Enqueuing?
    requires s.hosts[t].Idle? || IdOf(s.hosts[t]) != None
    ensures var h, s' := s.hosts[t], s.HostNext(t);
            && |s'.hosts| == |s.hosts| && s'.hosts == s.hosts[t := s'.hosts[t]] && s'.worker == s.worker
            && s'.newJobs == s.newJobs && s'.finishedJobs == s.finishedJobs
            && if h.WantEnq? && s.enqueueLock == None then |InHost(s')| == |InHost(s)| + 1 && Weight(s'.hosts[t]) == 0
               else InHost(s') == InHost(s) && (s.enqueueLock == None ==> s'.enqueueLock == None) &&
                    if h.DoneRelease? then Weight(s'.hosts[t]) == 0 else Weight(s'.hosts[t]) == Weight(h)
  {
    hide DeqFits, EnqFits, Ring.Valid;
  }

  lemma HostSteps(s: State, t: nat)
    requires RunInv(s) && t < |s.hosts|
    ensures HostStepped(s, t, s.HostNext(t))
  {
    HostKeepsInv(s, t);
    hide RunInv, HostStepped, State.HostNext, Control, Fifo;
    if s.hosts[t].Enqueuing? {
      EnqueuingSteps(s, t);
    } else if s.hosts[t].Waiting? && s.hosts[t].d.Advance? {
      TakeLowers(s, t);
    } else if s.hosts[t].Waiting? {
      WaitingSteps(s, t);
    } else {
      OtherSteps(s, t);
    }
  }

  // ---------- goals: what a thread is about to bring about ----------

  datatype Goal =
    | Pass             // the worker passes on a job
    | Publish(t: nat)  // a host publishes its job
    | Once(t: nat)     // one step of the host is enough
    | Take(t: nat)     // the host inside the dequeue mutex takes its result, which is at the head
    | Release(t: nat)  // the host inside the dequeue mutex leaves it
    | Ask(t: nat, id: int) // the host with this ID gets to asking for the dequeue mutex

  function MoverOf(g: Goal): Mover {
    if g.Pass? then TheWorker else AHost(g.t)
  }

  ghost predicate Pending(s: State, g: Goal)
    requires s.Valid()
  {
    if g.Pass? then
      (InWorker(s.worker) != [] && s.finishedJobs.Items() == []) || (InWorker(s.worker) == [] && s.newJobs.Items() != [])
    else
      g.t < |s.hosts| &&
      var h := s.hosts[g.t];
      match g
      case Pass => false
      case Publish(t) => h.Enqueuing? && !s.newJobs.IsFull()
      case Once(t) => h.DoneRelease? || (h.WantEnq? && s.enqueueLock == None)
      case Take(t) => h.Waiting? && Mine(h.id, s.finishedJobs)
      case Release(t) => s.dequeueLock == Some(t) && s.finishedJobs.Items() != []
      case Ask(t, id) => (h.EnqRelease? || h.WaitRelease?) && IdOf(h) == Some(id)
  }

  /** Release and Ask can be met without the measure going down. */
  ghost predicate Met(s: State, g: Goal) {
    match g
    case Release(_) => s.dequeueLock == None
    case Ask(t, id) => t < |s.hosts| && s.hosts[t] == WantHead(id)
    case _ => false
  }

  function GoalRank(s: State, g: Goal): nat
    requires s.Valid()
  {
    match MoverOf(g)
    case TheWorker => WorkerRank(s.worker, s.newJobs, s.finishedJobs)
    case AHost(t) => if t < |s.hosts| then HostRank(s.hosts[t], s.newJobs, s.finishedJobs) else 0
  }

  /** The step of the thread itself brings the goal nearer. */
  ghost predicate Nearer(s: State, s': State, g: Goal)
    requires s.Valid()
  {
    Lower(s, s') || (Calm(s, s') && (Met(s', g) || (Pending(s', g) && GoalRank(s', g) < GoalRank(s, g))))
  }

  /** The steps of the others leave it where it is. */
  ghost predicate AsNear(s: State, s': State, g: Goal)
    requires s.Valid()
  {
    Lower(s, s') || (Calm(s, s') && Pending(s', g) && GoalRank(s', g) == GoalRank(s, g))
  }

  lemma WorkerNearer(s: State)
    requires RunInv(s) && Pending(s, Pass)
    ensures Nearer(s, s.WorkerNext(), Pass)
  {
    WorkerStep(s);
    WorkerCanMove(s);
    var s', w := s.WorkerNext(), s.worker;
    if Calm(s, s') {
      CalmWorkerFalls(s);
      hide WorkerRank, Calm, Inv, State.WorkerNext;
      CalmKeepsItems(s, s');
    }
  }

  lemma CalmKeepsItems(s: State, s': State)
    requires Calm(s, s')
    ensures s'.newJobs.Items() == s.newJobs.Items() && s'.finishedJobs.Items() == s.finishedJobs.Items()
    ensures s'.newJobs.IsFull() == s.newJobs.IsFull() && InWorker(s'.worker) == InWorker(s.worker) && s'.Cap() == s.Cap()
  {
    hide Ring.Items, Left;
  }

  lemma CalmWorkerFalls(s: State)
    requires RunInv(s) && Calm(s, s.WorkerNext()) && WorkerRank(s.worker, s.newJobs, s.finishedJobs) > 0
    ensures var s' := s.WorkerNext();
            WorkerRank(s'.worker, s'.newJobs, s'.finishedJobs) < WorkerRank(s.worker, s.newJobs, s.finishedJobs)
  {
    var s', w := s.WorkerNext(), s.worker;
    RanksUnderSameFrame(s, s');
    if w.Fetching? && !w.d.Advance? {
      DeqRankFalls(w.d, s.newJobs);
      hide Inv, Left, DeqNext, DeqRank, Ring.Items, DeqKnows;
    } else if w.Storing? && !w.e.EnqPublish? {
      EnqRankFalls(w.e, w.job, s.finishedJobs);
      hide Inv, Left, EnqNext, EnqRank, Ring.Items, EnqKnows;
    } else {
      hide Inv, Left, Ring.Items;
    }
  }

  lemma CalmHostFalls(s: State, t: nat)
    requires RunInv(s) && t < |s.hosts| && Calm(s, s.HostNext(t)) && HostStepped(s, t, s.HostNext(t))
    requires s.hosts[t].Enqueuing? || s.hosts[t].Waiting?
    requires HostRank(s.hosts[t], s.newJobs, s.finishedJobs) > 0
    ensures var s' := s.HostNext(t);
            HostRank(s'.hosts[t], s'.newJobs, s'.finishedJobs) < HostRank(s.hosts[t], s.newJobs, s.finishedJobs)
  {
    var h := s.hosts[t];
    assert HostKnows(h, s.newJobs, s.finishedJobs);
    hide RunInv, Left, Ring.Items, HostRank, HostStepped;
    if h.Enqueuing? {
      CalmEnqueuingFalls(s, t);
    } else {
      CalmWaitingFalls(s, t);
    }
  }

  lemma CalmEnqueuingFalls(s: State, t: nat)
    requires s.Valid() && t < |s.hosts| && s.hosts[t].Enqueuing? && Calm(s, s.HostNext(t))
    requires EnqKnows(s.hosts[t].e, s.hosts[t].job, s.newJobs)
    requires HostRank(s.hosts[t], s.newJobs, s.finishedJobs) > 0
    ensures var s' := s.HostNext(t);
            HostRank(s'.hosts[t], s'.newJobs, s'.finishedJobs) < HostRank(s.hosts[t], s.newJobs, s.finishedJobs)
  {
    var h := s.hosts[t];
    assert !h.e.EnqPublish?;
    EnqRankFalls(h.e, h.job, s.newJobs);
    hide Left, EnqNext, EnqRank, DeqRank, Ring.Items, EnqKnows, SameFrame;
  }

  lemma CalmWaitingFalls(s: State, t: nat)
    requires s.Valid() && t < |s.hosts| && s.hosts[t].Waiting? && Calm(s, s.HostNext(t))
    requires DeqKnows(s.hosts[t].d, s.finishedJobs)
    requires HostRank(s.hosts[t], s.newJobs, s.finishedJobs) > 0
    ensures var s' := s.HostNext(t);
            HostRank(s'.hosts[t], s'.newJobs, s'.finishedJobs) < HostRank(s.hosts[t], s.newJobs, s.finishedJobs)
  {
    var h := s.hosts[t];
    assert !h.d.Advance?;
    DeqRankFalls(h.d, s.finishedJobs);
    hide Left, DeqNext, DeqRank, EnqRank, Ring.Items, DeqKnows;
  }

  lemma PublishNearer(s: State, t: nat)
    requires RunInv(s) && Pending(s, Publish(t))
    ensures Nearer(s, s.HostNext(t), Publish(t))
  {
    HostSteps(s, t);
    var s' := s.HostNext(t);
    if Calm(s, s') {
      assert s.hosts[t].e.EnqPublish? ==> s'.newJobs.rear != s.newJobs.rear by {
        assert HostKnows(s.hosts[t], s.newJobs, s.finishedJobs);
      }
      CalmKeepsItems(s, s');
      hide RunInv, Ring.Items, Left;
      assert s'.hosts[t].Enqueuing?;
      EnqRankPositive(s.hosts[t].e, s.newJobs);
      CalmHostFalls(s, t);
    }
  }

  lemma EnqRankPositive(e: Enq, r: Ring<Job>)
    requires r.Valid() && !r.IsFull()
    ensures EnqRank(e, r) > 0
  {
  }

  lemma DeqRankPositive(d: Deq, r: Ring<Job>)
    requires r.Valid() && DeqFits(d, r.Cap()) && r.Items() != []
    ensures DeqRank(d, r) > 2
  {
    TestsMeasureOccupancy(r);
  }

  lemma OnceNearer(s: State, t: nat)
    requires RunInv(s) && Pending(s, Once(t))
    ensures Nearer(s, s.HostNext(t), Once(t))
  {
    HostKeepsInv(s, t);
    assert s.HostNext(t).Valid();
    hide RunInv, Left, State.HostNext;
    OtherSteps(s, t);
  }

  // A calm step of a host looking for its result does not take it.
  lemma CalmWaiting(s: State, t: nat)
    requires RunInv(s) && t < |s.hosts| && s.hosts[t].Waiting? && s.finishedJobs.Items() != [] && Calm(s, s.HostNext(t))
    ensures var h, s' := s.hosts[t], s.HostNext(t);
            s'.dequeueLock == s.dequeueLock &&
            ((s'.hosts[t].Waiting? && s'.hosts[t].id == h.id) ||
             (s'.hosts[t].WaitRelease? && s'.hosts[t].id == h.id && !Mine(h.id, s.finishedJobs)))
  {
    var h, s' := s.hosts[t], s.HostNext(t);
    assert HostKnows(h, s.newJobs, s.finishedJobs);
    assert !h.d.Advance?;
    if h.d.ReadSlot? {
      HeadIsFrontSlot(s.finishedJobs);
    }
    hide RunInv, Ring.Items, Left;
  }

  lemma TakeNearer(s: State, t: nat)
    requires RunInv(s) && Pending(s, Take(t))
    ensures Nearer(s, s.HostNext(t), Take(t))
  {
    HostSteps(s, t);
    var s' := s.HostNext(t);
    if Calm(s, s') {
      CalmWaiting(s, t);
      CalmKeepsItems(s, s');
      assert DeqFits(s.hosts[t].d, s.Cap()) && s.dequeueLock == Some(t);
      DeqRankPositive(s.hosts[t].d, s.finishedJobs);
      hide State.HostNext, DeqRank, Ring.Items, Left, Inv;
      CalmHostFalls(s, t);
    }
  }

  lemma ReleaseNearer(s: State, t: nat)
    requires RunInv(s) && Pending(s, Release(t))
    ensures Nearer(s, s.HostNext(t), Release(t))
  {
    HostSteps(s, t);
    var h, s' := s.hosts[t], s.HostNext(t);
    assert InDeqMutex(h) && IdOf(h) != None;
    if Calm(s, s') {
      CalmKeepsItems(s, s');
      if h.Waiting? {
        CalmWaiting(s, t);
        assert DeqFits(h.d, s.Cap());
        DeqRankPositive(h.d, s.finishedJobs);
        hide State.HostNext, DeqRank, Ring.Items, Left, Inv;
        CalmHostFalls(s, t);
      } else {
        hide Left, Inv, Ring.Items;
        if h.DoneRelease? {
          OtherSteps(s, t);
        }
      }
    }
  }

  lemma AskNearer(s: State, t: nat, id: int)
    requires RunInv(s) && Pending(s, Ask(t, id))
    ensures Nearer(s, s.HostNext(t), Ask(t, id))
  {
    HostSteps(s, t);
    assert IdOf(s.hosts[t]) != None;
    hide Left, Inv, Ring.Items, Calm;
  }

  lemma GoalNearer(s: State, g: Goal)
    requires RunInv(s) && Pending(s, g)
    ensures Nearer(s, Go(s, MoverOf(g)), g)
  {
    hide Nearer, RunInv, State.HostNext, State.WorkerNext;
    match g
    case Pass => WorkerNearer(s);
    case Publish(t) => PublishNearer(s, t);
    case Once(t) => OnceNearer(s, t);
    case Take(t) => TakeNearer(s, t);
    case Release(t) => ReleaseNearer(s, t);
    case Ask(t, id) => AskNearer(s, t, id);
  }

  // A mutex that another host holds stays held.
  lemma HeldByAnother(s: State, t: nat, u: nat)
    requires RunInv(s) && u < |s.hosts| && t != u && s.dequeueLock == Some(t)
    ensures s.HostNext(u).dequeueLock == Some(t)
  {
    assert !InDeqMutex(s.hosts[u]);
    hide DeqNext, EnqNext, Inv;
  }

  lemma CalmGoalStays(s: State, s': State, g: Goal)
    requires RunInv(s) && Pending(s, g) && Calm(s, s')
    requires if g.Pass? then s'.worker == s.worker else s'.hosts[g.t] == s.hosts[g.t]
    requires g.Release? ==> s'.dequeueLock == s.dequeueLock
    ensures AsNear(s, s', g)
  {
    CalmKeepsItems(s, s');
    RanksUnderSameFrame(s, s');
    hide Ring.Items, Left, Inv, HostRank, WorkerRank, SameFrame;
    if g.Pass? {
      assert WorkerFits(s.worker, s.Cap());
    } else {
      assert HostFits(s.hosts[g.t], s.Cap());
    }
  }

  lemma GoalWaits(s: State, g: Goal, m: Mover)
    requires RunInv(s) && Pending(s, g) && m != MoverOf(g)
    ensures AsNear(s, Go(s, m), g)
  {
    var s' := Go(s, m);
    if m.TheWorker? {
      WorkerStep(s);
      hide State.WorkerNext, Inv;
      if Calm(s, s') {
        CalmGoalStays(s, s', g);
      }
    } else if m.t < |s.hosts| {
      HostSteps(s, m.t);
      if g.Release? {
        HeldByAnother(s, g.t, m.t);
      }
      hide State.HostNext, Inv;
      if Calm(s, s') {
        CalmGoalStays(s, s', g);
      }
    } else {
      NothingIsCalm(s);
      CalmGoalStays(s, s, g);
    }
  }

  lemma NothingIsCalm(s: State)
    requires s.Valid()
    ensures Calm(s, s)
  {
  }

  // ---------- schedules ----------

  lemma GoKeepsRunInv(s: State, m: Mover)
    requires RunInv(s)
    ensures RunInv(Go(s, m))
  {
    hide RunInv;
    match m
    case TheWorker => StepKeepsRunInv(s, Worker);
    case AHost(t) =>
      if t < |s.hosts| {
        StepKeepsRunInv(s, Host(t));
      }
  }

  lemma GoKeepsInv(s: State, m: Mover)
    requires Inv(s)
    ensures Inv(Go(s, m)) && (RunInv(s) ==> RunInv(Go(s, m)))
  {
    if RunInv(s) {
      GoKeepsRunInv(s, m);
    } else if m.TheWorker? {
      WorkerKeepsInv(s);
    } else if m.t < |s.hosts| {
      HostKeepsInv(s, m.t);
    }
    hide Inv, RunInv, State.WorkerNext, State.HostNext;
  }

  /** The state after k steps of a schedule, in which no host starts another call. */
  ghost function At(s: State, sched: nat -> Mover, k: nat): (x: State)
    requires Inv(s)
    ensures Inv(x) && (RunInv(s) ==> RunInv(x))
  {
    if k == 0 then s
    else
      GoKeepsInv(At(s, sched, k - 1), sched(k - 1));
      Go(At(s, sched, k - 1), sched(k - 1))
  }

  lemma AtNext(s: State, sched: nat -> Mover, k: nat)
    requires Inv(s)
    ensures At(s, sched, k).Valid()
    ensures At(s, sched, k + 1) == Go(At(s, sched, k), sched(k))
  {
  }

  ghost predicate Later(sched: nat -> Mover, m: Mover, k: nat) {
    exists j: nat :: j >= k && sched(j) == m
  }

  /** The worker and every host are scheduled again and again. */
  ghost predicate Fair(sched: nat -> Mover, hosts: nat) {
    && (forall k: nat :: Later(sched, TheWorker, k))
    && forall t: nat, k: nat :: t < hosts ==> Later(sched, AHost(t), k)
  }

  ghost predicate LeavesQueue(s: State, sched: nat -> Mover, t: nat, k: nat)
    requires RunInv(s)
  {
    exists j: nat :: j >= k && t < |At(s, sched, j).hosts| && !At(s, sched, j).hosts[t].WantHead?
  }

  ghost predicate LockedFrom(s: State, sched: nat -> Mover, j: nat)
    requires RunInv(s)
  {
    forall i: nat :: i >= j ==> At(s, sched, i).dequeueLock != None
  }

  /** The dequeue mutex starves nobody: a host that asks for it gets it, unless it is never free
      again. */
  ghost predicate StarvationFree(s: State, sched: nat -> Mover)
    requires RunInv(s)
  {
    forall t: nat, k: nat :: t < |s.hosts| ==>
      LeavesQueue(s, sched, t, k) || exists j: nat :: j >= k && LockedFrom(s, sched, j)
  }

  lemma AtStart(s: State, sched: nat -> Mover)
    requires Inv(s)
    ensures At(s, sched, 0) == s
  {
    hide Inv, RunInv;
  }

  lemma {:induction false} SameHosts(s: State, sched: nat -> Mover, k: nat)
    requires Inv(s)
    ensures |At(s, sched, k).hosts| == |s.hosts|
  {
    hide *;
    if k == 0 {
      AtStart(s, sched);
    } else {
      SameHosts(s, sched, k - 1);
      AtNext(s, sched, k - 1);
      GoKeepsHosts(At(s, sched, k - 1), sched(k - 1));
    }
  }

  lemma GoKeepsHosts(s: State, m: Mover)
    requires s.Valid()
    ensures |Go(s, m).hosts| == |s.hosts|
  {
    hide DeqNext, EnqNext;
  }

  /** One step of anyone, as a pending goal sees it. */
  lemma GoalAdvances(s: State, g: Goal, m: Mover)
    requires RunInv(s) && Pending(s, g)
    ensures var s' := Go(s, m);
            Lower(s, s') || (Calm(s, s') && Met(s', g)) ||
            (Calm(s, s') && s'.Valid() && Pending(s', g) &&
             if m == MoverOf(g) then GoalRank(s', g) < GoalRank(s, g) else GoalRank(s', g) == GoalRank(s, g))
  {
    hide RunInv, Go, GoalRank, Pending, Met, Lower, MoverOf;
    if m == MoverOf(g) {
      GoalNearer(s, g);
    } else {
      GoalWaits(s, g, m);
    }
  }

  /** Under a fair schedule a pending goal is met, or the measure has gone down. */
  lemma {:induction false} GoalIsMet(s: State, sched: nat -> Mover, k: nat, due: nat, g: Goal) returns (j: nat)
    requires RunInv(s) && Fair(sched, |s.hosts|) && k <= due && sched(due) == MoverOf(g)
    requires Pending(At(s, sched, k), g)
    ensures j > k
    ensures var a, b := At(s, sched, k), At(s, sched, j); Lower(a, b) || (Calm(a, b) && Met(b, g))
    decreases GoalRank(At(s, sched, k), g), due - k
  {
    hide *;
    AtNext(s, sched, k);
    AtNext(s, sched, k + 1);
    SameHosts(s, sched, k);
    SameHosts(s, sched, k + 1);
    var a, b := At(s, sched, k), At(s, sched, k + 1);
    GoalAdvances(a, g, sched(k));
    if Lower(a, b) || (Calm(a, b) && Met(b, g)) {
      j := k + 1;
    } else {
      var next := due;
      if sched(k) == MoverOf(g) {
        next := DueAgain(s, sched, b, k + 1, g);
      }
      j := GoalIsMet(s, sched, k + 1, next, g);
      CalmThenOn(a, b, At(s, sched, j));
    }
  }

  lemma DueAgain(s: State, sched: nat -> Mover, a: State, k: nat, g: Goal) returns (due: nat)
    requires RunInv(s) && Fair(sched, |s.hosts|) && a.Valid() && |a.hosts| == |s.hosts| && Pending(a, g)
    ensures due >= k && sched(due) == MoverOf(g)
  {
    hide RunInv;
    assert Later(sched, MoverOf(g), k);
    due :| due >= k && sched(due) == MoverOf(g);
  }

  lemma CalmThenOn(a: State, b: State, c: State)
    requires Calm(a, b)
    ensures Lower(b, c) ==> Lower(a, c)
    ensures Calm(b, c) ==> Calm(a, c)
  {
    if Calm(b, c) {
      CalmOn(a, b, c);
    }
    hide SameFrame, Left, State.Valid;
  }

  lemma GoalMet(s: State, sched: nat -> Mover, k: nat, g: Goal) returns (j: nat)
    requires RunInv(s) && Fair(sched, |s.hosts|) && Pending(At(s, sched, k), g)
    ensures j > k
    ensures var a, b := At(s, sched, k), At(s, sched, j); Lower(a, b) || (Calm(a, b) && Met(b, g))
  {
    hide *;
    SameHosts(s, sched, k);
    AtNext(s, sched, k);
    var due := DueAgain(s, sched, At(s, sched, k), k, g);
    j := GoalIsMet(s, sched, k, due, g);
  }

  // ---------- the owner of the head gets its result ----------

  ghost predicate Owner(s: State, u: nat)
    requires s.Valid()
  {
    u < |s.hosts| && s.finishedJobs.Items() != [] && Awaiting(s.hosts[u]) == Some(s.finishedJobs.Items()[0].jobId) &&
    !s.hosts[u].Enqueuing?
  }

  lemma HeadHasOwner(s: State) returns (u: nat)
    requires RunInv(s) && s.finishedJobs.Items() != []
    ensures Owner(s, u)
  {
    var out := Ids(Outstanding(s));
    assert out[0] == s.finishedJobs.Items()[0].jobId;
    assert Some(out[0]) in Awaits(s.hosts);
    u :| 0 <= u < |Awaits(s.hosts)| && Awaits(s.hosts)[u] == Some(out[0]);
    EnqueuersAreNotHead(s, u);
    hide Control, Outstanding, Fifo;
  }

  /** The owner is asking for the dequeue mutex or inside it, looking. */
  ghost predicate AtQueue(s: State, u: nat)
    requires s.Valid()
  {
    Owner(s, u) && (s.hosts[u].WantHead? || s.hosts[u].Waiting?)
  }

  lemma OwnerStaysAtQueue(s: State, u: nat, m: Mover)
    requires RunInv(s) && AtQueue(s, u)
    ensures var s' := Go(s, m); Lower(s, s') || (Calm(s, s') && AtQueue(s', u))
  {
    var s' := Go(s, m);
    if m.TheWorker? {
      WorkerStep(s);
      hide State.WorkerNext, RunInv;
    } else if m.t >= |s.hosts| {
      NothingIsCalm(s);
      hide RunInv;
    } else {
      HostSteps(s, m.t);
      if Calm(s, s') && m.t == u && s.hosts[u].Waiting? {
        CalmWaiting(s, u);
        hide State.HostNext;
      }
      hide RunInv;
    }
    if Calm(s, s') {
      CalmKeepsItems(s, s');
      hide Left, Ring.Items, DeqNext, EnqNext;
    }
  }

  lemma {:induction false} Watch(s: State, sched: nat -> Mover, k: nat, j: nat, u: nat) returns (i: nat)
    requires RunInv(s) && k <= j && AtQueue(At(s, sched, k), u)
    ensures k <= i <= j
    ensures Lower(At(s, sched, k), At(s, sched, i)) || (Calm(At(s, sched, k), At(s, sched, j)) && AtQueue(At(s, sched, j), u))
    decreases j
  {
    hide *;
    AtNext(s, sched, k);
    if j == k {
      NothingIsCalm(At(s, sched, k));
      i := k;
    } else {
      i := Watch(s, sched, k, j - 1, u);
      var a, b, c := At(s, sched, k), At(s, sched, j - 1), At(s, sched, j);
      if !Lower(a, At(s, sched, i)) {
        AtNext(s, sched, j - 1);
        OwnerStaysAtQueue(b, u, sched(j - 1));
        CalmThenOn(a, b, c);
        i := j;
      }
    }
  }

  lemma LockHolderReleases(s: State, t: nat)
    requires RunInv(s) && s.dequeueLock == Some(t) && s.finishedJobs.Items() != []
    ensures Pending(s, Release(t))
  {
    hide Fifo, Matching, Ring.Items;
  }

  lemma OwnerTakes(s: State, u: nat)
    requires RunInv(s) && Owner(s, u) && s.hosts[u].Waiting?
    ensures Pending(s, Take(u))
  {
    hide Inv, Ring.Items;
  }

  /** An owner that asks for the mutex gets it, since nobody is starved and every other holder
      leaves; then it takes its result. */
  lemma AskingOwnerLowers(s: State, sched: nat -> Mover, k: nat, u: nat) returns (j: nat)
    requires RunInv(s) && Fair(sched, |s.hosts|) && StarvationFree(s, sched)
    requires AtQueue(At(s, sched, k), u)
    ensures Lower(At(s, sched, k), At(s, sched, j))
  {
    SameHosts(s, sched, k);
    assert u < |s.hosts|;
    hide RunInv, Owner, Lower, Calm, Fair, At, Pending;
    var a := At(s, sched, k);
    if LeavesQueue(s, sched, u, k) {
      var l: nat :| l >= k && u < |At(s, sched, l).hosts| && !At(s, sched, l).hosts[u].WantHead?;
      j := Watch(s, sched, k, l, u);
      if !Lower(a, At(s, sched, j)) {
        AtNext(s, sched, l);
        OwnerTakes(At(s, sched, l), u);
        j := GoalMet(s, sched, l, Take(u));
        CalmThenOn(a, At(s, sched, l), At(s, sched, j));
      }
    } else {
      var l: nat :| l >= k && LockedFrom(s, sched, l);
      j := Watch(s, sched, k, l, u);
      if !Lower(a, At(s, sched, j)) {
        AtNext(s, sched, l);
        var b := At(s, sched, l);
        assert b.dequeueLock != None && b.finishedJobs.Items() != [] by {
          OwnerSeesItems(b, u);
        }
        LockHolderReleases(b, b.dequeueLock.value);
        j := GoalMet(s, sched, l, Release(b.dequeueLock.value));
        assert At(s, sched, j).dequeueLock != None;
        CalmThenOn(a, b, At(s, sched, j));
      }
    }
  }

  lemma OwnerSeesItems(s: State, u: nat)
    requires s.Valid() && Owner(s, u)
    ensures s.finishedJobs.Items() != []
  {
  }

  lemma OwnerLowers(s: State, sched: nat -> Mover, k: nat, u: nat) returns (j: nat)
    requires RunInv(s) && Fair(sched, |s.hosts|) && StarvationFree(s, sched) && Owner(At(s, sched, k), u)
    ensures Lower(At(s, sched, k), At(s, sched, j))
  {
    var a := At(s, sched, k);
    if a.hosts[u].EnqRelease? || a.hosts[u].WaitRelease? {
      var g := OwnerAsks(a, u);
      hide *;
      j := GoalMet(s, sched, k, g);
      if !Lower(a, At(s, sched, j)) {
        AtNext(s, sched, j);
        NowAtQueue(a, At(s, sched, j), u, g);
        var l := AskingOwnerLowers(s, sched, j, u);
        CalmThenOn(a, At(s, sched, j), At(s, sched, l));
        j := l;
      }
    } else {
      assert AtQueue(a, u);
      hide *;
      j := AskingOwnerLowers(s, sched, k, u);
    }
  }

  lemma OwnerAsks(s: State, u: nat) returns (g: Goal)
    requires s.Valid() && Owner(s, u) && (s.hosts[u].EnqRelease? || s.hosts[u].WaitRelease?)
    ensures Pending(s, g) && g == Ask(u, s.finishedJobs.Items()[0].jobId)
  {
    g := Ask(u, s.finishedJobs.Items()[0].jobId);
    hide Ring.Items;
  }

  lemma NowAtQueue(s: State, s': State, u: nat, g: Goal)
    requires s.Valid() && s'.Valid() && Owner(s, u) && Calm(s, s') && Met(s', g)
    requires g == Ask(u, s.finishedJobs.Items()[0].jobId)
    ensures AtQueue(s', u)
  {
    CalmKeepsItems(s, s');
    hide Ring.Items, Calm;
  }

  // ---------- main result ----------

  // With both rings and the worker's hand empty: a host to publish, or one with a step to go.
  lemma CallerGoal(s: State, u: nat) returns (g: Goal)
    requires RunInv(s) && s.finishedJobs.Items() == [] && s.newJobs.Items() == [] && InWorker(s.worker) == []
    requires u < |s.hosts| && !s.hosts[u].Idle?
    ensures Pending(s, g) && (g.Publish? || g.Once?)
  {
    TestsMeasureOccupancy(s.newJobs);
    var t := if s.enqueueLock != None then s.enqueueLock.value else u;
    if s.hosts[t].Enqueuing? {
      g := Publish(t);
    } else {
      assert InHost(s) == [] && Outstanding(s) == [];
      assert Awaits(s.hosts)[t] == None;
      g := Once(t);
    }
    hide Fifo;
  }

  /** While some host is in a call, the measure goes down again. */
  lemma SomethingLowers(s: State, sched: nat -> Mover, k: nat, u: nat) returns (j: nat)
    requires RunInv(s) && Fair(sched, |s.hosts|) && StarvationFree(s, sched)
    requires u < |At(s, sched, k).hosts| && !At(s, sched, k).hosts[u].Idle?
    ensures Lower(At(s, sched, k), At(s, sched, j))
  {
    AtNext(s, sched, k);
    var a := At(s, sched, k);
    hide RunInv, At, Fair, StarvationFree, Lower, Calm, Ring.Items;
    if a.finishedJobs.Items() != [] {
      var o := HeadHasOwner(a);
      j := OwnerLowers(s, sched, k, o);
    } else if InWorker(a.worker) != [] || a.newJobs.Items() != [] {
      j := GoalMet(s, sched, k, Pass);
    } else {
      var g := CallerGoal(a, u);
      j := GoalMet(s, sched, k, g);
    }
  }

  lemma {:induction false} AllReturnFrom(s: State, sched: nat -> Mover, k: nat) returns (m: nat)
    requires RunInv(s) && Fair(sched, |s.hosts|) && StarvationFree(s, sched)
    ensures AllReturned(At(s, sched, m))
    decreases Left(At(s, sched, k))
  {
    hide RunInv, At, Fair, StarvationFree, Left;
    if u :| 0 <= u < |At(s, sched, k).hosts| && !At(s, sched, k).hosts[u].Idle? {
      var j := SomethingLowers(s, sched, k, u);
      m := AllReturnFrom(s, sched, j);
    } else {
      m := k;
    }
  }

  lemma {:induction false} ReturnedForEver(s: State, sched: nat -> Mover, m: nat, k: nat)
    requires RunInv(s) && m <= k && AllReturned(At(s, sched, m))
    ensures AllReturned(At(s, sched, k))
    decreases k
  {
    hide *;
    if m < k {
      ReturnedForEver(s, sched, m, k - 1);
      AtNext(s, sched, k - 1);
      IdleStaysIdle(At(s, sched, k - 1), sched(k - 1));
    }
  }

  lemma IdleStaysIdle(s: State, m: Mover)
    requires s.Valid() && AllReturned(s)
    ensures AllReturned(Go(s, m))
  {
    hide DeqNext, EnqNext;
  }

  /** All calls have returned, from step m on. */
  ghost predicate ReturnedFrom(s: State, sched: nat -> Mover, m: nat)
    requires RunInv(s)
  {
    forall k: nat :: m <= k ==> AllReturned(At(s, sched, k))
  }

  // Once all calls have returned nobody asks for the mutex any more.
  lemma ReturnedStarvesNobody(s: State, sched: nat -> Mover, m: nat)
    requires RunInv(s) && ReturnedFrom(s, sched, m)
    ensures StarvationFree(s, sched)
  {
    hide RunInv, At;
    forall t: nat, k: nat | t < |s.hosts| ensures LeavesQueue(s, sched, t, k) {
      var j := if m <= k then k else m;
      SameHosts(s, sched, j);
      assert AllReturned(At(s, sched, j));
      assert !At(s, sched, j).hosts[t].WantHead?;
    }
  }

  /** Under a fair schedule all calls return for good exactly when the schedule has a dequeue
      mutex that starves nobody. */
  lemma ReturnsExactly(s: State, sched: nat -> Mover)
    requires RunInv(s) && Fair(sched, |s.hosts|)
    ensures (exists m: nat :: ReturnedFrom(s, sched, m)) <==> StarvationFree(s, sched)
  {
    hide RunInv, At, Fair, StarvationFree;
    if StarvationFree(s, sched) {
      var m := AllReturnFrom(s, sched, 0);
      forall k: nat | m <= k ensures AllReturned(At(s, sched, k)) {
        ReturnedForEver(s, sched, m, k);
      }
      assert ReturnedFrom(s, sched, m);
    }
    if m: nat :| ReturnedFrom(s, sched, m) {
      ReturnedStarvesNobody(s, sched, m);
    }
  }

  // A host that asks for the mutex alone finds it free at its next step.
  lemma LoneHostEnters(s: State)
    requires RunInv(s) && |s.hosts| == 1 && s.hosts[0].WantHead?
    ensures |Go(s, AHost(0)).hosts| == 1 && !Go(s, AHost(0)).hosts[0].WantHead?
  {
    hide Fifo, Matching, Ring.Items;
  }

  /** A lone host is never starved. */
  lemma LoneHostIsNotStarved(s: State, sched: nat -> Mover)
    requires RunInv(s) && |s.hosts| <= 1 && Fair(sched, |s.hosts|)
    ensures StarvationFree(s, sched)
  {
    hide RunInv, At, Go;
    forall t: nat, k: nat | t < |s.hosts| ensures LeavesQueue(s, sched, t, k) {
      assert Later(sched, AHost(t), k);
      var j: nat :| j >= k && sched(j) == AHost(t);
      AtNext(s, sched, j);
      SameHosts(s, sched, j);
      SameHosts(s, sched, j + 1);
      if At(s, sched, j).hosts[t].WantHead? {
        LoneHostEnters(At(s, sched, j));
        assert !At(s, sched, j + 1).hosts[t].WantHead?;
      }
    }
  }

  /** Under every fair schedule with a dequeue mutex that starves nobody, from every state of
      concurrent blocking runs, all calls return: each host has then taken as many results as it
      started calls, and nothing is outstanding. */
  lemma EveryCallReturns(run: seq<State>, i: nat, sched: nat -> Mover) returns (m: nat)
    requires IsBlockingRun(run) && i < |run| && Fair(sched, |run[i].hosts|)
    requires RunInv(run[i]) ==> StarvationFree(run[i], sched)
    ensures RunInv(run[i])
    ensures forall k :: m <= k ==>
              var end := At(run[i], sched, k);
              end.Valid() && AllReturned(end) && Outstanding(end) == [] && |end.calls| == |end.hosts| &&
              forall t :: 0 <= t < |end.hosts| ==> end.calls[t] == RemovedBy(t, end.removed)
  {
    RunKeepsRunInv(run, i);
    var s := run[i];
    hide *;
    m := AllReturnFrom(s, sched, 0);
    forall k | m <= k
      ensures var end := At(s, sched, k);
              end.Valid() && AllReturned(end) && Outstanding(end) == [] && |end.calls| == |end.hosts| &&
              forall t :: 0 <= t < |end.hosts| ==> end.calls[t] == RemovedBy(t, end.removed)
    {
      ReturnedForEver(s, sched, m, k);
      AtNext(s, sched, k);
      NothingLeft(At(s, sched, k));
    }
  }
}
