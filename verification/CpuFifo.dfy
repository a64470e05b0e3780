/** The CPU runtime with one worker is one queue from push to poll, at every step. */
module CpuFifo {
  import opened Rings
  import opened CpuMachine

  // ---------- what each side of a ring knows ----------

  /** A producer past its IsFull test keeps its room until its own write. */
  ghost predicate EnqKnows(e: Enq, job: Job, r: Ring<Job>)
    requires r.Valid()
  {
    EnqFits(e, r.Cap()) &&
    match e
    case FullRear => true
    case FullFront(rear) => rear == r.rear
    case EnqRead => r.Occ() <= r.Cap() - 2
    case EnqWrite(temp) => r.Occ() <= r.Cap() - 2 && temp == Wrap(r.rear + 1, r.Cap())
    case EnqPublish(temp) => r.Occ() <= r.Cap() - 2 && temp == Wrap(r.rear + 1, r.Cap()) && r.slots[temp] == job
  }

  /** A consumer's stale Rear never runs ahead of the real one; what it has read of the
      head stays the head. */
  ghost predicate DeqKnows(d: Deq, r: Ring<Job>)
    requires r.Valid()
  {
    DeqFits(d, r.Cap()) &&
    match d
    case EmptyRear => true
    case EmptyFront(rear) => Span(r.front, rear, r.Cap()) <= r.Occ()
    case ReadFront => r.Occ() > 0
    case ReadSlot(front) => r.Occ() > 0 && front == r.front
    case AgainRear(copy) => r.Occ() > 0 && copy == r.Items()[0]
    case AgainFront(copy, rear) => r.Occ() > 0 && copy == r.Items()[0] && 0 < Span(r.front, rear, r.Cap()) <= r.Occ()
    case ReadAgain(copy) => r.Occ() > 0 && copy == r.Items()[0]
    case Advance(copy, front) => r.Occ() > 0 && copy == r.Items()[0] && front == r.front
  }

  /** A producer's step as a consumer sees it. */
  ghost predicate Grows(r: Ring<Job>, r': Ring<Job>)
    requires r.Valid() && r'.Valid()
  {
    r'.Cap() == r.Cap() && r'.front == r.front && r.Items() <= r'.Items()
  }

  /** A consumer's step as a producer sees it. */
  ghost predicate Drains(r: Ring<Job>, r': Ring<Job>)
    requires r.Valid() && r'.Valid()
  {
    r'.slots == r.slots && r'.rear == r.rear && r'.Occ() <= r.Occ()
  }

  lemma DeqKnowsStill(d: Deq, r: Ring<Job>, r': Ring<Job>)
    requires r.Valid() && r'.Valid() && Grows(r, r') && DeqKnows(d, r)
    ensures DeqKnows(d, r')
  {
    assert r.Occ() <= r'.Occ();
    assert r.Occ() > 0 ==> r.Items()[0] == r'.Items()[0];
    hide Ring.Items, Ring.Occ, Span;
  }

  lemma EnqKnowsStill(e: Enq, job: Job, r: Ring<Job>, r': Ring<Job>)
    requires r.Valid() && r'.Valid() && Drains(r, r') && EnqKnows(e, job, r)
    ensures EnqKnows(e, job, r')
  {
  }

  lemma EnqStep(e: Enq, job: Job, r: Ring<Job>)
    requires r.Valid() && EnqKnows(e, job, r)
    ensures var out := EnqNext(e, job, r);
            out.ring.Valid() && Grows(r, out.ring) &&
            if out.Published? then out.ring.Items() == r.Items() + [job]
            else out.ring.Items() == r.Items() && EnqKnows(out.e, job, out.ring)
  {
    if e.FullFront? {
      TestsMeasureOccupancy(r);
    } else if e.EnqWrite? {
      WriteKeepsItems(r, job);
    } else if e.EnqPublish? {
      PublishAppends(r);
    }
    hide Ring.Items, Span;
  }

  lemma DeqStep(d: Deq, r: Ring<Job>)
    requires r.Valid() && DeqKnows(d, r)
    ensures match DeqNext(d, r)
            case DeqGo(d') => DeqKnows(d', r)
            case SawEmpty => d.EmptyFront?
            case Got(copy) => DeqKnows(AgainRear(copy), r) && DeqKnows(ReadAgain(copy), r)
            case Took(copy, r') => r'.Valid() && Drains(r, r') && r.Items() == [copy] + r'.Items()
  {
    if d.ReadSlot? {
      HeadIsFrontSlot(r);
    } else if d.Advance? {
      AdvanceDropsHead(r);
    }
    hide Ring.Items;
  }

  // ---------- the invariant ----------

  predicate InEnqMutex(h: HostPc) { h.Enqueuing? || h.EnqRelease? }

  predicate InDeqMutex(h: HostPc) {
    h.Polling? || h.PollRelease? || h.Waiting? || h.WaitRelease? || h.DoneRelease?
  }

  ghost predicate MutexOk(s: State) {
    (s.enqueueLock == None || s.enqueueLock.value < |s.hosts|) &&
    (s.dequeueLock == None || s.dequeueLock.value < |s.hosts|) &&
    forall t :: 0 <= t < |s.hosts| ==>
      (s.enqueueLock == Some(t) <==> InEnqMutex(s.hosts[t])) &&
      (s.dequeueLock == Some(t) <==> InDeqMutex(s.hosts[t]))
  }

  ghost predicate HostKnows(h: HostPc, newJobs: Ring<Job>, finishedJobs: Ring<Job>)
    requires newJobs.Valid() && finishedJobs.Valid()
  {
    (h.Enqueuing? ==> EnqKnows(h.e, h.job, newJobs)) &&
    (h.Polling? || h.Waiting? ==> DeqKnows(h.d, finishedJobs)) &&
    (h.Waiting? && Copy(h.d) != None ==> Copy(h.d).value.jobId == h.id)
  }

  function Copy(d: Deq): Option<Job> {
    if d.AgainRear? || d.AgainFront? || d.ReadAgain? || d.Advance? then Some(d.copy) else None
  }

  ghost predicate WorkerKnows(w: WorkerPc, newJobs: Ring<Job>, finishedJobs: Ring<Job>)
    requires newJobs.Valid() && finishedJobs.Valid()
  {
    (w.Fetching? ==> DeqKnows(w.d, newJobs)) && (w.Storing? ==> EnqKnows(w.e, w.job, finishedJobs))
  }

  ghost predicate Control(s: State) {
    s.Valid() && MutexOk(s) && WorkerKnows(s.worker, s.newJobs, s.finishedJobs) &&
    forall t :: 0 <= t < |s.hosts| ==> HostKnows(s.hosts[t], s.newJobs, s.finishedJobs)
  }

  /** The job the worker has taken out of newJobs and not yet published. */
  function InWorker(w: WorkerPc): seq<Job> {
    if w.Executing? || w.Storing? then [w.job] else []
  }

  /** The job of the host inside the enqueue mutex, not yet published. */
  function InHost(s: State): seq<Job>
  {
    if s.enqueueLock != None && s.enqueueLock.value < |s.hosts| && s.hosts[s.enqueueLock.value].Enqueuing?
    then [s.hosts[s.enqueueLock.value].job] else []
  }

  function Jobs(removed: seq<Removal>): seq<Job> {
    seq(|removed|, k requires 0 <= k < |removed| => removed[k].job)
  }

  /** Everything pushed and not yet removed, oldest first. */
  function Outstanding(s: State): seq<Job>
    requires s.Valid()
  {
    s.finishedJobs.Items() + InWorker(s.worker) + s.newJobs.Items() + InHost(s)
  }

  ghost predicate Fifo(s: State)
    requires s.Valid()
  {
    s.pushed == Jobs(s.removed) + Outstanding(s)
  }

  ghost predicate Inv(s: State)
    ensures Inv(s) ==> s.Valid()
  {
    Control(s) && Fifo(s)
  }

  // ---------- steps of the worker ----------

  lemma OthersKnow(s: State, s': State, h: HostPc)
    requires s.Valid() && s'.Valid() && HostKnows(h, s.newJobs, s.finishedJobs)
    requires s'.newJobs == s.newJobs || Drains(s.newJobs, s'.newJobs)
    requires s'.finishedJobs == s.finishedJobs || Grows(s.finishedJobs, s'.finishedJobs)
    ensures HostKnows(h, s'.newJobs, s'.finishedJobs)
  {
    hide DeqKnows, EnqKnows, Grows, Drains;
    if h.Enqueuing? && s'.newJobs != s.newJobs {
      EnqKnowsStill(h.e, h.job, s.newJobs, s'.newJobs);
    }
    if (h.Polling? || h.Waiting?) && s'.finishedJobs != s.finishedJobs {
      DeqKnowsStill(h.d, s.finishedJobs, s'.finishedJobs);
    }
  }

  /** The worker moves: hosts, mutexes and logs stay; the rings drain and grow. */
  lemma WorkerMoves(s: State, s': State)
    requires Inv(s) && s'.newJobs.Valid() && s'.finishedJobs.Valid()
    requires s' == s.(worker := s'.worker, newJobs := s'.newJobs, finishedJobs := s'.finishedJobs)
    requires s'.newJobs == s.newJobs || Drains(s.newJobs, s'.newJobs)
    requires s'.finishedJobs == s.finishedJobs || Grows(s.finishedJobs, s'.finishedJobs)
    requires WorkerFits(s'.worker, s.Cap()) && WorkerKnows(s'.worker, s'.newJobs, s'.finishedJobs)
    requires s'.finishedJobs.Items() + InWorker(s'.worker) + s'.newJobs.Items() ==
             s.finishedJobs.Items() + InWorker(s.worker) + s.newJobs.Items()
    ensures Inv(s')
  {
    assert s'.Valid() && MutexOk(s');
    assert Outstanding(s') == Outstanding(s);
    hide HostKnows, WorkerKnows;
    forall t | 0 <= t < |s'.hosts| ensures HostKnows(s'.hosts[t], s'.newJobs, s'.finishedJobs) {
      OthersKnow(s, s', s.hosts[t]);
    }
  }

  lemma WorkerKeepsInv(s: State)
    requires Inv(s)
    ensures Inv(s.WorkerNext())
  {
    var s' := s.WorkerNext();
    if s.worker.Fetching? {
      FetchKeepsInv(s);
    } else if s.worker.Storing? {
      StoreKeepsInv(s);
    } else {
      hide DeqKnows, EnqKnows, HostKnows, MutexOk;
      WorkerMoves(s, s');
    }
  }

  lemma FetchKeepsInv(s: State)
    requires Inv(s) && s.worker.Fetching?
    ensures Inv(s.WorkerNext())
  {
    assert WorkerKnows(s.worker, s.newJobs, s.finishedJobs);
    FetchMove(s);
    hide State.WorkerNext, Inv, Ring.Items, Ring.Valid, Drains, Grows, WorkerFits, WorkerKnows, InWorker;
    WorkerMoves(s, s.WorkerNext());
  }

  // What a step inside Front or Dequeue does to newJobs and the worker's hand.
  lemma FetchMove(s: State)
    requires s.Valid() && s.worker.Fetching? && WorkerKnows(s.worker, s.newJobs, s.finishedJobs)
    ensures var s' := s.WorkerNext();
            && s' == s.(worker := s'.worker, newJobs := s'.newJobs, finishedJobs := s'.finishedJobs)
            && s'.newJobs.Valid() && s'.finishedJobs == s.finishedJobs
            && (s'.newJobs == s.newJobs || Drains(s.newJobs, s'.newJobs))
            && WorkerFits(s'.worker, s.Cap()) && WorkerKnows(s'.worker, s'.newJobs, s'.finishedJobs)
            && s'.finishedJobs.Items() + InWorker(s'.worker) + s'.newJobs.Items() ==
               s.finishedJobs.Items() + InWorker(s.worker) + s.newJobs.Items()
  {
    DeqStep(s.worker.d, s.newJobs);
    DeqFitsKept(s.worker.d, s.newJobs);
    hide DeqNext, DeqKnows, EnqKnows, Ring.Items, DeqFits;
  }

  lemma DeqFitsKept(d: Deq, r: Ring<Job>)
    requires r.Valid() && DeqFits(d, r.Cap())
    ensures DeqNext(d, r).DeqGo? ==> DeqFits(DeqNext(d, r).d, r.Cap())
  {
  }

  lemma StoreKeepsInv(s: State)
    requires Inv(s) && s.worker.Storing?
    ensures Inv(s.WorkerNext())
  {
    var s' := s.WorkerNext();
    EnqStep(s.worker.e, s.worker.job, s.finishedJobs);
    hide EnqNext, HostKnows, MutexOk, Ring.Items;
    WorkerMoves(s, s');
  }

  // ---------- steps of a host ----------

  /** A host moves; the worker and the other hosts keep what they know. */
  lemma HostMoves(s: State, t: nat, s': State)
    requires Control(s) && t < |s.hosts| && s'.newJobs.Valid() && s'.finishedJobs.Valid()
    requires s'.worker == s.worker && |s'.hosts| == |s.hosts| && s'.hosts == s.hosts[t := s'.hosts[t]] &&
             |s'.calls| == |s.calls|
    requires s'.newJobs == s.newJobs || (Grows(s.newJobs, s'.newJobs) && s.enqueueLock == Some(t))
    requires s'.finishedJobs == s.finishedJobs || (Drains(s.finishedJobs, s'.finishedJobs) && s.dequeueLock == Some(t))
    requires s'.newJobs.Cap() == s'.finishedJobs.Cap() == s.Cap() && HostFits(s'.hosts[t], s.Cap())
    requires HostKnows(s'.hosts[t], s'.newJobs, s'.finishedJobs) && MutexOk(s')
    ensures Control(s')
  {
    assert s'.Valid();
    assert WorkerKnows(s.worker, s'.newJobs, s'.finishedJobs) by {
      if s.worker.Fetching? && s'.newJobs != s.newJobs {
        DeqKnowsStill(s.worker.d, s.newJobs, s'.newJobs);
      }
      if s.worker.Storing? && s'.finishedJobs != s.finishedJobs {
        EnqKnowsStill(s.worker.e, s.worker.job, s.finishedJobs, s'.finishedJobs);
      }
    }
    forall u | 0 <= u < |s'.hosts| ensures HostKnows(s'.hosts[u], s'.newJobs, s'.finishedJobs) {
      if u != t {
        assert HostKnows(s.hosts[u], s.newJobs, s.finishedJobs);
      }
    }
  }

  lemma MutexKept(s: State, t: nat, s': State)
    requires MutexOk(s) && t < |s.hosts| && |s'.hosts| == |s.hosts| && s'.hosts == s.hosts[t := s'.hosts[t]]
    requires (InEnqMutex(s.hosts[t]) == InEnqMutex(s'.hosts[t]) && s'.enqueueLock == s.enqueueLock) ||
             (!InEnqMutex(s.hosts[t]) && InEnqMutex(s'.hosts[t]) && s.enqueueLock == None && s'.enqueueLock == Some(t)) ||
             (InEnqMutex(s.hosts[t]) && !InEnqMutex(s'.hosts[t]) && s'.enqueueLock == None)
    requires (InDeqMutex(s.hosts[t]) == InDeqMutex(s'.hosts[t]) && s'.dequeueLock == s.dequeueLock) ||
             (!InDeqMutex(s.hosts[t]) && InDeqMutex(s'.hosts[t]) && s.dequeueLock == None && s'.dequeueLock == Some(t)) ||
             (InDeqMutex(s.hosts[t]) && !InDeqMutex(s'.hosts[t]) && s'.dequeueLock == None)
    ensures MutexOk(s')
  {
    hide InEnqMutex, InDeqMutex;
    forall u | 0 <= u < |s'.hosts|
      ensures (s'.enqueueLock == Some(u) <==> InEnqMutex(s'.hosts[u])) &&
              (s'.dequeueLock == Some(u) <==> InDeqMutex(s'.hosts[u]))
    {
      if u != t {
        assert s'.hosts[u] == s.hosts[u];
      }
    }
  }

  lemma EnqueuingKeepsInv(s: State, t: nat)
    requires Inv(s) && t < |s.hosts| && s.hosts[t].Enqueuing?
    ensures Inv(s.HostNext(t))
  {
    var h, s' := s.hosts[t], s.HostNext(t);
    assert HostKnows(h, s.newJobs, s.finishedJobs) && s.enqueueLock == Some(t);
    EnqStep(h.e, h.job, s.newJobs);
    hide EnqNext, Ring.Items, Grows;
    MutexKept(s, t, s');
    hide MutexOk;
    HostMoves(s, t, s');
    hide Control;
    assert Outstanding(s') == Outstanding(s);
  }

  lemma DequeuingKeepsControl(s: State, t: nat)
    requires Inv(s) && t < |s.hosts| && (s.hosts[t].Polling? || s.hosts[t].Waiting?)
    ensures Control(s.HostNext(t))
  {
    assert s.dequeueLock == Some(t);
    DequeuingMove(s, t);
    hide State.HostNext, MutexOk, HostKnows, HostFits, Ring.Valid, Fifo, Drains, Grows;
    MutexKept(s, t, s.HostNext(t));
    HostMoves(s, t, s.HostNext(t));
  }

  // What a step inside Front, Dequeue or MaybeFandD leaves alone, and what the host then knows.
  lemma DequeuingMove(s: State, t: nat)
    requires s.Valid() && t < |s.hosts| && (s.hosts[t].Polling? || s.hosts[t].Waiting?)
    requires HostKnows(s.hosts[t], s.newJobs, s.finishedJobs)
    ensures var h, s' := s.hosts[t], s.HostNext(t);
            && s'.worker == s.worker && |s'.hosts| == |s.hosts| && s'.hosts == s.hosts[t := s'.hosts[t]]
            && |s'.calls| == |s.calls| && s'.newJobs == s.newJobs && s'.finishedJobs.Valid()
            && s'.enqueueLock == s.enqueueLock && s'.dequeueLock == s.dequeueLock
            && (s'.finishedJobs == s.finishedJobs || Drains(s.finishedJobs, s'.finishedJobs))
            && s'.finishedJobs.Cap() == s.Cap() && HostFits(s'.hosts[t], s.Cap())
            && HostKnows(s'.hosts[t], s'.newJobs, s'.finishedJobs)
            && !InEnqMutex(h) && !InEnqMutex(s'.hosts[t]) && InDeqMutex(h) && InDeqMutex(s'.hosts[t])
  {
    var d := s.hosts[t].d;
    DeqStep(d, s.finishedJobs);
    DeqFitsKept(d, s.finishedJobs);
    CopyKept(d, s.finishedJobs);
    hide DeqNext, DeqKnows, EnqKnows, Ring.Items, DeqFits;
  }

  lemma CopyKept(d: Deq, r: Ring<Job>)
    requires r.Valid() && DeqFits(d, r.Cap())
    ensures DeqNext(d, r).DeqGo? ==> Copy(DeqNext(d, r).d) == Copy(d)
    ensures DeqNext(d, r).Took? ==> Copy(d) == Some(DeqNext(d, r).copy)
  {
  }

  lemma DequeuingKeepsFifo(s: State, t: nat)
    requires Inv(s) && t < |s.hosts| && (s.hosts[t].Polling? || s.hosts[t].Waiting?)
    requires s.HostNext(t).Valid()
    ensures Fifo(s.HostNext(t))
  {
    var h, s' := s.hosts[t], s.HostNext(t);
    assert HostKnows(h, s.newJobs, s.finishedJobs) && s.dequeueLock == Some(t);
    assert s.enqueueLock != Some(t);
    DeqStep(h.d, s.finishedJobs);
    hide Control, MutexOk, HostKnows, DeqNext, Ring.Items, Drains, DeqFits, DeqKnows;
    assert InHost(s') == InHost(s);
    if s'.removed != s.removed {
      var copy := DeqNext(h.d, s.finishedJobs).copy;
      assert Jobs(s'.removed) == Jobs(s.removed) + [copy];
      TakeHead(s.pushed, Jobs(s.removed), copy, s'.finishedJobs.Items(), InWorker(s.worker), s.newJobs.Items(), InHost(s));
    }
  }

  // Dropping the head of the third queue and logging it leaves the concatenation alone.
  lemma TakeHead(all: seq<Job>, log: seq<Job>, head: Job, fin: seq<Job>, w: seq<Job>, n: seq<Job>, h: seq<Job>)
    requires all == log + (([head] + fin) + w + n + h)
    ensures all == (log + [head]) + (fin + w + n + h)
  {
    assert ([head] + fin) + w + n + h == [head] + (fin + w + n + h);
  }

  lemma OtherHostStepKeepsInv(s: State, t: nat)
    requires Inv(s) && t < |s.hosts| && !s.hosts[t].Polling? && !s.hosts[t].Waiting? && !s.hosts[t].Enqueuing?
    ensures Inv(s.HostNext(t))
  {
    OtherStepShape(s, t);
    OtherMutexStep(s, t);
    OtherHostStepKeepsFifo(s, t);
    hide State.HostNext, MutexOk, Fifo;
    HostMoves(s, t, s.HostNext(t));
  }

  // Outside the ring operations a host touches no ring.
  lemma OtherStepShape(s: State, t: nat)
    requires s.Valid() && t < |s.hosts| && !s.hosts[t].Polling? && !s.hosts[t].Waiting? && !s.hosts[t].Enqueuing?
    ensures var s' := s.HostNext(t);
            s'.Valid() && |s'.hosts| == |s.hosts| && s'.hosts == s.hosts[t := s'.hosts[t]] && |s'.calls| == |s.calls| &&
            s'.newJobs == s.newJobs && s'.finishedJobs == s.finishedJobs && s'.worker == s.worker &&
            HostFits(s'.hosts[t], s.Cap()) && HostKnows(s'.hosts[t], s.newJobs, s.finishedJobs)
  {
    hide Ring.Items, Ring.Occ;
  }

  lemma OtherMutexStep(s: State, t: nat)
    requires s.Valid() && MutexOk(s) && t < |s.hosts| && !s.hosts[t].Polling? && !s.hosts[t].Waiting? &&
             !s.hosts[t].Enqueuing?
    ensures MutexOk(s.HostNext(t))
  {
    var s' := s.HostNext(t);
    assert |s'.hosts| == |s.hosts| && s'.hosts == s.hosts[t := s'.hosts[t]];
    MutexKept(s, t, s');
  }

  lemma OtherHostStepKeepsFifo(s: State, t: nat)
    requires Inv(s) && t < |s.hosts| && !s.hosts[t].Polling? && !s.hosts[t].Waiting? && !s.hosts[t].Enqueuing?
    requires s.HostNext(t).Valid()
    ensures Fifo(s.HostNext(t))
  {
    if s.hosts[t].WantEnq? && s.enqueueLock == None {
      AcquireKeepsFifo(s, t);
    } else {
      NothingPushed(s, t);
      hide State.HostNext, Ring.Items, InHost, Control, State.Valid;
      assert Outstanding(s.HostNext(t)) == Outstanding(s);
    }
  }

  lemma NothingPushed(s: State, t: nat)
    requires s.Valid() && MutexOk(s) && t < |s.hosts| && !s.hosts[t].Polling? && !s.hosts[t].Waiting? && !s.hosts[t].Enqueuing?
    requires !(s.hosts[t].WantEnq? && s.enqueueLock == None)
    ensures var s' := s.HostNext(t);
            InHost(s') == InHost(s) && s'.newJobs == s.newJobs && s'.finishedJobs == s.finishedJobs &&
            s'.worker == s.worker && s'.pushed == s.pushed && s'.removed == s.removed
  {
    hide Ring.Items, Ring.Valid;
  }

  lemma AcquireKeepsFifo(s: State, t: nat)
    requires Inv(s) && t < |s.hosts| && s.hosts[t].WantEnq? && s.enqueueLock == None
    requires s.HostNext(t).Valid()
    ensures Fifo(s.HostNext(t))
  {
    var job, s' := s.hosts[t].job, s.HostNext(t);
    assert InHost(s) == [] && InHost(s') == [job];
    hide Ring.Items, InHost, Control;
    assert Outstanding(s') == Outstanding(s) + [job];
    assert s'.pushed == Jobs(s.removed) + (Outstanding(s) + [job]);
  }

  lemma HostKeepsInv(s: State, t: nat)
    requires Inv(s) && t < |s.hosts|
    ensures Inv(s.HostNext(t))
  {
    var h := s.hosts[t];
    if h.Enqueuing? {
      EnqueuingKeepsInv(s, t);
    } else if h.Polling? || h.Waiting? {
      DequeuingKeepsControl(s, t);
      DequeuingKeepsFifo(s, t);
    } else {
      OtherHostStepKeepsInv(s, t);
    }
  }

  lemma StartKeepsInv(s: State, t: nat, s': State)
    requires Inv(s) && t < |s.hosts| && s.hosts[t].Idle?
    requires |s'.hosts| == |s.hosts| && s' == s.(hosts := s.hosts[t := s'.hosts[t]], calls := s'.calls) &&
             |s'.calls| == |s.calls|
    requires s'.hosts[t].WantEnq? || s'.hosts[t].WantPoll?
    ensures Inv(s')
  {
    MutexKept(s, t, s');
    HostMoves(s, t, s');
    assert Outstanding(s') == Outstanding(s);
  }

  lemma StepKeepsInv(s: State, a: Action)
    requires Inv(s)
    ensures Inv(Apply(s, a))
  {
    var s' := Apply(s, a);
    match a
    case Worker => WorkerKeepsInv(s);
    case Host(t) => if t < |s.hosts| { HostKeepsInv(s, t); }
    case SetKill => KillKeepsInv(s);
    case _ =>
      if a.t < |s.hosts| && s.hosts[a.t].Idle? {
        assert s.Valid();
        hide Inv;
        StartKeepsInv(s, a.t, s');
      }
  }

  lemma KillKeepsInv(s: State)
    requires Inv(s)
    ensures Inv(s.(kill := true))
  {
    var s' := s.(kill := true);
    assert s'.Valid() && MutexOk(s') && Outstanding(s') == Outstanding(s);
  }

  lemma InitHasInv(s: State)
    requires Init(s)
    ensures Inv(s)
  {
    assert s.newJobs.Items() == [] && s.finishedJobs.Items() == [];
  }

  lemma {:induction false} RunKeepsInv(run: seq<State>, i: nat)
    requires IsRun(run) && i < |run|
    ensures Inv(run[i])
  {
    if i == 0 {
      InitHasInv(run[0]);
    } else {
      RunKeepsInv(run, i - 1);
      hide Inv;
      assert Step(run[i - 1], run[i - 1 + 1]);
      var a :| Apply(run[i - 1], a) == run[i];
      StepKeepsInv(run[i - 1], a);
    }
  }

  // ---------- main results ----------

  /** End to end, in every state of every run: what was pushed is, in order, what was
      removed, what waits in finishedJobs, the job in the worker's hand, what waits in
      newJobs, and the job of a host that is just enqueuing. The head of newJobs counts in
      the ring, not in the hand, while the worker is between Front and Dequeue. */
  lemma PipelineIsFifo(run: seq<State>, i: nat)
    requires IsRun(run) && i < |run|
    ensures var s := run[i];
            s.Valid() &&
            s.pushed == Jobs(s.removed) + s.finishedJobs.Items() + InWorker(s.worker) + s.newJobs.Items() + InHost(s) &&
            (s.worker.Fetching? && Copy(s.worker.d) != None ==>
               s.newJobs.Items() != [] && Copy(s.worker.d).value == s.newJobs.Items()[0])
  {
    RunKeepsInv(run, i);
    var s := run[i];
    assert s.Valid() && s.pushed == Jobs(s.removed) + Outstanding(s);
    CopyIsHead(s);
    hide Inv, Ring.Items, Jobs, InWorker, InHost, State.Valid, IsRun;
    Regroup(Jobs(s.removed), s.finishedJobs.Items(), InWorker(s.worker), s.newJobs.Items(), InHost(s));
  }

  lemma Regroup(a: seq<Job>, b: seq<Job>, c: seq<Job>, d: seq<Job>, e: seq<Job>)
    ensures a + (b + c + d + e) == a + b + c + d + e
  {
  }

  // Between Front and Dequeue.
  lemma CopyIsHead(s: State)
    requires Inv(s)
    ensures s.worker.Fetching? && Copy(s.worker.d) != None ==>
              s.newJobs.Items() != [] && Copy(s.worker.d).value == s.newJobs.Items()[0]
  {
    assert WorkerKnows(s.worker, s.newJobs, s.finishedJobs);
    hide Fifo, MutexOk, EnqKnows, HostKnows, Ring.Items;
  }

  /** A producer that has passed IsFull still finds room when it writes and when it
      publishes, and its write hits no unread slot; a consumer between reading the head
      and moving Front holds the true head. */
  lemma TestsStayValid(run: seq<State>, i: nat)
    requires IsRun(run) && i < |run|
    ensures var s := run[i];
            s.Valid() &&
            (s.worker.Storing? && !s.worker.e.FullRear? && !s.worker.e.FullFront? ==>
               s.finishedJobs.Occ() <= s.Cap() - 2) &&
            (s.worker.Storing? && s.worker.e.EnqWrite? ==>
               forall k :: 0 <= k < s.finishedJobs.Occ() ==> s.finishedJobs.SlotOf(k) != s.worker.e.index) &&
            forall t :: 0 <= t < |s.hosts| ==>
              var h := s.hosts[t];
              (h.Enqueuing? && !h.e.FullRear? && !h.e.FullFront? ==> s.newJobs.Occ() <= s.Cap() - 2) &&
              (h.Enqueuing? && h.e.EnqWrite? ==> forall k :: 0 <= k < s.newJobs.Occ() ==> s.newJobs.SlotOf(k) != h.e.index) &&
              ((h.Polling? || h.Waiting?) && Copy(h.d) != None ==>
                 s.finishedJobs.Items() != [] && Copy(h.d).value == s.finishedJobs.Items()[0])
  {
    RunKeepsInv(run, i);
    var s := run[i];
    WriteKeepsItems(s.newJobs, s.newJobs.slots[0]);
    WriteKeepsItems(s.finishedJobs, s.finishedJobs.slots[0]);
    hide Ring.Items, Ring.Occ, Ring.SlotOf, Fifo, MutexOk;
    forall t | 0 <= t < |s.hosts| ensures HostKnows(s.hosts[t], s.newJobs, s.finishedJobs) {
    }
  }
}
