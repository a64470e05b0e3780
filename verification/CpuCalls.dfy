/** The calls of the CPU runtime with nobody in between: how many steps they take, what they
    change, and that they change nothing else. */
module CpuCalls {
  import opened Rings
  import opened CpuMachine

  // ---------- calls with nobody in between ----------

  /** The state after n steps of host t. */
  ghost function HostAlone(s: State, t: nat, n: nat): State
    decreases n
  {
    if n == 0 || !s.Valid() || t >= |s.hosts| then s else HostAlone(s.HostNext(t), t, n - 1)
  }

  lemma OneMore(s: State, t: nat, n: nat, s': State)
    requires n > 0 && s.Valid() && t < |s.hosts| && s.HostNext(t) == s'
    ensures HostAlone(s, t, n) == HostAlone(s', t, n - 1)
  {
  }

  lemma NoMore(s: State, t: nat)
    ensures HostAlone(s, t, 0) == s
  {
  }

  lemma Overwritten(hosts: seq<HostPc>, t: nat, a: HostPc, b: HostPc)
    requires t < |hosts|
    ensures hosts[t := a][t := b] == hosts[t := b] && hosts[t := hosts[t]] == hosts
  {
  }

  // One step of each kind, with the rest of the system as in s.

  lemma AtPc(s: State, t: nat, pc: HostPc)
    requires s.Valid() && t < |s.hosts| && HostFits(pc, s.Cap())
    ensures s.Host(t, pc).Valid() && s.Host(t, pc).hosts[t] == pc && |s.Host(t, pc).hosts| == |s.hosts|
  {
    hide HostFits, Ring.Valid;
  }

  lemma Locks(s: State, t: nat, n: nat)
    requires s.Valid() && t < |s.hosts| && s.dequeueLock == None && n > 0
    ensures HostAlone(s.Host(t, WantPoll), t, n) == HostAlone(s.(dequeueLock := Some(t)).Host(t, Polling(EmptyRear)), t, n - 1)
  {
    AtPc(s, t, WantPoll);
    Overwritten(s.hosts, t, WantPoll, Polling(EmptyRear));
    hide State.Valid;
    OneMore(s.Host(t, WantPoll), t, n, s.(dequeueLock := Some(t)).Host(t, Polling(EmptyRear)));
  }

  lemma PollsOn(s: State, t: nat, d: Deq, d': Deq, n: nat)
    requires s.Valid() && t < |s.hosts| && DeqFits(d, s.finishedJobs.Cap()) && n > 0
    requires DeqNext(d, s.finishedJobs) == DeqGo(d') ||
            (DeqNext(d, s.finishedJobs).Got? && d' == ReadAgain(DeqNext(d, s.finishedJobs).copy))
    ensures HostAlone(s.Host(t, Polling(d)), t, n) == HostAlone(s.Host(t, Polling(d')), t, n - 1)
  {
    AtPc(s, t, Polling(d));
    Overwritten(s.hosts, t, Polling(d), Polling(d'));
    hide State.Valid, DeqNext;
    OneMore(s.Host(t, Polling(d)), t, n, s.Host(t, Polling(d')));
  }

  lemma GivesUp(s: State, t: nat, d: Deq, n: nat)
    requires s.Valid() && t < |s.hosts| && DeqFits(d, s.finishedJobs.Cap()) && n > 0 && DeqNext(d, s.finishedJobs) == SawEmpty
    ensures HostAlone(s.Host(t, Polling(d)), t, n) == HostAlone(s.Host(t, PollRelease), t, n - 1)
  {
    AtPc(s, t, Polling(d));
    Overwritten(s.hosts, t, Polling(d), PollRelease);
    hide State.Valid, DeqNext;
    OneMore(s.Host(t, Polling(d)), t, n, s.Host(t, PollRelease));
  }

  lemma TakesOut(s: State, t: nat, d: Deq, copy: Job, r: Ring<Job>, n: nat)
    requires s.Valid() && t < |s.hosts| && DeqFits(d, s.finishedJobs.Cap()) && n > 0 && DeqNext(d, s.finishedJobs) == Took(copy, r)
    ensures HostAlone(s.Host(t, Polling(d)), t, n) ==
            HostAlone(s.(finishedJobs := r, removed := s.removed + [Removal(copy, t, None)]).Host(t, PollRelease), t, n - 1)
  {
    AtPc(s, t, Polling(d));
    Overwritten(s.hosts, t, Polling(d), PollRelease);
    hide State.Valid, DeqNext;
    OneMore(s.Host(t, Polling(d)), t, n,
            s.(finishedJobs := r, removed := s.removed + [Removal(copy, t, None)]).Host(t, PollRelease));
  }

  lemma Unlocks(s: State, t: nat)
    requires s.Valid() && t < |s.hosts| && s.hosts[t] == Idle && s.dequeueLock == None
    ensures HostAlone(s.(dequeueLock := Some(t)).Host(t, PollRelease), t, 1) == s
  {
    AtPc(s, t, PollRelease);
    Overwritten(s.hosts, t, PollRelease, Idle);
    var x := s.(dequeueLock := Some(t)).Host(t, PollRelease);
    assert x.Valid() && x.HostNext(t) == s;
    OneMore(x, t, 1, s);
    NoMore(s, t);
  }

  lemma LockedFits(s: State, t: nat)
    requires s.Valid()
    ensures s.(dequeueLock := Some(t)).Valid()
  {
  }

  lemma SeesEmpty(r: Ring<Job>)
    requires r.Valid() && r.IsEmpty()
    ensures DeqFits(EmptyRear, r.Cap()) && DeqNext(EmptyRear, r) == DeqGo(EmptyFront(r.rear))
    ensures DeqFits(EmptyFront(r.rear), r.Cap()) && DeqNext(EmptyFront(r.rear), r) == SawEmpty
  {
  }

  lemma SeesJob(r: Ring<Job>)
    requires r.Valid() && !r.IsEmpty()
    ensures r.Items() != [] && r.Dequeued().Valid() && r.Dequeued().Cap() == r.Cap()
    ensures var copy := r.Items()[0];
            && DeqFits(EmptyRear, r.Cap()) && DeqNext(EmptyRear, r) == DeqGo(EmptyFront(r.rear))
            && DeqFits(EmptyFront(r.rear), r.Cap()) && DeqNext(EmptyFront(r.rear), r) == DeqGo(ReadFront)
            && DeqFits(ReadFront, r.Cap()) && DeqNext(ReadFront, r) == DeqGo(ReadSlot(r.front))
            && DeqFits(ReadSlot(r.front), r.Cap()) && DeqNext(ReadSlot(r.front), r) == Got(copy)
            && DeqFits(ReadAgain(copy), r.Cap()) && DeqNext(ReadAgain(copy), r) == DeqGo(Advance(copy, r.front))
            && DeqFits(Advance(copy, r.front), r.Cap()) && DeqNext(Advance(copy, r.front), r) == Took(copy, r.Dequeued())
  {
    TestsMeasureOccupancy(r);
    HeadIsFrontSlot(r);
    hide Ring.Items;
  }

  lemma StartsPoll(s: State, t: nat)
    requires s.Valid() && t < |s.hosts| && s.hosts[t] == Idle
    ensures Apply(s, Poll(t)) == s.Host(t, WantPoll) && s.(dequeueLock := Some(t)).Valid()
    ensures s.finishedJobs.Valid()
  {
  }

  /** With nothing finished a poll takes four steps and leaves everything as it was. */
  lemma PollOnEmpty(s: State, t: nat)
    requires s.Valid() && t < |s.hosts| && s.hosts[t] == Idle && s.dequeueLock == None && s.finishedJobs.IsEmpty()
    ensures HostAlone(Apply(s, Poll(t)), t, 4) == s
  {
    hide *;
    StartsPoll(s, t);
    var held, r := s.(dequeueLock := Some(t)), s.finishedJobs;
    SeesEmpty(r);
    Locks(s, t, 4);
    PollsOn(held, t, EmptyRear, EmptyFront(r.rear), 3);
    GivesUp(held, t, EmptyFront(r.rear), 2);
    Unlocks(s, t);
  }

  lemma PollsThrough(s: State, t: nat, copy: Job)
    requires s.Valid() && t < |s.hosts| && s.finishedJobs.Valid() && !s.finishedJobs.IsEmpty()
    requires s.finishedJobs.Items() != [] && copy == s.finishedJobs.Items()[0]
    ensures HostAlone(s.Host(t, Polling(EmptyRear)), t, 7) ==
            HostAlone(s.(finishedJobs := s.finishedJobs.Dequeued(), removed := s.removed + [Removal(copy, t, None)])
                      .Host(t, PollRelease), t, 1)
  {
    hide *;
    var r := s.finishedJobs;
    SeesJob(r);
    PollsOn(s, t, EmptyRear, EmptyFront(r.rear), 7);
    PollsOn(s, t, EmptyFront(r.rear), ReadFront, 6);
    PollsOn(s, t, ReadFront, ReadSlot(r.front), 5);
    PollsOn(s, t, ReadSlot(r.front), ReadAgain(copy), 4);
    PollsOn(s, t, ReadAgain(copy), Advance(copy, r.front), 3);
    TakesOut(s, t, Advance(copy, r.front), copy, r.Dequeued(), 2);
  }

  /** Otherwise it takes eight, and removes the oldest result and no other, for whoever asks. */
  lemma PollTakesHead(s: State, t: nat)
    requires s.Valid() && t < |s.hosts| && s.hosts[t] == Idle && s.dequeueLock == None && !s.finishedJobs.IsEmpty()
    ensures s.finishedJobs.Items() != []
    ensures HostAlone(Apply(s, Poll(t)), t, 8) ==
            s.(finishedJobs := s.finishedJobs.Dequeued(), removed := s.removed + [Removal(s.finishedJobs.Items()[0], t, None)])
  {
    hide *;
    StartsPoll(s, t);
    SeesJob(s.finishedJobs);
    var held, copy := s.(dequeueLock := Some(t)), s.finishedJobs.Items()[0];
    TakenFits(s, s.removed + [Removal(copy, t, None)]);
    Locks(s, t, 8);
    PollsThrough(held, t, copy);
    Unlocks(s.(finishedJobs := s.finishedJobs.Dequeued(), removed := s.removed + [Removal(copy, t, None)]), t);
  }

  lemma TakenFits(s: State, removed: seq<Removal>)
    requires s.Valid() && !s.finishedJobs.IsEmpty()
    ensures s.(finishedJobs := s.finishedJobs.Dequeued(), removed := removed).Valid()
  {
    SeesJob(s.finishedJobs);
    hide Ring.Items, Ring.Dequeued, Ring.Valid, DeqNext, HostFits, WorkerFits;
  }

  lemma Enters(s: State, t: nat, job: Job, b: bool, n: nat)
    requires s.Valid() && t < |s.hosts| && s.enqueueLock == None && n > 0
    ensures HostAlone(s.Host(t, WantEnq(job, b)), t, n) ==
            HostAlone(s.(enqueueLock := Some(t), pushed := s.pushed + [job]).Host(t, Enqueuing(job, b, FullRear)), t, n - 1)
  {
    AtPc(s, t, WantEnq(job, b));
    Overwritten(s.hosts, t, WantEnq(job, b), Enqueuing(job, b, FullRear));
    hide State.Valid;
    OneMore(s.Host(t, WantEnq(job, b)), t, n,
            s.(enqueueLock := Some(t), pushed := s.pushed + [job]).Host(t, Enqueuing(job, b, FullRear)));
  }

  lemma EnqueuesOn(s: State, t: nat, job: Job, b: bool, e: Enq, e': Enq, r: Ring<Job>, n: nat)
    requires s.Valid() && t < |s.hosts| && EnqFits(e, s.newJobs.Cap()) && n > 0 && EnqNext(e, job, s.newJobs) == EnqGo(e', r)
    ensures HostAlone(s.Host(t, Enqueuing(job, b, e)), t, n) ==
            HostAlone(s.(newJobs := r).Host(t, Enqueuing(job, b, e')), t, n - 1)
  {
    AtPc(s, t, Enqueuing(job, b, e));
    Overwritten(s.hosts, t, Enqueuing(job, b, e), Enqueuing(job, b, e'));
    hide State.Valid, EnqNext;
    OneMore(s.Host(t, Enqueuing(job, b, e)), t, n, s.(newJobs := r).Host(t, Enqueuing(job, b, e')));
  }

  lemma Publishes(s: State, t: nat, job: Job, b: bool, e: Enq, r: Ring<Job>, n: nat)
    requires s.Valid() && t < |s.hosts| && EnqFits(e, s.newJobs.Cap()) && n > 0 && EnqNext(e, job, s.newJobs) == Published(r)
    ensures HostAlone(s.Host(t, Enqueuing(job, b, e)), t, n) ==
            HostAlone(s.(newJobs := r).Host(t, EnqRelease(job.jobId, b)), t, n - 1)
  {
    AtPc(s, t, Enqueuing(job, b, e));
    Overwritten(s.hosts, t, Enqueuing(job, b, e), EnqRelease(job.jobId, b));
    hide State.Valid, EnqNext;
    OneMore(s.Host(t, Enqueuing(job, b, e)), t, n, s.(newJobs := r).Host(t, EnqRelease(job.jobId, b)));
  }

  lemma LeavesEnqueue(s: State, t: nat, id: int, b: bool)
    requires s.Valid() && t < |s.hosts| && s.enqueueLock == None
    ensures HostAlone(s.(enqueueLock := Some(t)).Host(t, EnqRelease(id, b)), t, 1) == s.Host(t, if b then WantHead(id) else Idle)
  {
    AtPc(s, t, EnqRelease(id, b));
    var pc' := if b then WantHead(id) else Idle;
    Overwritten(s.hosts, t, EnqRelease(id, b), pc');
    var x := s.(enqueueLock := Some(t)).Host(t, EnqRelease(id, b));
    assert x.Valid() && x.HostNext(t) == s.Host(t, pc');
    OneMore(x, t, 1, s.Host(t, pc'));
    NoMore(s.Host(t, pc'), t);
  }

  function NextSlot(r: Ring<Job>): nat
    requires r.Valid()
  {
    Wrap(r.rear + 1, r.Cap())
  }

  lemma FindsRoom(r: Ring<Job>, job: Job, at: nat)
    requires r.Valid() && !r.IsFull() && at == NextSlot(r)
    ensures at < r.Cap() && r.Write(at, job).Valid() && r.Write(at, job).Cap() == r.Cap()
    ensures r.Enqueued(job).Valid() && r.Enqueued(job).Cap() == r.Cap()
    ensures var w := r.Write(at, job);
            && EnqFits(FullRear, r.Cap()) && EnqNext(FullRear, job, r) == EnqGo(FullFront(r.rear), r)
            && EnqFits(FullFront(r.rear), r.Cap()) && EnqNext(FullFront(r.rear), job, r) == EnqGo(EnqRead, r)
            && EnqFits(EnqRead, r.Cap()) && EnqNext(EnqRead, job, r) == EnqGo(EnqWrite(at), r)
            && EnqFits(EnqWrite(at), r.Cap()) && EnqNext(EnqWrite(at), job, r) == EnqGo(EnqPublish(at), w)
            && EnqFits(EnqPublish(at), w.Cap()) && EnqNext(EnqPublish(at), job, w) == Published(r.Enqueued(job))
  {
  }

  lemma WithNewJobs(s: State, r: Ring<Job>)
    requires s.Valid() && r.Valid() && r.Cap() == s.newJobs.Cap()
    ensures s.(newJobs := r).Valid()
  {
    hide Ring.Valid;
  }

  lemma EnqueuesThrough(s: State, t: nat, job: Job, b: bool)
    requires s.Valid() && t < |s.hosts| && s.newJobs.Valid() && !s.newJobs.IsFull()
    ensures HostAlone(s.Host(t, Enqueuing(job, b, FullRear)), t, 6) ==
            HostAlone(s.(newJobs := s.newJobs.Enqueued(job)).Host(t, EnqRelease(job.jobId, b)), t, 1)
  {
    hide *;
    var r := s.newJobs;
    var at := NextSlot(r);
    FindsRoom(r, job, at);
    var w := r.Write(at, job);
    WithNewJobs(s, w);
    assert s.(newJobs := r) == s;
    EnqueuesOn(s, t, job, b, FullRear, FullFront(r.rear), r, 6);
    EnqueuesOn(s, t, job, b, FullFront(r.rear), EnqRead, r, 5);
    EnqueuesOn(s, t, job, b, EnqRead, EnqWrite(at), r, 4);
    EnqueuesOn(s, t, job, b, EnqWrite(at), EnqPublish(at), w, 3);
    Publishes(s.(newJobs := w), t, job, b, EnqPublish(at), r.Enqueued(job), 2);
  }

  lemma PushSteps(s: State, t: nat, job: Job, b: bool)
    requires s.Valid() && t < |s.hosts| && s.enqueueLock == None && !s.newJobs.IsFull()
    ensures HostAlone(s.Host(t, WantEnq(job, b)), t, 7) ==
            s.(newJobs := s.newJobs.Enqueued(job), pushed := s.pushed + [job]).Host(t, if b then WantHead(job.jobId) else Idle)
  {
    hide *;
    PushedFits(s, t, job);
    var held := s.(enqueueLock := Some(t), pushed := s.pushed + [job]);
    var end := s.(newJobs := s.newJobs.Enqueued(job), pushed := s.pushed + [job]);
    Enters(s, t, job, b, 7);
    EnqueuesThrough(held, t, job, b);
    LeavesEnqueue(end, t, job.jobId, b);
  }

  lemma PushedFits(s: State, t: nat, job: Job)
    requires s.Valid() && !s.newJobs.IsFull()
    ensures s.newJobs.Valid()
    ensures s.(enqueueLock := Some(t), pushed := s.pushed + [job]).Valid()
    ensures s.(newJobs := s.newJobs.Enqueued(job), pushed := s.pushed + [job]).Valid()
  {
    FindsRoom(s.newJobs, job, NextSlot(s.newJobs));
    hide Ring.Enqueued, Ring.Valid, EnqNext, HostFits, WorkerFits;
  }

  /** A push into a ring with room takes seven steps, adds its job and changes nothing else. */
  lemma PushAlone(s: State, t: nat, job: Job)
    requires s.Valid() && t < |s.hosts| && s.hosts[t] == Idle && s.enqueueLock == None && !s.newJobs.IsFull()
    ensures HostAlone(Apply(s, Push(t, job)), t, 7) == s.(newJobs := s.newJobs.Enqueued(job), pushed := s.pushed + [job])
  {
    assert Apply(s, Push(t, job)) == s.Host(t, WantEnq(job, false));
    var end := s.(newJobs := s.newJobs.Enqueued(job), pushed := s.pushed + [job]);
    Overwritten(s.hosts, t, Idle, Idle);
    assert end.Host(t, Idle) == end;
    hide *;
    PushSteps(s, t, job, false);
  }

  /** A blocking run does the same, is counted, and then waits for its result. */
  lemma BlockingRunPushes(s: State, t: nat, job: Job)
    requires s.Valid() && t < |s.hosts| && s.hosts[t] == Idle && s.enqueueLock == None && !s.newJobs.IsFull()
    ensures HostAlone(Apply(s, BlockingRun(t, job)), t, 7) ==
            s.(newJobs := s.newJobs.Enqueued(job), pushed := s.pushed + [job], calls := s.calls[t := s.calls[t] + 1])
             .Host(t, WantHead(job.jobId))
  {
    var called := s.(calls := s.calls[t := s.calls[t] + 1]);
    assert called.Valid() by { hide Ring.Valid, HostFits; }
    assert Apply(s, BlockingRun(t, job)) == called.Host(t, WantEnq(job, true));
    hide *;
    PushSteps(called, t, job, true);
  }

  // ---------- a blocking run asks for its result ----------

  lemma Asks(s: State, t: nat, id: int, n: nat)
    requires s.Valid() && t < |s.hosts| && s.dequeueLock == None && n > 0
    ensures HostAlone(s.Host(t, WantHead(id)), t, n) ==
            HostAlone(s.(dequeueLock := Some(t)).Host(t, Waiting(id, EmptyRear)), t, n - 1)
  {
    AtPc(s, t, WantHead(id));
    Overwritten(s.hosts, t, WantHead(id), Waiting(id, EmptyRear));
    hide State.Valid;
    OneMore(s.Host(t, WantHead(id)), t, n, s.(dequeueLock := Some(t)).Host(t, Waiting(id, EmptyRear)));
  }

  // One step of Front or Dequeue, with the head read, seen to be whose it is.
  lemma AsksOn(s: State, t: nat, id: int, d: Deq, pc: HostPc, n: nat)
    requires s.Valid() && t < |s.hosts| && DeqFits(d, s.finishedJobs.Cap()) && n > 0
    requires match DeqNext(d, s.finishedJobs)
             case DeqGo(d') => pc == Waiting(id, d')
             case SawEmpty => pc == Waiting(id, EmptyRear)
             case Got(copy) => pc == if copy.jobId == id then Waiting(id, AgainRear(copy)) else WaitRelease(id)
             case Took(_, _) => false
    ensures HostAlone(s.Host(t, Waiting(id, d)), t, n) == HostAlone(s.Host(t, pc), t, n - 1)
  {
    AtPc(s, t, Waiting(id, d));
    Overwritten(s.hosts, t, Waiting(id, d), pc);
    hide State.Valid, DeqNext;
    OneMore(s.Host(t, Waiting(id, d)), t, n, s.Host(t, pc));
  }

  lemma TakesOwn(s: State, t: nat, id: int, d: Deq, copy: Job, r: Ring<Job>, n: nat)
    requires s.Valid() && t < |s.hosts| && DeqFits(d, s.finishedJobs.Cap()) && n > 0
    requires DeqNext(d, s.finishedJobs) == Took(copy, r)
    ensures HostAlone(s.Host(t, Waiting(id, d)), t, n) ==
            HostAlone(s.(finishedJobs := r, removed := s.removed + [Removal(copy, t, Some(id))]).Host(t, DoneRelease(id)), t, n - 1)
  {
    AtPc(s, t, Waiting(id, d));
    Overwritten(s.hosts, t, Waiting(id, d), DoneRelease(id));
    hide State.Valid, DeqNext;
    OneMore(s.Host(t, Waiting(id, d)), t, n,
            s.(finishedJobs := r, removed := s.removed + [Removal(copy, t, Some(id))]).Host(t, DoneRelease(id)));
  }

  lemma LetsGo(s: State, t: nat, id: int)
    requires s.Valid() && t < |s.hosts| && s.dequeueLock == None
    ensures HostAlone(s.(dequeueLock := Some(t)).Host(t, WaitRelease(id)), t, 1) == s.Host(t, WantHead(id))
    ensures HostAlone(s.(dequeueLock := Some(t)).Host(t, DoneRelease(id)), t, 1) == s.Host(t, Idle)
  {
    var held := s.(dequeueLock := Some(t));
    assert held.Valid() by { hide Ring.Valid, HostFits; }
    AtPc(held, t, WaitRelease(id));
    AtPc(held, t, DoneRelease(id));
    Overwritten(s.hosts, t, WaitRelease(id), WantHead(id));
    Overwritten(s.hosts, t, DoneRelease(id), Idle);
    var x, y := held.Host(t, WaitRelease(id)), held.Host(t, DoneRelease(id));
    hide State.Valid, HostAlone;
    assert x.HostNext(t) == s.Host(t, WantHead(id)) && y.HostNext(t) == s.Host(t, Idle);
    OneMore(x, t, 1, s.Host(t, WantHead(id)));
    OneMore(y, t, 1, s.Host(t, Idle));
    NoMore(s.Host(t, WantHead(id)), t);
    NoMore(s.Host(t, Idle), t);
  }

  lemma ReadyToAsk(s: State, t: nat)
    requires s.Valid()
    ensures s.finishedJobs.Valid() && s.(dequeueLock := Some(t)).Valid()
  {
  }

  lemma {:induction false} SpinsInside(s: State, t: nat, id: int, k: nat)
    requires s.Valid() && t < |s.hosts| && s.finishedJobs.Valid() && s.finishedJobs.IsEmpty()
    ensures HostAlone(s.Host(t, Waiting(id, EmptyRear)), t, 2 * k) == s.Host(t, Waiting(id, EmptyRear))
  {
    hide *;
    var r := s.finishedJobs;
    NoMore(s.Host(t, Waiting(id, EmptyRear)), t);
    if k > 0 {
      SpinsInside(s, t, id, k - 1);
      SeesEmpty(r);
      AsksOn(s, t, id, EmptyRear, Waiting(id, EmptyFront(r.rear)), 2 * k);
      AsksOn(s, t, id, EmptyFront(r.rear), Waiting(id, EmptyRear), 2 * k - 1);
    }
  }

  /** With nothing finished a blocking run keeps looking, and keeps the dequeue mutex. */
  lemma BlockingRunWaitsInside(s: State, t: nat, id: int, k: nat)
    requires s.Valid() && t < |s.hosts| && s.dequeueLock == None && s.finishedJobs.IsEmpty()
    ensures HostAlone(s.Host(t, WantHead(id)), t, 1 + 2 * k) == s.(dequeueLock := Some(t)).Host(t, Waiting(id, EmptyRear))
  {
    hide *;
    ReadyToAsk(s, t);
    Asks(s, t, id, 1 + 2 * k);
    SpinsInside(s.(dequeueLock := Some(t)), t, id, k);
  }

  lemma LooksAtHead(s: State, t: nat, id: int, n: nat)
    requires s.Valid() && t < |s.hosts| && s.finishedJobs.Valid() && !s.finishedJobs.IsEmpty() && n >= 4
    ensures s.finishedJobs.Items() != []
    ensures var copy := s.finishedJobs.Items()[0];
            HostAlone(s.Host(t, Waiting(id, EmptyRear)), t, n) ==
            HostAlone(s.Host(t, if copy.jobId == id then Waiting(id, AgainRear(copy)) else WaitRelease(id)), t, n - 4)
  {
    hide *;
    var r := s.finishedJobs;
    SeesJob(r);
    AsksOn(s, t, id, EmptyRear, Waiting(id, EmptyFront(r.rear)), n);
    AsksOn(s, t, id, EmptyFront(r.rear), Waiting(id, ReadFront), n - 1);
    AsksOn(s, t, id, ReadFront, Waiting(id, ReadSlot(r.front)), n - 2);
    var copy := r.Items()[0];
    AsksOn(s, t, id, ReadSlot(r.front), if copy.jobId == id then Waiting(id, AgainRear(copy)) else WaitRelease(id), n - 3);
  }

  /** At a result of someone else it leaves everything as it was, in six steps, and asks again. */
  lemma BlockingRunLeavesOthers(s: State, t: nat, id: int)
    requires s.Valid() && t < |s.hosts| && s.dequeueLock == None && !s.finishedJobs.IsEmpty()
    requires s.finishedJobs.Items() != [] && s.finishedJobs.Items()[0].jobId != id
    ensures HostAlone(s.Host(t, WantHead(id)), t, 6) == s.Host(t, WantHead(id))
  {
    hide *;
    ReadyToAsk(s, t);
    Asks(s, t, id, 6);
    LooksAtHead(s.(dequeueLock := Some(t)), t, id, 5);
    LetsGo(s, t, id);
  }

  lemma SeesAgain(r: Ring<Job>, copy: Job)
    requires r.Valid() && !r.IsEmpty()
    ensures DeqFits(AgainRear(copy), r.Cap()) && DeqNext(AgainRear(copy), r) == DeqGo(AgainFront(copy, r.rear))
    ensures DeqFits(AgainFront(copy, r.rear), r.Cap()) && DeqNext(AgainFront(copy, r.rear), r) == DeqGo(ReadAgain(copy))
  {
  }

  lemma TakesHead(s: State, t: nat, id: int, copy: Job)
    requires s.Valid() && t < |s.hosts| && s.finishedJobs.Valid() && !s.finishedJobs.IsEmpty()
    requires s.finishedJobs.Items() != [] && copy == s.finishedJobs.Items()[0]
    ensures HostAlone(s.Host(t, Waiting(id, AgainRear(copy))), t, 5) ==
            HostAlone(s.(finishedJobs := s.finishedJobs.Dequeued(), removed := s.removed + [Removal(copy, t, Some(id))])
                      .Host(t, DoneRelease(id)), t, 1)
  {
    hide *;
    var r := s.finishedJobs;
    SeesJob(r);
    SeesAgain(r, copy);
    AsksOn(s, t, id, AgainRear(copy), Waiting(id, AgainFront(copy, r.rear)), 5);
    AsksOn(s, t, id, AgainFront(copy, r.rear), Waiting(id, ReadAgain(copy)), 4);
    AsksOn(s, t, id, ReadAgain(copy), Waiting(id, Advance(copy, r.front)), 3);
    TakesOwn(s, t, id, Advance(copy, r.front), copy, r.Dequeued(), 2);
  }

  /** Its own result it takes out, in ten steps, and returns. */
  lemma BlockingRunTakesOwn(s: State, t: nat, id: int)
    requires s.Valid() && t < |s.hosts| && s.dequeueLock == None && !s.finishedJobs.IsEmpty()
    requires s.finishedJobs.Items() != [] && s.finishedJobs.Items()[0].jobId == id
    ensures HostAlone(s.Host(t, WantHead(id)), t, 10) ==
            s.(finishedJobs := s.finishedJobs.Dequeued(), removed := s.removed + [Removal(s.finishedJobs.Items()[0], t, Some(id))])
             .Host(t, Idle)
  {
    hide *;
    ReadyToAsk(s, t);
    var held, copy := s.(dequeueLock := Some(t)), s.finishedJobs.Items()[0];
    var end := s.(finishedJobs := s.finishedJobs.Dequeued(), removed := s.removed + [Removal(copy, t, Some(id))]);
    TakenFits(s, end.removed);
    Asks(s, t, id, 10);
    LooksAtHead(held, t, id, 9);
    TakesHead(held, t, id, copy);
    LetsGo(end, t, id);
  }
}
