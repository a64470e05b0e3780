/** The coprocessor runtime as a transition system: any number of worker threads
    and host threads over two rings with one mutex each, one step per shared read
    or write. IsFull is tested before Enqueue takes the mutex; IsEmpty is tested
    before MaybeFandD takes it and again inside. */
module MicMachine {
  import opened Rings

  /** A job record; `serial` tells one malloc'ed record from another. */
  datatype Job = Job(serial: nat, jobType: int, numThreads: int, jobId: int, params: int)

  datatype Guarded = Guarded(ring: Ring<Job>, holder: Option<nat>)

  /** Where a thread is. Indices in brackets are the values it has read. */
  datatype Pc =
    | AtHead                                   // worker: loop head; host: between calls
    | Exited                                   // worker saw the kill flag
    | Holding(job: Job)                        // worker: to execute; host: to report and free
      // Enqueue
    | FullRear(job: Job)                       // IsFull reads Rear ...
    | FullFront(job: Job, index: nat)          // ... then Front, and decides
    | EnqLock(job: Job)
    | EnqRead(job: Job)                        // temp = (Rear+1) % Capacity
    | EnqWrite(job: Job, index: nat)           // Array[temp] = job
    | EnqPublish(job: Job, index: nat)         // Rear = temp
    | EnqUnlock
      // MaybeFandD
    | EmptyRear                                // unlocked IsEmpty
    | EmptyFront(index: nat)
    | DeqLock
    | LockedRear                               // IsEmpty again, inside the lock
    | LockedFront(index: nat)
    | DeqReadFront
    | DeqReadSlot(index: nat)                  // result = Array[Front]
    | DeqReadAgain(copy: Job)
    | DeqAdvance(copy: Job, index: nat)        // Front = (Front+1) % Capacity
    | GotUnlock(job: Job)
    | NoneUnlock

  predicate IsEnq(pc: Pc) {
    pc.FullRear? || pc.FullFront? || pc.EnqLock? || pc.EnqRead? || pc.EnqWrite? || pc.EnqPublish? || pc.EnqUnlock?
  }

  predicate IsDeq(pc: Pc) {
    pc.EmptyRear? || pc.EmptyFront? || pc.DeqLock? || pc.LockedRear? || pc.LockedFront? || pc.DeqReadFront? ||
    pc.DeqReadSlot? || pc.DeqReadAgain? || pc.DeqAdvance? || pc.GotUnlock? || pc.NoneUnlock?
  }

  // Inside the mutex of the ring it works on.
  predicate Critical(pc: Pc) {
    (IsEnq(pc) && !pc.FullRear? && !pc.FullFront? && !pc.EnqLock?) ||
    (IsDeq(pc) && !pc.EmptyRear? && !pc.EmptyFront? && !pc.DeqLock?)
  }

  predicate Fits(pc: Pc, cap: nat) {
    pc.FullFront? || pc.EnqWrite? || pc.EnqPublish? || pc.EmptyFront? || pc.LockedFront? || pc.DeqReadSlot? || pc.DeqAdvance?
    ==> pc.index < cap
  }

  /** One step of Enqueue by thread t; a thread that cannot take the mutex stays put. */
  function EnqNext(pc: Pc, q: Guarded, t: nat): (Pc, Guarded)
    requires IsEnq(pc) && q.ring.Valid() && Fits(pc, q.ring.Cap())
  {
    var r, cap := q.ring, q.ring.Cap();
    match pc
    case FullRear(job) => (FullFront(job, r.rear), q)
    case FullFront(job, rear) => (if Wrap(rear + 2, cap) == r.front then FullRear(job) else EnqLock(job), q)
    case EnqLock(job) => if q.holder == None then (EnqRead(job), q.(holder := Some(t))) else (pc, q)
    case EnqRead(job) => (EnqWrite(job, Wrap(r.rear + 1, cap)), q)
    case EnqWrite(job, temp) => (EnqPublish(job, temp), q.(ring := r.Write(temp, job)))
    case EnqPublish(_, temp) => (EnqUnlock, q.(ring := r.MoveRear(temp)))
    case _ => (AtHead, q.(holder := None))
  }

  /** One step of MaybeFandD by thread t. */
  function DeqNext(pc: Pc, q: Guarded, t: nat): (Pc, Guarded)
    requires IsDeq(pc) && q.ring.Valid() && Fits(pc, q.ring.Cap())
  {
    var r, cap := q.ring, q.ring.Cap();
    match pc
    case EmptyRear => (EmptyFront(r.rear), q)
    case EmptyFront(rear) => (if Wrap(rear + 1, cap) == r.front then AtHead else DeqLock, q)
    case DeqLock => if q.holder == None then (LockedRear, q.(holder := Some(t))) else (pc, q)
    case LockedRear => (LockedFront(r.rear), q)
    case LockedFront(rear) => (if Wrap(rear + 1, cap) == r.front then NoneUnlock else DeqReadFront, q)
    case DeqReadFront => (DeqReadSlot(r.front), q)
    case DeqReadSlot(front) => (DeqReadAgain(r.slots[front]), q)
    case DeqReadAgain(job) => (DeqAdvance(job, r.front), q)
    case DeqAdvance(job, front) => (GotUnlock(job), q.(ring := r.MoveFront(Wrap(front + 1, cap))))
    case GotUnlock(job) => (Holding(job), q.(holder := None))
    case _ => (AtHead, q.(holder := None))
  }

  /** Threads 0 .. workers-1 are workers, the rest host threads. `pushed` grows when a
      push starts, `polled` when a poll hands its job out and frees it. */
  datatype State = State(newJobs: Guarded, finishedJobs: Guarded, kill: bool, workers: nat,
                         threads: seq<Pc>, pushed: seq<Job>, polled: seq<Job>) {

    predicate Valid() {
      newJobs.ring.Valid() && finishedJobs.ring.Valid() && newJobs.ring.Cap() == finishedJobs.ring.Cap() &&
      workers <= |threads| && forall t :: 0 <= t < |threads| ==> Fits(threads[t], Cap())
    }

    function Cap(): nat { newJobs.ring.Cap() }

    // Does thread t, at pc, work on newJobs? (Otherwise on finishedJobs.)
    predicate OnNew(t: nat, pc: Pc) {
      if t < workers then IsDeq(pc) else IsEnq(pc)
    }

    function RingOf(t: nat, pc: Pc): Guarded {
      if OnNew(t, pc) then newJobs else finishedJobs
    }

    function WithRing(t: nat, pc: Pc, q: Guarded): State {
      if OnNew(t, pc) then this.(newJobs := q) else this.(finishedJobs := q)
    }

    function Move(t: nat, pc: Pc): State
      requires t < |threads|
    {
      this.(threads := threads[t := pc])
    }

    /** The next step of thread t. A host between calls does nothing by itself. */
    function Next(t: nat): State
      requires Valid() && t < |threads|
    {
      var pc := threads[t];
      if IsEnq(pc) then
        var (pc', q') := EnqNext(pc, RingOf(t, pc), t);
        WithRing(t, pc, q').Move(t, pc')
      else if IsDeq(pc) then
        var (pc', q') := DeqNext(pc, RingOf(t, pc), t);
        WithRing(t, pc, q').Move(t, pc')
      else if pc.AtHead? && t < workers then
        Move(t, if kill then Exited else EmptyRear)
      else if pc.Holding? then
        if t < workers then Move(t, FullRear(pc.job))
        else Move(t, AtHead).(polled := polled + [pc.job])
      else this
    }

    function StartPush(t: nat, jobType: int, numThreads: int, jobId: int, params: int): State
      requires t < |threads|
    {
      if t < workers || !threads[t].AtHead? then this
      else
        var job := Job(|pushed|, jobType, numThreads, jobId, params);
        Move(t, FullRear(job)).(pushed := pushed + [job])
    }

    function StartPoll(t: nat): State
      requires t < |threads|
    {
      if t < workers || !threads[t].AtHead? then this else Move(t, EmptyRear)
    }
  }

  datatype Action =
    | Run(t: nat)
    | Push(t: nat, jobType: int, numThreads: int, jobId: int, params: int)
    | Poll(t: nat)
    | SetKill

  function Apply(s: State, a: Action): State
    requires s.Valid()
  {
    match a
    case Run(t) => if t < |s.threads| then s.Next(t) else s
    case Push(t, ty, n, id, params) => if t < |s.threads| then s.StartPush(t, ty, n, id, params) else s
    case Poll(t) => if t < |s.threads| then s.StartPoll(t) else s
    case SetKill => s.(kill := true)
  }

  /** MIC_gemtcSetup, with `hosts` host threads able to call the API. */
  ghost predicate Init(s: State) {
    s.Valid() && !s.kill && s.pushed == [] && s.polled == [] &&
    s.newJobs.holder == None && s.finishedJobs.holder == None &&
    s.newJobs.ring.front == 1 && s.newJobs.ring.rear == 0 &&
    s.finishedJobs.ring.front == 1 && s.finishedJobs.ring.rear == 0 &&
    forall t :: 0 <= t < |s.threads| ==> s.threads[t] == AtHead
  }

  ghost predicate Step(s: State, s': State)
  {
    s.Valid() && exists a :: Apply(s, a) == s'
  }

  /** Jobs pushed, counted from the start of the push, and not yet polled. */
  ghost predicate Bounded(s: State) {
    |s.pushed| - |s.polled| <= s.Cap() - 1
  }

  /** A run: a start state and any interleaving of steps, calls and the kill flag. */
  ghost predicate IsRun(run: seq<State>) {
    |run| > 0 && Init(run[0]) && forall i :: 0 <= i < |run| - 1 ==> Step(run[i], run[i + 1])
  }
}
