/** The CPU runtime as a transition system: two lock-free rings, one worker, and any
    number of host threads that push, poll or run a job and wait for it, under one mutex
    for enqueuing and one for dequeuing. One step per shared read or write. */
module CpuMachine {
  import opened Rings

  // Rings hold job descriptions by value.
  datatype Job = Job(jobType: int, numThreads: int, jobId: int, params: int)

  /** Inside Enqueue. Indices in brackets are the values already read. */
  datatype Enq =
    | FullRear               // IsFull reads Rear ...
    | FullFront(index: nat)  // ... then Front, and decides
    | EnqRead                // temp = (Rear+1) % Capacity
    | EnqWrite(index: nat)   // Array[temp] = *job
    | EnqPublish(index: nat) // Rear = temp

  /** Inside Front, Dequeue or MaybeFandD. */
  datatype Deq =
    | EmptyRear              // IsEmpty of Front or MaybeFandD
    | EmptyFront(index: nat)
    | ReadFront
    | ReadSlot(index: nat)   // *result = Array[Front]
    | AgainRear(copy: Job)   // IsEmpty of Dequeue
    | AgainFront(copy: Job, index: nat)
    | ReadAgain(copy: Job)
    | Advance(copy: Job, index: nat) // Front = (Front+1) % Capacity

  datatype EnqOut = EnqGo(e: Enq, ring: Ring<Job>) | Published(ring: Ring<Job>)

  datatype DeqOut =
    | DeqGo(d: Deq)
    | SawEmpty               // Front tries again, MaybeFandD gives up
    | Got(copy: Job)         // the head has been read, Front not yet moved
    | Took(copy: Job, ring: Ring<Job>)

  predicate EnqFits(e: Enq, cap: nat) {
    e.FullFront? || e.EnqWrite? || e.EnqPublish? ==> e.index < cap
  }

  predicate DeqFits(d: Deq, cap: nat) {
    d.EmptyFront? || d.ReadSlot? || d.AgainFront? || d.Advance? ==> d.index < cap
  }

  function EnqNext(e: Enq, job: Job, r: Ring<Job>): EnqOut
    requires r.Valid() && EnqFits(e, r.Cap())
  {
    match e
    case FullRear => EnqGo(FullFront(r.rear), r)
    case FullFront(rear) => EnqGo(if Wrap(rear + 2, r.Cap()) == r.front then FullRear else EnqRead, r)
    case EnqRead => EnqGo(EnqWrite(Wrap(r.rear + 1, r.Cap())), r)
    case EnqWrite(temp) => EnqGo(EnqPublish(temp), r.Write(temp, job))
    case EnqPublish(temp) => Published(r.MoveRear(temp))
  }

  function DeqNext(d: Deq, r: Ring<Job>): DeqOut
    requires r.Valid() && DeqFits(d, r.Cap())
  {
    match d
    case EmptyRear => DeqGo(EmptyFront(r.rear))
    case EmptyFront(rear) => if Wrap(rear + 1, r.Cap()) == r.front then SawEmpty else DeqGo(ReadFront)
    case ReadFront => DeqGo(ReadSlot(r.front))
    case ReadSlot(front) => Got(r.slots[front])
    case AgainRear(copy) => DeqGo(AgainFront(copy, r.rear))
    case AgainFront(copy, rear) => DeqGo(if Wrap(rear + 1, r.Cap()) == r.front then AgainRear(copy) else ReadAgain(copy))
    case ReadAgain(copy) => DeqGo(Advance(copy, r.front))
    case Advance(copy, front) => Took(copy, r.MoveFront(Wrap(front + 1, r.Cap())))
  }

  /** superKernel. */
  datatype WorkerPc =
    | LoopHead
    | Exited
    | Fetching(d: Deq)       // Front(incoming); Dequeue(incoming)
    | Executing(job: Job)
    | Storing(job: Job, e: Enq)

  /** A host thread: CPU_gemtcPush, CPU_gemtcPoll or CPU_gemtcBlockingRun. */
  datatype HostPc =
    | Idle
    | WantEnq(job: Job, blocking: bool)          // lock(enqueueLock)
    | Enqueuing(job: Job, blocking: bool, e: Enq)
    | EnqRelease(id: int, blocking: bool)
    | WantPoll                                   // lock(dequeueLock)
    | Polling(d: Deq)
    | PollRelease
    | WantHead(id: int)                          // lock(dequeueLock)
    | Waiting(id: int, d: Deq)
    | WaitRelease(id: int)                       // the head was someone else's
    | DoneRelease(id: int)

  // `wanted` is the ID a blocking run was waiting for, None for a poll.
  datatype Removal = Removal(job: Job, host: nat, wanted: Option<int>)

  /** `pushed` grows when a host enters the enqueue mutex, `removed` when a host moves the
      Front of finishedJobs; calls[t] counts the blocking runs host t has started. */
  datatype State = State(newJobs: Ring<Job>, finishedJobs: Ring<Job>, enqueueLock: Option<nat>, dequeueLock: Option<nat>,
                         kill: bool, worker: WorkerPc, hosts: seq<HostPc>,
                         pushed: seq<Job>, removed: seq<Removal>, calls: seq<nat>) {

    function Cap(): nat { newJobs.Cap() }

    predicate Valid() {
      newJobs.Valid() && finishedJobs.Valid() && newJobs.Cap() == finishedJobs.Cap() && |calls| == |hosts| &&
      WorkerFits(worker, Cap()) && forall t :: 0 <= t < |hosts| ==> HostFits(hosts[t], Cap())
    }

    function Host(t: nat, pc: HostPc): State
      requires t < |hosts|
    {
      this.(hosts := hosts[t := pc])
    }

    function WorkerNext(): State
      requires Valid()
    {
      match worker
      case LoopHead => this.(worker := if kill then Exited else Fetching(EmptyRear))
      case Exited => this
      case Fetching(d) => (
        match DeqNext(d, newJobs)
        case DeqGo(d') => this.(worker := Fetching(d'))
        case SawEmpty => this.(worker := Fetching(EmptyRear))
        case Got(copy) => this.(worker := Fetching(AgainRear(copy)))
        case Took(copy, r') => this.(worker := Executing(copy), newJobs := r'))
      case Executing(job) => this.(worker := Storing(job, FullRear))
      case Storing(job, e) => (
        match EnqNext(e, job, finishedJobs)
        case EnqGo(e', r') => this.(worker := Storing(job, e'), finishedJobs := r')
        case Published(r') => this.(worker := LoopHead, finishedJobs := r'))
    }

    function HostNext(t: nat): State
      requires Valid() && t < |hosts|
    {
      match hosts[t]
      case Idle => this
      case WantEnq(job, b) =>
        if enqueueLock == None then
          Host(t, Enqueuing(job, b, FullRear)).(enqueueLock := Some(t), pushed := pushed + [job])
        else this
      case Enqueuing(job, b, e) => (
        match EnqNext(e, job, newJobs)
        case EnqGo(e', r') => Host(t, Enqueuing(job, b, e')).(newJobs := r')
        case Published(r') => Host(t, EnqRelease(job.jobId, b)).(newJobs := r'))
      case EnqRelease(id, b) => Host(t, if b then WantHead(id) else Idle).(enqueueLock := None)
      case WantPoll => if dequeueLock == None then Host(t, Polling(EmptyRear)).(dequeueLock := Some(t)) else this
      case Polling(d) => (
        match DeqNext(d, finishedJobs)
        case DeqGo(d') => Host(t, Polling(d'))
        case SawEmpty => Host(t, PollRelease)
        case Got(copy) => Host(t, Polling(ReadAgain(copy)))
        case Took(copy, r') => Host(t, PollRelease).(finishedJobs := r', removed := removed + [Removal(copy, t, None)]))
      case PollRelease => Host(t, Idle).(dequeueLock := None)
      case WantHead(id) => if dequeueLock == None then Host(t, Waiting(id, EmptyRear)).(dequeueLock := Some(t)) else this
      case Waiting(id, d) => (
        match DeqNext(d, finishedJobs)
        case DeqGo(d') => Host(t, Waiting(id, d'))
        case SawEmpty => Host(t, Waiting(id, EmptyRear))
        case Got(copy) => Host(t, if copy.jobId == id then Waiting(id, AgainRear(copy)) else WaitRelease(id))
        case Took(copy, r') => Host(t, DoneRelease(id)).(finishedJobs := r', removed := removed + [Removal(copy, t, Some(id))]))
      case WaitRelease(id) => Host(t, WantHead(id)).(dequeueLock := None)
      case DoneRelease(_) => Host(t, Idle).(dequeueLock := None)
    }

    function StartEnqueue(t: nat, job: Job, blocking: bool): State
      requires t < |hosts| && |calls| == |hosts|
    {
      if !hosts[t].Idle? then this
      else Host(t, WantEnq(job, blocking)).(calls := if blocking then calls[t := calls[t] + 1] else calls)
    }

    function StartPoll(t: nat): State
      requires t < |hosts|
    {
      if !hosts[t].Idle? then this else Host(t, WantPoll)
    }
  }

  predicate WorkerFits(w: WorkerPc, cap: nat) {
    (w.Fetching? ==> DeqFits(w.d, cap)) && (w.Storing? ==> EnqFits(w.e, cap))
  }

  predicate HostFits(h: HostPc, cap: nat) {
    (h.Polling? || h.Waiting? ==> DeqFits(h.d, cap)) && (h.Enqueuing? ==> EnqFits(h.e, cap))
  }

  datatype Action =
    | Worker
    | Host(t: nat)
    | Push(t: nat, job: Job)
    | Poll(t: nat)
    | BlockingRun(t: nat, job: Job)
    | SetKill

  function Apply(s: State, a: Action): State
    requires s.Valid()
  {
    match a
    case Worker => s.WorkerNext()
    case Host(t) => if t < |s.hosts| then s.HostNext(t) else s
    case Push(t, job) => if t < |s.hosts| then s.StartEnqueue(t, job, false) else s
    case Poll(t) => if t < |s.hosts| then s.StartPoll(t) else s
    case BlockingRun(t, job) => if t < |s.hosts| then s.StartEnqueue(t, job, true) else s
    case SetKill => s.(kill := true)
  }

  /** CPU_gemtcSetup with one worker thread. */
  ghost predicate Init(s: State) {
    s.Valid() && !s.kill && s.worker == LoopHead && s.enqueueLock == None && s.dequeueLock == None &&
    s.newJobs.front == 1 && s.newJobs.rear == 0 && s.finishedJobs.front == 1 && s.finishedJobs.rear == 0 &&
    s.pushed == [] && s.removed == [] && forall t :: 0 <= t < |s.hosts| ==> s.hosts[t] == Idle && s.calls[t] == 0
  }

  ghost predicate Step(s: State, s': State) {
    s.Valid() && exists a :: Apply(s, a) == s'
  }

  ghost predicate IsRun(run: seq<State>) {
    |run| > 0 && Init(run[0]) && forall i :: 0 <= i < |run| - 1 ==> Step(run[i], run[i + 1])
  }
}
