/** Shutting the CPU runtime down. Once the kill flag is set the worker takes at most one more
    job; and it leaves its loop, under a fair schedule without further calls, exactly if it need
    not look for a job any more or finds one, and room for its result. */
module CpuShutdown {
  import opened Rings
  import opened CpuMachine
  import opened CpuFifo
  import opened CpuProgress
  import opened CpuFairness
  import opened Totals
  import opened Turns

  // ---------- at most one more job ----------

  /** The worker comes to hold a job. */
  ghost predicate Took(s: State, s': State) {
    InWorker(s.worker) == [] && InWorker(s'.worker) != []
  }

  /** Jobs the worker can still take before it sees the kill flag. */
  function CanTake(w: WorkerPc): nat { if w.Fetching? then 1 else 0 }

  /** How often the worker takes a job in the steps i .. j-1 of a run. */
  ghost function Takes(run: seq<State>, i: nat, j: nat): nat
    requires i <= j < |run|
  {
    if i == j then 0 else Takes(run, i, j - 1) + if Took(run[j - 1], run[j]) then 1 else 0
  }

  lemma StepTakes(s: State, a: Action)
    requires s.Valid() && s.kill
    ensures var s' := Apply(s, a);
            s'.kill && (if Took(s, s') then 1 else 0) + CanTake(s'.worker) <= CanTake(s.worker)
  {
    hide DeqFits, EnqFits, Ring.Valid;
  }

  /** What it takes then is the head of newJobs. */
  lemma TakesTheHead(s: State, a: Action)
    requires Inv(s) && Took(s, Apply(s, a))
    ensures var s' := Apply(s, a); s'.Valid() && s.newJobs.Items() == InWorker(s'.worker) + s'.newJobs.Items()
  {
    StepKeepsInv(s, a);
    var s' := Apply(s, a);
    assert a.Worker? by { OnlyWorkerTakes(s, a); }
    assert s.worker.Fetching?;
    assert WorkerKnows(s.worker, s.newJobs, s.finishedJobs);
    DeqStep(s.worker.d, s.newJobs);
    hide Inv, DeqKnows, Ring.Items, DeqNext;
  }

  lemma OnlyWorkerTakes(s: State, a: Action)
    requires s.Valid() && Took(s, Apply(s, a))
    ensures a.Worker?
  {
    hide DeqNext, EnqNext;
  }

  lemma {:induction false} KillStays(run: seq<State>, i: nat, j: nat)
    requires IsRun(run) && i <= j < |run| && run[i].kill
    ensures run[j].kill
  {
    hide Init, Apply;
    if i < j {
      KillStays(run, i, j - 1);
      assert Step(run[j - 1], run[j - 1 + 1]);
      var a :| Apply(run[j - 1], a) == run[j];
      StepTakes(run[j - 1], a);
    }
  }

  lemma NextTakes(run: seq<State>, j: nat)
    requires IsRun(run) && 0 < j < |run| && run[j - 1].kill
    ensures (if Took(run[j - 1], run[j]) then 1 else 0) + CanTake(run[j].worker) <= CanTake(run[j - 1].worker)
  {
    hide Init, Apply, Took, CanTake;
    assert Step(run[j - 1], run[j - 1 + 1]);
    var a :| Apply(run[j - 1], a) == run[j];
    StepTakes(run[j - 1], a);
  }

  /** After the flag is set the worker takes at most one more job, in any run, and none unless it
      has passed its test of the flag. */
  lemma {:induction false} AtMostOneMore(run: seq<State>, i: nat, j: nat)
    requires IsRun(run) && i <= j < |run| && run[i].kill
    ensures Takes(run, i, j) + CanTake(run[j].worker) <= CanTake(run[i].worker) <= 1
  {
    hide IsRun, Took;
    if i < j {
      AtMostOneMore(run, i, j - 1);
      KillStays(run, i, j - 1);
      NextTakes(run, j);
    }
  }

  // ---------- when the worker leaves ----------

  ghost predicate BeforeTest(w: WorkerPc) { w.Fetching? && (w.d.EmptyRear? || w.d.EmptyFront?) }

  /** In Front, on an empty ring. */
  ghost predicate Looking(s: State)
    requires s.Valid()
  {
    BeforeTest(s.worker) && s.newJobs.IsEmpty()
  }

  ghost predicate Pushing(h: HostPc) { h.WantEnq? || h.Enqueuing? }

  ghost predicate SomePushing(s: State) {
    exists t :: 0 <= t < |s.hosts| && Pushing(s.hosts[t])
  }

  /** The worker has, or will get, what it looks for. */
  ghost predicate Fed(s: State)
    requires s.Valid()
  {
    Looking(s) ==> SomePushing(s)
  }

  /** The worker's next look at the flag comes before any job. */
  ghost predicate AtLoop(w: WorkerPc) { w == LoopHead || w == Exited }

  ghost predicate Room(s: State)
    requires s.Valid()
  {
    AtLoop(s.worker) || !s.finishedJobs.IsFull()
  }

  ghost predicate Leaving(s: State) {
    Inv(s) && s.kill && Fed(s) && Room(s)
  }

  // A host's step outside the push leaves newJobs, the pushes and the worker alone.
  ghost predicate Aside(s: State, t: nat, s': State)
    requires s.Valid()
  {
    && t < |s.hosts| == |s'.hosts| && s'.hosts == s.hosts[t := s'.hosts[t]] && s'.worker == s.worker && s'.kill == s.kill
    && s'.Valid() && s'.newJobs == s.newJobs && s'.enqueueLock == s.enqueueLock
    && !InEnqMutex(s.hosts[t]) && !InEnqMutex(s'.hosts[t]) && s'.hosts[t].WantEnq? == s.hosts[t].WantEnq?
    && s'.finishedJobs.Occ() <= s.finishedJobs.Occ() && s'.Cap() == s.Cap()
  }

  lemma StepsAside(s: State, t: nat)
    requires Inv(s) && t < |s.hosts| && !InEnqMutex(s.hosts[t]) && !(s.hosts[t].WantEnq? && s.enqueueLock == None)
    ensures Aside(s, t, s.HostNext(t))
  {
    var h := s.hosts[t];
    assert HostKnows(h, s.newJobs, s.finishedJobs);
    HostKeepsInv(s, t);
    HostsLeaveWorker(s, t);
    hide Inv;
    if h.Polling? || h.Waiting? {
      DequeuingMove(s, t);
      DequeuingTakes(s, t);
      hide HostKnows, State.HostNext, Ring.Occ;
    } else {
      hide HostKnows, Ring.Items, Ring.Occ;
    }
  }

  lemma DequeuingTakes(s: State, t: nat)
    requires s.Valid() && t < |s.hosts| && (s.hosts[t].Polling? || s.hosts[t].Waiting?)
    requires HostKnows(s.hosts[t], s.newJobs, s.finishedJobs)
    ensures var s' := s.HostNext(t);
            s'.kill == s.kill && s'.finishedJobs.Valid() && s'.finishedJobs.Occ() <= s.finishedJobs.Occ() &&
            !s'.hosts[t].WantEnq?
  {
    DeqStep(s.hosts[t].d, s.finishedJobs);
    hide DeqNext, DeqKnows, Ring.Items, Ring.Occ;
  }

  // ---------- the measure ----------

  function WorkerDistance(s: State): nat
    requires s.Valid()
  {
    match s.worker
    case Exited => 0
    case LoopHead => 1
    case Storing(_, e) => 1 + EnqDistance(e, false)
    case Executing(_) => 8
    case Fetching(d) => DeqDistance(d, s.newJobs)
  }

  function DeqDistance(d: Deq, r: Ring<Job>): nat
    requires r.Valid() && DeqFits(d, r.Cap())
  {
    match d
    case Advance(_, _) => 9
    case ReadAgain(_) => 10
    case AgainFront(_, _) => 11
    case AgainRear(_) => 12
    case ReadSlot(_) => 13
    case ReadFront => 14
    case EmptyFront(rear) => if r.IsEmpty() || Wrap(rear + 1, r.Cap()) == r.front then 17 else 15
    case EmptyRear => if r.IsEmpty() then 17 else 16
  }

  function EnqDistance(e: Enq, full: bool): nat {
    match e
    case FullRear => 6
    case FullFront(_) => if full then 6 else 5
    case EnqRead => 4
    case EnqWrite(_) => 3
    case EnqPublish(_) => 2
  }

  function PushDistance(h: HostPc, full: bool): nat {
    if h.WantEnq? then 7 else if h.Enqueuing? then EnqDistance(h.e, full) else if h.EnqRelease? then 1 else 0
  }

  function PushDistances(s: State): seq<nat>
    requires s.Valid()
  {
    seq(|s.hosts|, t requires 0 <= t < |s.hosts| => PushDistance(s.hosts[t], s.newJobs.IsFull()))
  }

  function Distance(s: State): nat
    requires s.Valid()
  {
    WorkerDistance(s) + Total(PushDistances(s))
  }

  /** The next step of m brings the worker nearer to leaving. */
  ghost predicate Active(s: State, m: Mover)
    requires s.Valid()
  {
    match m
    case TheWorker => s.worker != Exited && !Looking(s)
    case AHost(t) =>
      t < |s.hosts| &&
      var h := s.hosts[t];
      (h.WantEnq? && s.enqueueLock == None) || (h.Enqueuing? && !s.newJobs.IsFull()) || h.EnqRelease?
  }

  // Full or not is asked only by the host inside the mutex.
  lemma OnlyHolderAsks(s: State, t: nat, u: nat, full: bool)
    requires MutexOk(s) && t < |s.hosts| && u < |s.hosts| && t != u && s.enqueueLock == Some(t)
    ensures PushDistance(s.hosts[u], full) == PushDistance(s.hosts[u], !full)
  {
    assert !InEnqMutex(s.hosts[u]);
  }

  lemma EnqGoesOn(e: Enq, job: Job, r: Ring<Job>)
    requires r.Valid() && EnqKnows(e, job, r) && !r.IsFull()
    ensures match EnqNext(e, job, r)
            case Published(_) => e.EnqPublish?
            case EnqGo(e', r') => !e.EnqPublish? && r'.Valid() && !r'.IsFull() && EnqDistance(e', false) < EnqDistance(e, false)
  {
    hide Ring.Items, Ring.Occ;
  }

  lemma EnqNotFull(e: Enq, job: Job, r: Ring<Job>)
    requires r.Valid() && EnqKnows(e, job, r) && r.IsFull()
    ensures AtTest(e) && EnqNext(e, job, r).EnqGo? && EnqNext(e, job, r).ring == r && AtTest(EnqNext(e, job, r).e)
  {
    TestsMeasureOccupancy(r);
    hide Ring.Items, Ring.Occ;
  }

  ghost predicate AtTest(e: Enq) { e.FullRear? || e.FullFront? }

  // ---------- steps of the worker ----------

  lemma WorkerNearer(s: State)
    requires Inv(s) && s.kill && Room(s) && Active(s, TheWorker)
    ensures var s' := s.WorkerNext(); s'.Valid() && WorkerDistance(s') < WorkerDistance(s) && Room(s') && !Looking(s')
  {
    WorkerKeepsInv(s);
    var w := s.worker;
    assert WorkerKnows(w, s.newJobs, s.finishedJobs);
    hide MutexOk, Fifo, HostKnows;
    if w.Storing? {
      EnqGoesOn(w.e, w.job, s.finishedJobs);
      hide EnqNext, EnqKnows, Ring.IsFull, Ring.Items, Inv;
    } else if w.Fetching? {
      FetchNearer(s);
    }
  }

  lemma FetchNearer(s: State)
    requires Inv(s) && s.worker.Fetching? && !Looking(s)
    ensures var s' := s.WorkerNext();
            s'.Valid() && WorkerDistance(s') < WorkerDistance(s) && !Looking(s') && s'.finishedJobs == s.finishedJobs &&
            !AtLoop(s'.worker)
  {
    WorkerKeepsInv(s);
    assert WorkerKnows(s.worker, s.newJobs, s.finishedJobs);
    DeqNearer(s.worker.d, s.newJobs);
    hide Inv, DeqNext, DeqDistance, DeqKnows, Ring.IsEmpty;
  }

  // Front finds a job, and the test in Dequeue never fails: only the worker takes jobs out.
  lemma DeqNearer(d: Deq, r: Ring<Job>)
    requires r.Valid() && DeqKnows(d, r) && !((d.EmptyRear? || d.EmptyFront?) && r.IsEmpty())
    ensures !r.IsEmpty()
    ensures match DeqNext(d, r)
            case DeqGo(d') => DeqFits(d', r.Cap()) && DeqDistance(d', r) < DeqDistance(d, r)
            case SawEmpty => DeqDistance(EmptyRear, r) < DeqDistance(d, r)
            case Got(copy) => DeqDistance(AgainRear(copy), r) < DeqDistance(d, r)
            case Took(_, _) => 8 < DeqDistance(d, r)
  {
    TestsMeasureOccupancy(r);
    hide Ring.Items;
  }

  // The worker's steps leave the hosts alone, and newJobs no fuller than it was.
  lemma WorkerShapes(s: State)
    requires Inv(s)
    ensures var s' := s.WorkerNext();
            s'.Valid() && s'.hosts == s.hosts && s'.kill == s.kill && s'.enqueueLock == s.enqueueLock &&
            (s'.newJobs.IsFull() ==> s.newJobs.IsFull())
  {
    WorkerKeepsInv(s);
    assert WorkerKnows(s.worker, s.newJobs, s.finishedJobs);
    hide Inv;
    if s.worker.Fetching? {
      DeqStep(s.worker.d, s.newJobs);
      TestsMeasureOccupancy(s.newJobs);
      TestsMeasureOccupancy(s.WorkerNext().newJobs);
      hide DeqNext, DeqKnows, Ring.Items, Ring.Occ, Ring.IsFull;
    } else {
      hide EnqNext, EnqKnows, Ring.Items, Ring.Occ;
    }
  }

  lemma FewerAsk(s: State, s': State)
    requires s.Valid() && s'.Valid() && s'.hosts == s.hosts && (s'.newJobs.IsFull() ==> s.newJobs.IsFull())
    ensures Total(PushDistances(s')) <= Total(PushDistances(s))
  {
    TotalMonotone(PushDistances(s'), PushDistances(s));
  }

  lemma WorkerGoes(s: State)
    requires Leaving(s) && Active(s, TheWorker)
    ensures Leaving(s.WorkerNext()) && Distance(s.WorkerNext()) < Distance(s)
  {
    var s' := s.WorkerNext();
    WorkerKeepsInv(s);
    WorkerNearer(s);
    WorkerShapes(s);
    hide Inv, State.WorkerNext, WorkerDistance, PushDistances, Looking, Room;
    FewerAsk(s, s');
  }

  // A worker that is out, or finds the ring empty, changes no measure.
  lemma WorkerLooksOn(s: State)
    requires Inv(s) && s.kill && !Active(s, TheWorker)
    ensures var s' := s.WorkerNext();
            s'.Valid() && s' == s.(worker := s'.worker) && AtLoop(s'.worker) == AtLoop(s.worker) &&
            Looking(s') == Looking(s) && WorkerDistance(s') == WorkerDistance(s)
  {
    assert WorkerKnows(s.worker, s.newJobs, s.finishedJobs);
    WorkerKeepsInv(s);
    TestsMeasureOccupancy(s.newJobs);
    if s.worker.Fetching? && s.worker.d.EmptyFront? {
      EmptyIsSeen(s.worker.d, s.newJobs);
    }
    hide Inv, DeqKnows, Ring.Items, Ring.Occ;
  }

  lemma EmptyIsSeen(d: Deq, r: Ring<Job>)
    requires r.Valid() && d.EmptyFront? && DeqKnows(d, r) && r.IsEmpty()
    ensures DeqNext(d, r) == SawEmpty
  {
  }

  // ---------- steps of the hosts ----------

  lemma PusherMoves(s: State, t: nat)
    requires Inv(s) && t < |s.hosts| && Active(s, AHost(t))
    ensures PushMove(s, t, s.HostNext(t))
  {
    HostKeepsInv(s, t);
    assert HostKnows(s.hosts[t], s.newJobs, s.finishedJobs) && MutexOk(s);
    hide Inv;
    if s.hosts[t].Enqueuing? {
      var h := s.hosts[t];
      EnqGoesOn(h.e, h.job, s.newJobs);
      EnqSteps(h.e, h.job, s.newJobs);
      hide EnqNext, EnqKnows, Ring.IsEmpty, Ring.IsFull, EnqDistance;
    } else {
      hide HostKnows, MutexOk, Ring.IsEmpty, Ring.IsFull;
    }
  }

  // A step of a push, as the worker and the other hosts see it.
  ghost predicate PushMove(s: State, t: nat, s': State)
    requires s.Valid() && t < |s.hosts|
  {
    && s'.Valid() && |s'.hosts| == |s.hosts| && s'.hosts == s.hosts[t := s'.hosts[t]] && s'.worker == s.worker
    && s'.kill == s.kill && s'.finishedJobs == s.finishedJobs && s'.Cap() == s.Cap()
    && s'.newJobs.front == s.newJobs.front
    && PushDistance(s'.hosts[t], s'.newJobs.IsFull()) < PushDistance(s.hosts[t], s.newJobs.IsFull())
    && (s'.newJobs.IsEmpty() ==> s.newJobs.IsEmpty())
    && (s'.newJobs.IsFull() != s.newJobs.IsFull() ==> s.enqueueLock == Some(t))
    && (Pushing(s.hosts[t]) && !Pushing(s'.hosts[t]) ==> !s'.newJobs.IsEmpty())
  }

  lemma EnqSteps(e: Enq, job: Job, r: Ring<Job>)
    requires r.Valid() && EnqKnows(e, job, r) && !r.IsFull()
    ensures var r' := EnqNext(e, job, r).ring;
            r'.Valid() && r'.Cap() == r.Cap() && r'.front == r.front && 1 < EnqDistance(e, false) &&
            if e.EnqPublish? then !r'.IsEmpty() else r'.IsEmpty() == r.IsEmpty()
  {
    if e.EnqPublish? {
      PublishAppends(r);
      TestsMeasureOccupancy(EnqNext(e, job, r).ring);
    }
    hide Ring.Items;
  }

  lemma PusherGoes(s: State, t: nat)
    requires Leaving(s) && Active(s, AHost(t))
    ensures Leaving(s.HostNext(t)) && Distance(s.HostNext(t)) < Distance(s)
  {
    var s' := s.HostNext(t);
    HostKeepsInv(s, t);
    PusherMoves(s, t);
    assert MutexOk(s);
    hide Inv, State.HostNext, PushDistance, MutexOk;
    assert WorkerDistance(s') <= WorkerDistance(s);
    hide WorkerDistance;
    OthersAskTheSame(s, t, s');
    HostKeepsFed(s, t);
  }

  lemma HostKeepsFed(s: State, t: nat)
    requires Inv(s) && Fed(s) && t < |s.hosts|
    ensures s.HostNext(t).Valid() && Fed(s.HostNext(t))
  {
    var s' := s.HostNext(t);
    if Active(s, AHost(t)) {
      PusherMoves(s, t);
    } else {
      HostLooksOn(s, t);
    }
    hide Inv, State.HostNext, PushDistance, Active, Pushing;
    if Looking(s') {
      assert Looking(s);
      var u :| 0 <= u < |s.hosts| && Pushing(s.hosts[u]);
      assert Pushing(s'.hosts[u]);
    }
  }

  lemma WorkerKeepsFed(s: State)
    requires Inv(s) && s.kill && Fed(s)
    ensures s.WorkerNext().Valid() && Fed(s.WorkerNext())
  {
    WorkerShapes(s);
    if s.worker.Fetching? {
      if Looking(s) {
        WorkerLooksOn(s);
      } else {
        FetchNearer(s);
      }
      hide Inv, State.WorkerNext, Looking, WorkerDistance, Pushing;
    } else {
      hide Inv, EnqNext;
    }
  }

  lemma GoKeepsFed(s: State, m: Mover)
    requires Inv(s) && s.kill && Fed(s)
    ensures Inv(Go(s, m)) && Go(s, m).kill && Fed(Go(s, m))
  {
    GoKeepsInv(s, m);
    GoKeepsKill(s, m);
    hide Inv, State.WorkerNext, State.HostNext, Fed;
    match m
    case TheWorker => WorkerKeepsFed(s);
    case AHost(t) => if t < |s.hosts| { HostKeepsFed(s, t); }
  }

  lemma GoKeepsKill(s: State, m: Mover)
    requires s.Valid()
    ensures Go(s, m).kill == s.kill
  {
    hide DeqNext, EnqNext;
  }

  lemma OthersAskTheSame(s: State, t: nat, s': State)
    requires s.Valid() && s'.Valid() && MutexOk(s) && t < |s.hosts| == |s'.hosts| && s'.hosts == s.hosts[t := s'.hosts[t]]
    requires s'.newJobs.IsFull() != s.newJobs.IsFull() ==> s.enqueueLock == Some(t)
    requires PushDistance(s'.hosts[t], s'.newJobs.IsFull()) <= PushDistance(s.hosts[t], s.newJobs.IsFull())
    ensures Total(PushDistances(s')) <= Total(PushDistances(s))
    ensures PushDistance(s'.hosts[t], s'.newJobs.IsFull()) < PushDistance(s.hosts[t], s.newJobs.IsFull()) ==>
              Total(PushDistances(s')) < Total(PushDistances(s))
  {
    var a, b, x := PushDistances(s), PushDistances(s'), PushDistance(s'.hosts[t], s'.newJobs.IsFull());
    forall u | 0 <= u < |s.hosts| && u != t ensures b[u] == a[u] {
      if s'.newJobs.IsFull() != s.newJobs.IsFull() {
        OnlyHolderAsks(s, t, u, s.newJobs.IsFull());
      }
    }
    assert b == a[t := x];
    TotalUpdate(a, t, x);
  }

  // Any other step of a host: aside, or blocked, or at the test of a full ring.
  lemma HostLooksOn(s: State, t: nat)
    requires Inv(s) && t < |s.hosts| && !Active(s, AHost(t))
    ensures var s' := s.HostNext(t);
            && s'.Valid() && |s'.hosts| == |s.hosts| && s'.hosts == s.hosts[t := s'.hosts[t]] && s'.worker == s.worker
            && s'.kill == s.kill && s'.enqueueLock == s.enqueueLock && s'.newJobs == s.newJobs && s'.Cap() == s.Cap()
            && s'.finishedJobs.Occ() <= s.finishedJobs.Occ() && Pushing(s'.hosts[t]) == Pushing(s.hosts[t])
            && PushDistance(s'.hosts[t], s.newJobs.IsFull()) == PushDistance(s.hosts[t], s.newJobs.IsFull())
  {
    var h := s.hosts[t];
    assert HostKnows(h, s.newJobs, s.finishedJobs) && MutexOk(s);
    if h.Enqueuing? {
      EnqNotFull(h.e, h.job, s.newJobs);
      HostKeepsInv(s, t);
      hide Inv, EnqNext, EnqKnows, MutexOk;
    } else if h.WantEnq? {
      hide Inv, HostKnows, MutexOk;
      assert s.hosts[t := h] == s.hosts;
    } else {
      StepsAside(s, t);
      hide Inv, HostKnows, MutexOk, State.HostNext;
    }
  }

  lemma HostLooksOnStays(s: State, t: nat, m: Mover)
    requires Leaving(s) && t < |s.hosts| && !Active(s, AHost(t)) && Active(s, m)
    ensures var s' := s.HostNext(t); Leaving(s') && Distance(s') == Distance(s) && Active(s', m)
  {
    var s' := s.HostNext(t);
    HostKeepsInv(s, t);
    HostLooksOn(s, t);
    TestsMeasureOccupancy(s.finishedJobs);
    TestsMeasureOccupancy(s'.finishedJobs);
    assert WorkerDistance(s') == WorkerDistance(s);
    assert Looking(s') == Looking(s);
    if SomePushing(s) {
      var u :| 0 <= u < |s.hosts| && Pushing(s.hosts[u]);
      assert Pushing(s'.hosts[u]);
    }
    assert PushDistances(s') == PushDistances(s);
    hide Inv, State.HostNext, PushDistance, Pushing, WorkerDistance, Ring.Occ;
  }

  // ---------- under a fair schedule ----------

  lemma GoLeaves(s: State, m: Mover, m': Mover)
    requires Leaving(s) && Active(s, m)
    ensures var s' := Go(s, m');
            Leaving(s') && |s'.hosts| == |s.hosts| &&
            (Distance(s') < Distance(s) || (m' != m && Distance(s') == Distance(s) && Active(s', m)))
  {
    GoKeepsHosts(s, m');
    hide Inv, State.WorkerNext, State.HostNext, Distance;
    if Active(s, m') {
      match m'
      case TheWorker => WorkerGoes(s);
      case AHost(t) => PusherGoes(s, t);
    } else {
      match m'
      case TheWorker => WorkerLooksOnStays(s, m);
      case AHost(t) => if t < |s.hosts| { HostLooksOnStays(s, t, m); }
    }
  }

  lemma WorkerLooksOnStays(s: State, m: Mover)
    requires Leaving(s) && !Active(s, TheWorker) && Active(s, m)
    ensures var s' := s.WorkerNext(); Leaving(s') && Distance(s') == Distance(s) && Active(s', m)
  {
    WorkerKeepsInv(s);
    WorkerLooksOn(s);
    assert PushDistances(s.WorkerNext()) == PushDistances(s);
    hide Inv, State.WorkerNext, PushDistances, WorkerDistance, Looking;
  }

  /** Until the worker is out, someone's step brings it nearer. */
  lemma SomeoneActive(s: State) returns (m: Mover)
    requires Leaving(s) && s.worker != Exited
    ensures Active(s, m)
  {
    if !Looking(s) {
      m := TheWorker;
    } else {
      var t :| 0 <= t < |s.hosts| && Pushing(s.hosts[t]);
      assert MutexOk(s);
      TestsMeasureOccupancy(s.newJobs);
      m := AHost(if s.enqueueLock == None then t else s.enqueueLock.value);
    }
    hide Fifo;
  }

  lemma {:induction false} NearerBy(s: State, sched: nat -> Mover, k: nat, due: nat, m: Mover) returns (j: nat)
    requires Inv(s) && k <= due && sched(due) == m && Leaving(At(s, sched, k)) && Active(At(s, sched, k), m)
    ensures j > k && Leaving(At(s, sched, j)) && Distance(At(s, sched, j)) < Distance(At(s, sched, k))
    decreases due - k
  {
    hide *;
    AtNext(s, sched, k);
    GoLeaves(At(s, sched, k), m, sched(k));
    j := k + 1;
    if Distance(At(s, sched, j)) >= Distance(At(s, sched, k)) {
      j := NearerBy(s, sched, k + 1, due, m);
    }
  }

  lemma {:induction false} LeavesFrom(s: State, sched: nat -> Mover, k: nat) returns (j: nat)
    requires Inv(s) && Fair(sched, |s.hosts|) && Leaving(At(s, sched, k))
    ensures At(s, sched, j).worker == Exited
    decreases Distance(At(s, sched, k))
  {
    var a := At(s, sched, k);
    SameHosts(s, sched, k);
    hide Inv, At, Distance, Active, Leaving;
    if a.worker == Exited {
      j := k;
    } else {
      var m := SomeoneActive(a);
      var due := DueFor(s, sched, a, k, m);
      var l := NearerBy(s, sched, k, due, m);
      j := LeavesFrom(s, sched, l);
    }
  }

  lemma DueFor(s: State, sched: nat -> Mover, a: State, k: nat, m: Mover) returns (due: nat)
    requires Fair(sched, |s.hosts|) && a.Valid() && |a.hosts| == |s.hosts| && Active(a, m)
    ensures due >= k && sched(due) == m
  {
    assert Later(sched, m, k);
    due :| due >= k && sched(due) == m;
  }

  // ---------- main result ----------

  ghost predicate Out(s: State, sched: nat -> Mover, m: nat)
    requires Inv(s)
  {
    forall k: nat :: m <= k ==> At(s, sched, k).worker == Exited
  }

  ghost predicate EverRoom(s: State, sched: nat -> Mover)
    requires Inv(s)
  {
    exists k: nat :: RoomAt(s, sched, k)
  }

  ghost predicate RoomAt(s: State, sched: nat -> Mover, k: nat)
    requires Inv(s)
  {
    !At(s, sched, k).finishedJobs.IsFull()
  }

  lemma {:induction false} StaysOut(s: State, sched: nat -> Mover, m: nat, k: nat)
    requires Inv(s) && m <= k && At(s, sched, m).worker == Exited
    ensures At(s, sched, k).worker == Exited
    decreases k
  {
    hide *;
    if m < k {
      StaysOut(s, sched, m, k - 1);
      AtNext(s, sched, k - 1);
      GoOut(At(s, sched, k - 1), sched(k - 1));
    }
  }

  lemma GoOut(s: State, m: Mover)
    requires s.Valid() && s.worker == Exited
    ensures Go(s, m).worker == Exited
  {
    hide DeqNext, EnqNext;
  }

  lemma {:induction false} StaysFed(s: State, sched: nat -> Mover, k: nat)
    requires Inv(s) && s.kill && Fed(s)
    ensures At(s, sched, k).kill && Fed(At(s, sched, k))
  {
    hide *;
    AtStart(s, sched);
    if k > 0 {
      StaysFed(s, sched, k - 1);
      AtNext(s, sched, k - 1);
      GoKeepsFed(At(s, sched, k - 1), sched(k - 1));
    }
  }

  // Nobody pushes, and the worker looks on for ever.
  ghost predicate Unfed(s: State) {
    s.Valid() && Looking(s) && !SomePushing(s)
  }

  lemma GoUnfed(s: State, m: Mover)
    requires Inv(s) && s.kill && Unfed(s)
    ensures Go(s, m).kill && Unfed(Go(s, m))
  {
    GoKeepsKill(s, m);
    match m {
      case TheWorker =>
        WorkerLooksOn(s);
        hide Inv, State.WorkerNext, Looking, Pushing;
      case AHost(t) =>
        if t < |s.hosts| {
          HostUnfed(s, t);
        }
        hide Inv, State.HostNext, Looking;
    }
  }

  lemma HostUnfed(s: State, t: nat)
    requires Inv(s) && t < |s.hosts| && Unfed(s)
    ensures Unfed(s.HostNext(t))
  {
    assert !Pushing(s.hosts[t]);
    HostKeepsInv(s, t);
    if s.hosts[t].EnqRelease? {
      hide Inv;
    } else {
      StepsAside(s, t);
      hide Inv, State.HostNext;
    }
  }

  lemma {:induction false} StaysUnfed(s: State, sched: nat -> Mover, k: nat)
    requires Inv(s) && s.kill && Unfed(s)
    ensures At(s, sched, k).kill && Unfed(At(s, sched, k))
  {
    hide *;
    AtStart(s, sched);
    if k > 0 {
      StaysUnfed(s, sched, k - 1);
      AtNext(s, sched, k - 1);
      GoUnfed(At(s, sched, k - 1), sched(k - 1));
    }
  }

  // With no room in finishedJobs the worker does not get back to the flag.
  lemma FullKeepsIn(s: State, m: Mover)
    requires Inv(s) && s.finishedJobs.IsFull() && !AtLoop(s.worker)
    ensures !AtLoop(Go(s, m).worker)
  {
    if m.TheWorker? {
      if s.worker.Storing? {
        assert WorkerKnows(s.worker, s.newJobs, s.finishedJobs);
        EnqNotFull(s.worker.e, s.worker.job, s.finishedJobs);
      }
      hide Inv, DeqNext, EnqNext;
    } else {
      HostsLeaveWorker(s, m.t);
      hide Inv, State.HostNext;
    }
  }

  lemma HostsLeaveWorker(s: State, t: nat)
    requires s.Valid()
    ensures t < |s.hosts| ==> s.HostNext(t).worker == s.worker && s.HostNext(t).kill == s.kill
  {
    hide DeqNext, EnqNext;
  }

  lemma NeverRoom(s: State, sched: nat -> Mover, k: nat)
    requires Inv(s) && !EverRoom(s, sched)
    ensures At(s, sched, k).finishedJobs.IsFull()
  {
    hide Inv, At;
    assert !RoomAt(s, sched, k);
  }

  lemma {:induction false} StaysIn(s: State, sched: nat -> Mover, k: nat)
    requires Inv(s) && !AtLoop(s.worker) && !EverRoom(s, sched)
    ensures !AtLoop(At(s, sched, k).worker)
  {
    hide *;
    if k == 0 {
      AtStart(s, sched);
    } else {
      StaysIn(s, sched, k - 1);
      AtNext(s, sched, k - 1);
      NeverRoom(s, sched, k - 1);
      FullKeepsIn(At(s, sched, k - 1), sched(k - 1));
    }
  }

  lemma NotOut(s: State, sched: nat -> Mover)
    requires Inv(s) && forall k: nat :: At(s, sched, k).worker != Exited
    ensures forall m: nat :: !Out(s, sched, m)
  {
    hide Inv, At;
    forall m: nat ensures !Out(s, sched, m) {
      assert At(s, sched, m).worker != Exited;
    }
  }

  lemma LeavesInTheEnd(s: State, sched: nat -> Mover, k: nat) returns (m: nat)
    requires Inv(s) && s.kill && Fair(sched, |s.hosts|) && Fed(s) && Room(At(s, sched, k))
    ensures Out(s, sched, m)
  {
    StaysFed(s, sched, k);
    hide Inv, At, Fair, Fed, Room;
    m := LeavesFrom(s, sched, k);
    forall j: nat | m <= j ensures At(s, sched, j).worker == Exited {
      StaysOut(s, sched, m, j);
    }
  }

  lemma AtLoopIsFed(s: State)
    requires s.Valid() && AtLoop(s.worker)
    ensures Fed(s) && Room(s)
  {
  }

  lemma UnfedIsIn(s: State)
    requires s.Valid() && Unfed(s)
    ensures s.worker != Exited
  {
  }

  lemma LeavesExactly(s: State, sched: nat -> Mover)
    requires Inv(s) && s.kill && Fair(sched, |s.hosts|)
    ensures (exists m: nat :: Out(s, sched, m)) <==> AtLoop(s.worker) || (Fed(s) && EverRoom(s, sched))
  {
    AtStart(s, sched);
    hide Inv, At, Fair, SomePushing, Looking;
    if AtLoop(s.worker) {
      AtLoopIsFed(s);
      var m := LeavesInTheEnd(s, sched, 0);
    } else if Fed(s) && EverRoom(s, sched) {
      var k: nat :| RoomAt(s, sched, k);
      var m := LeavesInTheEnd(s, sched, k);
    } else {
      forall k: nat ensures At(s, sched, k).worker != Exited {
        if !Fed(s) {
          StaysUnfed(s, sched, k);
          UnfedIsIn(At(s, sched, k));
        } else {
          StaysIn(s, sched, k);
        }
      }
      NotOut(s, sched);
    }
  }

  lemma FlagIsSet(run: seq<State>, i: nat)
    requires IsRun(run) && i < |run|
    ensures run[i].Valid() && Inv(Apply(run[i], SetKill)) && Apply(run[i], SetKill).kill
    ensures |Apply(run[i], SetKill).hosts| == |run[i].hosts|
  {
    RunKeepsInv(run, i);
    KillKeepsInv(run[i]);
    hide Inv, IsRun;
  }

  /** When the flag is set in any state of any run, then under a fair schedule without further
      calls the worker leaves its loop exactly if it is about to look at the flag, or gets a job
      and finds room for the result. It gets one unless newJobs is empty, it is still looking for
      one, and no push is going on; it finds room if finishedJobs is not full at some step. */
  lemma WorkerLeavesExactly(run: seq<State>, i: nat, sched: nat -> Mover)
    requires IsRun(run) && i < |run| && Fair(sched, |run[i].hosts|)
    ensures run[i].Valid()
    ensures var s := Apply(run[i], SetKill);
            Inv(s) && ((exists m: nat :: Out(s, sched, m)) <==> AtLoop(s.worker) || (Fed(s) && EverRoom(s, sched)))
  {
    FlagIsSet(run, i);
    hide *;
    LeavesExactly(Apply(run[i], SetKill), sched);
  }

  /** With room in finishedJobs when the flag is set, all schedules agree. */
  lemma WithRoomLeavesExactly(run: seq<State>, i: nat)
    requires IsRun(run) && i < |run| && run[i].Valid() && !run[i].finishedJobs.IsFull()
    ensures var s := Apply(run[i], SetKill);
            Inv(s) && ((forall sched | Fair(sched, |s.hosts|) :: exists m: nat :: Out(s, sched, m)) <==> Fed(s))
  {
    FlagIsSet(run, i);
    var s := Apply(run[i], SetKill);
    assert !s.finishedJobs.IsFull();
    hide Inv, At, Fair, IsRun, SomePushing, Looking, Apply;
    forall sched: nat -> Mover | Fair(sched, |s.hosts|)
      ensures (exists m: nat :: Out(s, sched, m)) <==> Fed(s)
    {
      LeavesExactly(s, sched);
      AtStart(s, sched);
      assert RoomAt(s, sched, 0);
      if AtLoop(s.worker) {
        AtLoopIsFed(s);
      }
    }
    var sched := SomeFair(|s.hosts|);
  }

  lemma SomeFair(hosts: nat) returns (sched: nat -> Mover)
    ensures Fair(sched, hosts)
  {
    sched := (k: nat) => if Turn(hosts + 1, k) == hosts then TheWorker else AHost(Turn(hosts + 1, k));
    forall k: nat ensures Later(sched, TheWorker, k) {
      var r := TurnComes(hosts + 1, k, hosts);
      assert sched(r) == TheWorker;
    }
    forall t: nat, k: nat | t < hosts ensures Later(sched, AHost(t), k) {
      var r := TurnComes(hosts + 1, k, t);
      assert sched(r) == AHost(t);
    }
  }
}
