/** No state of concurrent blocking runs is a dead end: some thread can always take a step
    that is not spinning, and from every state all calls can be brought to return. */
module CpuProgress {
  import opened Rings
  import opened CpuMachine
  import opened CpuFifo
  import opened CpuBlockingRun
  import opened Totals

  // ---------- the measure ----------

  function Unpushed(h: HostPc): nat { if h.WantEnq? then 6 else 0 }

  function AllUnpushed(hosts: seq<HostPc>): seq<nat> {
    seq(|hosts|, t requires 0 <= t < |hosts| => Unpushed(hosts[t]))
  }

  /** Stage-weighted count of the jobs whose result has not been taken. */
  function Work(s: State): nat
    requires s.Valid()
  {
    Total(AllUnpushed(s.hosts)) + 5 * |InHost(s)| + 4 * s.newJobs.Occ() + 3 * |InWorker(s.worker)| + 2 * s.finishedJobs.Occ()
  }

  /** Steps to the publish; 0 while spinning on a full ring. */
  function EnqRank(e: Enq, r: Ring<Job>): nat
    requires r.Valid()
  {
    if r.IsFull() then 0
    else match e
      case FullRear => 9
      case FullFront(_) => 8
      case EnqRead => 6
      case EnqWrite(_) => 5
      case EnqPublish(_) => 4
  }

  /** Steps to moving Front; 0 while spinning on an empty ring. A stale Rear costs a round. */
  function DeqRank(d: Deq, r: Ring<Job>): nat
    requires r.Valid() && DeqFits(d, r.Cap())
  {
    if r.IsEmpty() then 0
    else match d
      case EmptyFront(rear) => if Wrap(rear + 1, r.Cap()) == r.front then 13 else 11
      case EmptyRear => 12
      case ReadFront => 10
      case ReadSlot(_) => 9
      case AgainRear(_) => 8
      case AgainFront(_, _) => 7
      case ReadAgain(_) => 6
      case Advance(_, _) => 5
  }

  // Is the head of finishedJobs the result with this ID?
  function Mine(id: int, r: Ring<Job>): bool
    requires r.Valid()
  {
    r.Items() != [] && r.Items()[0].jobId == id
  }

  /** Looking for a result that is not at the head is spinning, and counts 0. */
  function HostRank(h: HostPc, newJobs: Ring<Job>, finishedJobs: Ring<Job>): nat
    requires newJobs.Valid() && finishedJobs.Valid() && newJobs.Cap() == finishedJobs.Cap() && HostFits(h, newJobs.Cap())
  {
    match h
    case Enqueuing(_, _, e) => EnqRank(e, newJobs)
    case EnqRelease(_, _) => 30
    case WantHead(id) => if Mine(id, finishedJobs) then 20 else 0
    case Waiting(_, d) => DeqRank(d, finishedJobs)
    case WaitRelease(id) => if Mine(id, finishedJobs) then 21 else 2
    case DoneRelease(_) => 1
    case _ => 0
  }

  function WorkerRank(w: WorkerPc, newJobs: Ring<Job>, finishedJobs: Ring<Job>): nat
    requires newJobs.Valid() && finishedJobs.Valid() && newJobs.Cap() == finishedJobs.Cap() && WorkerFits(w, newJobs.Cap())
  {
    match w
    case LoopHead => if newJobs.IsEmpty() then 0 else 14
    case Exited => 0
    case Fetching(d) => DeqRank(d, newJobs)
    case Executing(_) => 20
    case Storing(_, e) => EnqRank(e, finishedJobs)
  }

  function HostRanks(s: State): seq<nat>
    requires s.Valid()
  {
    seq(|s.hosts|, t requires 0 <= t < |s.hosts| => HostRank(s.hosts[t], s.newJobs, s.finishedJobs))
  }

  function Ranks(s: State): nat
    requires s.Valid()
  {
    WorkerRank(s.worker, s.newJobs, s.finishedJobs) + Total(HostRanks(s))
  }

  ghost predicate Below(s': State, s: State)
    requires s'.Valid() && s.Valid()
  {
    Work(s') < Work(s) || (Work(s') == Work(s) && Ranks(s') < Ranks(s))
  }

  // ---------- single operations go down ----------

  // Same indices, same waiting jobs: everyone's rank is unchanged.
  ghost predicate SameFrame(r: Ring<Job>, r': Ring<Job>) {
    r.Valid() && r'.Valid() && r'.Cap() == r.Cap() && r'.front == r.front && r'.rear == r.rear && r'.Items() == r.Items()
  }

  lemma EnqRankFalls(e: Enq, job: Job, r: Ring<Job>)
    requires r.Valid() && EnqKnows(e, job, r) && EnqRank(e, r) > 0 && !e.EnqPublish?
    ensures var out := EnqNext(e, job, r);
            out.EnqGo? && SameFrame(r, out.ring) && EnqFits(out.e, r.Cap()) && EnqRank(out.e, out.ring) < EnqRank(e, r)
  {
    if e.EnqWrite? {
      WriteKeepsItems(r, job);
    }
    hide Ring.Items;
  }

  lemma DeqRankFalls(d: Deq, r: Ring<Job>)
    requires r.Valid() && DeqKnows(d, r) && DeqRank(d, r) > 0 && !d.Advance?
    ensures match DeqNext(d, r)
            case DeqGo(d') => DeqFits(d', r.Cap()) && DeqRank(d', r) < DeqRank(d, r)
            case SawEmpty => DeqRank(EmptyRear, r) < DeqRank(d, r)
            case Got(copy) => r.Items() != [] && copy == r.Items()[0] && DeqRank(AgainRear(copy), r) < DeqRank(d, r) &&
              2 < DeqRank(d, r)
            case Took(_, _) => false
  {
    TestsMeasureOccupancy(r);
    if d.ReadSlot? {
      HeadIsFrontSlot(r);
    }
    hide Ring.Items;
  }

  lemma RanksUnderSameFrame(s: State, s': State)
    requires s.Valid() && s'.Valid() && SameFrame(s.newJobs, s'.newJobs) && SameFrame(s.finishedJobs, s'.finishedJobs)
    ensures forall h :: HostFits(h, s.Cap()) ==>
              HostRank(h, s'.newJobs, s'.finishedJobs) == HostRank(h, s.newJobs, s.finishedJobs)
    ensures forall w :: WorkerFits(w, s.Cap()) ==>
              WorkerRank(w, s'.newJobs, s'.finishedJobs) == WorkerRank(w, s.newJobs, s.finishedJobs)
  {
    hide Ring.Items;
  }

  /** A host's rank falls and no job moves. */
  lemma HostRankFell(s: State, t: nat, s': State)
    requires s.Valid() && s'.Valid() && t < |s.hosts| && |s'.hosts| == |s.hosts| && s'.hosts == s.hosts[t := s'.hosts[t]]
    requires SameFrame(s.newJobs, s'.newJobs) && SameFrame(s.finishedJobs, s'.finishedJobs) && s'.worker == s.worker
    requires |InHost(s')| == |InHost(s)| && Unpushed(s'.hosts[t]) == Unpushed(s.hosts[t])
    requires HostRank(s'.hosts[t], s'.newJobs, s'.finishedJobs) < HostRank(s.hosts[t], s.newJobs, s.finishedJobs)
    ensures Below(s', s)
  {
    RanksUnderSameFrame(s, s');
    assert s'.newJobs.Occ() == s.newJobs.Occ() && s'.finishedJobs.Occ() == s.finishedJobs.Occ();
    hide HostRank, WorkerRank, InHost, Unpushed, Ring.Occ, Ring.Items;
    var x := HostRank(s'.hosts[t], s'.newJobs, s'.finishedJobs);
    assert HostRanks(s') == HostRanks(s)[t := x];
    TotalUpdate(HostRanks(s), t, x);
    assert AllUnpushed(s'.hosts) == AllUnpushed(s.hosts);
  }

  lemma WorkerRankFell(s: State, s': State)
    requires s.Valid() && s'.Valid() && s'.hosts == s.hosts && InHost(s') == InHost(s)
    requires SameFrame(s.newJobs, s'.newJobs) && SameFrame(s.finishedJobs, s'.finishedJobs)
    requires |InWorker(s'.worker)| == |InWorker(s.worker)|
    requires WorkerRank(s'.worker, s'.newJobs, s'.finishedJobs) < WorkerRank(s.worker, s.newJobs, s.finishedJobs)
    ensures Below(s', s)
  {
    RanksUnderSameFrame(s, s');
    assert s'.newJobs.Occ() == s.newJobs.Occ() && s'.finishedJobs.Occ() == s.finishedJobs.Occ();
    hide HostRank, WorkerRank, InHost, InWorker, Unpushed, Ring.Occ, Ring.Items;
    assert HostRanks(s') == HostRanks(s);
  }

  // ---------- steps of the system go down ----------

  lemma WorkerDescends(s: State)
    requires RunInv(s) && WorkerRank(s.worker, s.newJobs, s.finishedJobs) > 0
    ensures var s' := s.WorkerNext(); s'.Valid() && Below(s', s)
  {
    WorkerKeepsInv(s);
    var s', w := s.WorkerNext(), s.worker;
    if w.Fetching? && !w.d.Advance? {
      DeqRankFalls(w.d, s.newJobs);
      hide Inv, Fifo, MutexOk, DeqNext, DeqRank, Ring.Items, DeqKnows;
      WorkerRankFell(s, s');
    } else if w.Fetching? {
      FetchLowersWork(s);
    } else if w.Storing? && !w.e.EnqPublish? {
      EnqRankFalls(w.e, w.job, s.finishedJobs);
      hide Inv, Fifo, MutexOk, EnqNext, EnqRank, Ring.Items, EnqKnows;
      WorkerRankFell(s, s');
    } else if w.Storing? {
      StoreLowersWork(s);
    } else {
      hide Inv, Fifo, MutexOk;
      WorkerRankFell(s, s');
    }
  }

  lemma FetchLowersWork(s: State)
    requires Inv(s) && s.worker.Fetching? && s.worker.d.Advance? && s.WorkerNext().Valid()
    ensures Work(s.WorkerNext()) < Work(s)
  {
    AdvanceDropsHead(s.newJobs);
    var s' := s.WorkerNext();
    assert s'.newJobs.Occ() == s.newJobs.Occ() - 1;
    hide Ring.Occ, Ring.Items, MutexOk, Fifo;
  }

  lemma StoreLowersWork(s: State)
    requires Inv(s) && s.worker.Storing? && s.worker.e.EnqPublish? && s.WorkerNext().Valid()
    ensures Work(s.WorkerNext()) < Work(s)
  {
    PublishAppends(s.finishedJobs);
    var s' := s.WorkerNext();
    assert s'.finishedJobs.Occ() == s.finishedJobs.Occ() + 1;
    hide Ring.Occ, Ring.Items, MutexOk, Fifo;
  }

  /** The steps of a host that are not spinning and not waiting for a mutex. */
  ghost predicate CanMove(s: State, t: nat)
    requires s.Valid() && t < |s.hosts|
  {
    var h := s.hosts[t];
    if h.WantEnq? then s.enqueueLock == None
    else HostRank(h, s.newJobs, s.finishedJobs) > 0 && (h.WantHead? ==> s.dequeueLock == None)
  }

  lemma HostDescends(s: State, t: nat)
    requires RunInv(s) && t < |s.hosts| && CanMove(s, t)
    ensures var s' := s.HostNext(t); s'.Valid() && Below(s', s)
  {
    HostKeepsInv(s, t);
    var h := s.hosts[t];
    assert HostKnows(h, s.newJobs, s.finishedJobs);
    if h.WantEnq? {
      AcquireLowersWork(s, t);
    } else if h.Enqueuing? {
      EnqueuingDescends(s, t);
    } else if h.Waiting? {
      WaitingDescends(s, t);
    } else {
      ReleaseDescends(s, t);
    }
  }

  lemma AcquireLowersWork(s: State, t: nat)
    requires Inv(s) && t < |s.hosts| && s.hosts[t].WantEnq? && s.enqueueLock == None && s.HostNext(t).Valid()
    ensures Work(s.HostNext(t)) < Work(s)
  {
    var s' := s.HostNext(t);
    assert AllUnpushed(s'.hosts) == AllUnpushed(s.hosts)[t := 0];
    TotalUpdate(AllUnpushed(s.hosts), t, 0);
    assert InHost(s) == [] && |InHost(s')| == 1;
    hide Ring.Occ, Ring.Items, MutexOk, Fifo, AllUnpushed;
  }

  lemma EnqueuingDescends(s: State, t: nat)
    requires Inv(s) && t < |s.hosts| && s.hosts[t].Enqueuing? && CanMove(s, t) && s.HostNext(t).Valid()
    ensures Below(s.HostNext(t), s)
  {
    var h, s' := s.hosts[t], s.HostNext(t);
    assert HostKnows(h, s.newJobs, s.finishedJobs) && s.enqueueLock == Some(t);
    if h.e.EnqPublish? {
      PublishAppends(s.newJobs);
      assert s'.newJobs.Occ() == s.newJobs.Occ() + 1;
      assert |InHost(s)| == 1 && InHost(s') == [];
      assert AllUnpushed(s'.hosts) == AllUnpushed(s.hosts);
      hide Ring.Occ, Ring.Items, MutexOk, Fifo, AllUnpushed;
    } else {
      EnqRankFalls(h.e, h.job, s.newJobs);
      assert s'.hosts == s.hosts[t := s'.hosts[t]];
      assert |InHost(s')| == |InHost(s)|;
      hide EnqNext, EnqRank, Ring.Items, EnqKnows, InHost, MutexOk, Fifo;
      HostRankFell(s, t, s');
    }
  }

  lemma WaitingDescends(s: State, t: nat)
    requires Inv(s) && t < |s.hosts| && s.hosts[t].Waiting? && CanMove(s, t) && s.HostNext(t).Valid()
    ensures Below(s.HostNext(t), s)
  {
    var h, s' := s.hosts[t], s.HostNext(t);
    assert HostKnows(h, s.newJobs, s.finishedJobs) && s.enqueueLock != Some(t);
    assert InHost(s') == InHost(s);
    if h.d.Advance? {
      AdvanceDropsHead(s.finishedJobs);
      assert s'.finishedJobs.Occ() == s.finishedJobs.Occ() - 1;
      assert AllUnpushed(s'.hosts) == AllUnpushed(s.hosts);
      hide Ring.Occ, Ring.Items, MutexOk, Fifo, AllUnpushed, InHost;
    } else {
      DeqRankFalls(h.d, s.finishedJobs);
      assert |s'.hosts| == |s.hosts| && s'.hosts == s.hosts[t := s'.hosts[t]];
      hide DeqNext, DeqRank, Ring.Items, DeqKnows, InHost, MutexOk, Fifo;
      HostRankFell(s, t, s');
    }
  }

  lemma ReleaseDescends(s: State, t: nat)
    requires Inv(s) && t < |s.hosts| && CanMove(s, t) && s.HostNext(t).Valid()
    requires s.hosts[t].EnqRelease? || s.hosts[t].WantHead? || s.hosts[t].WaitRelease? || s.hosts[t].DoneRelease?
    ensures Below(s.HostNext(t), s)
  {
    var s' := s.HostNext(t);
    assert |s'.hosts| == |s.hosts| && s'.hosts == s.hosts[t := s'.hosts[t]];
    assert InHost(s') == InHost(s);
    TestsMeasureOccupancy(s.finishedJobs);
    hide InHost, MutexOk, Fifo, Ring.Occ;
    HostRankFell(s, t, s');
  }

  // ---------- someone can always move ----------

  datatype Mover = TheWorker | AHost(t: nat)

  function Go(s: State, m: Mover): State
    requires s.Valid()
  {
    match m
    case TheWorker => s.WorkerNext()
    case AHost(t) => if t < |s.hosts| then s.HostNext(t) else s
  }

  /** The worker is never stuck while it holds a job and finishedJobs has room, or while
      newJobs has something. */
  lemma WorkerCanMove(s: State)
    requires RunInv(s)
    requires (InWorker(s.worker) != [] && s.finishedJobs.Items() == []) || (InWorker(s.worker) == [] &&
             s.newJobs.Items() != [])
    ensures WorkerRank(s.worker, s.newJobs, s.finishedJobs) > 0
  {
    TestsMeasureOccupancy(s.newJobs);
    TestsMeasureOccupancy(s.finishedJobs);
  }

  /** The host inside the dequeue mutex can move once finishedJobs has something. */
  lemma DequeuerCanMove(s: State, t: nat)
    requires RunInv(s) && t < |s.hosts| && s.dequeueLock == Some(t) && s.finishedJobs.Items() != []
    ensures CanMove(s, t)
  {
    TestsMeasureOccupancy(s.finishedJobs);
    assert IdOf(s.hosts[t]) != None;
  }

  /** With the dequeue mutex free, the owner of the head of finishedJobs can move: its own
      job is published, so it is not inside Enqueue. */
  lemma HeadOwnerCanMove(s: State) returns (t: nat)
    requires RunInv(s) && s.dequeueLock == None && s.finishedJobs.Items() != []
    ensures t < |s.hosts| && CanMove(s, t)
  {
    var out := Ids(Outstanding(s));
    assert out[0] == s.finishedJobs.Items()[0].jobId;
    assert Some(out[0]) in Awaits(s.hosts);
    t :| 0 <= t < |Awaits(s.hosts)| && Awaits(s.hosts)[t] == Some(out[0]);
    EnqueuersAreNotHead(s, t);
    hide Control, Outstanding, Fifo;
  }

  lemma EnqueuersAreNotHead(s: State, t: nat)
    requires RunInv(s) && t < |s.hosts| && s.finishedJobs.Items() != []
    ensures s.hosts[t].Enqueuing? ==> s.hosts[t].job.jobId != s.finishedJobs.Items()[0].jobId
  {
    if s.hosts[t].Enqueuing? {
      EnqueuingJobIsLast(s, t);
      var out := Ids(Outstanding(s));
      assert out[0] != out[|out| - 1];
    }
  }

  lemma EnqueuingJobIsLast(s: State, t: nat)
    requires RunInv(s) && t < |s.hosts| && s.hosts[t].Enqueuing? && s.finishedJobs.Items() != []
    ensures |Outstanding(s)| > 1 && Outstanding(s)[|Outstanding(s)| - 1] == s.hosts[t].job
  {
    assert s.enqueueLock == Some(t);
    assert InHost(s) == [s.hosts[t].job];
    hide Inv, Ring.Items, InHost, Matching;
  }

  /** With both rings and the worker's hand empty, any host in a call, or the one inside
      the enqueue mutex, can move. */
  lemma CallerCanMove(s: State, u: nat) returns (t: nat)
    requires RunInv(s) && s.finishedJobs.Items() == [] && s.newJobs.Items() == [] && InWorker(s.worker) == []
    requires u < |s.hosts| && !s.hosts[u].Idle?
    ensures t < |s.hosts| && CanMove(s, t)
  {
    TestsMeasureOccupancy(s.newJobs);
    if s.enqueueLock != None {
      t := s.enqueueLock.value;
    } else {
      t := u;
      assert Outstanding(s) == [];
      assert Awaits(s.hosts)[u] == None;
    }
    hide Fifo;
  }

  /** Whenever some host is in a call, some thread can take a step that lowers the measure. */
  lemma SomeoneCanMove(s: State, u: nat) returns (m: Mover)
    requires RunInv(s) && u < |s.hosts| && !s.hosts[u].Idle?
    ensures RunInv(Go(s, m)) && Below(Go(s, m), s)
  {
    var t: nat;
    if s.finishedJobs.Items() != [] {
      if s.dequeueLock != None {
        t := s.dequeueLock.value;
        DequeuerCanMove(s, t);
      } else {
        t := HeadOwnerCanMove(s);
      }
      m := HostMove(s, t);
    } else if InWorker(s.worker) != [] || s.newJobs.Items() != [] {
      WorkerCanMove(s);
      hide RunInv;
      WorkerDescends(s);
      WorkerKeepsRunInv(s);
      m := TheWorker;
    } else {
      t := CallerCanMove(s, u);
      m := HostMove(s, t);
    }
  }

  lemma HostMove(s: State, t: nat) returns (m: Mover)
    requires RunInv(s) && t < |s.hosts| && CanMove(s, t)
    ensures RunInv(Go(s, m)) && Below(Go(s, m), s)
  {
    m := AHost(t);
    HostDescends(s, t);
    StepKeepsRunInv(s, Host(t));
    hide RunInv, Below, State.HostNext;
  }

  // ---------- main results ----------

  /** No deadlock: in every state of every such run in which some host is in a call, some
      thread has a step that lowers the measure, so it is neither spinning nor blocked. */
  lemma NoDeadlock(run: seq<State>, i: nat, u: nat) returns (m: Mover)
    requires IsBlockingRun(run) && i < |run| && u < |run[i].hosts| && !run[i].hosts[u].Idle?
    ensures run[i].Valid() && Go(run[i], m).Valid() && Below(Go(run[i], m), run[i])
  {
    RunKeepsRunInv(run, i);
    m := SomeoneCanMove(run[i], u);
  }

  ghost predicate AllReturned(s: State) {
    forall t :: 0 <= t < |s.hosts| ==> s.hosts[t].Idle?
  }

  /** The states a schedule leads through. */
  ghost predicate Scheduled(states: seq<State>, movers: seq<Mover>) {
    |states| == |movers| + 1 &&
    forall i :: 0 <= i < |movers| ==> states[i].Valid() && Go(states[i], movers[i]) == states[i + 1]
  }

  lemma {:induction false} FinishFrom(s: State) returns (states: seq<State>, movers: seq<Mover>)
    requires RunInv(s)
    ensures Scheduled(states, movers) && states[0] == s
    ensures RunInv(states[|movers|]) && AllReturned(states[|movers|])
    decreases Work(s), Ranks(s)
  {
    if AllReturned(s) {
      states, movers := [s], [];
    } else {
      var u :| 0 <= u < |s.hosts| && !s.hosts[u].Idle?;
      var m := SomeoneCanMove(s, u);
      hide RunInv, Go, Ranks, Work;
      var states', movers' := FinishFrom(Go(s, m));
      states, movers := [s] + states', [m] + movers';
      FirstMove(s, m, states', movers');
    }
  }

  lemma FirstMove(s: State, m: Mover, states: seq<State>, movers: seq<Mover>)
    requires s.Valid() && Scheduled(states, movers) && states[0] == Go(s, m)
    ensures Scheduled([s] + states, [m] + movers)
  {
    hide Go, State.Valid;
    var states', movers' := [s] + states, [m] + movers;
    forall i | 0 <= i < |movers'| ensures states'[i].Valid() && Go(states'[i], movers'[i]) == states'[i + 1] {
      if i > 0 {
        assert states'[i] == states[i - 1] && movers'[i] == movers[i - 1] && states'[i + 1] == states[i];
      }
    }
  }

  /** From every state of every such run some schedule brings every call to its end, with
      each host having taken as many results as it started calls and nothing left over. */
  lemma EveryCallCanReturn(run: seq<State>, i: nat) returns (states: seq<State>, movers: seq<Mover>)
    requires IsBlockingRun(run) && i < |run|
    ensures Scheduled(states, movers) && states[0] == run[i]
    ensures var end := states[|movers|];
            end.Valid() && AllReturned(end) && |end.calls| == |end.hosts| && Outstanding(end) == [] &&
            forall t :: 0 <= t < |end.hosts| ==> end.calls[t] == RemovedBy(t, end.removed)
  {
    RunKeepsRunInv(run, i);
    states, movers := FinishFrom(run[i]);
    NothingLeft(states[|movers|]);
  }

  lemma NothingLeft(s: State)
    requires RunInv(s) && AllReturned(s)
    ensures s.Valid() && |s.calls| == |s.hosts| && Outstanding(s) == []
    ensures forall t :: 0 <= t < |s.hosts| ==> s.calls[t] == RemovedBy(t, s.removed)
  {
    assert s.Valid();
    hide Control;
    forall t | 0 <= t < |s.hosts| ensures Awaits(s.hosts)[t] == None {
      assert s.hosts[t].Idle?;
    }
    NoOneAwaited(Awaits(s.hosts), Ids(Outstanding(s)));
  }

  lemma NoOneAwaited(awaits: seq<Option<int>>, out: seq<int>)
    requires Matching(awaits, out) && forall x :: x in awaits ==> x == None
    ensures out == []
  {
    if out != [] {
      HeadAwaited(awaits, out);
    }
  }

  lemma HeadAwaited(awaits: seq<Option<int>>, out: seq<int>)
    requires Matching(awaits, out) && out != []
    ensures Some(out[0]) in awaits
  {
  }
}
