/** What every interleaving of the coprocessor runtime keeps, as long as no more
    than Capacity-1 jobs are outstanding. */
module MicSafety {
  import opened Rings
  import opened MicMachine

  // ---------- counting jobs ----------

  // Jobs are counted under an arbitrary weight: 1 everywhere gives how many there
  // are, 1 at a single job gives how often that job occurs.
  type Weight = Job -> nat

  function Sum(w: Weight, jobs: seq<Job>): nat {
    if jobs == [] then 0 else w(jobs[0]) + Sum(w, jobs[1..])
  }

  lemma {:induction false} SumAppend(w: Weight, jobs: seq<Job>, job: Job)
    ensures Sum(w, jobs + [job]) == Sum(w, jobs) + w(job)
  {
    if jobs == [] {
    } else {
      SumAppend(w, jobs[1..], job);
      assert (jobs + [job])[1..] == jobs[1..] + [job];
    }
  }

  /** The job a thread owns: one it is about to enqueue, or one it has taken out. */
  function Hand(pc: Pc): Option<Job> {
    if pc.FullRear? || pc.FullFront? || pc.EnqLock? || pc.EnqRead? || pc.EnqWrite? || pc.EnqPublish? ||
       pc.GotUnlock? || pc.Holding?
    then Some(pc.job) else None
  }

  function InHand(w: Weight, pc: Pc): nat {
    if Hand(pc) == None then 0 else w(Hand(pc).value)
  }

  function InHands(w: Weight, threads: seq<Pc>): nat {
    if threads == [] then 0 else InHand(w, threads[0]) + InHands(w, threads[1..])
  }

  lemma {:induction false} HandsUpdate(w: Weight, threads: seq<Pc>, t: nat, pc: Pc)
    requires t < |threads|
    ensures InHands(w, threads[t := pc]) == InHands(w, threads) - InHand(w, threads[t]) + InHand(w, pc)
  {
    if t == 0 {
      assert threads[t := pc][1..] == threads[1..];
    } else {
      HandsUpdate(w, threads[1..], t - 1, pc);
      assert threads[t := pc][1..] == threads[1..][t - 1 := pc];
    }
  }

  lemma {:induction false} HandWithinHands(w: Weight, threads: seq<Pc>, t: nat)
    requires t < |threads|
    ensures InHand(w, threads[t]) <= InHands(w, threads)
  {
    if t > 0 {
      HandWithinHands(w, threads[1..], t - 1);
    }
  }

  lemma {:induction false} NoHands(w: Weight, threads: seq<Pc>)
    requires forall t :: 0 <= t < |threads| ==> Hand(threads[t]) == None
    ensures InHands(w, threads) == 0
  {
    if threads != [] {
      NoHands(w, threads[1..]);
    }
  }

  lemma {:induction false} HandsConcat(w: Weight, a: seq<Pc>, b: seq<Pc>)
    ensures InHands(w, a + b) == InHands(w, a) + InHands(w, b)
  {
    if a == [] {
      assert a + b == b;
    } else {
      HandsConcat(w, a[1..], b);
      assert (a + b)[1..] == a[1..] + b;
    }
  }

  // ---------- the invariant ----------

  /** The weight of all places a job can be. */
  function Places(w: Weight, s: State): nat
    requires s.Valid()
  {
    Sum(w, s.newJobs.ring.Items()) + Sum(w, s.finishedJobs.ring.Items()) + InHands(w, s.threads) + Sum(w, s.polled)
  }

  /** What a thread inside a mutex may rely on about its ring. */
  ghost predicate Knows(pc: Pc, r: Ring<Job>)
    requires r.Valid()
  {
    match pc
    case EnqWrite(_, temp) => temp == Wrap(r.rear + 1, r.Cap())
    case EnqPublish(job, temp) => temp == Wrap(r.rear + 1, r.Cap()) && r.slots[temp] == job
    case LockedFront(rear) => rear == r.rear
    case DeqReadFront => r.Occ() > 0
    case DeqReadSlot(front) => r.Occ() > 0 && front == r.front
    case DeqReadAgain(job) => r.Occ() > 0 && job == r.slots[r.front]
    case DeqAdvance(job, front) => r.Occ() > 0 && front == r.front && job == r.slots[r.front]
    case _ => true
  }

  ghost predicate MutexOk(s: State) {
    (s.newJobs.holder == None || s.newJobs.holder.value < |s.threads|) &&
    (s.finishedJobs.holder == None || s.finishedJobs.holder.value < |s.threads|) &&
    forall t :: 0 <= t < |s.threads| ==>
      var pc := s.threads[t];
      (s.newJobs.holder == Some(t) <==> Critical(pc) && s.OnNew(t, pc)) &&
      (s.finishedJobs.holder == Some(t) <==> Critical(pc) && !s.OnNew(t, pc))
  }

  ghost predicate AllKnow(s: State)
    requires s.Valid()
  {
    forall t :: 0 <= t < |s.threads| ==> Knows(s.threads[t], s.RingOf(t, s.threads[t]).ring)
  }

  ghost predicate Serials(pushed: seq<Job>) {
    forall i :: 0 <= i < |pushed| ==> pushed[i].serial == i
  }

  /** Locks, indices and slots are where the program counters say. */
  ghost predicate Control(s: State) {
    s.Valid() && MutexOk(s) && AllKnow(s)
  }

  /** No job is lost, forged or doubled. */
  ghost predicate Conserved(s: State)
    requires s.Valid()
  {
    Serials(s.pushed) && forall w :: Sum(w, s.pushed) == Places(w, s)
  }

  ghost predicate Inv(s: State) {
    Control(s) && Conserved(s)
  }

  // ---------- one step of the two ring operations ----------

  /** Thread t, at pc on ring q, may move to pc' leaving q': the control part. */
  ghost predicate SoundMove(pc: Pc, q: Guarded, t: nat, pc': Pc, q': Guarded) {
    q.ring.Valid() && q'.ring.Valid() && q'.ring.Cap() == q.ring.Cap() &&
    Fits(pc', q'.ring.Cap()) && Knows(pc', q'.ring) &&
    (q'.holder == Some(t) <==> Critical(pc')) &&
    (forall u: nat :: u != t ==> (q'.holder == Some(u) <==> q.holder == Some(u))) &&
    (Critical(pc) || q'.ring == q.ring)
  }

  lemma EnqStep(pc: Pc, q: Guarded, t: nat)
    requires IsEnq(pc) && q.ring.Valid() && Fits(pc, q.ring.Cap()) && Knows(pc, q.ring)
    requires q.holder == Some(t) <==> Critical(pc)
    ensures var (pc', q') := EnqNext(pc, q, t);
            SoundMove(pc, q, t, pc', q') && (IsEnq(pc') || pc' == AtHead)
  {
  }

  lemma EnqItems(pc: Pc, q: Guarded, t: nat)
    requires IsEnq(pc) && q.ring.Valid() && Fits(pc, q.ring.Cap()) && Knows(pc, q.ring)
    requires pc.EnqPublish? ==> q.ring.Occ() <= q.ring.Cap() - 2
    ensures var (pc', q') := EnqNext(pc, q, t);
            q'.ring.Valid() && Hand(pc') == (if pc.EnqPublish? then None else Hand(pc)) &&
            q'.ring.Items() == if pc.EnqPublish? then q.ring.Items() + [pc.job] else q.ring.Items()
  {
    if pc.EnqWrite? {
      WriteKeepsItems(q.ring, pc.job);
    } else if pc.EnqPublish? {
      PublishAppends(q.ring);
    }
    hide Ring.Items, Ring.Occ;
  }

  lemma EnqKeepsJobs(w: Weight, pc: Pc, q: Guarded, t: nat)
    requires IsEnq(pc) && q.ring.Valid() && Fits(pc, q.ring.Cap()) && Knows(pc, q.ring)
    requires pc.EnqPublish? ==> q.ring.Occ() <= q.ring.Cap() - 2
    ensures var (pc', q') := EnqNext(pc, q, t);
            q'.ring.Valid() && Sum(w, q'.ring.Items()) + InHand(w, pc') == Sum(w, q.ring.Items()) + InHand(w, pc)
  {
    EnqItems(pc, q, t);
    hide Ring.Items, EnqNext, Sum, Knows;
    if pc.EnqPublish? {
      SumAppend(w, q.ring.Items(), pc.job);
    }
  }

  lemma DeqStep(pc: Pc, q: Guarded, t: nat)
    requires IsDeq(pc) && q.ring.Valid() && Fits(pc, q.ring.Cap()) && Knows(pc, q.ring)
    requires q.holder == Some(t) <==> Critical(pc)
    ensures var (pc', q') := DeqNext(pc, q, t);
            SoundMove(pc, q, t, pc', q') && (IsDeq(pc') || pc' == AtHead || pc'.Holding?)
  {
    TestsMeasureOccupancy(q.ring);
  }

  lemma DeqItems(pc: Pc, q: Guarded, t: nat)
    requires IsDeq(pc) && q.ring.Valid() && Fits(pc, q.ring.Cap()) && Knows(pc, q.ring)
    ensures var (pc', q') := DeqNext(pc, q, t);
            q'.ring.Valid() &&
            if pc.DeqAdvance? then
              q.ring.Items() != [] && q'.ring.Items() == q.ring.Items()[1..] && Hand(pc') == Some(q.ring.Items()[0]) &&
                Hand(pc) == None
            else q'.ring == q.ring && Hand(pc') == Hand(pc)
  {
    if pc.DeqAdvance? {
      AdvanceDropsHead(q.ring);
    }
    hide Ring.Items, Ring.Occ;
  }

  lemma DeqKeepsJobs(w: Weight, pc: Pc, q: Guarded, t: nat)
    requires IsDeq(pc) && q.ring.Valid() && Fits(pc, q.ring.Cap()) && Knows(pc, q.ring)
    ensures var (pc', q') := DeqNext(pc, q, t);
            q'.ring.Valid() && Sum(w, q'.ring.Items()) + InHand(w, pc') == Sum(w, q.ring.Items()) + InHand(w, pc)
  {
    DeqItems(pc, q, t);
    hide Ring.Items, DeqNext, Knows, Ring.Occ;
  }

  // ---------- one step of the whole machine ----------

  lemma {:induction false} SumOfOnes(jobs: seq<Job>)
    ensures Sum((job: Job) => 1, jobs) == |jobs|
  {
    if jobs != [] {
      SumOfOnes(jobs[1..]);
    }
  }

  /** A publishing thread finds room, because its own job is outstanding too. */
  lemma RoomToPublish(s: State, t: nat)
    requires s.Valid() && Conserved(s) && Bounded(s) && t < |s.threads| && Hand(s.threads[t]) != None
    ensures s.newJobs.ring.Occ() <= s.Cap() - 2 && s.finishedJobs.ring.Occ() <= s.Cap() - 2
  {
    var one := (job: Job) => 1;
    HandWithinHands(one, s.threads, t);
    assert Sum(one, s.pushed) == Places(one, s);
    SumOfOnes(s.pushed);
    SumOfOnes(s.polled);
    SumOfOnes(s.newJobs.ring.Items());
    SumOfOnes(s.finishedJobs.ring.Items());
  }

  /** Thread t swaps its pc and the ring it works on; nothing else moves. */
  lemma RejoinControl(s: State, t: nat, pc': Pc, q': Guarded)
    requires Control(s) && t < |s.threads|
    requires var pc := s.threads[t];
             SoundMove(pc, s.RingOf(t, pc), t, pc', q') &&
             SameCall(pc, pc')
    ensures Control(s.WithRing(t, s.threads[t], q').Move(t, pc'))
  {
    var pc := s.threads[t];
    var s' := s.WithRing(t, pc, q').Move(t, pc');
    MutexMoves(s, t, pc', q');
    RejoinedValid(s, t, pc', q');
    OwnKnows(s, t, pc', q');
    hide MutexOk, IsEnq, IsDeq, Critical, SoundMove, Knows, State.Valid, SameCall;
    forall u | 0 <= u < |s'.threads|
      ensures Knows(s'.threads[u], s'.RingOf(u, s'.threads[u]).ring)
    {
      if u != t {
        OthersKnowStill(s, t, pc', q', u);
      }
    }
  }

  lemma RejoinedValid(s: State, t: nat, pc': Pc, q': Guarded)
    requires s.Valid() && t < |s.threads| && SoundMove(s.threads[t], s.RingOf(t, s.threads[t]), t, pc', q')
    ensures s.WithRing(t, s.threads[t], q').Move(t, pc').Valid()
  {
    hide Knows, Fits, IsEnq, IsDeq, Critical, Ring.Valid;
  }

  lemma OwnKnows(s: State, t: nat, pc': Pc, q': Guarded)
    requires t < |s.threads| && SoundMove(s.threads[t], s.RingOf(t, s.threads[t]), t, pc', q') && SameCall(s.threads[t], pc')
    ensures var ring := s.WithRing(t, s.threads[t], q').Move(t, pc').RingOf(t, pc').ring;
            (IsEnq(pc') || IsDeq(pc') ==> ring == q'.ring) && (ring.Valid() ==> Knows(pc', ring))
  {
    hide Fits, Critical, Ring.Occ;
  }

  // pc' continues the operation that pc is in, or ends it.
  predicate SameCall(pc: Pc, pc': Pc) {
    if IsEnq(pc) then IsEnq(pc') || pc' == AtHead else IsDeq(pc) && (IsDeq(pc') || pc' == AtHead || pc'.Holding?)
  }

  // A thread stays on one ring for the whole of a call.
  lemma SameRing(s: State, t: nat, pc: Pc, pc': Pc)
    requires SameCall(pc, pc')
    ensures Critical(pc') ==> s.OnNew(t, pc') == s.OnNew(t, pc)
  {
  }

  lemma MutexMoves(s: State, t: nat, pc': Pc, q': Guarded)
    requires s.Valid() && MutexOk(s) && t < |s.threads|
    requires SoundMove(s.threads[t], s.RingOf(t, s.threads[t]), t, pc', q') && SameCall(s.threads[t], pc')
    ensures MutexOk(s.WithRing(t, s.threads[t], q').Move(t, pc'))
  {
    var pc := s.threads[t];
    SameRing(s, t, pc, pc');
    SameRingAfter(s, t, pc, pc', q');
    hide Knows, Fits, SameCall, IsEnq, IsDeq, Critical, State.OnNew;
    var s' := s.WithRing(t, pc, q').Move(t, pc');
    forall u | 0 <= u < |s'.threads|
      ensures var pu := s'.threads[u];
              (s'.newJobs.holder == Some(u) <==> Critical(pu) && s.OnNew(u, pu)) &&
              (s'.finishedJobs.holder == Some(u) <==> Critical(pu) && !s.OnNew(u, pu))
    {
      if u != t {
        assert s'.threads[u] == s.threads[u];
      }
    }
  }

  // Which threads are on newJobs depends on the roles alone.
  lemma SameRingAfter(s: State, t: nat, pc: Pc, pc': Pc, q': Guarded)
    requires t < |s.threads|
    ensures var s' := s.WithRing(t, pc, q').Move(t, pc');
            forall u: nat, pu: Pc :: s'.OnNew(u, pu) == s.OnNew(u, pu)
  {
  }

  lemma OthersKnowStill(s: State, t: nat, pc': Pc, q': Guarded, u: nat)
    requires Control(s) && t < |s.threads| && u < |s.threads| && u != t
    requires SoundMove(s.threads[t], s.RingOf(t, s.threads[t]), t, pc', q')
    ensures Knows(s.threads[u], s.WithRing(t, s.threads[t], q').RingOf(u, s.threads[u]).ring)
  {
    var pc, pu := s.threads[t], s.threads[u];
    assert Knows(pu, s.RingOf(u, pu).ring);
    if s.OnNew(t, pc) == s.OnNew(u, pu) {
      assert !(Critical(pc) && Critical(pu));
    }
  }

  lemma RejoinJobs(s: State, t: nat, pc': Pc, q': Guarded)
    requires s.Valid() && Conserved(s) && t < |s.threads| && q'.ring.Valid()
    requires forall w :: Sum(w, q'.ring.Items()) + InHand(w, pc') ==
                         Sum(w, s.RingOf(t, s.threads[t]).ring.Items()) + InHand(w, s.threads[t])
    requires s.WithRing(t, s.threads[t], q').Move(t, pc').Valid()
    ensures Conserved(s.WithRing(t, s.threads[t], q').Move(t, pc'))
  {
    var s' := s.WithRing(t, s.threads[t], q').Move(t, pc');
    forall w ensures Sum(w, s'.pushed) == Places(w, s') {
      assert Sum(w, s.pushed) == Places(w, s);
      HandsUpdate(w, s.threads, t, pc');
    }
  }

  /** Whoever is about to publish finds room. */
  ghost predicate Roomy(s: State)
    requires s.Valid()
  {
    forall t :: 0 <= t < |s.threads| && s.threads[t].EnqPublish? ==>
      s.RingOf(t, s.threads[t]).ring.Occ() <= s.Cap() - 2
  }

  lemma BoundedIsRoomy(s: State)
    requires Inv(s) && Bounded(s)
    ensures Roomy(s)
  {
    forall t | 0 <= t < |s.threads| && s.threads[t].EnqPublish?
      ensures s.RingOf(t, s.threads[t]).ring.Occ() <= s.Cap() - 2
    {
      RoomToPublish(s, t);
    }
  }

  lemma NextKeepsInv(s: State, t: nat)
    requires Inv(s) && Roomy(s) && t < |s.threads|
    ensures Inv(s.Next(t))
  {
    var pc := s.threads[t];
    if IsEnq(pc) {
      EnqKeepsInv(s, t);
    } else if IsDeq(pc) {
      DeqKeepsInv(s, t);
    } else {
      LocalKeepsInv(s, t);
    }
  }

  lemma EnqKeepsInv(s: State, t: nat)
    requires Inv(s) && Roomy(s) && t < |s.threads| && IsEnq(s.threads[t])
    ensures Inv(s.Next(t))
  {
    var pc := s.threads[t];
    var q := s.RingOf(t, pc);
    var (pc', q') := EnqNext(pc, q, t);
    assert Knows(pc, q.ring);
    EnqStep(pc, q, t);
    forall w { EnqKeepsJobs(w, pc, q, t); }
    RejoinControl(s, t, pc', q');
    RejoinJobs(s, t, pc', q');
  }

  lemma DeqKeepsInv(s: State, t: nat)
    requires Inv(s) && t < |s.threads| && IsDeq(s.threads[t])
    ensures Inv(s.Next(t))
  {
    var pc := s.threads[t];
    var q := s.RingOf(t, pc);
    var (pc', q') := DeqNext(pc, q, t);
    assert Knows(pc, q.ring);
    DeqStep(pc, q, t);
    forall w { DeqKeepsJobs(w, pc, q, t); }
    RejoinControl(s, t, pc', q');
    RejoinJobs(s, t, pc', q');
  }

  /** Steps outside the rings: only t's pc and the two job logs move. */
  lemma SidestepKeepsControl(s: State, t: nat, s': State)
    requires Control(s) && t < |s.threads| && t < |s'.threads|
    requires s'.newJobs == s.newJobs && s'.finishedJobs == s.finishedJobs && s'.workers == s.workers
    requires s'.threads == s.threads[t := s'.threads[t]]
    requires !Critical(s.threads[t]) && !Critical(s'.threads[t]) && Fits(s'.threads[t], s.Cap())
    ensures Control(s')
  {
    assert s'.Valid();
    assert MutexOk(s');
    forall u | 0 <= u < |s'.threads|
      ensures Knows(s'.threads[u], s'.RingOf(u, s'.threads[u]).ring)
    {
      if u != t {
        assert Knows(s.threads[u], s.RingOf(u, s.threads[u]).ring);
      }
    }
  }

  lemma LocalKeepsInv(s: State, t: nat)
    requires Inv(s) && t < |s.threads| && !IsEnq(s.threads[t]) && !IsDeq(s.threads[t])
    ensures Inv(s.Next(t))
  {
    var s' := s.Next(t);
    assert s'.threads == s.threads[t := s'.threads[t]];
    SidestepKeepsControl(s, t, s');
    forall w ensures Sum(w, s'.pushed) == Places(w, s') {
      assert Sum(w, s.pushed) == Places(w, s);
      HandsUpdate(w, s.threads, t, s'.threads[t]);
      if s'.polled != s.polled {
        SumAppend(w, s.polled, s.threads[t].job);
      }
    }
  }

  lemma CallKeepsInv(s: State, t: nat, s': State)
    requires Inv(s) && t < |s.threads|
    requires s' == s.StartPoll(t) ||
             (exists a: Action :: a.Push? && s' == s.StartPush(t, a.jobType, a.numThreads, a.jobId, a.params))
    ensures Inv(s')
  {
    assert s'.threads == s.threads[t := s'.threads[t]];
    if s' != s {
      SidestepKeepsControl(s, t, s');
      forall w ensures Sum(w, s'.pushed) == Places(w, s') {
        assert Sum(w, s.pushed) == Places(w, s);
        HandsUpdate(w, s.threads, t, s'.threads[t]);
        if s'.pushed != s.pushed {
          SumAppend(w, s.pushed, s'.threads[t].job);
        }
      }
    }
  }

  lemma KillKeepsControl(s: State, s': State)
    requires Control(s) && s' == s.(kill := true)
    ensures Control(s')
  {
    assert MutexOk(s');
    assert AllKnow(s');
  }

  lemma StepKeepsInv(s: State, a: Action)
    requires Inv(s) && Roomy(s)
    ensures Inv(Apply(s, a))
  {
    match a
    case Run(t) => if t < |s.threads| { NextKeepsInv(s, t); }
    case Push(t, ty, n, id, params) => if t < |s.threads| { CallKeepsInv(s, t, Apply(s, a)); }
    case Poll(t) => if t < |s.threads| { CallKeepsInv(s, t, Apply(s, a)); }
    case SetKill =>
      var s' := s.(kill := true);
      KillKeepsControl(s, s');
      assert forall w :: Sum(w, s'.pushed) == Sum(w, s.pushed) && Places(w, s') == Places(w, s);
  }

  lemma InitHasInv(s: State)
    requires Init(s)
    ensures Inv(s)
  {
    assert s.newJobs.ring.Items() == [] && s.finishedJobs.ring.Items() == [];
    forall w ensures Sum(w, s.pushed) == Places(w, s) {
      NoHands(w, s.threads);
    }
  }

  /** The first n states of a run keep at most Capacity-1 jobs outstanding. */
  ghost predicate BoundedTo(run: seq<State>, n: nat) {
    forall k :: 0 <= k < n && k < |run| ==> Bounded(run[k])
  }

  lemma {:induction false} RunKeepsInv(run: seq<State>, i: nat)
    requires IsRun(run) && i < |run| && BoundedTo(run, i)
    ensures Inv(run[i])
  {
    if i == 0 {
      InitHasInv(run[0]);
    } else {
      RunKeepsInv(run, i - 1);
      assert Step(run[i - 1], run[i - 1 + 1]);
      var a :| Apply(run[i - 1], a) == run[i];
      BoundedIsRoomy(run[i - 1]);
      StepKeepsInv(run[i - 1], a);
    }
  }

  // ---------- main results ----------

  function At(job: Job): Weight {
    (other: Job) => if other == job then 1 else 0
  }

  /** How many times a job occurs among some jobs. */
  function Times(job: Job, jobs: seq<Job>): nat {
    Sum(At(job), jobs)
  }

  function TimesHeld(job: Job, threads: seq<Pc>): nat {
    InHands(At(job), threads)
  }

  lemma {:induction false} TimesIsMultiplicity(job: Job, jobs: seq<Job>)
    ensures Times(job, jobs) == multiset(jobs)[job]
  {
    if jobs != [] {
      TimesIsMultiplicity(job, jobs[1..]);
      assert jobs == [jobs[0]] + jobs[1..];
    }
  }

  /** How often a job occurs: waiting in a ring, in a thread's hand, or polled. */
  function Occurrences(job: Job, s: State): nat
    requires s.Valid()
  {
    Times(job, s.newJobs.ring.Items()) + Times(job, s.finishedJobs.ring.Items()) +
    TimesHeld(job, s.threads) + Times(job, s.polled)
  }

  lemma InvMeansOnce(s: State, job: Job)
    requires Inv(s)
    ensures Occurrences(job, s) == if job in s.pushed then 1 else 0
  {
    assert Sum(At(job), s.pushed) == Places(At(job), s);
    TimesIsMultiplicity(job, s.pushed);
    if job in s.pushed {
      DistinctOnce(s.pushed, job);
    }
  }

  /** Over every run that has kept at most Capacity-1 jobs outstanding so far, each pushed
      job is in exactly one place, once, and nothing else is anywhere. */
  lemma EveryJobInExactlyOnePlace(run: seq<State>, i: nat, job: Job)
    requires IsRun(run) && i < |run| && BoundedTo(run, i)
    ensures run[i].Valid() && Occurrences(job, run[i]) == if job in run[i].pushed then 1 else 0
  {
    RunKeepsInv(run, i);
    InvMeansOnce(run[i], job);
  }

  lemma {:induction false} DistinctOnce(jobs: seq<Job>, job: Job)
    requires Serials(jobs) && job in jobs
    ensures multiset(jobs)[job] == 1
  {
    var last := |jobs| - 1;
    assert jobs == jobs[..last] + [jobs[last]];
    if job == jobs[last] {
      assert job !in jobs[..last];
    } else {
      DistinctOnce(jobs[..last], job);
    }
  }

  /** No write hits an unread slot, and no publish runs a ring over: the thread that
      writes or publishes does so with the ring's mutex, into a slot no waiting job
      occupies, with room left, although IsFull was tested outside the mutex. */
  lemma NoUnreadSlotOverwritten(run: seq<State>, i: nat, t: nat)
    requires IsRun(run) && i < |run| && BoundedTo(run, i + 1)
    requires t < |run[i].threads| && (run[i].threads[t].EnqWrite? || run[i].threads[t].EnqPublish?)
    ensures var s := run[i]; var pc := s.threads[t]; var q := s.RingOf(t, pc);
            s.Valid() && q.holder == Some(t) && q.ring.Occ() <= s.Cap() - 2 &&
            (forall k :: 0 <= k < q.ring.Occ() ==> q.ring.SlotOf(k) != pc.index) &&
            var q' := EnqNext(pc, q, t).1;
            q'.ring.Valid() &&
            q'.ring.Items() == if pc.EnqWrite? then q.ring.Items() else q.ring.Items() + [pc.job]
  {
    RunKeepsInv(run, i);
    var s := run[i];
    var pc := s.threads[t];
    var q := s.RingOf(t, pc);
    assert Knows(pc, q.ring) && q.holder == Some(t);
    RoomToPublish(s, t);
    hide Inv, Bounded;
    WriteKeepsItems(q.ring, pc.job);
    PublishAppends(q.ring);
  }

  /** Threads inside one ring's mutex never meet. */
  lemma MutualExclusion(run: seq<State>, i: nat, t: nat, u: nat)
    requires IsRun(run) && i < |run| && BoundedTo(run, i)
    requires t < |run[i].threads| && u < |run[i].threads| && t != u
    requires Critical(run[i].threads[t]) && Critical(run[i].threads[u])
    ensures run[i].OnNew(t, run[i].threads[t]) != run[i].OnNew(u, run[i].threads[u])
  {
    RunKeepsInv(run, i);
  }

  /** Once every worker has left its loop, no worker holds a job: whatever was pushed
      waits in a ring, is with a host thread, or has been polled. */
  lemma ShutdownLeavesNoJobBehind(run: seq<State>, i: nat, job: Job)
    requires IsRun(run) && i < |run| && BoundedTo(run, i)
    requires run[i].workers <= |run[i].threads|
    requires forall t :: 0 <= t < run[i].workers ==> run[i].threads[t].Exited?
    ensures var s := run[i];
            s.Valid() &&
            Times(job, s.newJobs.ring.Items()) + Times(job, s.finishedJobs.ring.Items()) +
            TimesHeld(job, s.threads[s.workers..]) + Times(job, s.polled) == if job in s.pushed then 1 else 0
  {
    EveryJobInExactlyOnePlace(run, i, job);
    var s := run[i];
    NoHands(At(job), s.threads[..s.workers]);
    HandsConcat(At(job), s.threads[..s.workers], s.threads[s.workers..]);
    assert s.threads == s.threads[..s.workers] + s.threads[s.workers..];
  }
}
