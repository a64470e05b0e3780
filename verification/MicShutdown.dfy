/** Shutting the coprocessor runtime down. Once the kill flag is set each worker takes at most one
    more job, in any run; and without further calls, under every fair schedule, all workers leave
    their loops and all calls return, with every pushed job polled or waiting in a ring. */
module MicShutdown {
  import opened Rings
  import opened MicMachine
  import opened MicSafety
  import opened Totals
  import MicLiveness

  // ---------- at most one more job for each worker ----------

  /** Worker t comes to hold a job. */
  ghost predicate Took(s: State, s': State, t: nat) {
    t < |s.threads| && t < |s'.threads| && Hand(s.threads[t]) == None && Hand(s'.threads[t]) != None
  }

  /** Jobs a worker can still take before it sees the kill flag. */
  function CanTake(pc: Pc): nat { if IsDeq(pc) && Hand(pc) == None then 1 else 0 }

  /** How often worker t takes a job in the steps i .. j-1 of a run. */
  ghost function Takes(run: seq<State>, i: nat, j: nat, t: nat): nat
    requires i <= j < |run|
  {
    if i == j then 0 else Takes(run, i, j - 1, t) + if Took(run[j - 1], run[j], t) then 1 else 0
  }

  lemma DeqTakes(pc: Pc, q: Guarded, t: nat)
    requires IsDeq(pc) && q.ring.Valid() && Fits(pc, q.ring.Cap())
    ensures var pc' := DeqNext(pc, q, t).0;
            (if Hand(pc) == None && Hand(pc') != None then 1 else 0) + CanTake(pc') <= CanTake(pc)
  {
  }

  lemma EnqTakesNone(pc: Pc, q: Guarded, t: nat)
    requires IsEnq(pc) && q.ring.Valid() && Fits(pc, q.ring.Cap())
    ensures var pc' := EnqNext(pc, q, t).0; CanTake(pc') == 0 && (Hand(pc) == None ==> Hand(pc') == None)
  {
  }

  lemma StepTakes(s: State, a: Action, t: nat)
    requires s.Valid() && s.kill && t < s.workers
    ensures var s' := Apply(s, a);
            s'.kill && s'.workers == s.workers && |s'.threads| == |s.threads| &&
            (if Took(s, s', t) then 1 else 0) + CanTake(s'.threads[t]) <= CanTake(s.threads[t])
  {
    if a.Run? && a.t < |s.threads| {
      var pc := s.threads[a.t];
      if IsEnq(pc) {
        EnqTakesNone(pc, s.RingOf(a.t, pc), a.t);
      } else if IsDeq(pc) {
        DeqTakes(pc, s.RingOf(a.t, pc), a.t);
      }
    }
    hide EnqNext, DeqNext, Fits, Ring.Valid;
  }

  /** What is taken is the head of newJobs. */
  lemma TakesTheHead(s: State, a: Action, t: nat)
    requires Control(s) && t < s.workers && Took(s, Apply(s, a), t)
    ensures var s' := Apply(s, a);
            s'.newJobs.ring.Valid() && s.newJobs.ring.Items() == [Hand(s'.threads[t]).value] + s'.newJobs.ring.Items()
  {
    assert a == Run(t) && IsDeq(s.threads[t]) by { TakerRuns(s, a, t); }
    var pc, q := s.threads[t], s.RingOf(t, s.threads[t]);
    assert Knows(pc, q.ring);
    DeqItems(pc, q, t);
    hide Control, DeqNext, Ring.Items, Knows;
  }

  lemma TakerRuns(s: State, a: Action, t: nat)
    requires s.Valid() && t < s.workers && Took(s, Apply(s, a), t)
    ensures a == Run(t) && IsDeq(s.threads[t])
  {
    if a.Run? && a.t < |s.threads| {
      var pc := s.threads[a.t];
      if IsEnq(pc) {
        EnqTakesNone(pc, s.RingOf(a.t, pc), a.t);
      }
    }
    hide EnqNext, DeqNext, Fits, Ring.Valid;
  }

  lemma NextTakes(run: seq<State>, j: nat, t: nat)
    requires IsRun(run) && 0 < j < |run| && run[j - 1].kill && t < run[j - 1].workers
    ensures run[j].kill && run[j].workers == run[j - 1].workers && |run[j].threads| == |run[j - 1].threads|
    ensures t < |run[j].threads| && t < |run[j - 1].threads|
    ensures (if Took(run[j - 1], run[j], t) then 1 else 0) + CanTake(run[j].threads[t]) <= CanTake(run[j - 1].threads[t])
  {
    hide Init, Apply, Took, CanTake;
    assert Step(run[j - 1], run[j - 1 + 1]);
    var a :| Apply(run[j - 1], a) == run[j];
    StepTakes(run[j - 1], a, t);
  }

  /** After the flag is set each worker takes at most one more job, in any run, and none unless it
      has passed its test of the flag. */
  lemma {:induction false} AtMostOneMore(run: seq<State>, i: nat, j: nat, t: nat)
    requires IsRun(run) && i <= j < |run| && run[i].kill && t < run[i].workers && run[i].Valid()
    ensures run[j].kill && run[j].workers == run[i].workers && |run[j].threads| == |run[i].threads|
    ensures Takes(run, i, j, t) + CanTake(run[j].threads[t]) <= CanTake(run[i].threads[t]) <= 1
  {
    hide IsRun, Took;
    if i < j {
      AtMostOneMore(run, i, j - 1, t);
      NextTakes(run, j, t);
    }
  }

  // ---------- the measure ----------

  /** No call starts any more; those going on run on. */
  function Next(s: State, t: nat): State
    requires s.Valid()
  {
    if t < |s.threads| then s.Next(t) else s
  }

  ghost predicate Closing(s: State)
    ensures Closing(s) ==> s.Valid()
  {
    Inv(s) && Bounded(s) && s.kill && HostsStay(s)
  }

  /** Only workers leave for good. */
  ghost predicate HostsStay(s: State) {
    forall t :: s.workers <= t < |s.threads| ==> !s.threads[t].Exited?
  }

  lemma StepKeepsHosts(s: State, a: Action)
    requires s.Valid() && HostsStay(s)
    ensures HostsStay(Apply(s, a))
  {
    if a.Run? && a.t < |s.threads| {
      var pc := s.threads[a.t];
      if IsEnq(pc) {
        EnqStays(pc, s.RingOf(a.t, pc), a.t);
      } else if IsDeq(pc) {
        DeqStays(pc, s.RingOf(a.t, pc), a.t);
      }
    }
    hide EnqNext, DeqNext, Fits, Ring.Valid;
  }

  lemma EnqStays(pc: Pc, q: Guarded, t: nat)
    requires IsEnq(pc) && q.ring.Valid() && Fits(pc, q.ring.Cap())
    ensures !EnqNext(pc, q, t).0.Exited? && EnqNext(pc, q, t).1.ring.Cap() == q.ring.Cap()
  {
  }

  lemma DeqStays(pc: Pc, q: Guarded, t: nat)
    requires IsDeq(pc) && q.ring.Valid() && Fits(pc, q.ring.Cap())
    ensures !DeqNext(pc, q, t).0.Exited? && DeqNext(pc, q, t).1.ring.Cap() == q.ring.Cap()
  {
  }

  lemma {:induction false} RunKeepsHosts(run: seq<State>, i: nat)
    requires IsRun(run) && i < |run|
    ensures HostsStay(run[i])
  {
    if i > 0 {
      RunKeepsHosts(run, i - 1);
      assert Step(run[i - 1], run[i - 1 + 1]);
      var a :| Apply(run[i - 1], a) == run[i];
      StepKeepsHosts(run[i - 1], a);
    }
    hide Apply;
  }

  /** Steps to the loop head and out of it. A test of IsFull that has read a stale Rear costs one
      more round. */
  function Distance(pc: Pc, outgoing: Ring<Job>): nat
    requires outgoing.Valid() && Fits(pc, outgoing.Cap())
  {
    match pc
    case Exited => 0
    case AtHead => 1
    case EnqUnlock => 2
    case NoneUnlock => 2
    case EnqPublish(_, _) => 3
    case EnqWrite(_, _) => 4
    case EnqRead(_) => 5
    case EnqLock(_) => 6
    case FullFront(_, rear) => if Wrap(rear + 2, outgoing.Cap()) == outgoing.front then 9 else 7
    case FullRear(_) => 8
    case Holding(_) => 10
    case GotUnlock(_) => 11
    case DeqAdvance(_, _) => 12
    case DeqReadAgain(_) => 13
    case DeqReadSlot(_) => 14
    case DeqReadFront => 15
    case LockedFront(_) => 16
    case LockedRear => 17
    case DeqLock => 18
    case EmptyFront(_) => 19
    case EmptyRear => 20
  }

  function Outgoing(s: State, t: nat): Ring<Job> {
    if t < s.workers then s.finishedJobs.ring else s.newJobs.ring
  }

  function DistanceOf(s: State, t: nat): nat
    requires s.Valid() && t < |s.threads|
  {
    Distance(s.threads[t], Outgoing(s, t))
  }

  function Distances(s: State): seq<nat>
    requires s.Valid()
  {
    seq(|s.threads|, t requires 0 <= t < |s.threads| => DistanceOf(s, t))
  }

  function Work(s: State): int
    requires s.Valid()
  {
    MicLiveness.Work(s, |s.pushed|)
  }

  ghost predicate Lower(s': State, s: State)
    requires s'.Valid() && s.Valid()
  {
    Work(s') < Work(s) || (Work(s') == Work(s) && Total(Distances(s')) < Total(Distances(s)))
  }

  /** A step of t that changes nothing: out of the loop, a host between calls, or a mutex that
      someone else holds. */
  ghost predicate Waits(s: State, t: nat)
    requires t < |s.threads|
  {
    var pc := s.threads[t];
    if pc.EnqLock? || pc.DeqLock? then s.RingOf(t, pc).holder != None
    else pc.Exited? || (t >= s.workers && pc.AtHead?)
  }

  lemma WaitingChangesNothing(s: State, t: nat)
    requires s.Valid() && t < |s.threads| && Waits(s, t)
    ensures s.Next(t) == s
  {
    assert s.threads[t := s.threads[t]] == s.threads;
  }

  // ---------- every other step goes down ----------

  lemma NearerMoved(s: State, s': State, t: nat)
    requires s.Valid() && s'.Valid() && t < |s.threads| && |s.threads| == |s'.threads| && s.workers == s'.workers
    requires s'.threads == s.threads[t := s'.threads[t]] && MicLiveness.SameIndices(s, s') && |s'.pushed| == |s.pushed|
    requires MicLiveness.Stage(s'.threads[t], t >= s.workers) == MicLiveness.Stage(s.threads[t], t >= s.workers)
    requires DistanceOf(s', t) < DistanceOf(s, t)
    ensures Lower(s', s)
  {
    MicLiveness.OnlyRankMoved(s, s', t, |s.pushed|);
    forall u | 0 <= u < |s.threads| && u != t ensures DistanceOf(s', u) == DistanceOf(s, u) {
      assert s'.threads[u] == s.threads[u];
    }
    assert Distances(s') == Distances(s)[t := DistanceOf(s', t)];
    TotalUpdate(Distances(s), t, DistanceOf(s', t));
    hide MicLiveness.Work;
  }

  lemma EnqNearer(pc: Pc, q: Guarded, t: nat)
    requires IsEnq(pc) && !pc.EnqPublish? && q.ring.Valid() && Fits(pc, q.ring.Cap())
    requires pc.EnqLock? ==> q.holder == None
    requires pc.FullFront? || pc.FullRear? ==> !q.ring.IsFull()
    ensures var (pc', q') := EnqNext(pc, q, t);
            q'.ring.front == q.ring.front && q'.ring.rear == q.ring.rear && q'.ring.Cap() == q.ring.Cap() && q'.ring.Valid() &&
            Fits(pc', q.ring.Cap()) && Hand(pc') == Hand(pc) && (IsEnq(pc') || pc' == AtHead) &&
            Distance(pc', q'.ring) < Distance(pc, q.ring)
  {
  }

  lemma DeqNearer(pc: Pc, q: Guarded, outgoing: Ring<Job>, t: nat)
    requires IsDeq(pc) && !pc.DeqAdvance? && q.ring.Valid() && outgoing.Valid() && outgoing.Cap() == q.ring.Cap()
    requires Fits(pc, q.ring.Cap()) && (pc.DeqLock? ==> q.holder == None)
    ensures var (pc', q') := DeqNext(pc, q, t);
            q'.ring == q.ring && Fits(pc', q.ring.Cap()) && Hand(pc') == Hand(pc) &&
            (IsDeq(pc') || pc' == AtHead || pc'.Holding?) && Distance(pc', outgoing) < Distance(pc, outgoing)
  {
  }

  lemma EnqGoesDown(s: State, t: nat)
    requires Closing(s) && t < |s.threads| && IsEnq(s.threads[t]) && !Waits(s, t) && s.Next(t).Valid()
    ensures Lower(s.Next(t), s)
  {
    var pc, q := s.threads[t], s.RingOf(t, s.threads[t]);
    if pc.EnqPublish? {
      BoundedIsRoomy(s);
      MicLiveness.PublishDescends(s, t, |s.pushed|);
      NextKeepsPushed(s, t);
      hide Inv, State.Next, MicLiveness.Work;
    } else {
      if pc.FullFront? || pc.FullRear? {
        RoomToPublish(s, t);
        TestsMeasureOccupancy(q.ring);
      }
      EnqNearer(pc, q, t);
      var (pc', q') := EnqNext(pc, q, t);
      assert s.Next(t) == s.WithRing(t, pc, q').Move(t, pc');
      hide Inv, EnqNext, Distance, Ring.Valid, Ring.IsFull, Fits;
      NearerMoved(s, s.Next(t), t);
    }
  }

  lemma NextKeepsPushed(s: State, t: nat)
    requires s.Valid() && t < |s.threads|
    ensures var s' := s.Next(t);
            s'.pushed == s.pushed && s'.kill == s.kill && s'.workers == s.workers && |s'.threads| == |s.threads| &&
            s'.Cap() == s.Cap() && |s'.polled| >= |s.polled|
  {
    var pc, q := s.threads[t], s.RingOf(t, s.threads[t]);
    if IsEnq(pc) {
      EnqStays(pc, q, t);
    } else if IsDeq(pc) {
      DeqStays(pc, q, t);
    }
    hide EnqNext, DeqNext, Fits, Ring.Valid;
  }

  lemma DeqGoesDown(s: State, t: nat)
    requires Closing(s) && t < |s.threads| && IsDeq(s.threads[t]) && !Waits(s, t) && s.Next(t).Valid()
    ensures Lower(s.Next(t), s)
  {
    var pc, q := s.threads[t], s.RingOf(t, s.threads[t]);
    assert Knows(pc, q.ring);
    if pc.DeqAdvance? {
      MicLiveness.TakeDescends(s, t, |s.pushed|);
      NextKeepsPushed(s, t);
      hide Inv, State.Next, MicLiveness.Work;
    } else {
      DeqNearer(pc, q, Outgoing(s, t), t);
      var (pc', q') := DeqNext(pc, q, t);
      assert s.Next(t) == s.WithRing(t, pc, q').Move(t, pc');
      hide Inv, DeqNext, Distance, Ring.Valid, Fits, Knows;
      NearerMoved(s, s.Next(t), t);
    }
  }

  lemma LocalGoesDown(s: State, t: nat)
    requires Closing(s) && t < |s.threads| && !IsEnq(s.threads[t]) && !IsDeq(s.threads[t]) && !Waits(s, t)
    requires s.Next(t).Valid()
    ensures Lower(s.Next(t), s)
  {
    hide Inv;
    var s' := s.Next(t);
    assert s'.threads == s.threads[t := s'.threads[t]];
    if t >= s.workers {
      MicLiveness.RingMoved(s, s', t, |s.pushed|);
      hide MicLiveness.Work;
    } else {
      hide MicLiveness.Work, Ring.Valid;
      NearerMoved(s, s', t);
    }
  }

  lemma NextKeepsClosing(s: State, t: nat)
    requires Closing(s)
    ensures Closing(Next(s, t)) && Next(s, t).pushed == s.pushed
  {
    if t < |s.threads| {
      BoundedIsRoomy(s);
      NextKeepsInv(s, t);
      NextKeepsPushed(s, t);
      StepKeepsHosts(s, Run(t));
      hide Inv, State.Next, HostsStay;
    }
  }

  lemma GoesDown(s: State, t: nat)
    requires Closing(s) && t < |s.threads| && !Waits(s, t)
    ensures Closing(s.Next(t)) && Lower(s.Next(t), s)
  {
    NextKeepsClosing(s, t);
    hide Closing, State.Next, Waits, Lower;
    if IsEnq(s.threads[t]) {
      EnqGoesDown(s, t);
    } else if IsDeq(s.threads[t]) {
      DeqGoesDown(s, t);
    } else {
      LocalGoesDown(s, t);
    }
  }

  /** All workers have left their loops and all calls have returned. */
  ghost predicate Closed(s: State) {
    forall t :: 0 <= t < |s.threads| ==> if t < s.workers then s.threads[t].Exited? else s.threads[t].AtHead?
  }

  lemma SomeoneRuns(s: State) returns (t: nat)
    requires Closing(s) && !Closed(s)
    ensures t < |s.threads| && !Waits(s, t)
  {
    if u :| 0 <= u < |s.threads| && Critical(s.threads[u]) {
      t := u;
    } else {
      MicLiveness.MutexesFree(s);
      t :| 0 <= t < |s.threads| && !if t < s.workers then s.threads[t].Exited? else s.threads[t].AtHead?;
    }
    hide Conserved;
  }

  lemma ClosedStays(s: State, t: nat)
    requires s.Valid() && Closed(s)
    ensures Next(s, t) == s
  {
    if t < |s.threads| {
      WaitingChangesNothing(s, t);
    }
    hide State.Next;
  }

  // ---------- under a fair schedule ----------

  /** The state after k steps of a schedule, in which no call starts. */
  ghost function After(s: State, sched: nat -> nat, k: nat): (x: State)
    requires Closing(s)
    ensures Closing(x) && x.pushed == s.pushed
  {
    if k == 0 then s
    else
      NextKeepsClosing(After(s, sched, k - 1), sched(k - 1));
      Next(After(s, sched, k - 1), sched(k - 1))
  }

  lemma AfterNext(s: State, sched: nat -> nat, k: nat)
    requires Closing(s)
    ensures After(s, sched, k + 1) == Next(After(s, sched, k), sched(k))
  {
    hide Closing, Next;
  }

  lemma {:induction false} ThreadsStay(s: State, sched: nat -> nat, k: nat)
    requires Closing(s)
    ensures |After(s, sched, k).threads| == |s.threads| && After(s, sched, k).workers == s.workers
  {
    hide *;
    if k == 0 {
      AfterStart(s, sched);
    } else {
      ThreadsStay(s, sched, k - 1);
      AfterNext(s, sched, k - 1);
      NextKeepsShape(After(s, sched, k - 1), sched(k - 1));
    }
  }

  lemma AfterStart(s: State, sched: nat -> nat)
    requires Closing(s)
    ensures After(s, sched, 0) == s
  {
    hide Closing;
  }

  lemma NextKeepsShape(s: State, t: nat)
    requires s.Valid()
    ensures |Next(s, t).threads| == |s.threads| && Next(s, t).workers == s.workers
  {
    if t < |s.threads| {
      NextKeepsPushed(s, t);
    }
    hide State.Next;
  }

  lemma {:induction false} LowerBy(s: State, sched: nat -> nat, k: nat, due: nat, t: nat) returns (j: nat)
    requires Closing(s) && k <= due && sched(due) == t
    requires t < |After(s, sched, k).threads| && !Waits(After(s, sched, k), t)
    ensures j > k && Lower(After(s, sched, j), After(s, sched, k))
    decreases due - k
  {
    hide *;
    AfterNext(s, sched, k);
    var x, u := After(s, sched, k), sched(k);
    j := k + 1;
    if u < |x.threads| && !Waits(x, u) {
      NextIs(x, u);
      GoesDown(x, u);
    } else {
      StandsStill(x, u);
      j := LowerBy(s, sched, k + 1, due, t);
    }
  }

  lemma NextIs(s: State, t: nat)
    requires s.Valid() && t < |s.threads|
    ensures Next(s, t) == s.Next(t)
  {
  }

  lemma StandsStill(s: State, t: nat)
    requires s.Valid() && (t < |s.threads| ==> Waits(s, t))
    ensures Next(s, t) == s
  {
    if t < |s.threads| {
      WaitingChangesNothing(s, t);
    }
    hide State.Next;
  }

  lemma {:induction false} ClosesFrom(s: State, sched: nat -> nat, k: nat) returns (m: nat)
    requires Closing(s) && MicLiveness.Fair(sched, |s.threads|)
    ensures Closed(After(s, sched, m))
    decreases Work(After(s, sched, k)), Total(Distances(After(s, sched, k)))
  {
    var x := After(s, sched, k);
    WorkNotNegative(x);
    ThreadsStay(s, sched, k);
    hide After, Closing, Closed, Waits, Work, Distances;
    if Closed(x) {
      m := k;
    } else {
      var t := SomeoneRuns(x);
      assert MicLiveness.Later(sched, t, k);
      var due: nat :| due >= k && sched(due) == t;
      var j := LowerBy(s, sched, k, due, t);
      m := ClosesFrom(s, sched, j);
    }
  }

  lemma WorkNotNegative(s: State)
    requires s.Valid()
    ensures Work(s) >= 0
  {
  }

  lemma {:induction false} ClosedForEver(s: State, sched: nat -> nat, m: nat, k: nat)
    requires Closing(s) && m <= k && Closed(After(s, sched, m))
    ensures Closed(After(s, sched, k))
    decreases k
  {
    hide *;
    if m < k {
      ClosedForEver(s, sched, m, k - 1);
      AfterNext(s, sched, k - 1);
      ClosedStays(After(s, sched, k - 1), sched(k - 1));
    }
  }

  // ---------- main result ----------

  /** Each pushed job is polled or waits in one of the rings, once; any other is nowhere. */
  ghost predicate Kept(s: State)
    requires s.Valid()
  {
    forall job :: Times(job, s.newJobs.ring.Items()) + Times(job, s.finishedJobs.ring.Items()) + Times(job, s.polled)
                  == if job in s.pushed then 1 else 0
  }

  lemma ClosedKeepsJobs(s: State)
    requires Closing(s) && Closed(s)
    ensures Kept(s) && s.newJobs.holder == None && s.finishedJobs.holder == None
  {
    forall job
      ensures Times(job, s.newJobs.ring.Items()) + Times(job, s.finishedJobs.ring.Items()) + Times(job, s.polled)
              == if job in s.pushed then 1 else 0
    {
      InvMeansOnce(s, job);
      NoHands(At(job), s.threads);
    }
    MicLiveness.MutexesFree(s);
    hide Conserved, Times, Ring.Items;
  }

  /** Shutdown: when the flag is set in any state of a bounded run, then under every fair schedule
      without further calls all workers have left their loops and all calls have returned from
      some step on for ever, no mutex is held, and each job pushed is polled or waits in a ring. */
  lemma ShutdownCompletes(run: seq<State>, i: nat, sched: nat -> nat) returns (m: nat)
    requires IsRun(run) && i < |run| && BoundedTo(run, i + 1)
    requires MicLiveness.Fair(sched, |run[i].threads|)
    ensures run[i].Valid()
    ensures var s := Apply(run[i], SetKill);
            Closing(s) && |s.threads| == |run[i].threads| && s.workers == run[i].workers && s.pushed == run[i].pushed &&
            forall k: nat :: m <= k ==>
              var x := After(s, sched, k);
              Closed(x) && x.workers == s.workers && |x.threads| == |s.threads| && x.pushed == s.pushed &&
              Kept(x) && x.newJobs.holder == None && x.finishedJobs.holder == None
  {
    RunKeepsInv(run, i);
    RunKeepsHosts(run, i);
    assert Bounded(run[i]);
    FlagCloses(run[i]);
    hide *;
    var s := Apply(run[i], SetKill);
    m := ClosesFrom(s, sched, 0);
    forall k: nat | m <= k
      ensures var x := After(s, sched, k);
              Closed(x) && x.workers == s.workers && |x.threads| == |s.threads| && x.pushed == s.pushed &&
              Kept(x) && x.newJobs.holder == None && x.finishedJobs.holder == None
    {
      ClosedForEver(s, sched, m, k);
      ThreadsStay(s, sched, k);
      ClosedKeepsJobs(After(s, sched, k));
    }
  }

  lemma FlagCloses(s: State)
    requires Inv(s) && Bounded(s) && HostsStay(s)
    ensures var s' := Apply(s, SetKill);
            Closing(s') && |s'.threads| == |s.threads| && s'.workers == s.workers && s'.pushed == s.pushed
  {
    BoundedIsRoomy(s);
    StepKeepsInv(s, SetKill);
    hide Inv;
  }
}
