/** Exactly which batches complete under every fair schedule: those that the ring has room for,
    and with one worker those that both rings and the worker have room for. Several workers can
    run finishedJobs over, and what is lost never turns up again. */
module MicBatchBound {
  import opened Rings
  import opened MicMachine
  import opened MicSafety
  import opened MicPaths
  import opened MicOverrun
  import opened MicLiveness
  import opened Turns

  // ---------- what is lost stays lost ----------

  function One(): Job -> nat { (job: Job) => 1 }

  /** How many jobs are waiting, in hand or polled. */
  function Held(s: State): nat
    requires s.Valid()
  {
    s.newJobs.ring.Occ() + s.finishedJobs.ring.Occ() + InHands(One(), s.threads) + |s.polled|
  }

  lemma PublishAddsAtMostOne(r: Ring<Job>)
    requires r.Valid()
    ensures r.MoveRear(Wrap(r.rear + 1, r.Cap())).Valid()
    ensures r.MoveRear(Wrap(r.rear + 1, r.Cap())).Occ() <= r.Occ() + 1
  {
  }

  // A step of a ring operation moves no more than one job, from hand to ring or back.
  lemma EnqHolds(pc: Pc, q: Guarded, t: nat)
    requires IsEnq(pc) && q.ring.Valid() && Fits(pc, q.ring.Cap()) && Knows(pc, q.ring)
    ensures var (pc', q') := EnqNext(pc, q, t);
            q'.ring.Valid() && q'.ring.Occ() + InHand(One(), pc') <= q.ring.Occ() + InHand(One(), pc)
  {
    PublishAddsAtMostOne(q.ring);
    hide Ring.Items;
  }

  lemma DeqHolds(pc: Pc, q: Guarded, t: nat)
    requires IsDeq(pc) && q.ring.Valid() && Fits(pc, q.ring.Cap()) && Knows(pc, q.ring)
    ensures var (pc', q') := DeqNext(pc, q, t);
            q'.ring.Valid() && q'.ring.Occ() + InHand(One(), pc') == q.ring.Occ() + InHand(One(), pc)
  {
    if pc.DeqAdvance? {
      AdvanceDropsHead(q.ring);
    }
    hide Ring.Items;
  }

  lemma RejoinHeld(s: State, t: nat, pc': Pc, q': Guarded)
    requires s.Valid() && t < |s.threads| && q'.ring.Valid() && s.WithRing(t, s.threads[t], q').Move(t, pc').Valid()
    requires q'.ring.Occ() + InHand(One(), pc') <= s.RingOf(t, s.threads[t]).ring.Occ() + InHand(One(), s.threads[t])
    ensures Held(s.WithRing(t, s.threads[t], q').Move(t, pc')) <= Held(s)
  {
    HandsUpdate(One(), s.threads, t, pc');
    hide Ring.Occ, InHands, InHand;
  }

  lemma RunsOnControlled(s: State, t: nat)
    requires Control(s) && t < |s.threads| && (IsEnq(s.threads[t]) || IsDeq(s.threads[t]))
    ensures Control(s.Next(t)) && Held(s.Next(t)) <= Held(s)
    ensures s.Next(t).pushed == s.pushed
  {
    var pc := s.threads[t];
    var q := s.RingOf(t, pc);
    assert Knows(pc, q.ring);
    assert q.holder == Some(t) <==> Critical(pc);
    if IsEnq(pc) {
      var (pc', q') := EnqNext(pc, q, t);
      EnqStep(pc, q, t);
      RejoinControl(s, t, pc', q');
      EnqHolds(pc, q, t);
      hide EnqNext, MutexOk, AllKnow, Knows, Held, InHand, Ring.Occ;
      RejoinHeld(s, t, pc', q');
    } else {
      var (pc', q') := DeqNext(pc, q, t);
      DeqStep(pc, q, t);
      RejoinControl(s, t, pc', q');
      DeqHolds(pc, q, t);
      hide DeqNext, MutexOk, AllKnow, Knows, Held, InHand, Ring.Occ;
      RejoinHeld(s, t, pc', q');
    }
  }

  /** No step of anyone, full rings or not, brings a job back: the jobs held grow by no more than
      the jobs pushed. */
  lemma NothingReturns(s: State, batch: Batch, t: nat)
    requires Control(s)
    ensures var s' := BatchNext(s, batch, t); Control(s') && Held(s') - |s'.pushed| <= Held(s) - |s.pushed|
  {
    var s' := BatchNext(s, batch, t);
    if t < |s.threads| && s' != s {
      if IsEnq(s.threads[t]) || IsDeq(s.threads[t]) {
        RunsOnControlled(s, t);
      } else {
        Sidesteps(s, batch, t);
      }
    }
    hide BatchNext, Control, Held;
  }

  // Steps outside the rings, and starts of calls.
  lemma Sidesteps(s: State, batch: Batch, t: nat)
    requires Control(s) && t < |s.threads| && !IsEnq(s.threads[t]) && !IsDeq(s.threads[t]) && BatchNext(s, batch, t) != s
    ensures var s' := BatchNext(s, batch, t); Control(s') && Held(s') - |s'.pushed| <= Held(s) - |s.pushed|
  {
    var s' := BatchNext(s, batch, t);
    assert s'.threads == s.threads[t := s'.threads[t]];
    SidestepKeepsControl(s, t, s');
    assert s'.newJobs == s.newJobs && s'.finishedJobs == s.finishedJobs;
    assert InHand(One(), s'.threads[t]) + |s'.polled| - |s'.pushed| <= InHand(One(), s.threads[t]) + |s.polled| - |s.pushed|;
    hide Control, BatchNext, InHands, Ring.Occ, InHand;
    HandsUpdate(One(), s.threads, t, s'.threads[t]);
  }

  // ---------- a stretch of a run as a schedule ----------

  /** A batch of equal jobs. */
  function Equal(jobs: nat, wanted: nat): Batch { Batch(seq(jobs, _ => Args(0, 1, 0, 0)), wanted) }

  lemma PlainIsBatchStep(s: State, s': State, jobs: nat, wanted: nat) returns (t: nat)
    requires PlainStep(s, s') && |s.threads| == s.workers + 1 && |s'.pushed| <= jobs
    ensures BatchNext(s, Equal(jobs, wanted), t) == s' && |s'.threads| == |s.threads| && s'.workers == s.workers
    ensures |s.pushed| <= |s'.pushed|
  {
    var a :| Apply(s, a) == s' && Plain(s, a);
    t := a.t;
    NextKeepsThreads(s, Equal(jobs, wanted), t);
    if a.Run? {
      NextKeepsPushed(s, t);
    }
    hide State.Next;
  }

  lemma NextKeepsPushed(s: State, t: nat)
    requires s.Valid() && t < |s.threads|
    ensures s.Next(t).pushed == s.pushed
  {
    hide EnqNext, DeqNext;
  }

  /** The thread that moves in each step of p. */
  ghost predicate Moves(p: seq<State>, batch: Batch, movers: seq<nat>)
    ensures Moves(p, batch, movers) ==> |p| == |movers| + 1 && p[0].Valid()
  {
    |p| == |movers| + 1 && p[0].Valid() && forall i :: 0 <= i < |movers| ==>
      p[i].Valid() && p[i + 1] == BatchNext(p[i], batch, movers[i])
  }

  lemma PathPrefix(p: seq<State>, bound: int)
    requires Path(p, bound) && |p| > 1
    ensures Path(p[..|p| - 1], bound) && PlainStep(p[|p| - 2], p[|p| - 1])
  {
    hide PlainStep;
    assert PlainStep(p[|p| - 2], p[|p| - 2 + 1]);
    var q := p[..|p| - 1];
    forall i | 0 <= i < |q| - 1 ensures PlainStep(q[i], q[i + 1]) {
      assert PlainStep(p[i], p[i + 1]);
    }
  }

  lemma NoMoves(s: State, batch: Batch)
    requires s.Valid()
    ensures Moves([s], batch, [])
  {
  }

  lemma {:induction false} PathMoves(p: seq<State>, bound: int, jobs: nat, wanted: nat) returns (movers: seq<nat>)
    requires Path(p, bound) && p[0].Valid() && |p[0].threads| == p[0].workers + 1 && |p[|p| - 1].pushed| <= jobs
    ensures Moves(p, Equal(jobs, wanted), movers)
    ensures var end := p[|p| - 1]; |end.threads| == |p[0].threads| && end.workers == p[0].workers
    decreases |p|
  {
    hide *;
    if |p| == 1 {
      movers := [];
      assert p == [p[0]];
      NoMoves(p[0], Equal(jobs, wanted));
    } else {
      PathPrefix(p, bound);
      PushedOnly(p[|p| - 2], p[|p| - 1]);
      var before := PathMoves(p[..|p| - 1], bound, jobs, wanted);
      var t := PlainIsBatchStep(p[|p| - 2], p[|p| - 1], jobs, wanted);
      movers := before + [t];
      MovesOnward(p, Equal(jobs, wanted), before, t);
    }
  }

  lemma PushedOnly(s: State, s': State)
    requires PlainStep(s, s')
    ensures s.Valid() && |s.pushed| <= |s'.pushed|
  {
    var a :| Apply(s, a) == s' && Plain(s, a);
    if a.Run? {
      NextKeepsPushed(s, a.t);
    }
    hide State.Next;
  }

  lemma MovesOnward(p: seq<State>, batch: Batch, before: seq<nat>, t: nat)
    requires |p| > 1 && Moves(p[..|p| - 1], batch, before) && p[|p| - 2].Valid()
    requires p[|p| - 1] == BatchNext(p[|p| - 2], batch, t)
    ensures Moves(p, batch, before + [t])
  {
    hide BatchNext, State.Valid;
    var movers, q := before + [t], p[..|p| - 1];
    forall i | 0 <= i < |movers| ensures p[i].Valid() && p[i + 1] == BatchNext(p[i], batch, movers[i]) {
      if i < |before| {
        assert q[i] == p[i] && q[i + 1] == p[i + 1];
      }
    }
  }

  /** First these movers, then everyone in turn. */
  function Then(movers: seq<nat>, m: nat): nat -> nat
    requires m > 0
  {
    (k: nat) => if k < |movers| then movers[k] else Turn(m, k)
  }

  lemma ThenIsFair(movers: seq<nat>, m: nat)
    requires m > 0
    ensures Fair(Then(movers, m), m)
  {
    forall t: nat, k: nat | t < m ensures Later(Then(movers, m), t, k) {
      var r := TurnComes(m, k + |movers|, t);
      assert Then(movers, m)(r) == t;
    }
  }

  lemma MoveAt(p: seq<State>, batch: Batch, movers: seq<nat>, m: nat, k: nat)
    requires Moves(p, batch, movers) && m > 0 && k < |movers|
    ensures p[k].Valid() && p[k + 1] == BatchNext(p[k], batch, Then(movers, m)(k))
  {
    hide BatchNext, State.Valid;
  }

  lemma {:induction false} AlongPath(p: seq<State>, batch: Batch, movers: seq<nat>, m: nat, k: nat)
    requires Moves(p, batch, movers) && m > 0 && k < |p|
    ensures MicLiveness.At(p[0], batch, Then(movers, m), k) == p[k]
  {
    hide *;
    AtStart(p[0], batch, Then(movers, m));
    if k > 0 {
      AlongPath(p, batch, movers, m, k - 1);
      AtNext(p[0], batch, Then(movers, m), k - 1);
      MoveAt(p, batch, movers, m, k - 1);
    }
  }

  // ---------- several workers ----------

  ghost predicate Short(s: State, n: nat) {
    Control(s) && Held(s) + n <= |s.pushed|
  }

  lemma {:induction false} StaysShort(s: State, batch: Batch, sched: nat -> nat, m: nat, k: nat, n: nat)
    requires s.Valid() && m <= k && Short(MicLiveness.At(s, batch, sched, m), n)
    ensures Short(MicLiveness.At(s, batch, sched, k), n)
    decreases k
  {
    hide Control, Held, MicLiveness.At, BatchNext, State.Valid;
    if m < k {
      StaysShort(s, batch, sched, m, k - 1, n);
      AtNext(s, batch, sched, k - 1);
      NothingReturns(MicLiveness.At(s, batch, sched, k - 1), batch, sched(k - 1));
    }
  }

  lemma LostIsShort(s: State, n: nat)
    requires AllLost(s, n)
    ensures Short(s, n)
  {
    NoHands(One(), s.threads);
  }

  lemma {:induction false} SerialsAt(s: State, batch: Batch, sched: nat -> nat, k: nat)
    requires s.Valid() && s.pushed == []
    ensures Serials(MicLiveness.At(s, batch, sched, k).pushed)
  {
    hide MicLiveness.At, BatchNext, State.Valid;
    AtStart(s, batch, sched);
    if k > 0 {
      SerialsAt(s, batch, sched, k - 1);
      AtNext(s, batch, sched, k - 1);
      SerialsStay(MicLiveness.At(s, batch, sched, k - 1), batch, sched(k - 1));
    }
  }

  lemma SerialsStay(s: State, batch: Batch, t: nat)
    requires s.Valid() && Serials(s.pushed)
    ensures Serials(BatchNext(s, batch, t).pushed)
  {
    if t < |s.threads| {
      NextKeepsPushed(s, t);
    }
    hide State.Next;
  }

  function HandJobs(threads: seq<Pc>): seq<Job> {
    if threads == [] then []
    else if Hand(threads[0]) == None then HandJobs(threads[1..])
    else [Hand(threads[0]).value] + HandJobs(threads[1..])
  }

  lemma {:induction false} HandsAreSum(w: Job -> nat, threads: seq<Pc>)
    ensures InHands(w, threads) == Sum(w, HandJobs(threads))
  {
    if threads != [] {
      HandsAreSum(w, threads[1..]);
      if Hand(threads[0]) != None {
        assert HandJobs(threads)[1..] == HandJobs(threads[1..]);
      }
    }
  }

  // All jobs that are waiting, in hand or polled.
  function Everywhere(s: State): seq<Job>
    requires s.Valid()
  {
    s.newJobs.ring.Items() + s.finishedJobs.ring.Items() + HandJobs(s.threads) + s.polled
  }

  lemma EverywhereCounts(s: State, job: Job)
    requires s.Valid()
    ensures |Everywhere(s)| == Held(s) && multiset(Everywhere(s))[job] == Occurrences(job, s)
  {
    HandsAreSum(One(), s.threads);
    SumOfOnes(HandJobs(s.threads));
    HandsAreSum(MicSafety.At(job), s.threads);
    TimesIsMultiplicity(job, s.newJobs.ring.Items());
    TimesIsMultiplicity(job, s.finishedJobs.ring.Items());
    TimesIsMultiplicity(job, HandJobs(s.threads));
    TimesIsMultiplicity(job, s.polled);
    hide Ring.Items, InHands, HandJobs, Sum;
  }

  /** With every pushed job in exactly one place, as many are held as were pushed. */
  lemma ShortIsNotComplete(s: State, batch: Batch, n: nat)
    requires s.Valid() && Short(s, n) && n > 0 && Serials(s.pushed)
    ensures !Complete(s, batch)
  {
    hide Control, Ring.Items, Everywhere, Held, Occurrences, HostDone, Drained, PrefixOf;
    if Complete(s, batch) {
      forall job ensures multiset(s.pushed)[job] == multiset(Everywhere(s))[job] {
        EverywhereCounts(s, job);
        if job in s.pushed {
          DistinctOnce(s.pushed, job);
        }
      }
      assert multiset(s.pushed) == multiset(Everywhere(s));
      assert |multiset(s.pushed)| == |multiset(Everywhere(s))|;
      EverywhereCounts(s, NthJob(0));
      assert false;
    }
  }

  lemma OverrunMoves(n: nat, w: nat, jobs: nat, wanted: nat) returns (p: seq<State>, movers: seq<nat>)
    requires n >= 2 && w >= 2 && n <= jobs
    ensures Moves(p, Equal(jobs, wanted), movers) && p[0] == Start(n, w, 1) && Short(p[|movers|], n)
  {
    var s := Start(n, w, 1);
    var end := WorkersOverrun(n, w, 1);
    LostIsShort(end, n);
    StartHas(n, w);
    hide Start, BatchNext, Short, Path, AllLost, State.Valid, Moves, Equal;
    p :| Path(p, n) && p[0] == s && p[|p| - 1] == end;
    movers := PathMoves(p, n, jobs, wanted);
  }

  // From a state that is short the batch never completes.
  lemma ShortForEver(p: seq<State>, batch: Batch, movers: seq<nat>, m: nat, k: nat, n: nat)
    requires Moves(p, batch, movers) && p[0].pushed == [] && Short(p[|movers|], n) && n > 0 && |movers| <= k && m > 0
    ensures !Complete(MicLiveness.At(p[0], batch, Then(movers, m), k), batch)
  {
    hide *;
    AlongPath(p, batch, movers, m, |movers|);
    StaysShort(p[0], batch, Then(movers, m), |movers|, k, n);
    AtNext(p[0], batch, Then(movers, m), k);
    SerialsAt(p[0], batch, Then(movers, m), k);
    ShortIsNotComplete(MicLiveness.At(p[0], batch, Then(movers, m), k), batch, n);
  }

  /** With two workers or more, and n jobs or more on rings of size n, some fair schedule loses
      n jobs, for ever. */
  lemma WorkersLoseBatch(n: nat, w: nat, jobs: nat, wanted: nat) returns (sched: nat -> nat, m: nat)
    requires n >= 2 && w >= 2 && n <= jobs
    ensures Start(n, w, 1).Valid() && Fair(sched, w + 1)
    ensures forall k: nat :: m <= k ==> !Complete(MicLiveness.At(Start(n, w, 1), Equal(jobs, wanted), sched, k), Equal(jobs, wanted))
  {
    hide *;
    var p, movers := OverrunMoves(n, w, jobs, wanted);
    sched, m := Then(movers, w + 1), |movers|;
    StartHas(n, w);
    ThenIsFair(movers, w + 1);
    forall k: nat | m <= k ensures !Complete(MicLiveness.At(Start(n, w, 1), Equal(jobs, wanted), sched, k), Equal(jobs, wanted)) {
      ShortForEver(p, Equal(jobs, wanted), movers, w + 1, k, n);
    }
  }

  lemma StartHas(n: nat, w: nat)
    requires n >= 2
    ensures var s := Start(n, w, 1); s.Valid() && |s.threads| == s.workers + 1 && s.workers == w && s.pushed == []
  {
    StartIsInit(n, w, 1);
  }

  // ---------- main result ----------

  ghost predicate Completes(s: State, batch: Batch, sched: nat -> nat)
    requires s.Valid()
  {
    exists m: nat :: CompleteFrom(s, batch, sched, m)
  }

  ghost predicate CompleteFrom(s: State, batch: Batch, sched: nat -> nat, m: nat)
    requires s.Valid()
  {
    forall k: nat :: m <= k ==> Complete(MicLiveness.At(s, batch, sched, k), batch)
  }

  /** The state after setup with rings of size n, w workers and one host. */
  ghost predicate SetUp(s: State, n: nat, w: nat)
    ensures SetUp(s, n, w) ==> s.Valid()
  {
    Init(s) && s.Cap() == n && s.workers == w && |s.threads| == w + 1
  }

  /** Every batch of so many jobs, with so many results wanted, completes under every fair
      schedule. */
  ghost predicate AlwaysCompletes(n: nat, w: nat, jobs: nat, wanted: nat) {
    forall s: State, batch: Batch, sched: nat -> nat ::
      SetUp(s, n, w) && |batch.jobs| == jobs && batch.wanted == wanted && Fair(sched, w + 1) ==> Completes(s, batch, sched)
  }

  lemma NeverCompletes(s: State, batch: Batch, sched: nat -> nat, m: nat)
    requires s.Valid() && forall k: nat :: m <= k ==> !Complete(MicLiveness.At(s, batch, sched, k), batch)
    ensures !Completes(s, batch, sched)
  {
    hide MicLiveness.At, Complete, State.Valid;
    forall m': nat ensures !CompleteFrom(s, batch, sched, m') {
      var k := if m <= m' then m' else m;
      assert !Complete(MicLiveness.At(s, batch, sched, k), batch);
    }
  }

  lemma NotDoneNotComplete(s: State, batch: Batch)
    requires s.Valid() && !HostDone(s, batch)
    ensures !Complete(s, batch)
  {
  }

  // One worker and a host that has too much to push.
  lemma WorkerJams(n: nat, jobs: nat, wanted: nat) returns (sched: nat -> nat, m: nat)
    requires n >= 2 && 2 * n <= jobs && wanted <= jobs
    ensures Start(n, 1, 1).Valid() && Fair(sched, 2)
    ensures forall k: nat :: m <= k ==> !Complete(MicLiveness.At(Start(n, 1, 1), Equal(jobs, wanted), sched, k), Equal(jobs, wanted))
  {
    var s, batch := Start(n, 1, 1), Equal(jobs, wanted);
    SetUpStart(n, 1);
    hide MicLiveness.At, HostDone, Fair, Complete, Start, Init, BatchInv, State.Valid, Jammed, Then;
    sched := Then([], 2);
    ThenIsFair([], 2);
    m := BatchCompletes(s, batch, sched);
    forall k: nat | m <= k ensures !Complete(MicLiveness.At(s, batch, sched, k), batch) {
      NotDoneNotComplete(MicLiveness.At(s, batch, sched, k), batch);
    }
  }

  /** Which batches complete under every fair schedule, for every capacity, number of workers,
      number of jobs and number of results wanted. */
  lemma CompletesExactly(n: nat, w: nat, jobs: nat, wanted: nat)
    requires n >= 2 && w >= 1 && wanted <= jobs
    ensures AlwaysCompletes(n, w, jobs, wanted) <==> jobs <= n - 1 || (w == 1 && jobs <= 2 * n - 1)
  {
    hide MicLiveness.At, HostDone, Fair, Complete, Completes, Start, Init, BatchInv, State.Valid, Jammed;
    if jobs <= n - 1 || (w == 1 && jobs <= 2 * n - 1) {
      forall s: State, batch: Batch, sched: nat -> nat
        | SetUp(s, n, w) && |batch.jobs| == jobs && batch.wanted == wanted && Fair(sched, w + 1)
        ensures Completes(s, batch, sched)
      {
        var m := BatchCompletes(s, batch, sched);
        CompletesBy(s, batch, sched, m);
      }
    } else {
      var sched, m;
      if w >= 2 {
        sched, m := WorkersLoseBatch(n, w, jobs, wanted);
      } else {
        sched, m := WorkerJams(n, jobs, wanted);
      }
      SetUpStart(n, w);
      NeverCompletes(Start(n, w, 1), Equal(jobs, wanted), sched, m);
    }
  }

  lemma CompletesBy(s: State, batch: Batch, sched: nat -> nat, m: nat)
    requires s.Valid() && forall k :: m <= k ==> Complete(MicLiveness.At(s, batch, sched, k), batch)
    ensures Completes(s, batch, sched)
  {
    hide MicLiveness.At, Complete;
    assert CompleteFrom(s, batch, sched, m);
  }

  lemma SetUpStart(n: nat, w: nat)
    requires n >= 2
    ensures SetUp(Start(n, w, 1), n, w)
  {
    StartIsInit(n, w, 1);
    WaitingFits(w, 1, n);
  }
}
