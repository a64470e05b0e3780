/** Polls among concurrent pushes and polls on the CPU: a poll returns whether or not there is a
    result, under every fair schedule exactly if no other host polls. */
module CpuPolls {
  import opened Rings
  import opened CpuMachine
  import opened CpuFifo
  import opened Turns

  // ---------- runs of pushes and polls ----------

  /** A host between calls, in a push, or in a poll. */
  ghost predicate PushPoll(h: HostPc) {
    match h
    case Idle => true
    case WantEnq(_, b) => !b
    case Enqueuing(_, b, _) => !b
    case EnqRelease(_, b) => !b
    case WantPoll => true
    case Polling(d) => !d.AgainRear? && !d.AgainFront?
    case PollRelease => true
    case _ => false
  }

  ghost predicate InPoll(h: HostPc) { h.WantPoll? || h.Polling? || h.PollRelease? }

  ghost predicate PushPolls(s: State)
    ensures PushPolls(s) ==> s.Valid()
  {
    Inv(s) && forall t :: 0 <= t < |s.hosts| ==> PushPoll(s.hosts[t])
  }

  ghost predicate IsPushPollRun(run: seq<State>) {
    |run| > 0 && Init(run[0]) && forall i :: 0 <= i < |run| - 1 ==> PushPollStep(run[i], run[i + 1])
  }

  ghost predicate PushPollStep(s: State, s': State) {
    s.Valid() && exists a :: Apply(s, a) == s' && !a.BlockingRun?
  }

  /** Steps a poll still takes. */
  function PollRank(h: HostPc): nat {
    match h
    case WantPoll => 8
    case Polling(d) => (
      match d
      case EmptyRear => 7
      case EmptyFront(_) => 6
      case ReadFront => 5
      case ReadSlot(_) => 4
      case ReadAgain(_) => 3
      case _ => 2)
    case PollRelease => 1
    case _ => 0
  }

  lemma PollGoesOn(s: State, t: nat)
    requires s.Valid() && t < |s.hosts| && PushPoll(s.hosts[t]) && InPoll(s.hosts[t])
    requires s.hosts[t].WantPoll? ==> s.dequeueLock == None
    ensures var s' := s.HostNext(t);
            |s'.hosts| == |s.hosts| && PushPoll(s'.hosts[t]) && PollRank(s'.hosts[t]) < PollRank(s.hosts[t]) &&
            if s'.hosts[t].Idle? then s'.dequeueLock == None else InPoll(s'.hosts[t]) && !s'.hosts[t].WantPoll?
  {
  }

  lemma OwnStep(s: State, t: nat)
    requires s.Valid() && t < |s.hosts| && PushPoll(s.hosts[t])
    ensures |s.HostNext(t).hosts| == |s.hosts| && PushPoll(s.HostNext(t).hosts[t])
  {
    hide DeqFits, EnqFits, Ring.Valid;
  }

  lemma OthersStay(s: State, a: Action, t: nat)
    requires s.Valid() && t < |s.hosts| && a != Host(t) && (s.hosts[t].Idle? ==> !(a.Push? && a.t == t) && !(a.Poll? && a.t == t))
    requires !a.BlockingRun?
    ensures |Apply(s, a).hosts| == |s.hosts| && Apply(s, a).hosts[t] == s.hosts[t]
  {
    match a
    case Worker => WorkerLeavesHosts(s);
    case Host(u) => if u < |s.hosts| { HostLeavesOthers(s, u); }
    case _ => hide State.WorkerNext, State.HostNext, State.Valid;
  }

  lemma WorkerLeavesHosts(s: State)
    requires s.Valid()
    ensures s.WorkerNext().hosts == s.hosts
  {
    hide DeqNext, EnqNext;
  }

  lemma HostLeavesOthers(s: State, u: nat)
    requires s.Valid() && u < |s.hosts|
    ensures |s.HostNext(u).hosts| == |s.hosts|
    ensures forall t :: 0 <= t < |s.hosts| && t != u ==> s.HostNext(u).hosts[t] == s.hosts[t]
  {
    assert s.HostNext(u).hosts == s.hosts[u := s.HostNext(u).hosts[u]] by { hide DeqNext, EnqNext, Ring.Valid, HostFits; }
    hide State.HostNext;
  }

  lemma ApplyKeepsHosts(s: State, a: Action)
    requires s.Valid()
    ensures |Apply(s, a).hosts| == |s.hosts|
  {
    match a
    case Worker => WorkerLeavesHosts(s);
    case Host(u) => if u < |s.hosts| { HostLeavesOthers(s, u); }
    case _ => hide State.WorkerNext, State.HostNext, State.Valid;
  }

  lemma StepKeepsPushPoll(s: State, a: Action)
    requires PushPolls(s) && !a.BlockingRun?
    ensures PushPolls(Apply(s, a))
  {
    StepKeepsInv(s, a);
    ApplyKeepsHosts(s, a);
    forall t | 0 <= t < |s.hosts| ensures PushPoll(Apply(s, a).hosts[t]) {
      HostKeepsPushPoll(s, a, t);
    }
    hide Inv, Apply, PushPoll;
  }

  lemma HostKeepsPushPoll(s: State, a: Action, t: nat)
    requires PushPolls(s) && !a.BlockingRun? && t < |s.hosts|
    ensures t < |Apply(s, a).hosts| && PushPoll(Apply(s, a).hosts[t])
  {
    assert s.Valid();
    if a == Host(t) {
      OwnStep(s, t);
      hide State.HostNext;
    } else if s.hosts[t].Idle? && (a.Push? || a.Poll?) && a.t == t {
    } else {
      OthersStay(s, a, t);
      hide Apply;
    }
    hide Inv;
  }

  lemma {:induction false} RunKeepsPushPolls(run: seq<State>, i: nat)
    requires IsPushPollRun(run) && i < |run|
    ensures PushPolls(run[i]) && |run[i].hosts| == |run[0].hosts|
  {
    if i == 0 {
      InitHasInv(run[0]);
    } else {
      RunKeepsPushPolls(run, i - 1);
      assert PushPollStep(run[i - 1], run[i - 1 + 1]);
      var a :| Apply(run[i - 1], a) == run[i] && !a.BlockingRun?;
      hide Inv, Apply, PushPoll;
      StepKeepsPushPoll(run[i - 1], a);
      ApplyKeepsHosts(run[i - 1], a);
    }
  }

  // ---------- schedules with calls ----------

  /** Which thread moves, or which host starts a push or a poll. */
  type Schedule = nat -> Action

  ghost predicate Legal(sched: Schedule) {
    forall k: nat :: !sched(k).BlockingRun?
  }

  ghost function At(s: State, sched: Schedule, k: nat): (x: State)
    requires PushPolls(s) && Legal(sched)
    ensures PushPolls(x) && |x.hosts| == |s.hosts|
  {
    if k == 0 then s
    else
      var x := At(s, sched, k - 1);
      StepKeepsPushPoll(x, sched(k - 1));
      ApplyKeepsHosts(x, sched(k - 1));
      Apply(x, sched(k - 1))
  }

  lemma AtNext(s: State, sched: Schedule, k: nat)
    requires PushPolls(s) && Legal(sched)
    ensures At(s, sched, k + 1) == Apply(At(s, sched, k), sched(k)) && !sched(k).BlockingRun?
  {
    hide PushPolls, Apply;
  }

  lemma AtStart(s: State, sched: Schedule)
    requires PushPolls(s) && Legal(sched)
    ensures At(s, sched, 0) == s
  {
    hide PushPolls, Apply;
  }

  ghost predicate Later(sched: Schedule, a: Action, k: nat) {
    exists j: nat :: j >= k && sched(j) == a
  }

  /** The worker and every host are scheduled again and again; calls may start at any step. */
  ghost predicate Fair(sched: Schedule, hosts: nat) {
    Legal(sched) && (forall k: nat :: Later(sched, Worker, k)) &&
    forall t: nat, k: nat :: t < hosts ==> Later(sched, Host(t), k)
  }

  ghost predicate LeavesQueue(s: State, sched: Schedule, t: nat, k: nat)
    requires PushPolls(s) && Legal(sched) && t < |s.hosts|
  {
    exists j: nat :: j >= k && !At(s, sched, j).hosts[t].WantPoll?
  }

  ghost predicate LockedFrom(s: State, sched: Schedule, j: nat)
    requires PushPolls(s) && Legal(sched)
  {
    forall i: nat :: i >= j ==> At(s, sched, i).dequeueLock != None
  }

  /** The dequeue mutex starves nobody: a poll that asks for it gets it, unless it is never free
      again. */
  ghost predicate StarvationFree(s: State, sched: Schedule)
    requires PushPolls(s) && Legal(sched)
  {
    forall t: nat, k: nat :: t < |s.hosts| ==>
      LeavesQueue(s, sched, t, k) || exists j: nat :: j >= k && LockedFrom(s, sched, j)
  }

  ghost predicate Returns(s: State, sched: Schedule, t: nat, k: nat)
    requires PushPolls(s) && Legal(sched) && t < |s.hosts|
  {
    exists j: nat :: j >= k && !InPoll(At(s, sched, j).hosts[t])
  }

  /** Whenever a host is in a poll, it returns from it at some later step. */
  ghost predicate PollsReturn(s: State, sched: Schedule)
    requires PushPolls(s) && Legal(sched)
  {
    forall t: nat, k: nat :: t < |s.hosts| ==> Returns(s, sched, t, k)
  }

  // One step of anyone, for a host inside the mutex.
  lemma InsideStep(s: State, a: Action, t: nat)
    requires PushPolls(s) && t < |s.hosts| && InPoll(s.hosts[t]) && !s.hosts[t].WantPoll? && !a.BlockingRun?
    ensures var s' := Apply(s, a);
            |s'.hosts| == |s.hosts| &&
            if a == Host(t) then
              PollRank(s'.hosts[t]) < PollRank(s.hosts[t]) &&
              if s'.hosts[t].Idle? then s'.dequeueLock == None else InPoll(s'.hosts[t]) && !s'.hosts[t].WantPoll?
            else s'.hosts[t] == s.hosts[t] && !s'.hosts[t].Idle?
  {
    assert PushPoll(s.hosts[t]);
    if a == Host(t) {
      PollGoesOn(s, t);
    } else {
      OthersStay(s, a, t);
      hide Apply;
    }
    hide PushPolls;
  }

  lemma FairIsLegal(sched: Schedule, hosts: nat)
    requires Fair(sched, hosts)
    ensures Legal(sched)
  {
  }

  lemma DueAgain(sched: Schedule, hosts: nat, t: nat, k: nat) returns (due: nat)
    requires Fair(sched, hosts) && t < hosts
    ensures due >= k && sched(due) == Host(t)
  {
    assert Later(sched, Host(t), k);
    due :| due >= k && sched(due) == Host(t);
  }

  /** A poll inside the mutex ends after a bounded number of its own steps, with or without a
      result, and frees the mutex. */
  lemma {:induction false} InsideReturns(s: State, sched: Schedule, t: nat, k: nat, due: nat) returns (j: nat)
    requires PushPolls(s) && Fair(sched, |s.hosts|) && t < |s.hosts| && k <= due && sched(due) == Host(t)
    requires InPoll(At(s, sched, k).hosts[t]) && !At(s, sched, k).hosts[t].WantPoll?
    ensures j > k && At(s, sched, j).hosts[t].Idle? && At(s, sched, j).dequeueLock == None
    decreases PollRank(At(s, sched, k).hosts[t]), due - k
  {
    hide *;
    FairIsLegal(sched, |s.hosts|);
    AtNext(s, sched, k);
    InsideStep(At(s, sched, k), sched(k), t);
    j := k + 1;
    if !At(s, sched, j).hosts[t].Idle? {
      var next := due;
      if sched(k) == Host(t) {
        next := DueAgain(sched, |s.hosts|, t, k + 1);
      }
      j := InsideReturns(s, sched, t, k + 1, next);
    }
  }

  // The mutex is never held for ever.
  lemma NotLockedForEver(s: State, sched: Schedule, k: nat)
    requires PushPolls(s) && Fair(sched, |s.hosts|)
    ensures !LockedFrom(s, sched, k)
  {
    var x := At(s, sched, k);
    if x.dequeueLock != None {
      var t := HolderPolls(x);
      hide PushPolls, Fair, At, InPoll;
      var due := DueAgain(sched, |s.hosts|, t, k);
      var j := InsideReturns(s, sched, t, k, due);
    }
  }

  lemma HolderPolls(s: State) returns (t: nat)
    requires PushPolls(s) && s.dequeueLock != None
    ensures t < |s.hosts| && InPoll(s.hosts[t]) && !s.hosts[t].WantPoll?
  {
    t := s.dequeueLock.value;
    assert MutexOk(s) && PushPoll(s.hosts[t]);
    hide Fifo;
  }

  /** Under a fair schedule, with pushes and polls starting at any time, every poll returns exactly
      if the dequeue mutex starves nobody. */
  lemma PollsReturnExactly(s: State, sched: Schedule)
    requires PushPolls(s) && Fair(sched, |s.hosts|)
    ensures PollsReturn(s, sched) <==> StarvationFree(s, sched)
  {
    hide PushPolls, At, Fair;
    assert Legal(sched) by { FairIsLegal(sched, |s.hosts|); }
    if PollsReturn(s, sched) {
      forall t: nat, k: nat | t < |s.hosts| ensures LeavesQueue(s, sched, t, k) {
        assert Returns(s, sched, t, k);
        var j: nat :| j >= k && !InPoll(At(s, sched, j).hosts[t]);
        assert !At(s, sched, j).hosts[t].WantPoll?;
      }
    } else if StarvationFree(s, sched) {
      forall t: nat, k: nat | t < |s.hosts| ensures Returns(s, sched, t, k) {
        forall j: nat ensures !LockedFrom(s, sched, j) { NotLockedForEver(s, sched, j); }
        assert LeavesQueue(s, sched, t, k);
        var j: nat :| j >= k && !At(s, sched, j).hosts[t].WantPoll?;
        if InPoll(At(s, sched, j).hosts[t]) {
          var due := DueAgain(sched, |s.hosts|, t, j);
          var i := InsideReturns(s, sched, t, j, due);
          assert !InPoll(At(s, sched, i).hosts[t]);
        }
      }
    }
  }

  // ---------- when fair scheduling is enough ----------

  lemma LoneHostEnters(s: State)
    requires PushPolls(s) && |s.hosts| == 1 && s.hosts[0].WantPoll?
    ensures |Apply(s, Host(0)).hosts| == 1 && !Apply(s, Host(0)).hosts[0].WantPoll?
  {
    assert MutexOk(s);
    hide Fifo;
  }

  lemma LoneHostIsNotStarved(s: State, sched: Schedule)
    requires PushPolls(s) && |s.hosts| <= 1 && Fair(sched, |s.hosts|)
    ensures StarvationFree(s, sched)
  {
    hide PushPolls, At, Fair, Apply;
    assert Legal(sched) by { FairIsLegal(sched, |s.hosts|); }
    forall t: nat, k: nat | t < |s.hosts| ensures LeavesQueue(s, sched, t, k) {
      var j := DueAgain(sched, |s.hosts|, t, k);
      AtNext(s, sched, j);
      if At(s, sched, j).hosts[t].WantPoll? {
        LoneHostEnters(At(s, sched, j));
        assert !At(s, sched, j + 1).hosts[t].WantPoll?;
      }
    }
  }

  /** Host 1 asks for the mutex; nothing waits, and the worker looks for a job. */
  ghost predicate Stuck(s: State)
    ensures Stuck(s) ==> |s.hosts| >= 2
  {
    && s.Valid() && s.worker == Fetching(EmptyRear) && s.newJobs.IsEmpty() && s.finishedJobs.IsEmpty()
    && s.dequeueLock == None && |s.hosts| >= 2 && s.hosts[1] == WantPoll
    && forall t :: 0 <= t < |s.hosts| && t != 1 ==> s.hosts[t].Idle?
  }

  /** Host 0 polls again and again; while it does, the others take turns. */
  function Unlucky(h: nat): Schedule
    requires h >= 2
  {
    (k: nat) =>
      if k % 8 == 0 then Poll(0)
      else if k % 8 == 2 then Host(1 + Turn(h - 1, k / 8))
      else if k % 8 <= 5 then Host(0) else Worker
  }

  function Held(s: State, h: HostPc): State
    requires |s.hosts| >= 2
  {
    s.(hosts := s.hosts[0 := h], dequeueLock := Some(0))
  }

  function Phase(s: State, p: nat): State
    requires |s.hosts| >= 2
  {
    if p == 1 then s.(hosts := s.hosts[0 := WantPoll])
    else if p == 2 || p == 3 then Held(s, Polling(EmptyRear))
    else if p == 4 then Held(s, Polling(EmptyFront(s.finishedJobs.rear)))
    else if p == 5 then Held(s, PollRelease)
    else if p == 7 then s.(worker := Fetching(EmptyFront(s.newJobs.rear)))
    else s
  }

  lemma NextPhase(s: State, p: nat, a: Action)
    requires Stuck(s) && p < 8
    requires if p == 2 then a.Host? && 1 <= a.t < |s.hosts|
             else a == if p == 0 then Poll(0) else if p <= 5 then Host(0) else Worker
    ensures Phase(s, p).Valid() && Apply(Phase(s, p), a) == Phase(s, if p == 7 then 0 else p + 1)
  {
    var x, y := Phase(s, p), Phase(s, if p == 7 then 0 else p + 1);
    assert x.hosts[0 := y.hosts[0]] == y.hosts;
    if p == 0 || p == 2 {
      hide State.WorkerNext, Ring.Items;
    } else if p <= 5 {
      hide State.WorkerNext, Ring.Items;
    } else {
      hide State.HostNext, Ring.Items;
    }
  }

  ghost predicate Cyclic(s: State, sched: Schedule)
    requires |s.hosts| >= 2
  {
    forall k: nat {:trigger sched(k)} :: Phase(s, k % 8).Valid() && Apply(Phase(s, k % 8), sched(k)) == Phase(s, (k + 1) % 8)
  }

  lemma UnluckyIsCyclic(s: State)
    requires Stuck(s)
    ensures Cyclic(s, Unlucky(|s.hosts|))
  {
    hide Apply, State.Valid, Phase, Stuck;
    forall k: nat
      ensures Phase(s, k % 8).Valid() && Apply(Phase(s, k % 8), Unlucky(|s.hosts|)(k)) == Phase(s, (k + 1) % 8)
    {
      NextPhase(s, k % 8, Unlucky(|s.hosts|)(k));
    }
  }

  lemma CyclicAt(s: State, sched: Schedule, k: nat)
    requires |s.hosts| >= 2 && Cyclic(s, sched)
    ensures Phase(s, k % 8).Valid() && Apply(Phase(s, k % 8), sched(k)) == Phase(s, (k + 1) % 8)
  {
    hide Apply, State.Valid, Phase;
  }

  lemma {:induction false} Cycles(s: State, sched: Schedule, k: nat)
    requires PushPolls(s) && Legal(sched) && |s.hosts| >= 2 && Cyclic(s, sched)
    ensures At(s, sched, k) == Phase(s, k % 8)
  {
    hide *;
    if k == 0 {
      AtStart(s, sched);
      StartsAsIs(s);
    } else {
      CyclicAt(s, sched, k - 1);
      Cycles(s, sched, k - 1);
      AtNext(s, sched, k - 1);
    }
  }

  lemma StartsAsIs(s: State)
    requires |s.hosts| >= 2
    ensures Phase(s, 0) == s
  {
  }

  lemma UnluckyIsFair(h: nat)
    requires h >= 2
    ensures Fair(Unlucky(h), h)
  {
    forall k: nat ensures Later(Unlucky(h), Worker, k) {
      assert Unlucky(h)(8 * k + 6) == Worker;
    }
    forall t: nat, k: nat | t < h ensures Later(Unlucky(h), Host(t), k) {
      if t == 0 {
        assert Unlucky(h)(8 * k + 1) == Host(0);
      } else {
        var q := TurnComes(h - 1, k, t - 1);
        assert (8 * q + 2) / 8 == q && (8 * q + 2) % 8 == 2;
        assert Unlucky(h)(8 * q + 2) == Host(t);
      }
    }
  }

  /** After setup the worker looks for a job and host 1 starts a poll. */
  lemma GetsStuck(n: nat, h: nat) returns (run: seq<State>)
    requires n >= 2 && h >= 2
    ensures |run| > 0 && IsPushPollRun(run) && run[0].Cap() == n && |run[0].hosts| == h && Stuck(run[|run| - 1])
  {
    var ring := Ring(seq(n, _ => Job(0, 0, 0, 0)), 1, 0);
    var s := State(ring, ring, None, None, false, LoopHead, seq(h, _ => Idle), [], [], seq(h, _ => 0));
    var s1 := s.(worker := Fetching(EmptyRear));
    var s2 := s1.Host(1, WantPoll);
    assert Apply(s, Worker) == s1 && Apply(s1, Poll(1)) == s2;
    run := [s, s1, s2];
    assert PushPollStep(run[0], run[1]) && PushPollStep(run[1], run[2]);
  }

  /** With two hosts or more, for any capacity, a poll may never return although the schedule is
      fair: another host polls again and again and holds the mutex whenever it is its turn. */
  lemma FairIsNotEnough(n: nat, h: nat) returns (run: seq<State>)
    requires n >= 2 && h >= 2
    ensures |run| > 0 && IsPushPollRun(run) && run[0].Cap() == n && |run[0].hosts| == h
    ensures var s := run[|run| - 1];
            PushPolls(s) && |s.hosts| == h && Fair(Unlucky(h), h) &&
            forall k: nat :: At(s, Unlucky(h), k).hosts[1] == WantPoll
  {
    run := GetsStuck(n, h);
    var s := run[|run| - 1];
    RunKeepsPushPolls(run, |run| - 1);
    UnluckyIsFair(h);
    UnluckyIsCyclic(s);
    hide IsPushPollRun, PushPolls, Fair, At, Unlucky, Cyclic;
    FairIsLegal(Unlucky(h), h);
    forall k: nat ensures At(s, Unlucky(h), k).hosts[1] == WantPoll {
      Cycles(s, Unlucky(h), k);
      AsksInEveryPhase(s, k % 8);
    }
  }

  lemma AsksInEveryPhase(s: State, p: nat)
    requires Stuck(s) && p < 8
    ensures |Phase(s, p).hosts| == |s.hosts| && Phase(s, p).hosts[1] == WantPoll
  {
  }

  /** In every state of every run of pushes and polls with h hosts on rings of size n, and under
      every fair schedule from there, every poll returns. */
  ghost predicate FairPollsReturn(n: nat, h: nat) {
    forall run: seq<State>, i: nat, sched: Schedule ::
      i < |run| && IsPushPollRun(run) && run[0].Cap() == n && |run[0].hosts| == h && Fair(sched, h) ==>
        ReturnsAll(run[i], sched)
  }

  ghost predicate ReturnsAll(s: State, sched: Schedule) {
    PushPolls(s) && Legal(sched) && PollsReturn(s, sched)
  }

  /** For every capacity and number of hosts: under all fair schedules every poll returns exactly
      when there is at most one host. */
  lemma FairIsEnoughExactly(n: nat, h: nat)
    requires n >= 2
    ensures FairPollsReturn(n, h) <==> h <= 1
  {
    hide IsPushPollRun, PushPolls, Fair, At, PollsReturn, StarvationFree;
    if h <= 1 {
      forall run: seq<State>, i: nat, sched: Schedule
        | i < |run| && IsPushPollRun(run) && run[0].Cap() == n && |run[0].hosts| == h && Fair(sched, h)
        ensures ReturnsAll(run[i], sched)
      {
        RunKeepsPushPolls(run, i);
        FairIsLegal(sched, h);
        LoneHostIsNotStarved(run[i], sched);
        PollsReturnExactly(run[i], sched);
      }
    } else {
      var run := FairIsNotEnough(n, h);
      var s := run[|run| - 1];
      FairIsLegal(Unlucky(h), h);
      NeverReturns(s, Unlucky(h), 1);
      assert !ReturnsAll(s, Unlucky(h));
    }
  }

  lemma NeverReturns(s: State, sched: Schedule, t: nat)
    requires PushPolls(s) && Legal(sched) && t < |s.hosts| && forall k: nat :: At(s, sched, k).hosts[t] == WantPoll
    ensures !PollsReturn(s, sched)
  {
    hide PushPolls, At;
    assert !Returns(s, sched, t, 0);
  }
}
