/** Host threads that all use CPU_gemtcBlockingRun, with an ID no other running call has:
    each call takes out exactly its own result, and no state is a dead end. */
module CpuBlockingRun {
  import opened Rings
  import opened CpuMachine
  import opened CpuFifo

  // ---------- the runs considered ----------

  /** The ID of the blocking run a host is in. */
  function IdOf(h: HostPc): Option<int> {
    match h
    case WantEnq(job, true) => Some(job.jobId)
    case Enqueuing(job, true, _) => Some(job.jobId)
    case EnqRelease(id, true) => Some(id)
    case WantHead(id) => Some(id)
    case Waiting(id, _) => Some(id)
    case WaitRelease(id) => Some(id)
    case DoneRelease(id) => Some(id)
    case _ => None
  }

  /** The ID of a call whose job has been pushed and whose result it has not taken yet. */
  function Awaiting(h: HostPc): Option<int> {
    if h.WantEnq? || h.DoneRelease? then None else IdOf(h)
  }

  ghost predicate Fresh(s: State, id: int) {
    forall t :: 0 <= t < |s.hosts| ==> IdOf(s.hosts[t]) != Some(id)
  }

  ghost predicate Allowed(s: State, a: Action) {
    a.Worker? || a.Host? || (a.BlockingRun? && Fresh(s, a.job.jobId))
  }

  ghost predicate RunStep(s: State, s': State) {
    s.Valid() && exists a :: Apply(s, a) == s' && Allowed(s, a)
  }

  ghost predicate IsBlockingRun(run: seq<State>) {
    |run| > 0 && Init(run[0]) && forall i :: 0 <= i < |run| - 1 ==> RunStep(run[i], run[i + 1])
  }

  // ---------- the invariant ----------

  ghost predicate OnlyRuns(s: State) {
    !s.kill && s.worker != Exited &&
    forall t :: 0 <= t < |s.hosts| ==> s.hosts[t].Idle? || IdOf(s.hosts[t]) != None
  }

  ghost predicate DistinctIds(hosts: seq<HostPc>) {
    forall t, u :: 0 <= t < u < |hosts| && IdOf(hosts[t]) != None ==> IdOf(hosts[t]) != IdOf(hosts[u])
  }

  function Awaits(hosts: seq<HostPc>): seq<Option<int>> {
    seq(|hosts|, t requires 0 <= t < |hosts| => Awaiting(hosts[t]))
  }

  function Ids(jobs: seq<Job>): seq<int> {
    seq(|jobs|, k requires 0 <= k < |jobs| => jobs[k].jobId)
  }

  /** Awaiting calls and outstanding jobs correspond one to one. */
  ghost predicate Matching(awaits: seq<Option<int>>, out: seq<int>) {
    (forall k :: 0 <= k < |out| ==> Some(out[k]) in awaits) &&
    (forall t :: 0 <= t < |awaits| && awaits[t] != None ==> awaits[t].value in out) &&
    (forall j, k :: 0 <= j < k < |out| ==> out[j] != out[k])
  }

  function RemovedBy(t: nat, removed: seq<Removal>): nat {
    if removed == [] then 0
    else RemovedBy(t, removed[..|removed| - 1]) + if removed[|removed| - 1].host == t then 1 else 0
  }

  /** A call that has started and has not taken its result. */
  predicate Unserved(h: HostPc) { h.WantEnq? || Awaiting(h) != None }

  ghost predicate Counted(s: State)
  {
    |s.calls| == |s.hosts| &&
    forall t :: 0 <= t < |s.hosts| ==> s.calls[t] == RemovedBy(t, s.removed) + if Unserved(s.hosts[t]) then 1 else 0
  }

  ghost predicate RightRemovals(removed: seq<Removal>) {
    forall k :: 0 <= k < |removed| ==> removed[k].wanted == Some(removed[k].job.jobId)
  }

  ghost predicate RunInv(s: State)
    ensures RunInv(s) ==> Inv(s)
  {
    Inv(s) && OnlyRuns(s) && DistinctIds(s.hosts) && Matching(Awaits(s.hosts), Ids(Outstanding(s))) &&
    RightRemovals(s.removed) && Counted(s)
  }

  // ---------- how the correspondence moves ----------

  lemma MatchPush(awaits: seq<Option<int>>, out: seq<int>, t: nat, id: int)
    requires Matching(awaits, out) && t < |awaits| && awaits[t] == None && Some(id) !in awaits
    ensures Matching(awaits[t := Some(id)], out + [id])
  {
    var awaits', out' := awaits[t := Some(id)], out + [id];
    forall k | 0 <= k < |out'| ensures Some(out'[k]) in awaits' {
      if k < |out| {
        var u :| 0 <= u < |awaits| && awaits[u] == Some(out[k]);
        assert awaits'[u] == awaits[u];
      } else {
        assert awaits'[t] == Some(id);
      }
    }
    forall u | 0 <= u < |awaits'| && awaits'[u] != None ensures awaits'[u].value in out' {
      if u == t {
        assert out'[|out|] == id;
      } else {
        var k :| 0 <= k < |out| && out[k] == awaits[u].value;
        assert out'[k] == out[k];
      }
    }
    forall j, k | 0 <= j < k < |out'| ensures out'[j] != out'[k] {
      if k == |out| {
        assert Some(out[j]) in awaits;
      }
    }
  }

  lemma MatchTake(awaits: seq<Option<int>>, out: seq<int>, t: nat)
    requires Matching(awaits, out) && out != [] && t < |awaits| && awaits[t] == Some(out[0])
    requires forall u :: 0 <= u < |awaits| && u != t ==> awaits[u] != awaits[t]
    ensures Matching(awaits[t := None], out[1..])
  {
    var awaits', out' := awaits[t := None], out[1..];
    forall k | 0 <= k < |out'| ensures Some(out'[k]) in awaits' {
      assert out'[k] == out[k + 1];
      var u :| 0 <= u < |awaits| && awaits[u] == Some(out[k + 1]);
      assert awaits'[u] == awaits[u];
    }
    forall u | 0 <= u < |awaits'| && awaits'[u] != None ensures awaits'[u].value in out' {
      var k :| 0 <= k < |out| && out[k] == awaits[u].value;
      assert out'[k - 1] == out[k];
    }
    forall j, k | 0 <= j < k < |out'| ensures out'[j] != out'[k] {
      assert out[j + 1] != out[k + 1];
    }
  }

  // ---------- steps ----------

  /** What a host's step does to the logs: nothing, one push, or one removal. */
  ghost predicate StepShape(s: State, t: nat, s': State)
    requires t < |s.hosts|
  {
    |s'.hosts| == |s.hosts| && s'.hosts == s.hosts[t := s'.hosts[t]] && s'.calls == s.calls && s'.kill == s.kill &&
    s'.worker == s.worker &&
    var h, h' := s.hosts[t], s'.hosts[t];
    (h'.Idle? || IdOf(h') == IdOf(h)) &&
    if s'.pushed != s.pushed then
      h.WantEnq? && s'.pushed == s.pushed + [h.job] && s'.removed == s.removed && IdOf(h) == Some(h.job.jobId) &&
      Awaiting(h) == None && Awaiting(h') == IdOf(h) && Unserved(h') && Unserved(h)
    else if s'.removed != s.removed then
      h.Waiting? && h.d.Advance? && h.d.copy.jobId == h.id &&
      s'.removed == s.removed + [Removal(h.d.copy, t, Some(h.id))] &&
      Awaiting(h') == None && h' == DoneRelease(h.id) && Unserved(h) && !Unserved(h')
    else Awaiting(h') == Awaiting(h) && Unserved(h') == Unserved(h)
  }

  lemma EnqueuingShape(s: State, t: nat)
    requires s.Valid() && t < |s.hosts| && s.hosts[t].Enqueuing?
    ensures StepShape(s, t, s.HostNext(t))
  {
    hide EnqNext, EnqFits, DeqFits, Ring.Valid;
  }

  lemma WaitingShape(s: State, t: nat)
    requires s.Valid() && t < |s.hosts| && s.hosts[t].Waiting? && HostKnows(s.hosts[t], s.newJobs, s.finishedJobs)
    ensures StepShape(s, t, s.HostNext(t))
  {
    CopyKept(s.hosts[t].d, s.finishedJobs);
    hide DeqKnows, EnqFits, DeqFits, Ring.Valid;
  }

  lemma OtherShape(s: State, t: nat)
    requires s.Valid() && t < |s.hosts| && !s.hosts[t].Enqueuing? && !s.hosts[t].Waiting?
    requires s.hosts[t].Idle? || IdOf(s.hosts[t]) != None
    ensures StepShape(s, t, s.HostNext(t))
  {
    hide EnqFits, DeqFits, Ring.Valid, HostFits, WorkerFits;
  }

  lemma HostStepShape(s: State, t: nat)
    requires Inv(s) && OnlyRuns(s) && t < |s.hosts|
    ensures StepShape(s, t, s.HostNext(t))
  {
    assert HostKnows(s.hosts[t], s.newJobs, s.finishedJobs);
    hide StepShape, State.HostNext, Fifo, MutexOk, HostKnows;
    if s.hosts[t].Enqueuing? {
      EnqueuingShape(s, t);
    } else if s.hosts[t].Waiting? {
      WaitingShape(s, t);
    } else {
      OtherShape(s, t);
    }
  }

  lemma Cancel(a: seq<Job>, b: seq<Job>, c: seq<Job>)
    requires a + b == a + c
    ensures b == c
  {
    assert b == (a + b)[|a|..];
    assert c == (a + c)[|a|..];
  }

  lemma OutstandingAfterPush(s: State, s': State, job: Job)
    requires s.Valid() && s'.Valid() && Fifo(s) && Fifo(s') && s'.pushed == s.pushed + [job] && s'.removed == s.removed
    ensures Outstanding(s') == Outstanding(s) + [job]
  {
    hide Outstanding, Jobs;
    assert Jobs(s.removed) + Outstanding(s') == Jobs(s.removed) + (Outstanding(s) + [job]);
    Cancel(Jobs(s.removed), Outstanding(s'), Outstanding(s) + [job]);
  }

  lemma JobsAppend(removed: seq<Removal>, r: Removal)
    ensures Jobs(removed + [r]) == Jobs(removed) + [r.job]
  {
  }

  lemma OutstandingAfterTake(s: State, s': State, r: Removal)
    requires s.Valid() && s'.Valid() && Fifo(s) && Fifo(s') && s'.pushed == s.pushed && s'.removed == s.removed + [r]
    ensures Outstanding(s) == [r.job] + Outstanding(s')
  {
    hide Outstanding, Jobs, State.Valid;
    JobsAppend(s.removed, r);
    var done, out' := Jobs(s.removed), Outstanding(s');
    assert s.pushed == done + Outstanding(s);
    assert s.pushed == done + [r.job] + out';
    hide Fifo;
    assert done + [r.job] + out' == done + ([r.job] + out');
    Cancel(done, Outstanding(s), [r.job] + out');
  }

  lemma OutstandingSame(s: State, s': State)
    requires s.Valid() && s'.Valid() && Fifo(s) && Fifo(s') && s'.pushed == s.pushed && s'.removed == s.removed
    ensures Outstanding(s) == Outstanding(s')
  {
    hide Outstanding, Jobs;
    Cancel(Jobs(s.removed), Outstanding(s), Outstanding(s'));
  }

  lemma AwaitsMove(hosts: seq<HostPc>, t: nat, h: HostPc)
    requires t < |hosts|
    ensures Awaits(hosts[t := h]) == Awaits(hosts)[t := Awaiting(h)]
  {
    hide Awaiting;
  }

  // IDs stay distinct when one host keeps its ID, drops it, or takes a fresh one.
  lemma IdsStayDistinct(s: State, t: nat, h: HostPc)
    requires DistinctIds(s.hosts) && t < |s.hosts|
    requires IdOf(h) == None || IdOf(h) == IdOf(s.hosts[t]) || Fresh(s, IdOf(h).value)
    ensures DistinctIds(s.hosts[t := h])
  {
    hide IdOf;
  }

  lemma AwaitedIdIsUnique(hosts: seq<HostPc>, t: nat)
    requires DistinctIds(hosts) && t < |hosts| && IdOf(hosts[t]) != None
    ensures forall u :: 0 <= u < |hosts| && u != t ==> Awaits(hosts)[u] != IdOf(hosts[t])
    ensures Awaiting(hosts[t]) == None ==> IdOf(hosts[t]) !in Awaits(hosts)
  {
    forall u | 0 <= u < |hosts| && u != t ensures Awaits(hosts)[u] != IdOf(hosts[t]) {
      assert Awaits(hosts)[u] == None || Awaits(hosts)[u] == IdOf(hosts[u]);
      hide IdOf;
    }
  }

  // A push adds the caller's ID on both sides.
  lemma PushKeepsMatching(s: State, t: nat, s': State)
    requires Inv(s) && Inv(s') && t < |s.hosts| && s.hosts[t].WantEnq? && IdOf(s.hosts[t]) == Some(s.hosts[t].job.jobId)
    requires DistinctIds(s.hosts) && Matching(Awaits(s.hosts), Ids(Outstanding(s)))
    requires s'.pushed == s.pushed + [s.hosts[t].job] && s'.removed == s.removed
    requires Awaits(s'.hosts) == Awaits(s.hosts)[t := IdOf(s.hosts[t])]
    ensures Matching(Awaits(s'.hosts), Ids(Outstanding(s')))
  {
    var job := s.hosts[t].job;
    assert s.Valid() && s'.Valid();
    hide Control;
    OutstandingAfterPush(s, s', job);
    AwaitedIdIsUnique(s.hosts, t);
    assert Ids(Outstanding(s')) == Ids(Outstanding(s)) + [job.jobId];
    assert Awaits(s.hosts)[t] == None;
    hide Outstanding, Awaits, IdOf, Fifo, Matching, Ids, DistinctIds;
    MatchPush(Awaits(s.hosts), Ids(Outstanding(s)), t, job.jobId);
  }

  lemma IdsTake(job: Job, out: seq<Job>)
    ensures Ids([job] + out)[0] == job.jobId && Ids([job] + out)[1..] == Ids(out)
  {
  }

  // Taking the head, which has the caller's ID, drops it on both sides.
  lemma TakeKeepsMatching(s: State, t: nat, s': State, r: Removal)
    requires Inv(s) && Inv(s') && t < |s.hosts| && s.hosts[t].Waiting? && r.job.jobId == s.hosts[t].id
    requires DistinctIds(s.hosts) && Matching(Awaits(s.hosts), Ids(Outstanding(s)))
    requires s'.pushed == s.pushed && s'.removed == s.removed + [r]
    requires Awaits(s'.hosts) == Awaits(s.hosts)[t := None]
    ensures Matching(Awaits(s'.hosts), Ids(Outstanding(s')))
  {
    assert s.Valid() && s'.Valid();
    hide Control, Outstanding, Matching, State.Valid;
    OutstandingAfterTake(s, s', r);
    IdsTake(r.job, Outstanding(s'));
    AwaitedIdIsUnique(s.hosts, t);
    assert Awaits(s.hosts)[t] == Some(r.job.jobId);
    hide Awaits, Fifo, Ids, DistinctIds;
    MatchTake(Awaits(s.hosts), Ids(Outstanding(s)), t);
  }

  lemma HostKeepsMatching(s: State, t: nat)
    requires RunInv(s) && t < |s.hosts| && Inv(s.HostNext(t))
    ensures var s' := s.HostNext(t); Matching(Awaits(s'.hosts), Ids(Outstanding(s')))
  {
    var s' := s.HostNext(t);
    HostStepShape(s, t);
    AwaitsMove(s.hosts, t, s'.hosts[t]);
    assert s.Valid() && s'.Valid();
    hide State.HostNext, Control, Matching, DistinctIds, Ids, Outstanding;
    if s'.pushed != s.pushed {
      PushKeepsMatching(s, t, s');
    } else if s'.removed != s.removed {
      TakeKeepsMatching(s, t, s', s'.removed[|s.removed|]);
    } else {
      OutstandingSame(s, s');
      assert Awaits(s'.hosts) == Awaits(s.hosts);
    }
  }

  lemma HostKeepsRest(s: State, t: nat)
    requires RunInv(s) && t < |s.hosts|
    ensures var s' := s.HostNext(t); OnlyRuns(s') && DistinctIds(s'.hosts) && RightRemovals(s'.removed) && Counted(s')
  {
    var s' := s.HostNext(t);
    HostStepShape(s, t);
    hide State.HostNext, Inv, Matching;
    IdsStayDistinct(s, t, s'.hosts[t]);
    hide IdOf, Unserved, Awaiting;
    HostKeepsCounts(s, t, s');
  }

  // A removal by host t is counted for t, whose call is then served.
  lemma HostKeepsCounts(s: State, t: nat, s': State)
    requires Counted(s) && t < |s.hosts| && s'.calls == s.calls && |s'.hosts| == |s.hosts| &&
             s'.hosts == s.hosts[t := s'.hosts[t]]
    requires (s'.removed == s.removed && Unserved(s'.hosts[t]) == Unserved(s.hosts[t])) ||
             (exists r :: s'.removed == s.removed + [r] && r.host == t && Unserved(s.hosts[t]) && !Unserved(s'.hosts[t]))
    ensures Counted(s')
  {
    hide Unserved;
    forall u | 0 <= u < |s'.hosts|
      ensures s'.calls[u] == RemovedBy(u, s'.removed) + if Unserved(s'.hosts[u]) then 1 else 0
    {
      assert s.calls[u] == RemovedBy(u, s.removed) + if Unserved(s.hosts[u]) then 1 else 0;
      if s'.removed != s.removed {
        assert s'.removed[..|s'.removed| - 1] == s.removed;
      }
    }
  }

  lemma WorkerKeepsRunInv(s: State)
    requires RunInv(s)
    ensures RunInv(s.WorkerNext())
  {
    var s' := s.WorkerNext();
    WorkerKeepsInv(s);
    WorkerShape(s);
    assert s.Valid() && s'.Valid();
    hide Control, State.WorkerNext;
    OutstandingSame(s, s');
  }

  lemma WorkerShape(s: State)
    requires s.Valid()
    ensures var s' := s.WorkerNext();
            s'.hosts == s.hosts && s'.pushed == s.pushed && s'.removed == s.removed && s'.calls == s.calls &&
              s'.kill == s.kill &&
            (s'.worker == Exited ==> s.kill || s.worker == Exited)
  {
  }

  lemma StartKeepsRunInv(s: State, t: nat, job: Job)
    requires RunInv(s) && t < |s.hosts| && Fresh(s, job.jobId)
    ensures RunInv(s.StartEnqueue(t, job, true))
  {
    if s.hosts[t].Idle? {
      var s' := s.StartEnqueue(t, job, true);
      assert s.Valid();
      StartKeepsInv(s, t, s');
      hide Inv;
      IdsStayDistinct(s, t, s'.hosts[t]);
      AwaitsMove(s.hosts, t, s'.hosts[t]);
      assert Awaits(s'.hosts) == Awaits(s.hosts);
      StartKeepsOutstanding(s, s', t);
    }
  }

  lemma StartKeepsOutstanding(s: State, s': State, t: nat)
    requires Inv(s) && Inv(s') && s'.pushed == s.pushed && s'.removed == s.removed
    ensures Outstanding(s') == Outstanding(s)
  {
    assert s.Valid() && s'.Valid();
    hide Control;
    OutstandingSame(s, s');
  }

  lemma StepKeepsRunInv(s: State, a: Action)
    requires RunInv(s) && Allowed(s, a)
    ensures RunInv(Apply(s, a))
  {
    match a
    case Worker => WorkerKeepsRunInv(s);
    case Host(t) =>
      if t < |s.hosts| {
        HostKeepsInv(s, t);
        HostKeepsRest(s, t);
        HostKeepsMatching(s, t);
      }
    case BlockingRun(t, job) => if t < |s.hosts| { StartKeepsRunInv(s, t, job); }
  }

  lemma InitHasRunInv(s: State)
    requires Init(s)
    ensures RunInv(s)
  {
    InitHasInv(s);
    assert Outstanding(s) == [] by {
      assert s.newJobs.Items() == [] && s.finishedJobs.Items() == [];
    }
  }

  lemma {:induction false} RunKeepsRunInv(run: seq<State>, i: nat)
    requires IsBlockingRun(run) && i < |run|
    ensures RunInv(run[i])
  {
    if i == 0 {
      InitHasRunInv(run[0]);
    } else {
      RunKeepsRunInv(run, i - 1);
      hide RunInv;
      assert RunStep(run[i - 1], run[i - 1 + 1]);
      var a :| Apply(run[i - 1], a) == run[i] && Allowed(run[i - 1], a);
      StepKeepsRunInv(run[i - 1], a);
    }
  }

  // ---------- each call takes out its own result, once ----------

  /** The job at the head of finishedJobs is the one some call still waits for. */
  ghost predicate HeadIsAwaited(s: State)
    requires s.Valid()
  {
    s.finishedJobs.Items() != [] ==>
      exists t :: 0 <= t < |s.hosts| && Awaiting(s.hosts[t]) == Some(s.finishedJobs.Items()[0].jobId)
  }

  /** Every awaiting call has one outstanding job, no two calls or jobs share an ID. */
  ghost predicate OneJobPerCall(s: State)
    requires s.Valid()
  {
    (forall t :: 0 <= t < |s.hosts| && Awaiting(s.hosts[t]) != None ==>
       exists k :: 0 <= k < |Outstanding(s)| && Outstanding(s)[k].jobId == Awaiting(s.hosts[t]).value) &&
    (forall t, u :: 0 <= t < u < |s.hosts| && Awaiting(s.hosts[t]) != None ==>
       Awaiting(s.hosts[t]) != Awaiting(s.hosts[u])) &&
    (forall j, k :: 0 <= j < k < |Outstanding(s)| ==> Outstanding(s)[j].jobId != Outstanding(s)[k].jobId)
  }

  /** In every state the head of finishedJobs belongs to a call that has not returned, every
      awaiting call has exactly one outstanding job, every result was taken by the call
      with its ID, and each host has taken as many results as it has started calls, less
      the one it is in. */
  lemma CallersGetTheirOwn(run: seq<State>, i: nat)
    requires IsBlockingRun(run) && i < |run|
    ensures run[i].Valid() && HeadIsAwaited(run[i]) && OneJobPerCall(run[i]) && RightRemovals(run[i].removed) &&
            Counted(run[i])
  {
    RunKeepsRunInv(run, i);
    var s := run[i];
    hide Control, IdOf;
    if s.finishedJobs.Items() != [] {
      assert Ids(Outstanding(s))[0] == s.finishedJobs.Items()[0].jobId;
    }
    hide Outstanding;
    forall t | 0 <= t < |s.hosts| && Awaiting(s.hosts[t]) != None
      ensures exists k :: 0 <= k < |Outstanding(s)| && Outstanding(s)[k].jobId == Awaiting(s.hosts[t]).value
    {
      assert Awaits(s.hosts)[t] == Awaiting(s.hosts[t]);
      var k :| 0 <= k < |Ids(Outstanding(s))| && Ids(Outstanding(s))[k] == Awaiting(s.hosts[t]).value;
      assert Outstanding(s)[k].jobId == Awaiting(s.hosts[t]).value;
    }
    forall j, k | 0 <= j < k < |Outstanding(s)| ensures Outstanding(s)[j].jobId != Outstanding(s)[k].jobId {
      assert Ids(Outstanding(s))[j] != Ids(Outstanding(s))[k];
    }
  }
}
