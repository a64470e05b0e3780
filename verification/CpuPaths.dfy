/** Stretches of concurrent blocking runs on the CPU; a queue operation that one thread runs
    alone is one, and so are a whole push and a whole pass of the worker. */
module CpuPaths {
  import opened Rings
  import opened CpuMachine
  import opened CpuBlockingRun
  import opened CpuAlone

  ghost predicate Path(p: seq<State>)
    ensures Path(p) ==> |p| > 0
  {
    |p| > 0 && forall i :: 0 <= i < |p| - 1 ==> RunStep(p[i], p[i + 1])
  }

  ghost predicate Reaches(s: State, s': State) {
    exists p :: Path(p) && p[0] == s && p[|p| - 1] == s'
  }

  function Joined(p: seq<State>, q: seq<State>, i: nat): State
    requires 0 < |p| && i < |p| - 1 + |q|
  {
    if i < |p| - 1 then p[i] else q[i - (|p| - 1)]
  }

  lemma JoinedStep(p: seq<State>, q: seq<State>, i: nat)
    requires Path(p) && Path(q) && p[|p| - 1] == q[0] && i < |p| + |q| - 2
    ensures RunStep(Joined(p, q, i), Joined(p, q, i + 1))
  {
    hide RunStep;
    var m := |p| - 1;
    if i < m {
      assert RunStep(p[i], p[i + 1]);
    } else {
      assert RunStep(q[i - m], q[i - m + 1]);
    }
  }

  lemma PathsJoin(p: seq<State>, q: seq<State>) returns (r: seq<State>)
    requires Path(p) && Path(q) && p[|p| - 1] == q[0]
    ensures Path(r) && r[0] == p[0] && r[|r| - 1] == q[|q| - 1]
  {
    var n := |p| - 1 + |q|;
    r := seq(n, i requires 0 <= i < n => Joined(p, q, i));
    forall i | 0 <= i < |r| - 1 ensures RunStep(r[i], r[i + 1]) {
      JoinedStep(p, q, i);
    }
    hide RunStep;
  }

  lemma ReachesOn(a: State, b: State, c: State)
    requires Reaches(a, b) && Reaches(b, c)
    ensures Reaches(a, c)
  {
    hide Path;
    var p :| Path(p) && p[0] == a && p[|p| - 1] == b;
    var q :| Path(q) && q[0] == b && q[|q| - 1] == c;
    var r := PathsJoin(p, q);
  }

  lemma ReachesItself(s: State)
    ensures Reaches(s, s)
  {
    assert Path([s]) && [s][0] == s && [s][|[s]| - 1] == s;
  }

  lemma OneStep(s: State, a: Action)
    requires s.Valid() && Allowed(s, a)
    ensures Reaches(s, Apply(s, a))
  {
    var p := [s, Apply(s, a)];
    assert RunStep(p[0], p[1]);
    assert Path(p) && p[0] == s && p[|p| - 1] == Apply(s, a);
  }

  // ---------- a host's Enqueue ----------

  function HostAfter(s: State, t: nat, job: Job, out: EnqOut): State
    requires t < |s.hosts|
  {
    match out
    case EnqGo(e, r) => s.Host(t, Enqueuing(job, true, e)).(newJobs := r)
    case Published(r) => s.Host(t, EnqRelease(job.jobId, true)).(newJobs := r)
  }

  lemma EnqKeepsFrame(e: Enq, job: Job, r: Ring<Job>)
    requires r.Valid() && EnqFits(e, r.Cap())
    ensures var out := EnqNext(e, job, r);
            out.ring.Valid() && out.ring.Cap() == r.Cap() && (out.EnqGo? ==> EnqFits(out.e, r.Cap()))
  {
  }

  lemma HostOnward(s: State, t: nat, job: Job, e: Enq)
    requires s.Valid() && t < |s.hosts| && s.hosts[t] == Enqueuing(job, true, e)
    ensures var s1 := HostAfter(s, t, job, EnqNext(e, job, s.newJobs)); s1.Valid() && Reaches(s, s1)
  {
    EnqKeepsFrame(e, job, s.newJobs);
    hide EnqNext, Reaches, EnqFits, DeqFits, Ring.Valid;
    OneStep(s, Host(t));
  }

  lemma HostAfterTwice(s: State, t: nat, job: Job, mid: EnqOut, out: EnqOut)
    requires t < |s.hosts|
    ensures HostAfter(HostAfter(s, t, job, mid), t, job, out) == HostAfter(s, t, job, out)
  {
    var a := if mid.EnqGo? then Enqueuing(job, true, mid.e) else EnqRelease(job.jobId, true);
    var b := if out.EnqGo? then Enqueuing(job, true, out.e) else EnqRelease(job.jobId, true);
    assert s.hosts[t := a][t := b] == s.hosts[t := b];
  }

  lemma EnqOnce(e: Enq, job: Job, r: Ring<Job>, n: nat)
    requires r.Valid() && EnqFits(e, r.Cap()) && n > 0
    ensures match EnqNext(e, job, r)
            case Published(r') => EnqAlone(e, job, r, n) == Published(r')
            case EnqGo(e', r') =>
              r'.Valid() && EnqFits(e', r'.Cap()) && EnqAlone(e, job, r, n) == EnqAlone(e', job, r', n - 1)
    ensures EnqAlone(e, job, r, 0) == EnqGo(e, r)
  {
    EnqKeepsFrame(e, job, r);
    hide EnqNext, EnqFits, Ring.Valid;
  }

  lemma HostReady(s: State, t: nat, job: Job, e: Enq)
    requires s.Valid() && t < |s.hosts| && s.hosts[t] == Enqueuing(job, true, e)
    ensures s.newJobs.Valid() && EnqFits(e, s.newJobs.Cap()) && HostAfter(s, t, job, EnqGo(e, s.newJobs)) == s
  {
    hide EnqFits, Ring.Valid, DeqFits;
  }

  lemma HostMoved(s: State, t: nat, job: Job, e: Enq, r: Ring<Job>)
    requires t < |s.hosts|
    ensures var s1 := HostAfter(s, t, job, EnqGo(e, r));
            |s1.hosts| == |s.hosts| && s1.hosts[t] == Enqueuing(job, true, e) && s1.newJobs == r
  {
  }

  lemma {:induction false} HostEnqPath(s: State, t: nat, job: Job, e: Enq, n: nat)
    requires s.Valid() && t < |s.hosts| && s.hosts[t] == Enqueuing(job, true, e)
    ensures s.newJobs.Valid() && EnqFits(e, s.newJobs.Cap())
    ensures Reaches(s, HostAfter(s, t, job, EnqAlone(e, job, s.newJobs, n)))
    decreases n
  {
    hide *;
    HostReady(s, t, job, e);
    EnqOnce(e, job, s.newJobs, if n == 0 then 1 else n);
    if n == 0 {
      ReachesItself(s);
    } else {
      HostOnward(s, t, job, e);
      match EnqNext(e, job, s.newJobs)
      case Published(r') =>
      case EnqGo(e', r') =>
        var s1, out := HostAfter(s, t, job, EnqGo(e', r')), EnqAlone(e', job, r', n - 1);
        HostAfterTwice(s, t, job, EnqGo(e', r'), out);
        HostMoved(s, t, job, e', r');
        HostEnqPath(s1, t, job, e', n - 1);
        ReachesOn(s, s1, HostAfter(s, t, job, out));
    }
  }

  // ---------- the worker's Front and Dequeue, and its Enqueue ----------

  function WorkerFetched(s: State, out: DeqOut): State {
    match out
    case DeqGo(d) => s.(worker := Fetching(d))
    case SawEmpty => s.(worker := Fetching(EmptyRear))
    case Got(copy) => s.(worker := Fetching(AgainRear(copy)))
    case Took(copy, r) => s.(worker := Executing(copy), newJobs := r)
  }

  lemma {:induction false} WorkerDeqPath(s: State, d: Deq, n: nat)
    requires s.Valid() && s.worker == Fetching(d)
    ensures Reaches(s, WorkerFetched(s, DeqAlone(d, s.newJobs, n)))
    decreases n
  {
    if n == 0 {
      ReachesItself(s);
    } else {
      FetchOnward(s, d);
      hide DeqNext, Reaches;
      match DeqNext(d, s.newJobs)
      case DeqGo(d') =>
        var s1 := s.(worker := Fetching(d'));
        WorkerDeqPath(s1, d', n - 1);
        hide DeqAlone, State.Valid;
        ReachesOn(s, s1, WorkerFetched(s, DeqAlone(d', s.newJobs, n - 1)));
      case _ =>
    }
  }

  lemma DeqKeepsFrame(d: Deq, r: Ring<Job>)
    requires r.Valid() && DeqFits(d, r.Cap())
    ensures match DeqNext(d, r)
            case DeqGo(d') => DeqFits(d', r.Cap())
            case Took(_, r') => r'.Valid() && r'.Cap() == r.Cap()
            case _ => true
  {
  }

  lemma FetchOnward(s: State, d: Deq)
    requires s.Valid() && s.worker == Fetching(d)
    ensures var s1 := WorkerFetched(s, DeqNext(d, s.newJobs)); s1.Valid() && Reaches(s, s1)
  {
    DeqKeepsFrame(d, s.newJobs);
    hide DeqNext, Reaches, Ring.Valid;
    OneStep(s, Worker);
  }

  function WorkerStored(s: State, job: Job, out: EnqOut): State {
    match out
    case EnqGo(e, r) => s.(worker := Storing(job, e), finishedJobs := r)
    case Published(r) => s.(worker := LoopHead, finishedJobs := r)
  }

  lemma StoreOnward(s: State, job: Job, e: Enq)
    requires s.Valid() && s.worker == Storing(job, e)
    ensures var s1 := WorkerStored(s, job, EnqNext(e, job, s.finishedJobs)); s1.Valid() && Reaches(s, s1)
  {
    EnqKeepsFrame(e, job, s.finishedJobs);
    hide EnqNext, Reaches, Ring.Valid;
    OneStep(s, Worker);
  }

  lemma {:induction false} WorkerEnqPath(s: State, job: Job, e: Enq, n: nat)
    requires s.Valid() && s.worker == Storing(job, e)
    ensures Reaches(s, WorkerStored(s, job, EnqAlone(e, job, s.finishedJobs, n)))
    decreases n
  {
    if n == 0 {
      ReachesItself(s);
    } else {
      StoreOnward(s, job, e);
      EnqKeepsFrame(e, job, s.finishedJobs);
      hide EnqNext, Reaches;
      match EnqNext(e, job, s.finishedJobs)
      case Published(r') =>
      case EnqGo(e', r') =>
        var s1 := WorkerStored(s, job, EnqGo(e', r'));
        var out := EnqAlone(e', job, r', n - 1);
        assert WorkerStored(s1, job, out) == WorkerStored(s, job, out);
        hide EnqAlone, State.Valid;
        WorkerEnqPath(s1, job, e', n - 1);
        ReachesOn(s, s1, WorkerStored(s, job, out));
    }
  }
}
