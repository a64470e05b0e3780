/** Why the bound on outstanding jobs is needed: IsFull is tested before the mutex is taken, so
    two producers of a ring can both find room for one job. One job above Capacity-1 is enough
    to lose all of them, on newJobs with two hosts and on finishedJobs with two workers. */
module MicOverrun {
  import opened Rings
  import opened MicMachine
  import opened MicPaths
  import opened MicRuntime

  // ---------- systems with free mutexes and nothing polled ----------

  /** w workers; the threads are where `pcs` says. */
  function System(newJobs: Ring<Job>, finishedJobs: Ring<Job>, w: nat, pcs: seq<Pc>, pushed: seq<Job>): State {
    State(Guarded(newJobs, None), Guarded(finishedJobs, None), false, w, pcs, pushed, [])
  }

  const BLANK := Job(0, 0, 0, 0, 0)

  function NewRing(n: nat): Ring<Job> { Ring(seq(n, _ => BLANK), 1, 0) }

  function Waiting(w: nat, h: nat): seq<Pc> { seq(w + h, _ => AtHead) }

  function Start(n: nat, w: nat, h: nat): State { System(NewRing(n), NewRing(n), w, Waiting(w, h), []) }

  lemma StartIsSystem(n: nat, w: nat, h: nat)
    ensures Start(n, w, h) == System(NewRing(n), NewRing(n), w, Waiting(w, h), [])
    ensures |Start(n, w, h).pushed| - |Start(n, w, h).polled| == 0
  {
  }

  lemma StartIsInit(n: nat, w: nat, h: nat)
    requires n >= 2
    ensures Init(Start(n, w, h)) && NewRing(n).Valid() && NewRing(n).Occ() == 0
  {
  }

  // The job of push number k.
  function NthJob(k: nat): Job { Job(k, 0, 1, 0, 0) }

  /** Two rings of size n. */
  ghost predicate Sized(newJobs: Ring<Job>, finishedJobs: Ring<Job>, n: nat) {
    newJobs.Valid() && finishedJobs.Valid() && newJobs.Cap() == finishedJobs.Cap() == n
  }

  ghost predicate PcsFit(pcs: seq<Pc>, w: nat, n: nat) {
    w <= |pcs| && forall t :: 0 <= t < |pcs| ==> Fits(pcs[t], n)
  }

  lemma StillFit(pcs: seq<Pc>, w: nat, n: nat, t: nat, pc: Pc)
    requires PcsFit(pcs, w, n) && t < |pcs| && Fits(pc, n)
    ensures PcsFit(pcs[t := pc], w, n)
  {
    hide Fits;
  }

  lemma FullRearFits(pcs: seq<Pc>, w: nat, n: nat, t: nat, job: Job)
    requires PcsFit(pcs, w, n) && t < |pcs|
    ensures PcsFit(pcs[t := FullRear(job)], w, n)
  {
    StillFit(pcs, w, n, t, FullRear(job));
  }

  lemma SystemValid(rn: Ring<Job>, rf: Ring<Job>, w: nat, pcs: seq<Pc>, pushed: seq<Job>, n: nat)
    requires Sized(rn, rf, n) && PcsFit(pcs, w, n)
    ensures System(rn, rf, w, pcs, pushed).Valid()
  {
    hide Ring.Valid, Fits;
  }

  // ---------- what one thread can do by itself ----------

  lemma StartsPush(rn: Ring<Job>, rf: Ring<Job>, w: nat, pcs: seq<Pc>, pushed: seq<Job>, n: nat, t: nat, bound: int)
    requires Sized(rn, rf, n) && PcsFit(pcs, w, n) && w <= t < |pcs| && pcs[t] == AtHead && |pushed| < bound
    ensures var job := NthJob(|pushed|);
            Reaches(System(rn, rf, w, pcs, pushed), System(rn, rf, w, pcs[t := FullRear(job)], pushed + [job]), bound)
  {
    SystemValid(rn, rf, w, pcs, pushed, n);
    OneStep(System(rn, rf, w, pcs, pushed), Push(t, 0, 1, 0, 0), bound);
  }

  // The ring that thread t enqueues to.
  function Target(rn: Ring<Job>, rf: Ring<Job>, w: nat, t: nat): Ring<Job> { if t < w then rf else rn }

  lemma TestAlone(r: Ring<Job>, job: Job, t: nat)
    requires r.Valid() && !r.IsFull()
    ensures EnqAlone(FullRear(job), Guarded(r, None), t, 2) == (EnqLock(job), Guarded(r, None))
  {
    hide EnqAlone;
    EnqOnce(FullRear(job), Guarded(r, None), t, 2);
    EnqOnce(FullFront(job, r.rear), Guarded(r, None), t, 1);
    AloneIsDone(EnqLock(job), Guarded(r, None), t);
  }

  lemma PassesTest(rn: Ring<Job>, rf: Ring<Job>, w: nat, pcs: seq<Pc>, pushed: seq<Job>, n: nat, t: nat, job: Job, bound: int)
    requires Sized(rn, rf, n) && PcsFit(pcs, w, n) && t < |pcs| && pcs[t] == FullRear(job) && |pushed| <= bound
    requires !Target(rn, rf, w, t).IsFull()
    ensures Reaches(System(rn, rf, w, pcs, pushed), System(rn, rf, w, pcs[t := EnqLock(job)], pushed), bound)
  {
    var s := System(rn, rf, w, pcs, pushed);
    SystemValid(rn, rf, w, pcs, pushed, n);
    EnqPath(s, t, 2, bound);
    TestAlone(Target(rn, rf, w, t), job, t);
    hide EnqAlone, Reaches;
  }

  // With the test behind it the thread asks no more questions, full ring or not.
  lemma EntersAlone(r: Ring<Job>, job: Job, t: nat)
    requires r.Valid()
    ensures EnqAlone(EnqLock(job), Guarded(r, None), t, 5) == (AtHead, Guarded(r.Enqueued(job), None))
  {
    hide EnqAlone, Ring.Enqueued;
    EnqOnce(EnqLock(job), Guarded(r, None), t, 5);
    LockedEnqueueAlone(r, job, t);
  }

  lemma HostEnters(rn: Ring<Job>, rf: Ring<Job>, w: nat, pcs: seq<Pc>, pushed: seq<Job>, n: nat, t: nat, job: Job, bound: int)
    requires Sized(rn, rf, n) && PcsFit(pcs, w, n) && w <= t < |pcs| && pcs[t] == EnqLock(job) && |pushed| <= bound
    ensures Reaches(System(rn, rf, w, pcs, pushed), System(rn.Enqueued(job), rf, w, pcs[t := AtHead], pushed), bound)
  {
    SystemValid(rn, rf, w, pcs, pushed, n);
    EnqPath(System(rn, rf, w, pcs, pushed), t, 5, bound);
    EntersAlone(rn, job, t);
    hide EnqAlone, Reaches, Ring.Enqueued;
  }

  lemma WorkerEnters(rn: Ring<Job>, rf: Ring<Job>, w: nat, pcs: seq<Pc>, pushed: seq<Job>, n: nat, t: nat, job: Job, bound: int)
    requires Sized(rn, rf, n) && PcsFit(pcs, w, n) && t < w && pcs[t] == EnqLock(job) && |pushed| <= bound
    ensures Reaches(System(rn, rf, w, pcs, pushed), System(rn, rf.Enqueued(job), w, pcs[t := AtHead], pushed), bound)
  {
    SystemValid(rn, rf, w, pcs, pushed, n);
    EnqPath(System(rn, rf, w, pcs, pushed), t, 5, bound);
    EntersAlone(rf, job, t);
    hide EnqAlone, Reaches, Ring.Enqueued;
  }

  lemma TakesOut(rn: Ring<Job>, rf: Ring<Job>, w: nat, pcs: seq<Pc>, pushed: seq<Job>, n: nat, t: nat, bound: int)
    requires Sized(rn, rf, n) && PcsFit(pcs, w, n) && t < w && pcs[t] == EmptyRear && |pushed| <= bound && !rn.IsEmpty()
    ensures rn.Items() != []
    ensures Reaches(System(rn, rf, w, pcs, pushed),
                    System(rn.Dequeued(), rf, w, pcs[t := Holding(rn.Items()[0])], pushed), bound)
  {
    SystemValid(rn, rf, w, pcs, pushed, n);
    DeqPath(System(rn, rf, w, pcs, pushed), t, 10, bound);
    MaybeFandDAlone(rn, t);
    hide DeqAlone, Reaches, Ring.Items, Ring.Dequeued;
  }

  /** A worker at its loop head gets as far as having a result to enqueue. */
  lemma Fetches(rn: Ring<Job>, rf: Ring<Job>, w: nat, pcs: seq<Pc>, pushed: seq<Job>, n: nat, t: nat, bound: int)
    requires Sized(rn, rf, n) && PcsFit(pcs, w, n) && t < w && pcs[t] == AtHead && |pushed| <= bound && !rn.IsEmpty()
    ensures rn.Items() != [] && rn.Dequeued().Valid() && rn.Dequeued().Cap() == n && rn.Dequeued().Occ() == rn.Occ() - 1
    ensures Reaches(System(rn, rf, w, pcs, pushed),
                    System(rn.Dequeued(), rf, w, pcs[t := FullRear(rn.Items()[0])], pushed), bound)
  {
    TestsMeasureOccupancy(rn);
    AdvanceDropsHead(rn);
    var job, rn' := rn.Items()[0], rn.Dequeued();
    var s0, s1 := System(rn, rf, w, pcs, pushed), System(rn, rf, w, pcs[t := EmptyRear], pushed);
    var s2 := System(rn', rf, w, pcs[t := Holding(job)], pushed);
    var s3 := System(rn', rf, w, pcs[t := FullRear(job)], pushed);
    assert Sized(rn', rf, n);
    hide Ring.Items, Ring.Dequeued, Ring.IsEmpty, Ring.Occ;
    StartsLoop(rn, rf, w, pcs, pushed, n, t, bound);
    StillFit(pcs, w, n, t, EmptyRear);
    StillFit(pcs, w, n, t, Holding(job));
    assert pcs[t := EmptyRear][t := Holding(job)] == pcs[t := Holding(job)];
    assert pcs[t := Holding(job)][t := FullRear(job)] == pcs[t := FullRear(job)];
    hide *;
    TakesOut(rn, rf, w, pcs[t := EmptyRear], pushed, n, t, bound);
    StartsEnqueue(rn', rf, w, pcs[t := Holding(job)], pushed, n, t, job, bound);
    ReachesOn(s0, s1, s2, bound);
    ReachesOn(s0, s2, s3, bound);
  }

  lemma StartsLoop(rn: Ring<Job>, rf: Ring<Job>, w: nat, pcs: seq<Pc>, pushed: seq<Job>, n: nat, t: nat, bound: int)
    requires Sized(rn, rf, n) && PcsFit(pcs, w, n) && t < w && pcs[t] == AtHead && |pushed| <= bound
    ensures Reaches(System(rn, rf, w, pcs, pushed), System(rn, rf, w, pcs[t := EmptyRear], pushed), bound)
  {
    SystemValid(rn, rf, w, pcs, pushed, n);
    hide Reaches, State.Valid;
    OneStep(System(rn, rf, w, pcs, pushed), Run(t), bound);
  }

  lemma StartsEnqueue(rn: Ring<Job>, rf: Ring<Job>, w: nat, pcs: seq<Pc>, pushed: seq<Job>, n: nat, t: nat, job: Job, bound: int)
    requires Sized(rn, rf, n) && PcsFit(pcs, w, n) && t < w && pcs[t] == Holding(job) && |pushed| <= bound
    ensures Reaches(System(rn, rf, w, pcs, pushed), System(rn, rf, w, pcs[t := FullRear(job)], pushed), bound)
  {
    SystemValid(rn, rf, w, pcs, pushed, n);
    hide Reaches, State.Valid;
    OneStep(System(rn, rf, w, pcs, pushed), Run(t), bound);
  }

  lemma EnqueuedGrows(r: Ring<Job>, job: Job)
    requires r.Valid()
    ensures r.Enqueued(job).Valid() && r.Enqueued(job).Cap() == r.Cap()
    ensures !r.IsFull() ==> r.Enqueued(job).Occ() == r.Occ() + 1
    ensures r.IsFull() ==> r.Enqueued(job).Items() == []
  {
    TestsMeasureOccupancy(r);
    var at := Wrap(r.rear + 1, r.Cap());
    if r.IsFull() {
      PublishOnFullLosesAll(r.Write(at, job));
    } else {
      EnqueuedAppends(r, job);
    }
  }

  /** A whole push with nobody in between. */
  lemma Pushes(rn: Ring<Job>, rf: Ring<Job>, w: nat, pcs: seq<Pc>, pushed: seq<Job>, n: nat, t: nat, bound: int)
    requires Sized(rn, rf, n) && PcsFit(pcs, w, n) && w <= t < |pcs| && pcs[t] == AtHead && |pushed| < bound && !rn.IsFull()
    ensures var job := NthJob(|pushed|);
            Reaches(System(rn, rf, w, pcs, pushed), System(rn.Enqueued(job), rf, w, pcs, pushed + [job]), bound)
  {
    var job := NthJob(|pushed|);
    var pushed' := pushed + [job];
    var testing, entering := pcs[t := FullRear(job)], pcs[t := EnqLock(job)];
    assert testing[t := EnqLock(job)] == entering && entering[t := AtHead] == pcs;
    hide Reaches, Ring.Enqueued, Ring.Valid, Ring.IsFull, System;
    StartsPush(rn, rf, w, pcs, pushed, n, t, bound);
    PassesTest(rn, rf, w, testing, pushed', n, t, job, bound);
    HostEnters(rn, rf, w, entering, pushed', n, t, job, bound);
    var s := System(rn, rf, w, pcs, pushed);
    ReachesOn(s, System(rn, rf, w, testing, pushed'), System(rn, rf, w, entering, pushed'), bound);
    ReachesOn(s, System(rn, rf, w, entering, pushed'), System(rn.Enqueued(job), rf, w, pcs, pushed'), bound);
  }

  // ---------- two hosts ----------

  /** Alone, a host can push up to k jobs without finding the ring full. */
  lemma {:induction false} FillsNew(n: nat, w: nat, h: nat, k: nat) returns (rn: Ring<Job>, pushed: seq<Job>)
    requires n >= 2 && h >= 1 && k <= n - 1
    ensures Sized(rn, NewRing(n), n) && rn.Occ() == k && |pushed| == k
    ensures Reaches(Start(n, w, h), System(rn, NewRing(n), w, Waiting(w, h), pushed), n)
  {
    StartIsInit(n, w, h);
    StartIsSystem(n, w, h);
    WaitingFits(w, h, n);
    var rf, pcs, start := NewRing(n), Waiting(w, h), Start(n, w, h);
    if k == 0 {
      rn, pushed := rf, [];
      hide Ring.Occ, Start, Reaches;
      ReachesItself(start, n);
    } else {
      var r, before := FillsNew(n, w, h, k - 1);
      SizedMeans(r, rf, n);
      hide *;
      var job := NthJob(|before|);
      TestsMeasureOccupancy(r);
      Pushes(r, rf, w, pcs, before, n, w, n);
      rn, pushed := r.Enqueued(job), before + [job];
      EnqueuedGrows(r, job);
      StillSized(r, rf, rn, n);
      ReachesOn(start, System(r, rf, w, pcs, before), System(rn, rf, w, pcs, pushed), n);
    }
  }

  /** Every push has returned, nothing was polled, and no job is anywhere. */
  ghost predicate AllLost(s: State, n: nat) {
    && s.Valid() && |s.pushed| == n && s.polled == []
    && (forall t :: 0 <= t < |s.threads| ==> s.threads[t] == AtHead)
    && s.newJobs.ring.Items() == [] && s.finishedJobs.ring.Items() == []
    && s.newJobs.holder == None && s.finishedJobs.holder == None
  }

  lemma SystemIsLost(rn: Ring<Job>, rf: Ring<Job>, w: nat, h: nat, pushed: seq<Job>, n: nat)
    requires Sized(rn, rf, n) && rn.Items() == [] && rf.Items() == [] && |pushed| == n
    ensures AllLost(System(rn, rf, w, Waiting(w, h), pushed), n)
    ensures System(rn, rf, w, Waiting(w, h), pushed).threads == Waiting(w, h)
  {
    SystemValid(rn, rf, w, Waiting(w, h), pushed, n);
    hide Ring.Items, Ring.Valid;
  }

  lemma NothingWaits(r: Ring<Job>)
    requires r.Valid() && r.Occ() == 0
    ensures r.Items() == [] && r.IsEmpty() && !r.IsFull()
  {
  }

  /** Two producers of one ring both pass the test before either goes on. */
  lemma BothTest(rn: Ring<Job>, rf: Ring<Job>, w: nat, pcs: seq<Pc>, pushed: seq<Job>, n: nat,
                 a: nat, j1: Job, b: nat, j2: Job, bound: int)
    requires Sized(rn, rf, n) && PcsFit(pcs, w, n) && a < |pcs| && b < |pcs| && a != b && |pushed| <= bound
    requires pcs[a] == FullRear(j1) && pcs[b] == FullRear(j2)
    requires !Target(rn, rf, w, a).IsFull() && !Target(rn, rf, w, b).IsFull()
    ensures Reaches(System(rn, rf, w, pcs, pushed), System(rn, rf, w, pcs[a := EnqLock(j1)][b := EnqLock(j2)], pushed), bound)
    ensures PcsFit(pcs[a := EnqLock(j1)][b := EnqLock(j2)], w, n)
  {
    var pcs' := pcs[a := EnqLock(j1)];
    StillFit(pcs, w, n, a, EnqLock(j1));
    StillFit(pcs', w, n, b, EnqLock(j2));
    hide Reaches, Ring.IsFull, System, PcsFit, Fits, Sized, Target;
    PassesTest(rn, rf, w, pcs, pushed, n, a, j1, bound);
    PassesTest(rn, rf, w, pcs', pushed, n, b, j2, bound);
    ReachesOn(System(rn, rf, w, pcs, pushed), System(rn, rf, w, pcs', pushed), System(rn, rf, w, pcs'[b := EnqLock(j2)], pushed), bound);
  }

  // From one free slot to none to an empty ring.
  lemma TwiceEnqueued(r: Ring<Job>, j1: Job, j2: Job)
    requires r.Valid() && r.Occ() == r.Cap() - 2
    ensures !r.IsFull() && r.Enqueued(j1).Valid() && r.Enqueued(j1).Cap() == r.Cap()
    ensures var end := r.Enqueued(j1).Enqueued(j2); end.Valid() && end.Cap() == r.Cap() && end.Items() == []
  {
    TestsMeasureOccupancy(r);
    EnqueuedGrows(r, j1);
    TestsMeasureOccupancy(r.Enqueued(j1));
    EnqueuedGrows(r.Enqueued(j1), j2);
  }

  lemma BothHostsEnter(rn: Ring<Job>, rf: Ring<Job>, w: nat, pcs: seq<Pc>, pushed: seq<Job>, n: nat,
                       a: nat, j1: Job, b: nat, j2: Job, bound: int)
    requires Sized(rn, rf, n) && PcsFit(pcs, w, n) && w <= a < |pcs| && w <= b < |pcs| && a != b && |pushed| <= bound
    requires pcs[a] == EnqLock(j1) && pcs[b] == EnqLock(j2) && rn.Occ() == n - 2
    ensures rn.Enqueued(j1).Valid()
    ensures Reaches(System(rn, rf, w, pcs, pushed),
                    System(rn.Enqueued(j1).Enqueued(j2), rf, w, pcs[a := AtHead][b := AtHead], pushed), bound)
  {
    var rn1, pcs1 := rn.Enqueued(j1), pcs[a := AtHead];
    TwiceEnqueued(rn, j1, j2);
    StillFit(pcs, w, n, a, AtHead);
    hide Reaches, Ring.IsFull, Ring.Items, Ring.Occ, Ring.Enqueued, Ring.Valid, System, PcsFit, Fits;
    HostEnters(rn, rf, w, pcs, pushed, n, a, j1, bound);
    HostEnters(rn1, rf, w, pcs1, pushed, n, b, j2, bound);
    ReachesOn(System(rn, rf, w, pcs, pushed), System(rn1, rf, w, pcs1, pushed),
              System(rn1.Enqueued(j2), rf, w, pcs1[b := AtHead], pushed), bound);
  }

  lemma BothPush(rn: Ring<Job>, rf: Ring<Job>, w: nat, pcs: seq<Pc>, pushed: seq<Job>, n: nat, a: nat, b: nat, bound: int)
    requires Sized(rn, rf, n) && PcsFit(pcs, w, n) && w <= a < |pcs| && w <= b < |pcs| && a != b
    requires pcs[a] == pcs[b] == AtHead && |pushed| + 1 < bound
    ensures var j1, j2 := NthJob(|pushed|), NthJob(|pushed| + 1);
            Reaches(System(rn, rf, w, pcs, pushed),
                    System(rn, rf, w, pcs[a := FullRear(j1)][b := FullRear(j2)], pushed + [j1] + [j2]), bound)
    ensures PcsFit(pcs[a := FullRear(NthJob(|pushed|))][b := FullRear(NthJob(|pushed| + 1))], w, n)
  {
    var j1, j2 := NthJob(|pushed|), NthJob(|pushed| + 1);
    var pcs1, pushed1 := pcs[a := FullRear(j1)], pushed + [j1];
    StillFit(pcs, w, n, a, FullRear(j1));
    StillFit(pcs1, w, n, b, FullRear(j2));
    hide Reaches, System, PcsFit, Fits, Sized;
    StartsPush(rn, rf, w, pcs, pushed, n, a, bound);
    StartsPush(rn, rf, w, pcs1, pushed1, n, b, bound);
    ReachesOn(System(rn, rf, w, pcs, pushed), System(rn, rf, w, pcs1, pushed1),
              System(rn, rf, w, pcs1[b := FullRear(j2)], pushed1 + [j2]), bound);
  }

  lemma BackToWaiting(pcs: seq<Pc>, a: nat, b: nat, j1: Job, j2: Job)
    requires a < |pcs| && b < |pcs| && a != b && pcs[a] == pcs[b] == AtHead
    ensures pcs[a := FullRear(j1)][b := FullRear(j2)][a := EnqLock(j1)][b := EnqLock(j2)][a := AtHead][b := AtHead] == pcs
  {
  }

  lemma WaitingFits(w: nat, h: nat, n: nat)
    ensures PcsFit(Waiting(w, h), w, n) && |Waiting(w, h)| == w + h
    ensures forall t :: 0 <= t < w + h ==> Waiting(w, h)[t] == AtHead
  {
  }

  /** Two hosts that both pass IsFull while one slot is free run newJobs over. */
  lemma HostsOverrun(n: nat, w: nat, h: nat) returns (end: State)
    requires n >= 2 && h >= 2
    ensures Reaches(Start(n, w, h), end, n) && AllLost(end, n) && end.threads == Waiting(w, h)
  {
    StartIsInit(n, w, h);
    NothingWaits(NewRing(n));
    WaitingFits(w, h, n);
    hide Reaches, Ring.Enqueued, Ring.IsFull, Ring.Occ, Ring.Items, Start, PcsFit, System, Waiting;
    var rn, pushed := FillsNew(n, w, h, n - 2);
    var rf, pcs, start := NewRing(n), Waiting(w, h), Start(n, w, h);
    end := BothHostsGo(n, w, h, rn, rf, pushed);
    ReachesOn(start, System(rn, rf, w, pcs, pushed), end, n);
  }

  lemma BothHostsGo(n: nat, w: nat, h: nat, rn: Ring<Job>, rf: Ring<Job>, pushed: seq<Job>) returns (end: State)
    requires n >= 2 && h >= 2 && Sized(rn, rf, n) && rn.Occ() == n - 2 && rf.Items() == [] && |pushed| == n - 2
    ensures Reaches(System(rn, rf, w, Waiting(w, h), pushed), end, n) && AllLost(end, n) && end.threads == Waiting(w, h)
  {
    var a, b, j1, j2 := w, w + 1, NthJob(n - 2), NthJob(n - 1);
    var pcs, pushed2 := Waiting(w, h), pushed + [j1] + [j2];
    var p2 := pcs[a := FullRear(j1)][b := FullRear(j2)];
    var p4 := p2[a := EnqLock(j1)][b := EnqLock(j2)];
    TwiceEnqueued(rn, j1, j2);
    WaitingFits(w, h, n);
    BackToWaiting(pcs, a, b, j1, j2);
    hide *;
    var s := System(rn, rf, w, pcs, pushed);
    BothPush(rn, rf, w, pcs, pushed, n, a, b, n);
    HostsTarget(rn, rf, w, a);
    HostsTarget(rn, rf, w, b);
    BothTest(rn, rf, w, p2, pushed2, n, a, j1, b, j2, n);
    ReachesOn(s, System(rn, rf, w, p2, pushed2), System(rn, rf, w, p4, pushed2), n);
    BothHostsEnter(rn, rf, w, p4, pushed2, n, a, j1, b, j2, n);
    var rn2 := rn.Enqueued(j1).Enqueued(j2);
    end := System(rn2, rf, w, pcs, pushed2);
    ReachesOn(s, System(rn, rf, w, p4, pushed2), end, n);
    StillSized(rn, rf, rn2, n);
    SystemIsLost(rn2, rf, w, h, pushed2, n);
  }

  lemma HostsTarget(rn: Ring<Job>, rf: Ring<Job>, w: nat, t: nat)
    requires w <= t
    ensures Target(rn, rf, w, t) == rn
  {
  }

  lemma SizedMeans(rn: Ring<Job>, rf: Ring<Job>, n: nat)
    requires Sized(rn, rf, n)
    ensures rn.Valid() && rf.Valid() && rn.Cap() == rf.Cap() == n
  {
  }

  lemma StillSized(rn: Ring<Job>, rf: Ring<Job>, rn': Ring<Job>, n: nat)
    requires Sized(rn, rf, n) && rn'.Valid() && rn'.Cap() == rn.Cap()
    ensures Sized(rn', rf, n)
  {
  }

  // ---------- two workers ----------

  /** A host pushes into an empty ring and worker t takes the job out again. */
  lemma PushAndFetch(rn: Ring<Job>, rf: Ring<Job>, w: nat, pcs: seq<Pc>, pushed: seq<Job>, n: nat, host: nat, t: nat, bound: int)
    returns (rn': Ring<Job>, job: Job)
    requires Sized(rn, rf, n) && PcsFit(pcs, w, n) && t < w <= host < |pcs| && pcs[host] == pcs[t] == AtHead
    requires |pushed| < bound && rn.Occ() == 0
    ensures Sized(rn', rf, n) && rn'.Occ() == 0
    ensures Reaches(System(rn, rf, w, pcs, pushed),
                    System(rn', rf, w, pcs[t := FullRear(job)], pushed + [NthJob(|pushed|)]), bound)
  {
    var next := NthJob(|pushed|);
    NothingWaits(rn);
    EnqueuedGrows(rn, next);
    var rn1, pushed' := rn.Enqueued(next), pushed + [next];
    TestsMeasureOccupancy(rn1);
    hide Reaches, Ring.Enqueued, Ring.Valid, Ring.IsFull, Ring.IsEmpty, Ring.Occ, Ring.Items, Ring.Dequeued;
    Pushes(rn, rf, w, pcs, pushed, n, host, bound);
    Fetches(rn1, rf, w, pcs, pushed', n, t, bound);
    rn', job := rn1.Dequeued(), rn1.Items()[0];
    ReachesOn(System(rn, rf, w, pcs, pushed), System(rn1, rf, w, pcs, pushed'),
              System(rn', rf, w, pcs[t := FullRear(job)], pushed'), bound);
  }

  /** One worker by itself can fill finishedJobs with up to k results. */
  lemma {:induction false} FillsFinished(n: nat, w: nat, h: nat, k: nat)
    returns (rn: Ring<Job>, rf: Ring<Job>, pushed: seq<Job>)
    requires n >= 2 && w >= 1 && h >= 1 && k <= n - 1
    ensures Sized(rn, rf, n) && rn.Occ() == 0 && rf.Occ() == k && |pushed| == k
    ensures Reaches(Start(n, w, h), System(rn, rf, w, Waiting(w, h), pushed), n)
  {
    StartIsInit(n, w, h);
    if k == 0 {
      rn, rf, pushed := NewRing(n), NewRing(n), [];
      StartIsSystem(n, w, h);
      ReachesItself(Start(n, w, h), n);
    } else {
      WaitingFits(w, h, n);
      hide Reaches, Start, PcsFit, Waiting, System;
      var pcs, start := Waiting(w, h), Start(n, w, h);
      var rn0, rf0, before := FillsFinished(n, w, h, k - 1);
      TestsMeasureOccupancy(rf0);
      hide Ring.Enqueued, Ring.Valid, Ring.IsFull, Ring.Occ, Ring.Items;
      var rn1, job := PushAndFetch(rn0, rf0, w, pcs, before, n, w, 0, n);
      rn, rf, pushed := rn1, rf0.Enqueued(job), before + [NthJob(k - 1)];
      EnqueuedGrows(rf0, job);
      var p1, p2 := pcs[0 := FullRear(job)], pcs[0 := FullRear(job)][0 := EnqLock(job)];
      assert p2[0 := AtHead] == pcs;
      ReachesOn(start, System(rn0, rf0, w, pcs, before), System(rn, rf0, w, p1, pushed), n);
      StillFit(pcs, w, n, 0, FullRear(job));
      StillFit(p1, w, n, 0, EnqLock(job));
      PassesTest(rn, rf0, w, p1, pushed, n, 0, job, n);
      ReachesOn(start, System(rn, rf0, w, p1, pushed), System(rn, rf0, w, p2, pushed), n);
      WorkerEnters(rn, rf0, w, p2, pushed, n, 0, job, n);
      ReachesOn(start, System(rn, rf0, w, p2, pushed), System(rn, rf, w, pcs, pushed), n);
    }
  }

  lemma BothFetch(rn: Ring<Job>, rf: Ring<Job>, w: nat, pcs: seq<Pc>, pushed: seq<Job>, n: nat, host: nat, bound: int)
    returns (rn': Ring<Job>, j1: Job, j2: Job)
    requires Sized(rn, rf, n) && PcsFit(pcs, w, n) && 2 <= w <= host < |pcs| && pcs[host] == pcs[0] == pcs[1] == AtHead
    requires |pushed| + 1 < bound && rn.Occ() == 0
    ensures Sized(rn', rf, n) && rn'.Occ() == 0
    ensures Reaches(System(rn, rf, w, pcs, pushed),
                    System(rn', rf, w, pcs[0 := FullRear(j1)][1 := FullRear(j2)],
                           pushed + [NthJob(|pushed|)] + [NthJob(|pushed| + 1)]), bound)
  {
    hide *;
    var rn1;
    rn1, j1 := PushAndFetch(rn, rf, w, pcs, pushed, n, host, 0, bound);
    var p1, pushed1 := pcs[0 := FullRear(j1)], pushed + [NthJob(|pushed|)];
    FullRearFits(pcs, w, n, 0, j1);
    rn', j2 := PushAndFetch(rn1, rf, w, p1, pushed1, n, host, 1, bound);
    ReachesOn(System(rn, rf, w, pcs, pushed), System(rn1, rf, w, p1, pushed1),
              System(rn', rf, w, p1[1 := FullRear(j2)], pushed1 + [NthJob(|pushed1|)]), bound);
  }

  /** Two workers that both pass IsFull while one slot is free run finishedJobs over, although
      a single host does all the pushing. */
  lemma WorkersOverrun(n: nat, w: nat, h: nat) returns (end: State)
    requires n >= 2 && w >= 2 && h >= 1
    ensures Reaches(Start(n, w, h), end, n) && AllLost(end, n) && end.threads == Waiting(w, h)
  {
    WaitingFits(w, h, n);
    hide *;
    var pcs, start := Waiting(w, h), Start(n, w, h);
    var rn0, rf, pushed := FillsFinished(n, w, h, n - 2);
    var rn, j1, j2 := BothFetch(rn0, rf, w, pcs, pushed, n, w, n);
    var p2, pushed2 := pcs[0 := FullRear(j1)][1 := FullRear(j2)], pushed + [NthJob(n - 2)] + [NthJob(n - 1)];
    ReachesOn(start, System(rn0, rf, w, pcs, pushed), System(rn, rf, w, p2, pushed2), n);
    end := BothWorkersEnter(n, w, h, rn, rf, pushed2, j1, j2);
    ReachesOn(start, System(rn, rf, w, p2, pushed2), end, n);
  }

  lemma BothWorkersEnter(n: nat, w: nat, h: nat, rn: Ring<Job>, rf: Ring<Job>, pushed: seq<Job>, j1: Job, j2: Job)
    returns (end: State)
    requires n >= 2 && w >= 2 && Sized(rn, rf, n) && rn.Occ() == 0 && rf.Occ() == n - 2 && |pushed| == n
    ensures Reaches(System(rn, rf, w, Waiting(w, h)[0 := FullRear(j1)][1 := FullRear(j2)], pushed), end, n)
    ensures AllLost(end, n) && end.threads == Waiting(w, h)
  {
    var pcs := Waiting(w, h);
    var p2 := pcs[0 := FullRear(j1)][1 := FullRear(j2)];
    var p4 := p2[0 := EnqLock(j1)][1 := EnqLock(j2)];
    var rf1 := rf.Enqueued(j1);
    TwiceEnqueued(rf, j1, j2);
    NothingWaits(rn);
    assert p4[0 := AtHead][1 := AtHead] == pcs;
    assert Target(rn, rf, w, 0) == Target(rn, rf, w, 1) == rf && PcsFit(p2, w, n);
    hide Reaches, Ring.Enqueued, Ring.Valid, Ring.IsFull, Ring.Occ, Ring.Items;
    hide PcsFit, Fits, Target, System, Waiting;
    var s, mid := System(rn, rf, w, p2, pushed), System(rn, rf1, w, p4[0 := AtHead], pushed);
    BothTest(rn, rf, w, p2, pushed, n, 0, j1, 1, j2, n);
    WorkerEnters(rn, rf, w, p4, pushed, n, 0, j1, n);
    ReachesOn(s, System(rn, rf, w, p4, pushed), mid, n);
    StillFit(p4, w, n, 0, AtHead) by { assert Fits(AtHead, n); }
    WorkerEnters(rn, rf1, w, p4[0 := AtHead], pushed, n, 1, j2, n);
    end := System(rn, rf1.Enqueued(j2), w, pcs, pushed);
    ReachesOn(s, mid, end, n);
    SystemIsLost(rn, rf1.Enqueued(j2), w, h, pushed, n);
  }
}
