/** With one worker and one host thread each ring has a single producer, whose IsFull test
    stays true until its own publish: then no bound on outstanding jobs is needed. */
module MicSoleProducers {
  import opened Rings
  import opened MicMachine
  import opened MicSafety

  ghost predicate OneOfEach(s: State) {
    s.workers <= 1 && |s.threads| <= s.workers + 1
  }

  /** What the only producer of a ring knows: its Rear is current, and a passed test holds. */
  ghost predicate Alone(pc: Pc, r: Ring<Job>)
    requires r.Valid()
  {
    match pc
    case FullFront(_, rear) => rear == r.rear
    case EnqLock(_) => r.Occ() <= r.Cap() - 2
    case EnqRead(_) => r.Occ() <= r.Cap() - 2
    case EnqWrite(_, _) => r.Occ() <= r.Cap() - 2
    case EnqPublish(_, _) => r.Occ() <= r.Cap() - 2
    case _ => true
  }

  ghost predicate Producers(s: State)
    requires s.Valid()
  {
    forall t :: 0 <= t < |s.threads| && IsEnq(s.threads[t]) ==> Alone(s.threads[t], s.RingOf(t, s.threads[t]).ring)
  }

  lemma OwnStep(pc: Pc, q: Guarded, t: nat)
    requires IsEnq(pc) && q.ring.Valid() && Fits(pc, q.ring.Cap()) && Alone(pc, q.ring)
    ensures var (pc', q') := EnqNext(pc, q, t); q'.ring.Valid() && (IsEnq(pc') ==> Alone(pc', q'.ring))
  {
    TestsMeasureOccupancy(q.ring);
    hide Ring.Items;
  }

  // A consumer's step leaves Rear alone and frees room, if anything.
  lemma ConsumerStep(pc: Pc, q: Guarded, t: nat, pu: Pc)
    requires IsDeq(pc) && q.ring.Valid() && Fits(pc, q.ring.Cap()) && Knows(pc, q.ring) && Alone(pu, q.ring)
    ensures var (_, q') := DeqNext(pc, q, t); q'.ring.Valid() && Alone(pu, q'.ring)
  {
    if pc.DeqAdvance? {
      AdvanceDropsHead(q.ring);
    }
    hide Ring.Items;
  }

  // The step of t leaves the ring that u enqueues to alone, or only consumes from it.
  lemma OtherProducer(s: State, t: nat, u: nat)
    requires Control(s) && OneOfEach(s) && Producers(s) && t < |s.threads| && u < |s.threads| && t != u
    requires IsEnq(s.threads[u]) && s.Next(t).Valid()
    ensures Alone(s.threads[u], s.Next(t).RingOf(u, s.threads[u]).ring)
  {
    var pc, pu := s.threads[t], s.threads[u];
    var q := s.RingOf(t, pc);
    assert Alone(pu, s.RingOf(u, pu).ring);
    assert Knows(pc, q.ring);
    hide MutexOk, Alone, Knows, Fits, Producers, EnqNext;
    if IsDeq(pc) && s.OnNew(t, pc) == s.OnNew(u, pu) {
      ConsumerStep(pc, q, t, pu);
    }
    hide DeqNext;
  }

  lemma OwnNext(s: State, t: nat)
    requires Control(s) && Producers(s) && t < |s.threads| && s.Next(t).Valid()
    ensures var s' := s.Next(t); IsEnq(s'.threads[t]) ==> Alone(s'.threads[t], s'.RingOf(t, s'.threads[t]).ring)
  {
    var pc := s.threads[t];
    var q := s.RingOf(t, pc);
    hide EnqNext, DeqNext;
    if IsEnq(pc) {
      OwnStep(pc, q, t);
      hide Alone;
    } else if IsDeq(pc) {
      StillConsuming(pc, q, t);
      hide Alone, IsEnq;
    } else {
      hide Ring.Occ, Ring.Valid;
    }
  }

  lemma StillConsuming(pc: Pc, q: Guarded, t: nat)
    requires IsDeq(pc) && q.ring.Valid() && Fits(pc, q.ring.Cap())
    ensures !IsEnq(DeqNext(pc, q, t).0)
  {
  }

  lemma NextKeepsProducers(s: State, t: nat)
    requires Control(s) && OneOfEach(s) && Producers(s) && t < |s.threads| && s.Next(t).Valid()
    ensures Producers(s.Next(t))
  {
    var s' := s.Next(t);
    OwnNext(s, t);
    assert |s'.threads| == |s.threads| && forall u :: 0 <= u < |s.threads| && u != t ==> s'.threads[u] == s.threads[u];
    hide State.Next, Alone, OneOfEach, Control;
    forall u | 0 <= u < |s'.threads| && u != t && IsEnq(s'.threads[u])
      ensures Alone(s'.threads[u], s'.RingOf(u, s'.threads[u]).ring)
    {
      OtherProducer(s, t, u);
    }
  }

  lemma ProducersAreRoomy(s: State)
    requires s.Valid() && Producers(s)
    ensures Roomy(s)
  {
  }

  lemma StepKeepsProducers(s: State, a: Action)
    requires Inv(s) && OneOfEach(s) && Producers(s)
    ensures Inv(Apply(s, a)) && OneOfEach(Apply(s, a)) && Producers(Apply(s, a))
  {
    ProducersAreRoomy(s);
    StepKeepsInv(s, a);
    assert Control(s) && Apply(s, a).Valid();
    hide Inv, Control, Conserved;
    if a.Run? && a.t < |s.threads| {
      NextKeepsProducers(s, a.t);
      NextKeepsShape(s, a.t);
      hide State.Next, Producers;
    } else {
      hide Alone, State.Next;
    }
  }

  lemma NextKeepsShape(s: State, t: nat)
    requires s.Valid() && t < |s.threads|
    ensures s.Next(t).workers == s.workers && |s.Next(t).threads| == |s.threads|
  {
    hide EnqNext, DeqNext;
  }

  lemma {:induction false} SoleProducersKeepInv(run: seq<State>, i: nat)
    requires IsRun(run) && OneOfEach(run[0]) && i < |run|
    ensures Inv(run[i]) && OneOfEach(run[i]) && Producers(run[i])
  {
    if i == 0 {
      InitHasInv(run[0]);
    } else {
      SoleProducersKeepInv(run, i - 1);
      assert Step(run[i - 1], run[i - 1 + 1]);
      var a :| Apply(run[i - 1], a) == run[i];
      StepKeepsProducers(run[i - 1], a);
    }
  }

  /** With at most one worker and one host thread, every run keeps each pushed job in exactly
      one place, however many are outstanding. */
  lemma SoleProducersNeedNoBound(run: seq<State>, i: nat, job: Job)
    requires IsRun(run) && OneOfEach(run[0]) && i < |run|
    ensures run[i].Valid() && Occurrences(job, run[i]) == if job in run[i].pushed then 1 else 0
  {
    SoleProducersKeepInv(run, i);
    InvMeansOnce(run[i], job);
  }
}
