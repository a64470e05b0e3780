/** Exactly when the coprocessor runtime keeps its jobs: with no host, with at most one producer
    for each ring, or with at most Capacity-1 jobs outstanding, and never otherwise. */
module MicBound {
  import opened Rings
  import opened MicMachine
  import opened MicSafety
  import opened MicSoleProducers
  import opened MicPaths
  import opened MicOverrun

  /** A run with w workers and h hosts over rings of size n. */
  ghost predicate RunOf(run: seq<State>, n: nat, w: nat, h: nat) {
    IsRun(run) && run[0].Cap() == n && run[0].workers == w && |run[0].threads| == w + h
  }

  ghost predicate AtMost(run: seq<State>, bound: int) {
    forall k :: 0 <= k < |run| ==> |run[k].pushed| - |run[k].polled| <= bound
  }

  /** Every pushed job is in exactly one place, once, and nothing else is anywhere. */
  ghost predicate KeepsJobs(s: State) {
    s.Valid() && forall job :: Occurrences(job, s) == if job in s.pushed then 1 else 0
  }

  ghost predicate AllKeepJobs(run: seq<State>) {
    forall i :: 0 <= i < |run| ==> KeepsJobs(run[i])
  }

  lemma EnqFrame(pc: Pc, q: Guarded, t: nat)
    requires IsEnq(pc) && q.ring.Valid() && Fits(pc, q.ring.Cap())
    ensures EnqNext(pc, q, t).1.ring.Cap() == q.ring.Cap()
  {
  }

  lemma DeqFrame(pc: Pc, q: Guarded, t: nat)
    requires IsDeq(pc) && q.ring.Valid() && Fits(pc, q.ring.Cap())
    ensures DeqNext(pc, q, t).1.ring.Cap() == q.ring.Cap()
  {
  }

  lemma ApplyKeepsShape(s: State, a: Action)
    requires s.Valid()
    ensures var s' := Apply(s, a); s'.Cap() == s.Cap() && s'.workers == s.workers && |s'.threads| == |s.threads|
    ensures s.workers == |s.threads| ==> Apply(s, a).pushed == s.pushed
  {
    if a.Run? && a.t < |s.threads| {
      var pc := s.threads[a.t];
      if IsEnq(pc) {
        EnqFrame(pc, s.RingOf(a.t, pc), a.t);
      } else if IsDeq(pc) {
        DeqFrame(pc, s.RingOf(a.t, pc), a.t);
      }
      hide EnqNext, DeqNext, Fits, Ring.Valid;
    }
  }

  lemma {:induction false} ShapeStays(run: seq<State>, i: nat)
    requires IsRun(run) && i < |run|
    ensures run[i].Cap() == run[0].Cap() && run[i].workers == run[0].workers && |run[i].threads| == |run[0].threads|
    ensures run[0].workers == |run[0].threads| ==> run[i].pushed == []
  {
    if i > 0 {
      ShapeStays(run, i - 1);
      assert Step(run[i - 1], run[i - 1 + 1]);
      var a :| Apply(run[i - 1], a) == run[i];
      ApplyKeepsShape(run[i - 1], a);
    }
  }

  lemma BoundedRunsKeepJobs(run: seq<State>, n: nat, w: nat, h: nat, bound: int)
    requires RunOf(run, n, w, h) && AtMost(run, bound) && n >= 2 && (h == 0 || bound <= n - 1)
    ensures AllKeepJobs(run)
  {
    forall i | 0 <= i < |run| ensures KeepsJobs(run[i]) {
      forall k | 0 <= k < i ensures Bounded(run[k]) {
        ShapeStays(run, k);
      }
      forall job { EveryJobInExactlyOnePlace(run, i, job); }
      RunKeepsInv(run, i);
    }
  }

  lemma SoleProducersKeepJobs(run: seq<State>, n: nat, w: nat, h: nat)
    requires RunOf(run, n, w, h) && w <= 1 && h <= 1
    ensures AllKeepJobs(run)
  {
    forall i | 0 <= i < |run| ensures KeepsJobs(run[i]) {
      SoleProducersKeepInv(run, i);
      forall job { InvMeansOnce(run[i], job); }
    }
  }

  lemma LostIsNotKept(s: State, n: nat)
    requires AllLost(s, n) && n > 0
    ensures !KeepsJobs(s)
  {
    var job := s.pushed[0];
    NoHands(At(job), s.threads);
    assert Occurrences(job, s) == 0;
  }

  lemma PlainIsStep(s: State, s': State)
    requires PlainStep(s, s')
    ensures Step(s, s')
  {
    hide Apply;
  }

  /** A path from the start is a run. */
  lemma PathIsRun(n: nat, w: nat, h: nat, end: State, bound: int) returns (run: seq<State>)
    requires n >= 2 && Reaches(Start(n, w, h), end, bound)
    ensures RunOf(run, n, w, h) && AtMost(run, bound) && run[|run| - 1] == end
  {
    run :| Path(run, bound) && run[0] == Start(n, w, h) && run[|run| - 1] == end;
    StartIsInit(n, w, h);
    forall i | 0 <= i < |run| - 1 ensures Step(run[i], run[i + 1]) {
      assert PlainStep(run[i], run[i + 1]);
      PlainIsStep(run[i], run[i + 1]);
    }
    hide Init, Step, PlainStep;
  }

  /** The bound is tight for every capacity: two hosts and n outstanding jobs can lose all. */
  lemma BoundIsTight(n: nat) returns (run: seq<State>)
    requires n >= 2
    ensures IsRun(run) && run[0].Cap() == n
    ensures forall k :: 0 <= k < |run| ==> |run[k].pushed| - |run[k].polled| <= n
    ensures var end := run[|run| - 1];
            end.Valid() && |end.pushed| == n && end.polled == [] && end.threads == [AtHead, AtHead] &&
            end.newJobs.ring.Items() == [] && end.finishedJobs.ring.Items() == []
  {
    var end := HostsOverrun(n, 0, 2);
    run := PathIsRun(n, 0, 2, end, n);
    assert Waiting(0, 2) == [AtHead, AtHead];
    hide Step, Init, Reaches, Ring.Items;
  }

  /** The configurations whose runs keep every job with up to `bound` outstanding. */
  predicate Safe(n: nat, w: nat, h: nat, bound: int) {
    h == 0 || (w <= 1 && h <= 1) || bound <= n - 1
  }

  /** Every run keeps its jobs if, and only if, the configuration is safe. */
  lemma BoundIsExact(n: nat, w: nat, h: nat, bound: int)
    requires n >= 2
    ensures (forall run :: RunOf(run, n, w, h) && AtMost(run, bound) ==> AllKeepJobs(run)) <==> Safe(n, w, h, bound)
  {
    if Safe(n, w, h, bound) {
      forall run | RunOf(run, n, w, h) && AtMost(run, bound) ensures AllKeepJobs(run) {
        if w <= 1 && h <= 1 {
          SoleProducersKeepJobs(run, n, w, h);
        } else {
          BoundedRunsKeepJobs(run, n, w, h, bound);
        }
      }
    } else {
      var end;
      if h >= 2 {
        end := HostsOverrun(n, w, h);
      } else {
        end := WorkersOverrun(n, w, h);
      }
      var run := PathIsRun(n, w, h, end, n);
      LostIsNotKept(end, n);
      assert AtMost(run, bound);
      assert !KeepsJobs(run[|run| - 1]);
    }
  }
}
