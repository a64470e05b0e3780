/** Stretches of coprocessor runs; a queue operation that one thread runs alone is one. */
module MicPaths {
  import opened Rings
  import opened MicMachine
  import opened MicRuntime

  // ---------- stretches of a run ----------

  /** What the threads of a stretch do: run on, or, as a host between calls, start to push. */
  ghost predicate Plain(s: State, a: Action) {
    (a.Run? && a.t < |s.threads| && (a.t < s.workers || !s.threads[a.t].AtHead?)) ||
    (a.Push? && s.workers <= a.t < |s.threads| && s.threads[a.t].AtHead? && a == Push(a.t, 0, 1, 0, 0))
  }

  ghost predicate PlainStep(s: State, s': State) {
    s.Valid() && exists a :: Apply(s, a) == s' && Plain(s, a)
  }

  /** Steps that follow one another with at most `bound` jobs outstanding. */
  ghost predicate Path(p: seq<State>, bound: int)
    ensures Path(p, bound) ==> |p| > 0
  {
    && |p| > 0
    && (forall i :: 0 <= i < |p| - 1 ==> PlainStep(p[i], p[i + 1]))
    && forall i :: 0 <= i < |p| ==> |p[i].pushed| - |p[i].polled| <= bound
  }

  ghost predicate Reaches(s: State, s': State, bound: int) {
    exists p :: Path(p, bound) && p[0] == s && p[|p| - 1] == s'
  }

  // State i of p followed by q, which starts where p ends.
  function Joined(p: seq<State>, q: seq<State>, i: nat): State
    requires 0 < |p| && i < |p| - 1 + |q|
  {
    if i < |p| - 1 then p[i] else q[i - (|p| - 1)]
  }

  lemma JoinedStep(p: seq<State>, q: seq<State>, bound: int, i: nat)
    requires Path(p, bound) && Path(q, bound) && p[|p| - 1] == q[0] && i < |p| + |q| - 2
    ensures PlainStep(Joined(p, q, i), Joined(p, q, i + 1))
  {
    hide PlainStep;
    var m := |p| - 1;
    if i < m {
      assert PlainStep(p[i], p[i + 1]);
    } else {
      assert PlainStep(q[i - m], q[i - m + 1]);
    }
  }

  lemma PathsJoin(p: seq<State>, q: seq<State>, bound: int) returns (r: seq<State>)
    requires Path(p, bound) && Path(q, bound) && p[|p| - 1] == q[0]
    ensures Path(r, bound) && r[0] == p[0] && r[|r| - 1] == q[|q| - 1]
  {
    var n := |p| - 1 + |q|;
    r := seq(n, i requires 0 <= i < n => Joined(p, q, i));
    forall i | 0 <= i < |r| - 1 ensures PlainStep(r[i], r[i + 1]) {
      JoinedStep(p, q, bound, i);
    }
    hide PlainStep;
  }

  lemma ReachesOn(a: State, b: State, c: State, bound: int)
    requires Reaches(a, b, bound) && Reaches(b, c, bound)
    ensures Reaches(a, c, bound)
  {
    hide Path;
    var p :| Path(p, bound) && p[0] == a && p[|p| - 1] == b;
    var q :| Path(q, bound) && q[0] == b && q[|q| - 1] == c;
    var r := PathsJoin(p, q, bound);
  }

  lemma ReachesItself(s: State, bound: int)
    requires |s.pushed| - |s.polled| <= bound
    ensures Reaches(s, s, bound)
  {
    assert Path([s], bound) && [s][0] == s && [s][|[s]| - 1] == s;
  }

  lemma OneStep(s: State, a: Action, bound: int)
    requires s.Valid() && Plain(s, a) && |s.pushed| - |s.polled| <= bound
    requires |Apply(s, a).pushed| - |Apply(s, a).polled| <= bound
    ensures Reaches(s, Apply(s, a), bound)
  {
    var p := [s, Apply(s, a)];
    assert PlainStep(p[0], p[1]);
    assert Path(p, bound) && p[0] == s && p[|p| - 1] == Apply(s, a);
  }

  lemma EnqKeepsFrame(pc: Pc, q: Guarded, t: nat)
    requires IsEnq(pc) && q.ring.Valid() && Fits(pc, q.ring.Cap())
    ensures var (pc', q') := EnqNext(pc, q, t);
            q'.ring.Valid() && q'.ring.Cap() == q.ring.Cap() && Fits(pc', q'.ring.Cap()) && (IsEnq(pc') || pc' == AtHead)
  {
  }

  lemma DeqKeepsFrame(pc: Pc, q: Guarded, t: nat)
    requires IsDeq(pc) && q.ring.Valid() && Fits(pc, q.ring.Cap())
    ensures var (pc', q') := DeqNext(pc, q, t);
            q'.ring.Valid() && q'.ring.Cap() == q.ring.Cap() && Fits(pc', q'.ring.Cap()) &&
            (IsDeq(pc') || pc' == AtHead || pc'.Holding?)
  {
  }

  /** The state after thread t alone has gone from its pc to pc' and its ring to q'. */
  function Became(s: State, t: nat, pc': Pc, q': Guarded): State
    requires t < |s.threads|
  {
    s.WithRing(t, s.threads[t], q').Move(t, pc')
  }

  lemma BecameTwice(s: State, t: nat, pc1: Pc, q1: Guarded, pc2: Pc, q2: Guarded)
    requires t < |s.threads| && s.OnNew(t, pc1) == s.OnNew(t, s.threads[t])
    ensures Became(Became(s, t, pc1, q1), t, pc2, q2) == Became(s, t, pc2, q2)
    ensures |Became(s, t, pc1, q1).threads| == |s.threads|
    ensures Became(s, t, pc1, q1).threads[t] == pc1 && Became(s, t, pc1, q1).RingOf(t, pc1) == q1
  {
    hide IsEnq, IsDeq;
    assert s.threads[t := pc1][t := pc2] == s.threads[t := pc2];
  }

  lemma EnqOnward(s: State, t: nat, bound: int)
    requires s.Valid() && t < |s.threads| && IsEnq(s.threads[t]) && |s.pushed| - |s.polled| <= bound
    ensures var (pc1, q1) := EnqNext(s.threads[t], s.RingOf(t, s.threads[t]), t);
            var s1 := Became(s, t, pc1, q1);
            s1.Valid() && Reaches(s, s1, bound) && s1.pushed == s.pushed && s1.polled == s.polled &&
            (IsEnq(pc1) ==> s.OnNew(t, pc1) == s.OnNew(t, s.threads[t]))
  {
    EnqKeepsFrame(s.threads[t], s.RingOf(t, s.threads[t]), t);
    hide EnqNext, Reaches, Fits;
    OneStep(s, Run(t), bound);
  }

  lemma DeqOnward(s: State, t: nat, bound: int)
    requires s.Valid() && t < |s.threads| && IsDeq(s.threads[t]) && |s.pushed| - |s.polled| <= bound
    ensures var (pc1, q1) := DeqNext(s.threads[t], s.RingOf(t, s.threads[t]), t);
            var s1 := Became(s, t, pc1, q1);
            s1.Valid() && Reaches(s, s1, bound) && s1.pushed == s.pushed && s1.polled == s.polled &&
            (IsDeq(pc1) ==> s.OnNew(t, pc1) == s.OnNew(t, s.threads[t]))
  {
    DeqKeepsFrame(s.threads[t], s.RingOf(t, s.threads[t]), t);
    hide DeqNext, Reaches, Fits;
    OneStep(s, Run(t), bound);
  }

  lemma StayedSame(s: State, t: nat)
    requires t < |s.threads|
    ensures Became(s, t, s.threads[t], s.RingOf(t, s.threads[t])) == s
  {
  }

  lemma RingsFit(s: State, t: nat)
    requires s.Valid() && t < |s.threads|
    ensures var q := s.RingOf(t, s.threads[t]); q.ring.Valid() && Fits(s.threads[t], q.ring.Cap())
  {
  }

  /** Steps of Enqueue run alone are a stretch of a run. */
  lemma {:induction false} EnqPath(s: State, t: nat, n: nat, bound: int)
    requires s.Valid() && t < |s.threads| && IsEnq(s.threads[t]) && |s.pushed| - |s.polled| <= bound
    ensures var (pc', q') := EnqAlone(s.threads[t], s.RingOf(t, s.threads[t]), t, n);
            Reaches(s, Became(s, t, pc', q'), bound)
    decreases n
  {
    hide *;
    var pc, q := s.threads[t], s.RingOf(t, s.threads[t]);
    if n == 0 {
      StayedSame(s, t);
      AloneIsDone(pc, q, t);
      ReachesItself(s, bound);
    } else {
      RingsFit(s, t);
      EnqOnward(s, t, bound);
      EnqOnce(pc, q, t, n);
      var (pc1, q1) := EnqNext(pc, q, t);
      AloneStops(pc1, q1, t, n - 1);
      if IsEnq(pc1) {
        var (pc2, q2) := EnqAlone(pc1, q1, t, n - 1);
        BecameTwice(s, t, pc1, q1, pc2, q2);
        EnqPath(Became(s, t, pc1, q1), t, n - 1, bound);
        ReachesOn(s, Became(s, t, pc1, q1), Became(s, t, pc2, q2), bound);
      }
    }
  }

  /** So are those of MaybeFandD. */
  lemma {:induction false} DeqPath(s: State, t: nat, n: nat, bound: int)
    requires s.Valid() && t < |s.threads| && IsDeq(s.threads[t]) && |s.pushed| - |s.polled| <= bound
    ensures var (pc', q') := DeqAlone(s.threads[t], s.RingOf(t, s.threads[t]), t, n);
            Reaches(s, Became(s, t, pc', q'), bound)
    decreases n
  {
    hide *;
    var pc, q := s.threads[t], s.RingOf(t, s.threads[t]);
    if n == 0 {
      StayedSame(s, t);
      AloneIsDone(pc, q, t);
      ReachesItself(s, bound);
    } else {
      RingsFit(s, t);
      DeqOnward(s, t, bound);
      DeqOnce(pc, q, t, n);
      var (pc1, q1) := DeqNext(pc, q, t);
      AloneStops(pc1, q1, t, n - 1);
      if IsDeq(pc1) {
        var (pc2, q2) := DeqAlone(pc1, q1, t, n - 1);
        BecameTwice(s, t, pc1, q1, pc2, q2);
        DeqPath(Became(s, t, pc1, q1), t, n - 1, bound);
        ReachesOn(s, Became(s, t, pc1, q1), Became(s, t, pc2, q2), bound);
      }
    }
  }
}
