/** The kernels of MDProxy.c as loops over the flat table:
    mass | pos | vel | acc | f | pe | ke, each array np * nd cells. */
module MdKernels {
  import opened Sums
  import opened FlatTables
  import opened MdSystem

  ghost predicate IsTable(t: array<real>, np: nat, nd: nat) {
    1 <= nd <= 3 && t.Length == 1 + 6 * Start(np, nd)
  }

  ghost function ViewOf(t: seq<real>, np: nat, nd: nat): (s: Sim)
    requires 1 <= nd <= 3 && |t| == 1 + 6 * Start(np, nd)
    ensures s.Valid() && s.np == np && s.nd == nd
  {
    var n := Start(np, nd);
    Sim(np, nd, t[0], t[1..1 + n], t[1 + n..1 + 2 * n], t[1 + 2 * n..1 + 3 * n],
        t[1 + 3 * n..1 + 4 * n], t[1 + 4 * n..1 + 5 * n], t[1 + 5 * n..1 + 6 * n])
  }

  ghost function View(t: array<real>, np: nat, nd: nat): (s: Sim)
    requires IsTable(t, np, nd)
    reads t
    ensures s.Valid() && s.np == np && s.nd == nd
  {
    ViewOf(t[..], np, nd)
  }

  // Cell k of the array number `part` of a table.
  function CellOf(t: seq<real>, part: nat, size: nat, k: nat): real
    requires 1 + part * size + k < |t|
  {
    t[1 + part * size + k]
  }

  /** Component i of particle p in the array number `part` of the table (pos is 0, f is 3). */
  function Spot(part: nat, size: nat, p: nat, i: nat, nd: nat): nat { 1 + part * size + Cell(p, i, nd) }

  /** The table holds the positions of s. */
  ghost predicate Places(t: array<real>, s: Sim)
    reads t
  {
    s.Valid() && t.Length == 1 + 6 * Start(s.np, s.nd) && t[1..1 + Start(s.np, s.nd)] == s.pos
  }

  lemma PositionAt(t: array<real>, s: Sim, p: nat, i: nat)
    requires Places(t, s) && p < s.np && i < s.nd
    ensures Cell(p, i, s.nd) < Start(s.np, s.nd)
    ensures At(s.pos, s.nd, p, i) == t[1 + Cell(p, i, s.nd)]
  {
    CellInRange(p, i, s.np, s.nd);
    hide Start;
  }

  /** rij and the distance, over all dimensions. */
  method Distance(t: array<real>, nd: nat, lib: Libm, p: nat, q: nat, rij: array<real>, ghost s: Sim) returns (d: real)
    requires Places(t, s) && nd == s.nd && p < s.np && q < s.np && rij.Length == 3 && rij != t
    modifies rij
    ensures d == Dist(s, lib, p, q)
    ensures forall i :: 0 <= i < nd ==> rij[i] == Gap(s, p, q, i)
  {
    assert s.Valid();
    hide Sim.Valid, Cell, At, Square, Start;
    d := 0.0;
    for i := 0 to nd
      invariant Places(t, s)
      invariant d == Dist2(s, p, q, i)
      invariant forall k :: 0 <= k < i ==> rij[k] == Gap(s, p, q, k)
    {
      PositionAt(t, s, p, i);
      PositionAt(t, s, q, i);
      rij[i] := t[1 + Cell(p, i, nd)] - t[1 + Cell(q, i, nd)];
      d := d + Square(rij[i]);
    }
    d := lib.sqrt(d);
  }

  /** Only the forces and the potential energy of p may differ. */
  ghost predicate OnlyParticle(now: seq<real>, before: seq<real>, size: nat, p: nat, nd: nat)
  {
    |now| == |before| &&
    forall k :: 0 <= k < |before| && k != 1 + 4 * size + p && !(Spot(3, size, p, 0, nd) <= k < Spot(3, size, p, nd, nd))
      ==> now[k] == before[k]
  }

  lemma SpotsFit(np: nat, nd: nat, p: nat)
    requires nd >= 1 && p < np
    ensures Spot(3, Start(np, nd), p, nd, nd) <= 1 + 4 * Start(np, nd) && p < Start(np, nd)
  {
    CellInRange(p, nd - 1, np, nd);
    CellInRange(p, 0, np, nd);
    ParticleBelowSize(p, nd);
  }

  // Forces and energies lie beyond the positions.
  lemma PlacesKept(t: array<real>, before: seq<real>, s: Sim, p: nat)
    requires s.Valid() && |before| == 1 + 6 * Start(s.np, s.nd) && before[1..1 + Start(s.np, s.nd)] == s.pos
    requires OnlyParticle(t[..], before, Start(s.np, s.nd), p, s.nd)
    ensures Places(t, s)
  {
    hide Start;
    var size := Start(s.np, s.nd);
    forall k | 1 <= k < 1 + size ensures t[k] == before[k] {
    }
    assert t[1..1 + size] == before[1..1 + size];
  }

  lemma ParticleBelowSize(p: nat, nd: nat)
    requires nd >= 1
    ensures p <= Start(p, nd)
  {
  }

  /** The force loop of one pair. */
  method SubtractPulls(t: array<real>, first: nat, nd: nat, rij: array<real>, w: real, d: real)
    requires first + nd <= t.Length && nd <= rij.Length && rij != t && d != 0.0
    modifies t
    ensures forall i :: 0 <= i < nd ==> t[first + i] == old(t[..])[first + i] - Quotient(rij[i], w, d)
    ensures forall k :: 0 <= k < t.Length && !(first <= k < first + nd) ==> t[k] == old(t[..])[k]
  {
    hide Quotient;
    for i := 0 to nd
      invariant forall k :: 0 <= k < i ==> t[first + k] == old(t[..])[first + k] - Quotient(rij[k], w, d)
      invariant forall k :: 0 <= k < t.Length && !(first <= k < first + i) ==> t[k] == old(t[..])[k]
    {
      t[first + i] := t[first + i] - Quotient(rij[i], w, d);
    }
  }

  /** What one pair changes: the forces and the potential energy of p. */
  ghost predicate PairAdded(now: seq<real>, before: seq<real>, s: Sim, lib: Libm, p: nat, q: nat)
    requires s.Valid() && Separated(s, lib) && p < s.np && q < s.np && p != q && |before| == 1 + 6 * Start(s.np, s.nd)
    requires Spot(3, Start(s.np, s.nd), p, s.nd, s.nd) <= |before| && p < Start(s.np, s.nd)
  {
    var size, first := Start(s.np, s.nd), Spot(3, Start(s.np, s.nd), p, 0, s.nd);
    OnlyParticle(now, before, size, p, s.nd) &&
    (forall i :: 0 <= i < s.nd ==> now[first + i] == before[first + i] + Push(s, lib, i)(p, q)) &&
    now[1 + 4 * size + p] == before[1 + 4 * size + p] + 0.5 * Square(lib.sin(Cut(Dist(s, lib, p, q))))
  }

  lemma PushIsQuotient(s: Sim, lib: Libm, p: nat, q: nat, i: nat)
    requires Separated(s, lib) && p < s.np && q < s.np && p != q
    ensures Push(s, lib, i)(p, q) == -Quotient(Gap(s, p, q, i), lib.sin(1.0 * Cut(Dist(s, lib, p, q))), Dist(s, lib, p, q))
  {
    hide Quotient, Gap, Dist, Cut;
  }

  /** The body of the pair loop: particle q acts on particle p. */
  method AddPair(t: array<real>, np: nat, nd: nat, lib: Libm, p: nat, q: nat, rij: array<real>, ghost s: Sim)
    requires Places(t, s) && s.np == np && s.nd == nd && p < np && q < np && p != q && rij.Length == 3 && rij != t
    requires Separated(s, lib)
    requires Spot(3, Start(np, nd), p, nd, nd) <= 1 + 4 * Start(np, nd) && p < Start(np, nd)
    modifies t, rij
    ensures PairAdded(t[..], old(t[..]), s, lib, p, q)
  {
    hide Start, Square, Dist, Quotient, Gap, Separated;
    var size := Start(np, nd);
    var d := Distance(t, nd, lib, p, q, rij, s);
    NonzeroDist(s, lib, p, q);
    var d2 := if d < HALF_PI then d else HALF_PI;
    t[1 + 4 * size + p] := t[1 + 4 * size + p] + 0.5 * Square(lib.sin(d2));
    SubtractPulls(t, Spot(3, size, p, 0, nd), nd, rij, lib.sin(1.0 * d2), d);
    forall i: nat | i < nd ensures Push(s, lib, i)(p, q) == -Quotient(rij[i], lib.sin(1.0 * d2), d) {
      PushIsQuotient(s, lib, p, q, i);
    }
  }

  lemma NonzeroDist(s: Sim, lib: Libm, p: nat, q: nat)
    requires Separated(s, lib) && p < s.np && q < s.np && p != q
    ensures Dist(s, lib, p, q) != 0.0
  {
  }

  /** What the first n pairs of particle p have changed. */
  ghost predicate PairsAdded(now: seq<real>, before: seq<real>, s: Sim, lib: Libm, p: nat, n: nat)
    requires s.Valid() && Separated(s, lib) && p < s.np && n <= s.np && |before| == 1 + 6 * Start(s.np, s.nd)
    requires Spot(3, Start(s.np, s.nd), p, s.nd, s.nd) <= |before| && p < Start(s.np, s.nd)
  {
    var size, first := Start(s.np, s.nd), Spot(3, Start(s.np, s.nd), p, 0, s.nd);
    OnlyParticle(now, before, size, p, s.nd) &&
    (forall i :: 0 <= i < s.nd ==> now[first + i] == Force(s, lib, p, i, n)) &&
    now[1 + 4 * size + p] == before[1 + 4 * size + p] + Potential(s, lib, p, n)
  }

  // One more pair; the particle itself is skipped.
  lemma NextPair(now: seq<real>, mid: seq<real>, before: seq<real>, s: Sim, lib: Libm, p: nat, q: nat)
    requires s.Valid() && Separated(s, lib) && p < s.np && q < s.np && |before| == 1 + 6 * Start(s.np, s.nd)
    requires Spot(3, Start(s.np, s.nd), p, s.nd, s.nd) <= |before| && p < Start(s.np, s.nd)
    requires PairsAdded(mid, before, s, lib, p, q)
    requires if p == q then now == mid else PairAdded(now, mid, s, lib, p, q)
    ensures PairsAdded(now, before, s, lib, p, q + 1)
  {
    forall i | 0 <= i < s.nd ensures Force(s, lib, p, i, q + 1) == Force(s, lib, p, i, q) + Push(s, lib, i)(p, q) {
      assert Row(Push(s, lib, i), p)(q) == Push(s, lib, i)(p, q);
    }
    hide Start, Dist, Pull, Separated, Force, Square;
  }

  /** The work of one tid: its forces from zero, then every pair. */
  method ComputeParticle(t: array<real>, np: nat, nd: nat, lib: Libm, p: nat, rij: array<real>, ghost s: Sim)
    requires Places(t, s) && s.np == np && s.nd == nd && p < np && rij.Length == 3 && rij != t
    requires Separated(s, lib)
    requires Spot(3, Start(np, nd), p, nd, nd) <= 1 + 4 * Start(np, nd) && p < Start(np, nd)
    modifies t, rij
    ensures PairsAdded(t[..], old(t[..]), s, lib, p, np)
  {
    hide Start, Dist, Pull, Separated, Square;
    ghost var before := t[..];
    var size := Start(np, nd);
    var first := Spot(3, size, p, 0, nd);
    for i := 0 to nd
      invariant forall k :: first <= k < first + i ==> t[k] == 0.0
      invariant forall k :: 0 <= k < t.Length && !(first <= k < first + i) ==> t[k] == before[k]
    {
      t[first + i] := 0.0;
    }
    assert PairsAdded(t[..], before, s, lib, p, 0);
    PlacesKept(t, before, s, p);
    for q := 0 to np
      invariant Places(t, s)
      invariant PairsAdded(t[..], before, s, lib, p, q)
    {
      ghost var mid := t[..];
      if p != q {
        AddPair(t, np, nd, lib, p, q, rij, s);
      }
      NextPair(t[..], mid, before, s, lib, p, q);
      PlacesKept(t, before, s, p);
    }
  }

  // ---------- the whole kernels ----------

  /** ke[tid2], accumulated over the dimensions and then scaled. */
  method AddKineticOf(t: array<real>, size: nat, nd: nat, p: nat, ghost s: Sim)
    requires s.Valid() && s.nd == nd && size == Start(s.np, nd) && p < s.np && p < size && t.Length == 1 + 6 * size
    requires t[0] == s.mass && t[1 + size..1 + 2 * size] == s.vel
    modifies t
    ensures CellOf(t[..], 5, size, p) == HalfMass(CellOf(old(t[..]), 5, size, p) + Speed2(s, p, nd), s.mass)
    ensures forall k :: 0 <= k < 1 + 5 * size ==> t[k] == old(t[..])[k]
    ensures forall k :: 0 <= k < size && k != p ==> CellOf(t[..], 5, size, k) == CellOf(old(t[..]), 5, size, k)
  {
    hide Square, Start;
    ghost var before := t[..];
    for i := 0 to nd
      invariant t[1 + 5 * size + p] == before[1 + 5 * size + p] + Speed2(s, p, i)
      invariant forall k :: 0 <= k < t.Length && k != 1 + 5 * size + p ==> t[k] == before[k]
    {
      CellInRange(p, i, s.np, nd);
      assert t[1 + size + Cell(p, i, nd)] == t[1 + size..1 + 2 * size][Cell(p, i, nd)];
      assert t[1 + size..1 + 2 * size] == before[1 + size..1 + 2 * size];
      assert At(s.vel, nd, p, i) == t[1 + size + Cell(p, i, nd)];
      t[1 + 5 * size + p] := t[1 + 5 * size + p] + Square(t[1 + size + Cell(p, i, nd)]);
    }
    t[1 + 5 * size + p] := t[1 + 5 * size + p] * (0.5 * t[0]);
  }

  /** The kinetic loop over the particles after the first. */
  method AddKinetic(t: array<real>, np: nat, nd: nat, ghost s: Sim)
    requires s.Valid() && s.np == np && s.nd == nd && t.Length == 1 + 6 * Start(np, nd)
    requires t[0] == s.mass && t[1 + Start(np, nd)..1 + 2 * Start(np, nd)] == s.vel && t[1 + 5 * Start(np, nd)..] == s.ke
    modifies t
    ensures forall k :: 0 <= k < 1 + 5 * Start(np, nd) ==> t[k] == old(t[..])[k]
    ensures t[1 + 5 * Start(np, nd)..] == Kinetics(s)
  {
    var size := Start(np, nd);
    ghost var before := t[..];
    ParticleBelowSize(np, nd);
    hide Start, Square, Speed2, Kinetics, CellOf, HalfMass, KineticDone;
    KineticStart(before, s);
    var p := 1;
    while p < np
      invariant 1 <= p
      invariant forall k :: 0 <= k < 1 + 5 * size ==> t[k] == before[k]
      invariant KineticDone(t[..], s, p)
    {
      SameSlice(t[..], before, 1 + size, 1 + 2 * size, 1 + 5 * size);
      ghost var mid := t[..];
      AddKineticOf(t, size, nd, p, s);
      KineticStep(t[..], mid, s, p);
      p := p + 1;
    }
    KineticEnd(t[..], s, p);
  }

  /** The kinetic energies of particles 1 .. p-1 are in place. */
  ghost predicate KineticDone(now: seq<real>, s: Sim, p: nat)
    requires s.Valid() && |now| == 1 + 6 * Start(s.np, s.nd)
  {
    var size := Start(s.np, s.nd);
    forall k :: 0 <= k < size ==> CellOf(now, 5, size, k) == if k < p then Kinetics(s)[k] else s.ke[k]
  }

  lemma KineticStart(before: seq<real>, s: Sim)
    requires s.Valid() && |before| == 1 + 6 * Start(s.np, s.nd) && before[1 + 5 * Start(s.np, s.nd)..] == s.ke
    ensures KineticDone(before, s, 1)
  {
    hide Start, Speed2;
  }

  lemma KineticStep(now: seq<real>, mid: seq<real>, s: Sim, p: nat)
    requires s.Valid() && |now| == |mid| == 1 + 6 * Start(s.np, s.nd) && 1 <= p < s.np && p < Start(s.np, s.nd) &&
             KineticDone(mid, s, p)
    requires var size := Start(s.np, s.nd);
             CellOf(now, 5, size, p) == HalfMass(CellOf(mid, 5, size, p) + Speed2(s, p, s.nd), s.mass) &&
             forall k :: 0 <= k < size && k != p ==> CellOf(now, 5, size, k) == CellOf(mid, 5, size, k)
    ensures KineticDone(now, s, p + 1)
  {
    hide Start, Speed2, HalfMass, CellOf;
  }

  lemma KineticEnd(now: seq<real>, s: Sim, p: nat)
    requires s.Valid() && |now| == 1 + 6 * Start(s.np, s.nd) && p >= s.np && KineticDone(now, s, p)
    ensures now[1 + 5 * Start(s.np, s.nd)..] == Kinetics(s)
  {
    hide Start, Speed2, HalfMass;
    var size := Start(s.np, s.nd);
    forall k | 0 <= k < size ensures CellOf(now, 5, size, k) == Kinetics(s)[k] {
    }
    hide Kinetics, KineticDone;
    KineticSlice(now, size, Kinetics(s));
  }

  lemma KineticSlice(now: seq<real>, size: nat, ke: seq<real>)
    requires |now| == 1 + 6 * size && |ke| == size
    requires forall k :: 0 <= k < size ==> CellOf(now, 5, size, k) == ke[k]
    ensures now[1 + 5 * size..] == ke
  {
  }

  lemma SameSlice(now: seq<real>, before: seq<real>, lo: nat, hi: nat, same: nat)
    requires |now| == |before| && lo <= hi <= same <= |now| && forall k :: 0 <= k < same ==> now[k] == before[k]
    ensures now[lo..hi] == before[lo..hi]
  {
  }

  lemma ParticlesApart(p: nat, q: nat, nd: nat)
    requires p < q
    ensures Start(p, nd) + nd <= Start(q, nd)
  {
    assert (p + 1) * nd <= q * nd;
  }

  /** The table once the first n particles have been computed. */
  ghost predicate ForcesDone(now: seq<real>, before: seq<real>, s: Sim, lib: Libm, n: nat)
    requires s.Valid() && Separated(s, lib) && n <= s.np && |before| == 1 + 6 * Start(s.np, s.nd) &&
             s.np <= Start(s.np, s.nd)
  {
    var size := Start(s.np, s.nd);
    |now| == |before| &&
    (forall k :: 0 <= k < |before| && !(1 + 3 * size <= k < 1 + 5 * size) ==> now[k] == before[k]) &&
    (forall k :: 0 <= k < size && RowOf(k, s.nd) < n ==>
       CellOf(now, 3, size, k) == Force(s, lib, RowOf(k, s.nd), ColumnOf(k, s.nd), s.np)) &&
    forall k :: 0 <= k < size ==> CellOf(now, 4, size, k) == CellOf(before, 4, size, k) + if k < n
      then Potential(s, lib, k, s.np) else 0.0
  }

  lemma NextParticle(now: seq<real>, mid: seq<real>, before: seq<real>, s: Sim, lib: Libm, p: nat)
    requires s.Valid() && Separated(s, lib) && p < s.np && |before| == 1 + 6 * Start(s.np, s.nd) &&
             s.np <= Start(s.np, s.nd)
    requires Spot(3, Start(s.np, s.nd), p, s.nd, s.nd) <= 1 + 4 * Start(s.np, s.nd)
    requires ForcesDone(mid, before, s, lib, p) && PairsAdded(now, mid, s, lib, p, s.np)
    ensures ForcesDone(now, before, s, lib, p + 1)
  {
    var size := Start(s.np, s.nd);
    assert s.nd >= 1;
    hide Start, Force, RowOf, ColumnOf, Potential, Separated, Sim.Valid;
    forall k | 0 <= k < size && RowOf(k, s.nd) < p + 1
      ensures CellOf(now, 3, size, k) == Force(s, lib, RowOf(k, s.nd), ColumnOf(k, s.nd), s.np)
    {
      NextParticleForce(now, mid, before, s, lib, p, k);
    }
    hide Cell;
    forall k | 0 <= k < |before| && !(1 + 3 * size <= k < 1 + 5 * size) ensures now[k] == before[k] {
      assert now[k] == mid[k];
    }
    forall k | 0 <= k < size
      ensures CellOf(now, 4, size, k) == CellOf(before, 4, size, k) + if k < p + 1 then Potential(s, lib, k, s.np) else 0.0
    {
      assert CellOf(mid, 4, size, k) == CellOf(before, 4, size, k) + if k < p then Potential(s, lib, k, s.np) else 0.0;
      if k != p {
        assert now[1 + 4 * size + k] == mid[1 + 4 * size + k];
      }
    }
  }

  lemma NextParticleForce(now: seq<real>, mid: seq<real>, before: seq<real>, s: Sim, lib: Libm, p: nat, k: nat)
    requires s.Valid() && Separated(s, lib) && p < s.np && |before| == 1 + 6 * Start(s.np, s.nd) &&
             s.np <= Start(s.np, s.nd)
    requires Spot(3, Start(s.np, s.nd), p, s.nd, s.nd) <= 1 + 4 * Start(s.np, s.nd)
    requires ForcesDone(mid, before, s, lib, p) && PairsAdded(now, mid, s, lib, p, s.np)
    requires k < Start(s.np, s.nd) && RowOf(k, s.nd) < p + 1
    ensures CellOf(now, 3, Start(s.np, s.nd), k) == Force(s, lib, RowOf(k, s.nd), ColumnOf(k, s.nd), s.np)
  {
    var size, q, i := Start(s.np, s.nd), RowOf(k, s.nd), ColumnOf(k, s.nd);
    CellEncodes(k, s.np, s.nd);
    TableSizes(now, mid, before, s, lib, p);
    hide *;
    if q < p {
      EarlierForce(mid, before, s, lib, p, k);
      OnlyThisParticle(now, mid, s, lib, p);
      EarlierForceKept(now, mid, size, p, q, i, s.nd);
    } else {
      OwnForce(now, mid, s, lib, p, i);
    }
  }

  lemma TableSizes(now: seq<real>, mid: seq<real>, before: seq<real>, s: Sim, lib: Libm, p: nat)
    requires s.Valid() && Separated(s, lib) && p < s.np && |before| == 1 + 6 * Start(s.np, s.nd) &&
             s.np <= Start(s.np, s.nd)
    requires Spot(3, Start(s.np, s.nd), p, s.nd, s.nd) <= 1 + 4 * Start(s.np, s.nd)
    requires ForcesDone(mid, before, s, lib, p) && PairsAdded(now, mid, s, lib, p, s.np)
    ensures |now| == |mid| == |before| && s.nd >= 1
  {
    hide Force, Potential, Separated;
  }

  lemma EarlierForce(mid: seq<real>, before: seq<real>, s: Sim, lib: Libm, p: nat, k: nat)
    requires s.Valid() && Separated(s, lib) && p <= s.np && |mid| == |before| == 1 + 6 * Start(s.np, s.nd)
    requires s.np <= Start(s.np, s.nd) && ForcesDone(mid, before, s, lib, p)
    requires k < Start(s.np, s.nd) && RowOf(k, s.nd) < p
    ensures CellOf(mid, 3, Start(s.np, s.nd), k) == Force(s, lib, RowOf(k, s.nd), ColumnOf(k, s.nd), s.np)
  {
    hide Force, Potential, Separated, Start, RowOf, ColumnOf;
  }

  lemma OnlyThisParticle(now: seq<real>, mid: seq<real>, s: Sim, lib: Libm, p: nat)
    requires s.Valid() && Separated(s, lib) && p < s.np && |mid| == 1 + 6 * Start(s.np, s.nd)
    requires Spot(3, Start(s.np, s.nd), p, s.nd, s.nd) <= |mid| && p < Start(s.np, s.nd)
    requires PairsAdded(now, mid, s, lib, p, s.np)
    ensures OnlyParticle(now, mid, Start(s.np, s.nd), p, s.nd)
  {
    hide OnlyParticle, Force, Start, Separated;
  }

  lemma OwnForce(now: seq<real>, mid: seq<real>, s: Sim, lib: Libm, p: nat, i: nat)
    requires s.Valid() && Separated(s, lib) && p < s.np && i < s.nd && |now| == |mid| == 1 + 6 * Start(s.np, s.nd)
    requires Spot(3, Start(s.np, s.nd), p, s.nd, s.nd) <= |mid| && p < Start(s.np, s.nd)
    requires PairsAdded(now, mid, s, lib, p, s.np) && Cell(p, i, s.nd) < Start(s.np, s.nd)
    ensures CellOf(now, 3, Start(s.np, s.nd), Cell(p, i, s.nd)) == Force(s, lib, p, i, s.np)
  {
    assert now[Spot(3, Start(s.np, s.nd), p, 0, s.nd) + i] == Force(s, lib, p, i, s.np);
    hide OnlyParticle, Force, Start, Separated, PairsAdded;
  }

  lemma EarlierForceKept(now: seq<real>, mid: seq<real>, size: nat, p: nat, q: nat, i: nat, nd: nat)
    requires OnlyParticle(now, mid, size, p, nd) && q < p && i < nd && Cell(q, i, nd) < size && |mid| == 1 + 6 * size
    ensures CellOf(now, 3, size, Cell(q, i, nd)) == CellOf(mid, 3, size, Cell(q, i, nd))
  {
    ParticlesApart(q, p, nd);
    hide Start;
  }

  lemma HoldsPlaces(t: array<real>, before: seq<real>, s: Sim, lib: Libm, n: nat)
    requires 1 <= s.nd <= 3 && |before| == 1 + 6 * Start(s.np, s.nd) && s == ViewOf(before, s.np, s.nd)
    requires s.Valid() && Separated(s, lib) && n <= s.np <= Start(s.np, s.nd) && ForcesDone(t[..], before, s, lib, n)
    ensures Places(t, s)
    ensures t[0] == s.mass && t[1 + Start(s.np, s.nd)..1 + 2 * Start(s.np, s.nd)] == s.vel &&
            t[1 + 5 * Start(s.np, s.nd)..] == s.ke
  {
    hide Start, Separated, Force, Potential, RowOf, ColumnOf;
    var size, now := Start(s.np, s.nd), t[..];
    SameSlice(now, before, 1, 1 + size, 1 + 3 * size);
    SameSlice(now, before, 1 + size, 1 + 2 * size, 1 + 3 * size);
    assert now[1 + 5 * size..] == before[1 + 5 * size..];
  }

  lemma AllComputed(now: seq<real>, forced: seq<real>, before: seq<real>, s: Sim, lib: Libm)
    requires 1 <= s.nd <= 3 && |now| == |before| == 1 + 6 * Start(s.np, s.nd) && s == ViewOf(before, s.np, s.nd)
    requires s.Valid() && Separated(s, lib) && s.np <= Start(s.np, s.nd) && ForcesDone(forced, before, s, lib, s.np)
    requires forall k :: 0 <= k < 1 + 5 * Start(s.np, s.nd) ==> now[k] == forced[k]
    requires now[1 + 5 * Start(s.np, s.nd)..] == Kinetics(s)
    ensures ViewOf(now, s.np, s.nd) == Computed(s, lib)
  {
    var size, r, c := Start(s.np, s.nd), ViewOf(now, s.np, s.nd), Computed(s, lib);
    ForcesComputed(now, forced, before, s, lib);
    EnergiesComputed(now, forced, before, s, lib);
    hide Start, Separated, Force, Potential, RowOf, ColumnOf, Kinetics, Forces, Potentials, CellOf;
    assert forall k :: 0 <= k < 1 + 3 * size ==> now[k] == before[k];
    hide ForcesDone;
    SameSlice(now, before, 1, 1 + size, 1 + 3 * size);
    SameSlice(now, before, 1 + size, 1 + 2 * size, 1 + 3 * size);
    SameSlice(now, before, 1 + 2 * size, 1 + 3 * size, 1 + 3 * size);
  }

  lemma ForcesComputed(now: seq<real>, forced: seq<real>, before: seq<real>, s: Sim, lib: Libm)
    requires s.Valid() && Separated(s, lib) && s.np <= Start(s.np, s.nd) && |now| == |before| == 1 + 6 * Start(s.np, s.nd)
    requires ForcesDone(forced, before, s, lib, s.np) &&
             forall k :: 0 <= k < 1 + 5 * Start(s.np, s.nd) ==> now[k] == forced[k]
    ensures now[1 + 3 * Start(s.np, s.nd)..1 + 4 * Start(s.np, s.nd)] == Forces(s, lib)
  {
    hide Start, Separated, Force, Potential, RowOf, ColumnOf, Kinetics;
    var size := Start(s.np, s.nd);
    var f := now[1 + 3 * size..1 + 4 * size];
    assert |forced| == |before|;
    forall k | 0 <= k < size ensures f[k] == Forces(s, lib)[k] {
      CellEncodes(k, s.np, s.nd);
      EarlierForce(forced, before, s, lib, s.np, k);
      hide ForcesDone;
    }
    hide ForcesDone, Forces;
  }

  lemma EnergiesComputed(now: seq<real>, forced: seq<real>, before: seq<real>, s: Sim, lib: Libm)
    requires 1 <= s.nd <= 3 && |now| == |before| == 1 + 6 * Start(s.np, s.nd) && s == ViewOf(before, s.np, s.nd)
    requires s.Valid() && Separated(s, lib) && s.np <= Start(s.np, s.nd)
    requires ForcesDone(forced, before, s, lib, s.np) &&
             forall k :: 0 <= k < 1 + 5 * Start(s.np, s.nd) ==> now[k] == forced[k]
    ensures now[1 + 4 * Start(s.np, s.nd)..1 + 5 * Start(s.np, s.nd)] == Potentials(s, lib)
  {
    hide Start, Separated, Force, Potential, RowOf, ColumnOf;
    var size := Start(s.np, s.nd);
    var e := now[1 + 4 * size..1 + 5 * size];
    forall k | 0 <= k < size ensures e[k] == Potentials(s, lib)[k] {
      assert CellOf(forced, 4, size, k) == CellOf(before, 4, size, k) + if k < s.np then Potential(s, lib, k, s.np)
        else 0.0;
      hide ForcesDone;
    }
    hide ForcesDone;
  }

  /** ComputeParticles_Multi: the table afterwards holds what Computed says, everywhere. */
  method ComputeParticles(t: array<real>, np: nat, nd: nat, lib: Libm)
    requires IsTable(t, np, nd) && Separated(View(t, np, nd), lib)
    modifies t
    ensures View(t, np, nd) == Computed(old(View(t, np, nd)), lib)
  {
    ghost var s, before := View(t, np, nd), t[..];
    var rij := new real[3];
    ParticleBelowSize(np, nd);
    hide Start, Separated, Force, Potential, RowOf, ColumnOf, Dist;
    var tid := 0;
    while tid < np
      invariant 0 <= tid <= np
      invariant ForcesDone(t[..], before, s, lib, tid)
    {
      ghost var mid := t[..];
      SpotsFit(np, nd, tid);
      HoldsPlaces(t, before, s, lib, tid);
      ComputeParticle(t, np, nd, lib, tid, rij, s);
      NextParticle(t[..], mid, before, s, lib, tid);
      tid := tid + 1;
    }
    ghost var forced := t[..];
    HoldsPlaces(t, before, s, lib, np);
    AddKinetic(t, np, nd, s);
    AllComputed(t[..], forced, before, s, lib);
  }

  // ---------- the update ----------

  // Has the update visited cell k, when it is at component m of particle n?
  predicate Reached(k: nat, nd: nat, n: nat, m: nat)
    requires nd > 0
  {
    Visited(ColumnOf(k, nd)) && (RowOf(k, nd) < n || (RowOf(k, nd) == n && ColumnOf(k, nd) < m))
  }

  ghost predicate UpdateDone(now: seq<real>, before: seq<real>, s: Sim, n: nat, m: nat)
    requires s.Valid() && s.mass != 0.0 && |before| == 1 + 6 * Start(s.np, s.nd)
  {
    var size := Start(s.np, s.nd);
    |now| == |before| && now[0] == before[0] && (forall k :: 1 + 3 * size <= k < |before| ==> now[k] == before[k]) &&
    forall k :: 0 <= k < size ==>
      var p, i := RowOf(k, s.nd), ColumnOf(k, s.nd);
      CellOf(now, 0, size, k) == (if Reached(k, s.nd, n, m) then NewPos(s, p, i) else CellOf(before, 0, size, k)) &&
      CellOf(now, 1, size, k) == (if Reached(k, s.nd, n, m) then NewVel(s, p, i) else CellOf(before, 1, size, k)) &&
      CellOf(now, 2, size, k) == (if Reached(k, s.nd, n, m) then NewAcc(s, p, i) else CellOf(before, 2, size, k))
  }

  lemma UpdatedValues(s: Sim, p: nat, i: nat, c: nat)
    requires s.Valid() && s.mass != 0.0 && c == Cell(p, i, s.nd) && c < Start(s.np, s.nd)
    ensures var rmass := 1.0 / s.mass;
            NewPos(s, p, i) == s.pos[c] + s.vel[c] * 1.0 + 0.5 * s.acc[c] * 1.0 * 1.0 &&
            NewVel(s, p, i) == s.vel[c] + 0.5 * 1.0 * (s.f[c] * rmass + s.acc[c]) && NewAcc(s, p, i) == s.f[c] * rmass
  {
    hide Start, Cell;
  }

  /** The three assignments at one component. */
  method UpdateCell(t: array<real>, size: nat, c: nat, ghost s: Sim, ghost p: nat, ghost i: nat)
    requires s.Valid() && s.mass != 0.0 && size == Start(s.np, s.nd) && t.Length == 1 + 6 * size && c < size &&
             t[0] == s.mass
    requires c == Cell(p, i, s.nd)
    requires CellOf(t[..], 0, size, c) == s.pos[c] && CellOf(t[..], 1, size, c) == s.vel[c]
    requires CellOf(t[..], 2, size, c) == s.acc[c] && CellOf(t[..], 3, size, c) == s.f[c]
    modifies t
    ensures CellOf(t[..], 0, size, c) == NewPos(s, p, i) && CellOf(t[..], 1, size, c) == NewVel(s, p, i) &&
            CellOf(t[..], 2, size, c) == NewAcc(s, p, i)
    ensures forall k :: 0 <= k < t.Length && k != 1 + c && k != 1 + size + c && k != 1 + 2 * size + c ==>
              t[k] == old(t[..])[k]
  {
    UpdatedValues(s, p, i, c);
    CellsAt(t, size, c);
    hide *;
    var x, v, a, f := t[1 + c], t[1 + size + c], t[1 + 2 * size + c], t[1 + 3 * size + c];
    var rmass := 1.0 / t[0];
    t[1 + c] := x + v * 1.0 + 0.5 * a * 1.0 * 1.0;
    t[1 + size + c] := v + 0.5 * 1.0 * (f * rmass + a);
    t[1 + 2 * size + c] := f * rmass;
    CellsAt(t, size, c);
  }

  lemma CellsAt(t: array<real>, size: nat, c: nat)
    requires t.Length == 1 + 6 * size && c < size
    ensures CellOf(t[..], 0, size, c) == t[1 + c] && CellOf(t[..], 1, size, c) == t[1 + size + c]
    ensures CellOf(t[..], 2, size, c) == t[1 + 2 * size + c] && CellOf(t[..], 3, size, c) == t[1 + 3 * size + c]
  {
  }

  lemma UpdateStep(now: seq<real>, mid: seq<real>, before: seq<real>, s: Sim, p: nat, i: nat)
    requires s.Valid() && s.mass != 0.0 && |now| == |before| == 1 + 6 * Start(s.np, s.nd) && p < s.np && i < s.nd &&
             Visited(i)
    requires UpdateDone(mid, before, s, p, i) && Cell(p, i, s.nd) < Start(s.np, s.nd)
    requires var size, c := Start(s.np, s.nd), Cell(p, i, s.nd);
             CellOf(now, 0, size, c) == NewPos(s, p, i) && CellOf(now, 1, size, c) == NewVel(s, p, i) &&
               CellOf(now, 2, size, c) == NewAcc(s, p, i) &&
             forall k :: 0 <= k < |now| && k != 1 + c && k != 1 + size + c && k != 1 + 2 * size + c ==> now[k] == mid[k]
    ensures UpdateDone(now, before, s, p, i + 2)
  {
    var size, c := Start(s.np, s.nd), Cell(p, i, s.nd);
    CellDecodes(p, i, s.nd);
    forall k | 0 <= k < size
      ensures var p', i' := RowOf(k, s.nd), ColumnOf(k, s.nd);
              CellOf(now, 0, size, k) == (if Reached(k, s.nd, p, i + 2) then NewPos(s, p', i')
                else CellOf(before, 0, size, k)) &&
              CellOf(now, 1, size, k) == (if Reached(k, s.nd, p, i + 2) then NewVel(s, p', i')
                else CellOf(before, 1, size, k)) &&
              CellOf(now, 2, size, k) == (if Reached(k, s.nd, p, i + 2) then NewAcc(s, p', i')
                else CellOf(before, 2, size, k))
    {
      CellEncodes(k, s.np, s.nd);
      hide RowOf, ColumnOf, NewPos, NewVel, NewAcc, Start, Cell;
      assert CellOf(mid, 0, size, k) == if Reached(k, s.nd, p, i) then NewPos(s, RowOf(k, s.nd), ColumnOf(k, s.nd))
        else CellOf(before, 0, size, k);
      hide UpdateDone;
      assert k != c ==> (Reached(k, s.nd, p, i + 2) <==> Reached(k, s.nd, p, i));
    }
    hide RowOf, ColumnOf, NewPos, NewVel, NewAcc, Start, Cell, CellOf;
  }

  // What a cell holds just before it is updated.
  lemma NotReachedYet(mid: seq<real>, before: seq<real>, s: Sim, p: nat, i: nat)
    requires 1 <= s.nd <= 3 && |before| == 1 + 6 * Start(s.np, s.nd) && s == ViewOf(before, s.np, s.nd)
    requires s.Valid() && s.mass != 0.0 && p < s.np && i < s.nd && UpdateDone(mid, before, s, p, i)
    ensures var size, c := Start(s.np, s.nd), Cell(p, i, s.nd);
            c < size && CellOf(mid, 0, size, c) == s.pos[c] && CellOf(mid, 1, size, c) == s.vel[c] &&
            CellOf(mid, 2, size, c) == s.acc[c] && CellOf(mid, 3, size, c) == s.f[c] && mid[0] == s.mass
  {
    CellInRange(p, i, s.np, s.nd);
    CellDecodes(p, i, s.nd);
    hide RowOf, ColumnOf, NewPos, NewVel, NewAcc, Start, Cell;
    assert !Reached(Cell(p, i, s.nd), s.nd, p, i);
  }

  // Moving on to the next particle reaches no new cell.
  lemma RowDone(now: seq<real>, before: seq<real>, s: Sim, p: nat, m: nat)
    requires s.Valid() && s.mass != 0.0 && |before| == 1 + 6 * Start(s.np, s.nd) && p < s.np && m >= s.nd
    requires UpdateDone(now, before, s, p, m)
    ensures UpdateDone(now, before, s, p + 1, 1)
  {
    forall k | 0 <= k < Start(s.np, s.nd) ensures Reached(k, s.nd, p + 1, 1) == Reached(k, s.nd, p, m) {
      CellEncodes(k, s.np, s.nd);
      hide RowOf, ColumnOf, Start;
    }
    hide Reached, RowOf, ColumnOf, NewPos, NewVel, NewAcc, Start, CellOf;
  }

  lemma NothingReached(before: seq<real>, s: Sim)
    requires s.Valid() && s.mass != 0.0 && |before| == 1 + 6 * Start(s.np, s.nd)
    ensures UpdateDone(before, before, s, 0, 1)
  {
    hide RowOf, ColumnOf, NewPos, NewVel, NewAcc, Start, CellOf;
  }

  lemma AllUpdated(now: seq<real>, before: seq<real>, s: Sim)
    requires 1 <= s.nd <= 3 && |before| == 1 + 6 * Start(s.np, s.nd) && s == ViewOf(before, s.np, s.nd)
    requires s.Valid() && s.mass != 0.0 && UpdateDone(now, before, s, s.np, 1)
    ensures ViewOf(now, s.np, s.nd) == Updated(s)
  {
    var size, r, u := Start(s.np, s.nd), ViewOf(now, s.np, s.nd), Updated(s);
    assert |now| == |before|;
    hide RowOf, ColumnOf, NewPos, NewVel, NewAcc, Start, Reached;
    forall k | 0 <= k < size ensures r.pos[k] == u.pos[k] && r.vel[k] == u.vel[k] && r.acc[k] == u.acc[k] {
      CellEncodes(k, s.np, s.nd);
      AllReached(k, s.np, s.nd);
      CellUpdated(now, before, s, k);
      hide UpdateDone, Visited;
    }
    assert now[0] == before[0] && forall k :: 1 + 3 * size <= k < |before| ==> now[k] == before[k];
    hide CellOf, Refreshed, UpdateDone;
    SameTail(now, before, 1 + 3 * size);
  }

  lemma AllReached(k: nat, np: nat, nd: nat)
    requires nd > 0 && RowOf(k, nd) < np
    ensures Reached(k, nd, np, 1) <==> Visited(ColumnOf(k, nd))
  {
    hide RowOf, ColumnOf;
  }

  lemma CellUpdated(now: seq<real>, before: seq<real>, s: Sim, k: nat)
    requires s.Valid() && s.mass != 0.0 && |now| == |before| == 1 + 6 * Start(s.np, s.nd)
    requires UpdateDone(now, before, s, s.np, 1) && k < Start(s.np, s.nd)
    ensures var size, p, i := Start(s.np, s.nd), RowOf(k, s.nd), ColumnOf(k, s.nd);
            var reached := Reached(k, s.nd, s.np, 1);
            CellOf(now, 0, size, k) == (if reached then NewPos(s, p, i) else CellOf(before, 0, size, k)) &&
            CellOf(now, 1, size, k) == (if reached then NewVel(s, p, i) else CellOf(before, 1, size, k)) &&
            CellOf(now, 2, size, k) == (if reached then NewAcc(s, p, i) else CellOf(before, 2, size, k))
  {
    hide RowOf, ColumnOf, NewPos, NewVel, NewAcc, Start, Reached, CellOf;
  }

  lemma SameTail(now: seq<real>, before: seq<real>, lo: nat)
    requires |now| == |before| && lo <= |now| && forall k :: lo <= k < |now| ==> now[k] == before[k]
    ensures forall a, b :: lo <= a <= b <= |now| ==> now[a..b] == before[a..b]
  {
  }

  /** UpdatePosVelAccel_Multi: dimensions 1, 3, ... of every particle. */
  method UpdatePosVelAccel(t: array<real>, np: nat, nd: nat)
    requires IsTable(t, np, nd) && t[0] != 0.0
    modifies t
    ensures View(t, np, nd) == Updated(old(View(t, np, nd)))
  {
    ghost var s, before := View(t, np, nd), t[..];
    var size := Start(np, nd);
    NothingReached(before, s);
    for j := 0 to np
      invariant UpdateDone(t[..], before, s, j, 1)
    {
      hide UpdateDone, Start, NewPos, NewVel, NewAcc, CellOf, ViewOf;
      var i := 1;
      while i < nd
        invariant i >= 1 && Visited(i)
        invariant t.Length == |before| && UpdateDone(t[..], before, s, j, i)
      {
        ghost var mid := t[..];
        NotReachedYet(mid, before, s, j, i);
        UpdateCell(t, size, Cell(j, i, nd), s, j, i);
        UpdateStep(t[..], mid, before, s, j, i);
        i := i + 2;
      }
      RowDone(t[..], before, s, j, i);
    }
    AllUpdated(t[..], before, s);
  }

  /** MDProxy: rounds of computing and updating on one table. */
  method MDProxy(t: array<real>, np: nat, nd: nat, lib: Libm, steps: nat)
    requires IsTable(t, np, nd) && t[0] != 0.0 && StaysApart(View(t, np, nd), lib, steps)
    modifies t
    ensures View(t, np, nd) == Rounds(old(View(t, np, nd)), lib, steps)
  {
    ghost var s := View(t, np, nd);
    for i := 0 to steps
      invariant StaysApart(s, lib, steps) && View(t, np, nd).mass == s.mass
      invariant StaysApart(s, lib, i) && View(t, np, nd) == Rounds(s, lib, i)
    {
      StillApart(s, lib, i, steps);
      NextRound(s, lib, i);
      hide Separated, Computed, Updated, ViewOf, Start, Rounds, StaysApart;
      ComputeParticles(t, np, nd, lib);
      UpdatePosVelAccel(t, np, nd);
    }
  }

  lemma NextRound(s: Sim, lib: Libm, i: nat)
    requires s.Valid() && s.mass != 0.0 && StaysApart(s, lib, i + 1)
    ensures StaysApart(s, lib, i) && Separated(Rounds(s, lib, i), lib)
    ensures Rounds(s, lib, i + 1) == Updated(Computed(Rounds(s, lib, i), lib))
  {
  }

  lemma {:induction false} StillApart(s: Sim, lib: Libm, i: nat, n: nat)
    requires s.Valid() && s.mass != 0.0 && StaysApart(s, lib, n) && i < n
    ensures StaysApart(s, lib, i + 1)
  {
    if i + 1 < n {
      StillApart(s, lib, i, n - 1);
    }
  }
}
