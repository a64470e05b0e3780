/** What the kernels of MDProxy.c do to the cells of the table, written out with products and
    quotients of cells and nothing else: the distance, two particles on one axis, the update. */
module MdCells {
  import opened Sums
  import opened FlatTables
  import opened MdSystem
  import opened MdKernels

  /** Square roots are exact and not negative. */
  ghost predicate RootsExact(lib: Libm) {
    forall x: real :: x >= 0.0 ==> lib.sqrt(x) >= 0.0 && lib.sqrt(x) * lib.sqrt(x) == x
  }

  lemma ExactIsOk(lib: Libm)
    requires RootsExact(lib)
    ensures LibmOk(lib)
  {
    forall x: real | x > 0.0 ensures lib.sqrt(x) != 0.0 {
      assert lib.sqrt(x) * lib.sqrt(x) == x;
    }
  }

  /** Sum of the products of the differences of up to three cells from a and from b on. */
  function SquaredGap(t: seq<real>, a: nat, b: nat, nd: nat): real
    requires 1 <= nd <= 3 && a + nd <= |t| && b + nd <= |t|
  {
    (t[a] - t[b]) * (t[a] - t[b])
    + (if nd >= 2 then (t[a + 1] - t[b + 1]) * (t[a + 1] - t[b + 1]) else 0.0)
    + (if nd >= 3 then (t[a + 2] - t[b + 2]) * (t[a + 2] - t[b + 2]) else 0.0)
  }

  lemma SquareIsProduct(x: real)
    ensures Square(x) == x * x
  {
  }

  lemma CellsFit(p: nat, np: nat, nd: nat)
    requires p < np && nd >= 1
    ensures Start(p, nd) + nd <= Start(np, nd)
    ensures forall i :: 0 <= i < nd ==> Cell(p, i, nd) == Start(p, nd) + i
  {
    assert (p + 1) * nd <= np * nd;
  }

  lemma FirstTwo(nd: nat)
    ensures Start(0, nd) == 0 && Start(1, nd) == nd && Start(2, nd) == 2 * nd
  {
  }

  function GapSquare(t: seq<real>, a: nat, b: nat, k: nat): real
    requires a + k < |t| && b + k < |t|
  {
    (t[a + k] - t[b + k]) * (t[a + k] - t[b + k])
  }

  lemma GapByGap(t: seq<real>, a: nat, b: nat, nd: nat)
    requires 1 <= nd <= 3 && a + nd <= |t| && b + nd <= |t|
    ensures SquaredGap(t, a, b, nd) ==
            GapSquare(t, a, b, 0) + (if nd >= 2 then GapSquare(t, a, b, 1) else 0.0)
            + (if nd >= 3 then GapSquare(t, a, b, 2) else 0.0)
  {
  }

  lemma GapInCells(s: Sim, p: nat, q: nat, i: nat)
    requires s.Valid() && p < s.np && q < s.np && i < s.nd
    ensures Start(p, s.nd) + i < |s.pos| && Start(q, s.nd) + i < |s.pos|
    ensures Dist2(s, p, q, i + 1) == Dist2(s, p, q, i) + GapSquare(s.pos, Start(p, s.nd), Start(q, s.nd), i)
    ensures Dist2(s, p, q, 0) == 0.0
  {
    hide Start;
    CellsFit(p, s.np, s.nd);
    CellsFit(q, s.np, s.nd);
    SquareIsProduct(Gap(s, p, q, i));
    assert Cell(p, i, s.nd) == Start(p, s.nd) + i && Cell(q, i, s.nd) == Start(q, s.nd) + i;
    assert Gap(s, p, q, i) == s.pos[Start(p, s.nd) + i] - s.pos[Start(q, s.nd) + i];
    hide Cell, Square, Gap;
  }

  lemma Dist2InCells(s: Sim, p: nat, q: nat)
    requires s.Valid() && p < s.np && q < s.np
    ensures Start(p, s.nd) + s.nd <= |s.pos| && Start(q, s.nd) + s.nd <= |s.pos|
    ensures Dist2(s, p, q, s.nd) == SquaredGap(s.pos, Start(p, s.nd), Start(q, s.nd), s.nd)
  {
    CellsFit(p, s.np, s.nd);
    CellsFit(q, s.np, s.nd);
    hide Start, Dist2, SquaredGap, GapSquare;
    GapByGap(s.pos, Start(p, s.nd), Start(q, s.nd), s.nd);
    GapInCells(s, p, q, 0);
    if s.nd >= 2 {
      GapInCells(s, p, q, 1);
    }
    if s.nd >= 3 {
      GapInCells(s, p, q, 2);
    }
  }

  lemma ProductNotNegative(x: real)
    ensures x * x >= 0.0
  {
  }

  lemma SquaredGapNotNegative(t: seq<real>, a: nat, b: nat, nd: nat)
    requires 1 <= nd <= 3 && a + nd <= |t| && b + nd <= |t|
    ensures SquaredGap(t, a, b, nd) >= 0.0
  {
    ProductNotNegative(t[a] - t[b]);
    if nd >= 2 {
      ProductNotNegative(t[a + 1] - t[b + 1]);
    }
    if nd >= 3 {
      ProductNotNegative(t[a + 2] - t[b + 2]);
    }
  }

  lemma ShiftedGap(t: seq<real>, n: nat, a: nat, b: nat, nd: nat)
    requires 1 <= nd <= 3 && a + nd <= n && b + nd <= n && 1 + n <= |t|
    ensures SquaredGap(t, 1 + a, 1 + b, nd) == SquaredGap(t[1..1 + n], a, b, nd)
  {
    var u := t[1..1 + n];
    assert u[a] == t[1 + a] && u[b] == t[1 + b];
    if nd >= 2 {
      assert u[a + 1] == t[1 + a + 1] && u[b + 1] == t[1 + b + 1];
    }
    if nd >= 3 {
      assert u[a + 2] == t[1 + a + 2] && u[b + 2] == t[1 + b + 2];
    }
  }

  /** The distance squared is the sum of the squared differences of the table's cells. */
  method DistanceSquared(t: array<real>, np: nat, nd: nat, lib: Libm, p: nat, q: nat) returns (d: real)
    requires IsTable(t, np, nd) && p < np && q < np && RootsExact(lib)
    ensures 1 + Start(p, nd) + nd <= t.Length && 1 + Start(q, nd) + nd <= t.Length
    ensures d >= 0.0 && d * d == SquaredGap(t[..], 1 + Start(p, nd), 1 + Start(q, nd), nd)
  {
    ghost var s := View(t, np, nd);
    var rij := new real[3];
    GapInTable(t[..], s, lib, p, q);
    hide Dist2, Start, SquaredGap, RootsExact, ViewOf;
    d := Distance(t, nd, lib, p, q, rij, s);
  }

  lemma GapInTable(t: seq<real>, s: Sim, lib: Libm, p: nat, q: nat)
    requires 1 <= s.nd <= 3 && |t| == 1 + 6 * Start(s.np, s.nd) && s == ViewOf(t, s.np, s.nd)
    requires p < s.np && q < s.np && RootsExact(lib)
    ensures 1 + Start(p, s.nd) + s.nd <= |t| && 1 + Start(q, s.nd) + s.nd <= |t|
    ensures t[1..1 + Start(s.np, s.nd)] == s.pos
    ensures var d := Dist(s, lib, p, q);
            d >= 0.0 && d * d == SquaredGap(t, 1 + Start(p, s.nd), 1 + Start(q, s.nd), s.nd)
  {
    hide Start;
    CellsFit(p, s.np, s.nd);
    CellsFit(q, s.np, s.nd);
    Dist2InCells(s, p, q);
    SquaredGapNotNegative(s.pos, Start(p, s.nd), Start(q, s.nd), s.nd);
    ShiftedGap(t, Start(s.np, s.nd), Start(p, s.nd), Start(q, s.nd), s.nd);
    RootSquared(s, lib, p, q);
    hide SquaredGap, Dist2, Dist, RootsExact;
  }

  lemma RootSquared(s: Sim, lib: Libm, p: nat, q: nat)
    requires RootsExact(lib) && Dist2(s, p, q, s.nd) >= 0.0
    ensures Dist(s, lib, p, q) >= 0.0 && Dist(s, lib, p, q) * Dist(s, lib, p, q) == Dist2(s, p, q, s.nd)
  {
    hide Dist2;
  }

  // ---------- the law of two particles ----------

  const QUARTER_TURN := 1.5707963267948965

  /** Two particles that differ in component a alone, by d. */
  ghost predicate OnAxis(s: Sim, a: nat, d: real) {
    s.Valid() && s.np == 2 && a < s.nd && d > 0.0 &&
    forall i :: 0 <= i < s.nd ==> At(s.pos, s.nd, 1, i) - At(s.pos, s.nd, 0, i) == if i == a then d else 0.0
  }

  lemma {:induction false} AxisDist2(s: Sim, a: nat, d: real, n: nat)
    requires OnAxis(s, a, d) && n <= s.nd
    ensures Dist2(s, 0, 1, n) == Dist2(s, 1, 0, n) == if a < n then d * d else 0.0
  {
    if n > 0 {
      AxisDist2(s, a, d, n - 1);
      SquareIsProduct(Gap(s, 0, 1, n - 1));
      SquareIsProduct(Gap(s, 1, 0, n - 1));
      assert Gap(s, 1, 0, n - 1) == if n - 1 == a then d else 0.0;
      assert Gap(s, 0, 1, n - 1) == if n - 1 == a then -d else 0.0;
      hide Square, Gap, OnAxis;
    }
  }

  lemma RootOfProduct(lib: Libm, d: real)
    requires RootsExact(lib) && d > 0.0
    ensures lib.sqrt(d * d) == d
  {
    ProductNotNegative(d);
    var r := lib.sqrt(d * d);
    assert r >= 0.0 && r * r == d * d;
    SameRoot(r, d);
  }

  lemma SameRoot(r: real, d: real)
    requires r >= 0.0 && d > 0.0 && r * r == d * d
    ensures r == d
  {
    assert (r - d) * (r + d) == 0.0;
    if r != d {
      NoZeroProduct(r - d, r + d);
    }
  }

  lemma NoZeroProduct(x: real, y: real)
    requires x != 0.0 && y > 0.0
    ensures x * y != 0.0
  {
  }

  lemma AxisDist(s: Sim, lib: Libm, a: nat, d: real)
    requires OnAxis(s, a, d) && RootsExact(lib)
    ensures Dist(s, lib, 0, 1) == Dist(s, lib, 1, 0) == d && Separated(s, lib)
  {
    AxisDist2(s, a, d, s.nd);
    RootOfProduct(lib, d);
  }

  function Bend(lib: Libm, d: real): real { lib.sin(if d < QUARTER_TURN then d else QUARTER_TURN) }

  lemma AxisForce(s: Sim, lib: Libm, a: nat, d: real, i: nat)
    requires OnAxis(s, a, d) && RootsExact(lib) && i < s.nd && Separated(s, lib)
    ensures Force(s, lib, 0, i, 2) == if i == a then Bend(lib, d) else 0.0
    ensures Force(s, lib, 1, i, 2) == if i == a then -Bend(lib, d) else 0.0
  {
    AxisDist(s, lib, a, d);
    assert HALF_PI == QUARTER_TURN;
    var g, w := if i == a then d else 0.0, Bend(lib, d);
    assert Gap(s, 1, 0, i) == g && Gap(s, 0, 1, i) == -g;
    Sum2(Row(Push(s, lib, i), 0));
    Sum2(Row(Push(s, lib, i), 1));
    Ratio(w, d);
    hide Dist, Gap, OnAxis, Separated;
    assert Push(s, lib, i)(0, 1) == -Quotient(-g, w, d);
    assert Push(s, lib, i)(1, 0) == -Quotient(g, w, d);
  }

  lemma Sum2(g: nat -> real)
    ensures Sum(g, 2) == g(0) + g(1)
  {
    assert Sum(g, 1) == g(0);
  }

  lemma Ratio(w: real, d: real)
    requires d > 0.0
    ensures Quotient(d, w, d) == w && Quotient(-d, w, d) == -w && Quotient(0.0, w, d) == 0.0
  {
    assert -d * w / d == -w;
  }

  function HalfSquare(w: real): real { 0.5 * (w * w) }

  lemma AxisPotential(s: Sim, lib: Libm, a: nat, d: real)
    requires OnAxis(s, a, d) && RootsExact(lib)
    ensures Potential(s, lib, 0, 2) == Potential(s, lib, 1, 2) == HalfSquare(Bend(lib, d))
  {
    AxisDist(s, lib, a, d);
    assert HALF_PI == QUARTER_TURN;
    SquareIsProduct(Bend(lib, d));
    hide Dist, OnAxis, Separated, Square;
    assert Potential(s, lib, 0, 0) == 0.0 && Potential(s, lib, 1, 0) == 0.0;
    assert Potential(s, lib, 0, 1) == 0.0;
    assert Potential(s, lib, 1, 1) == 0.5 * Square(Bend(lib, d));
  }

  /** Sum of the squares of up to three cells. */
  function SquaredSum(t: seq<real>, a: nat, nd: nat): real
    requires 1 <= nd <= 3 && a + nd <= |t|
  {
    t[a] * t[a] + (if nd >= 2 then t[a + 1] * t[a + 1] else 0.0) + (if nd >= 3 then t[a + 2] * t[a + 2] else 0.0)
  }

  lemma SecondSpeed(s: Sim)
    requires s.Valid() && s.np == 2
    ensures |s.vel| == 2 * s.nd && Speed2(s, 1, s.nd) == SquaredSum(s.vel, s.nd, s.nd)
  {
    CellsFit(1, 2, s.nd);
    FirstTwo(s.nd);
    hide Square, Cell, Start;
    assert Speed2(s, 1, 0) == 0.0;
    SquareIsProduct(s.vel[s.nd]);
    assert Speed2(s, 1, 1) == Square(s.vel[s.nd]);
    if s.nd >= 2 {
      SquareIsProduct(s.vel[s.nd + 1]);
      assert Speed2(s, 1, 2) == Speed2(s, 1, 1) + Square(s.vel[s.nd + 1]);
    }
    if s.nd >= 3 {
      SquareIsProduct(s.vel[s.nd + 2]);
      assert Speed2(s, 1, 3) == Speed2(s, 1, 2) + Square(s.vel[s.nd + 2]);
    }
  }

  /** From cell `at` on, the forces of two particles drawn together along axis a with strength w. */
  ghost predicate DrawnTogether(t: seq<real>, at: nat, nd: nat, a: nat, w: real) {
    at + 2 * nd <= |t| &&
    forall k :: at <= k < at + 2 * nd ==> t[k] == if k == at + a then w else if k == at + nd + a then -w else 0.0
  }

  lemma ForceCell(s: Sim, lib: Libm, a: nat, d: real, k: nat)
    requires OnAxis(s, a, d) && RootsExact(lib) && Separated(s, lib) && k < 2 * s.nd
    ensures |Forces(s, lib)| == 2 * s.nd
    ensures Forces(s, lib)[k] == if k == a then Bend(lib, d) else if k == s.nd + a then -Bend(lib, d) else 0.0
  {
    var p, i := if k < s.nd then 0 else 1, if k < s.nd then k else k - s.nd;
    CellsFit(p, 2, s.nd);
    FirstTwo(s.nd);
    ForcesAt(s, lib, p, i);
    AxisForce(s, lib, a, d, i);
    assert Cell(p, i, s.nd) == k;
    assert |Forces(s, lib)| == Start(2, s.nd);
    hide Forces, Force, Bend, Separated, Cell;
  }

  lemma AxisForces(s: Sim, lib: Libm, a: nat, d: real)
    requires OnAxis(s, a, d) && RootsExact(lib) && Separated(s, lib)
    ensures DrawnTogether(Forces(s, lib), 0, s.nd, a, Bend(lib, d))
  {
    ForceCell(s, lib, a, d, 0);
    hide Forces, Bend, OnAxis, Separated;
    forall k | 0 <= k < 2 * s.nd
      ensures Forces(s, lib)[k] == if k == a then Bend(lib, d) else if k == s.nd + a then -Bend(lib, d) else 0.0
    {
      ForceCell(s, lib, a, d, k);
    }
  }

  lemma AxisEnergies(s: Sim, lib: Libm, a: nat, d: real)
    requires OnAxis(s, a, d) && RootsExact(lib)
    ensures |s.pe| == |s.ke| == |s.vel| == 2 * s.nd
    ensures var w := Bend(lib, d);
            Potentials(s, lib) == s.pe[0 := s.pe[0] + HalfSquare(w)][1 := s.pe[1] + HalfSquare(w)] &&
            Kinetics(s) == s.ke[1 := HalfMass(s.ke[1] + SquaredSum(s.vel, s.nd, s.nd), s.mass)]
  {
    AxisPotential(s, lib, a, d);
    SecondSpeed(s);
    CellsFit(1, 2, s.nd);
    FirstTwo(s.nd);
    KineticOfSecond(s, SquaredSum(s.vel, s.nd, s.nd));
    hide Potential, Speed2, SquaredSum, Bend, Start, Kinetics, HalfMass, HalfSquare;
  }

  lemma KineticOfSecond(s: Sim, x: real)
    requires s.Valid() && s.np == 2 && |s.ke| == 2 * s.nd && x == Speed2(s, 1, s.nd)
    ensures Kinetics(s) == s.ke[1 := HalfMass(s.ke[1] + x, s.mass)]
  {
    hide Speed2, Start, HalfMass;
    forall k | 0 <= k < |s.ke| ensures Kinetics(s)[k] == s.ke[1 := HalfMass(s.ke[1] + x, s.mass)][k] {
    }
  }

  /** The table of two particles before the force computation: they differ in component a alone,
      by d. */
  ghost predicate TwoApart(t: seq<real>, nd: nat, a: nat, d: real) {
    1 <= nd <= 3 && |t| == 1 + 12 * nd && a < nd && d > 0.0 &&
    forall i :: 1 <= i < 1 + nd ==> t[i + nd] - t[i] == if i == 1 + a then d else 0.0
  }

  /** And after it: they are drawn to each other with strength w, each potential energy has grown
      by half the square of w; the kinetic energy of the second is its old one and its squared
      speed, times half the mass, and that of the first is as it was. */
  ghost predicate Drawn(now: seq<real>, t: seq<real>, nd: nat, a: nat, w: real) {
    && 1 <= nd <= 3 && |now| == |t| == 1 + 12 * nd && a < nd
    && (forall k :: 0 <= k < 1 + 6 * nd ==> now[k] == t[k])
    && DrawnTogether(now, 1 + 6 * nd, nd, a, w)
    && now[1 + 8 * nd] == t[1 + 8 * nd] + 0.5 * (w * w) && now[2 + 8 * nd] == t[2 + 8 * nd] + 0.5 * (w * w)
    && now[1 + 10 * nd] == t[1 + 10 * nd]
    && now[2 + 10 * nd] == (t[2 + 10 * nd] + SquaredSum(t, 1 + 3 * nd, nd)) * (0.5 * t[0])
  }

  /** Two particles on one axis, a distance apart, are drawn to each other by the sine of the
      distance, or of a quarter turn if that is less. */
  method TwoOnAxis(t: array<real>, nd: nat, lib: Libm, ghost a: nat, ghost d: real)
    requires TwoApart(t[..], nd, a, d) && RootsExact(lib)
    modifies t
    ensures Drawn(t[..], old(t[..]), nd, a, lib.sin(if d < QUARTER_TURN then d else QUARTER_TURN))
  {
    ghost var before := t[..];
    Ready(before, lib, nd, a, d);
    assert IsTable(t, 2, nd);
    assert View(t, 2, nd) == ViewOf(before, 2, nd);
    hide *;
    ComputeParticles(t, 2, nd, lib);
    Finished(t[..], before, lib, nd, a, d);
  }

  lemma Ready(t: seq<real>, lib: Libm, nd: nat, a: nat, d: real)
    requires TwoApart(t, nd, a, d) && RootsExact(lib)
    ensures Start(2, nd) == 2 * nd && OnAxis(ViewOf(t, 2, nd), a, d) && Separated(ViewOf(t, 2, nd), lib)
  {
    OnAxisInCells(t, ViewOf(t, 2, nd), a, d);
    AxisDist(ViewOf(t, 2, nd), lib, a, d);
  }

  lemma Finished(now: seq<real>, t: seq<real>, lib: Libm, nd: nat, a: nat, d: real)
    requires TwoApart(t, nd, a, d) && RootsExact(lib) && |now| == |t|
    requires Start(2, nd) == 2 * nd && Separated(ViewOf(t, 2, nd), lib) && OnAxis(ViewOf(t, 2, nd), a, d)
    requires ViewOf(now, 2, nd) == Computed(ViewOf(t, 2, nd), lib)
    ensures Drawn(now, t, nd, a, lib.sin(if d < QUARTER_TURN then d else QUARTER_TURN))
  {
    var s, r, w := ViewOf(t, 2, nd), ViewOf(now, 2, nd), Bend(lib, d);
    Prepared(s, lib, a, d);
    assert Bend(lib, d) == lib.sin(if d < QUARTER_TURN then d else QUARTER_TURN);
    hide *;
    ComputedCells(now, t, s, r, nd, a, w);
    WrittenOut(now, t, nd, a, w);
  }

  lemma WrittenOut(now: seq<real>, t: seq<real>, nd: nat, a: nat, w: real)
    requires 1 <= nd <= 3 && |now| == |t| == 1 + 12 * nd && a < nd
    requires DrawnTogether(now, 1 + 6 * nd, nd, a, w)
    requires now[1 + 8 * nd] == t[1 + 8 * nd] + HalfSquare(w) && now[2 + 8 * nd] == t[2 + 8 * nd] + HalfSquare(w)
    requires now[1 + 10 * nd] == t[1 + 10 * nd]
    requires now[2 + 10 * nd] == HalfMass(t[2 + 10 * nd] + SquaredSum(t, 1 + 3 * nd, nd), t[0])
    requires forall k :: 0 <= k < 1 + 6 * nd ==> now[k] == t[k]
    ensures Drawn(now, t, nd, a, w)
  {
    HalfMassIs(t[2 + 10 * nd] + SquaredSum(t, 1 + 3 * nd, nd), t[0]);
    hide SquaredSum, DrawnTogether, HalfMass;
  }

  lemma Prepared(s: Sim, lib: Libm, a: nat, d: real)
    requires OnAxis(s, a, d) && RootsExact(lib)
    ensures Separated(s, lib) && |s.pe| == |s.ke| == |s.vel| == 2 * s.nd
    ensures var (r, w) := (Computed(s, lib), Bend(lib, d));
            && r == s.(f := r.f, pe := r.pe, ke := r.ke)
            && DrawnTogether(r.f, 0, s.nd, a, w)
            && r.pe == s.pe[0 := s.pe[0] + HalfSquare(w)][1 := s.pe[1] + HalfSquare(w)]
            && r.ke == s.ke[1 := HalfMass(s.ke[1] + SquaredSum(s.vel, s.nd, s.nd), s.mass)]
  {
    AxisDist(s, lib, a, d);
    AxisForces(s, lib, a, d);
    AxisEnergies(s, lib, a, d);
    hide Separated, OnAxis, Forces, Potentials, Kinetics, DrawnTogether, SquaredSum, Bend, Start, HalfMass, HalfSquare;
  }

  lemma HalfMassIs(x: real, mass: real)
    ensures HalfMass(x, mass) == x * (0.5 * mass)
  {
  }

  lemma OnAxisInCells(t: seq<real>, s: Sim, a: nat, d: real)
    requires 1 <= s.nd <= 3 && |t| == 1 + 12 * s.nd && a < s.nd && d > 0.0 && s.np == 2
    requires |t| == 1 + 6 * Start(2, s.nd) && s == ViewOf(t, 2, s.nd)
    requires forall i :: 1 <= i < 1 + s.nd ==> t[i + s.nd] - t[i] == if i == 1 + a then d else 0.0
    ensures OnAxis(s, a, d)
  {
    CellsFit(0, 2, s.nd);
    CellsFit(1, 2, s.nd);
    FirstTwo(s.nd);
    forall i | 0 <= i < s.nd ensures At(s.pos, s.nd, 1, i) - At(s.pos, s.nd, 0, i) == if i == a then d else 0.0 {
      assert At(s.pos, s.nd, 1, i) == t[1 + i + s.nd] && At(s.pos, s.nd, 0, i) == t[1 + i];
    }
    hide Cell, Start;
  }

  // From the arrays back to the cells of the table.
  lemma ComputedCells(t: seq<real>, before: seq<real>, s: Sim, r: Sim, nd: nat, a: nat, w: real)
    requires 1 <= nd <= 3 && |t| == |before| == 1 + 12 * nd && Start(2, nd) == 2 * nd && a < nd
    requires s == ViewOf(before, 2, nd) && r == ViewOf(t, 2, nd)
    requires r.mass == s.mass && r.pos == s.pos && r.vel == s.vel && r.acc == s.acc && DrawnTogether(r.f, 0, nd, a, w)
    requires r.pe == s.pe[0 := s.pe[0] + HalfSquare(w)][1 := s.pe[1] + HalfSquare(w)]
    requires r.ke == s.ke[1 := HalfMass(s.ke[1] + SquaredSum(s.vel, nd, nd), s.mass)]
    ensures DrawnTogether(t, 1 + 6 * nd, nd, a, w)
    ensures t[1 + 8 * nd] == before[1 + 8 * nd] + HalfSquare(w) && t[2 + 8 * nd] == before[2 + 8 * nd] + HalfSquare(w)
    ensures t[1 + 10 * nd] == before[1 + 10 * nd]
    ensures t[2 + 10 * nd] == HalfMass(before[2 + 10 * nd] + SquaredSum(before, 1 + 3 * nd, nd), before[0])
    ensures forall k :: 0 <= k < 1 + 6 * nd ==> t[k] == before[k]
  {
    hide Start, HalfMass, HalfSquare;
    EnergyCells(t, before, s, r, nd);
    forall k | 1 + 6 * nd <= k < 1 + 8 * nd
      ensures t[k] == if k == 1 + 6 * nd + a then w else if k == 1 + 7 * nd + a then -w else 0.0
    {
      assert t[k] == r.f[k - (1 + 6 * nd)];
    }
    forall k | 0 <= k < 1 + 6 * nd ensures t[k] == before[k] {
      if k == 0 {
      } else if k < 1 + 2 * nd {
        assert t[k] == r.pos[k - 1] && before[k] == s.pos[k - 1];
      } else if k < 1 + 4 * nd {
        assert t[k] == r.vel[k - 1 - 2 * nd] && before[k] == s.vel[k - 1 - 2 * nd];
      } else {
        assert t[k] == r.acc[k - 1 - 4 * nd] && before[k] == s.acc[k - 1 - 4 * nd];
      }
    }
    hide ViewOf, SquaredSum, HalfMass, HalfSquare;
  }

  lemma EnergyCells(t: seq<real>, before: seq<real>, s: Sim, r: Sim, nd: nat)
    requires 1 <= nd <= 3 && |t| == |before| == 1 + 12 * nd && Start(2, nd) == 2 * nd
    requires s == ViewOf(before, 2, nd) && r == ViewOf(t, 2, nd)
    ensures |s.vel| == |s.pe| == |s.ke| == |r.pe| == |r.ke| == 2 * nd && s.mass == before[0]
    ensures t[1 + 8 * nd] == r.pe[0] && t[2 + 8 * nd] == r.pe[1] && t[1 + 10 * nd] == r.ke[0] && t[2 + 10 * nd] == r.ke[1]
    ensures before[1 + 8 * nd] == s.pe[0] && before[2 + 8 * nd] == s.pe[1]
    ensures before[1 + 10 * nd] == s.ke[0] && before[2 + 10 * nd] == s.ke[1]
    ensures SquaredSum(s.vel, nd, nd) == SquaredSum(before, 1 + 3 * nd, nd)
  {
    hide Start;
    assert s.vel == before[1 + 2 * nd..1 + 4 * nd];
  }

  // ---------- the update, cell by cell ----------

  function Over(f: real, mass: real): real
    requires mass != 0.0
  {
    f / mass
  }

  /** The three cells of one component, `size` apart, after the update. */
  ghost predicate CellMoved(now: seq<real>, t: seq<real>, size: nat, c: nat)
    requires |now| == |t| && c + 3 * size < |t| && t[0] != 0.0
  {
    var (x, v, a, f) := (t[c], t[c + size], t[c + 2 * size], t[c + 3 * size]);
    now[c] == x + v + a / 2.0 && now[c + size] == v + (Over(f, t[0]) + a) / 2.0 && now[c + 2 * size] == Over(f, t[0])
  }

  ghost predicate CellStayed(now: seq<real>, t: seq<real>, size: nat, c: nat)
    requires |now| == |t| && c + 2 * size < |t|
  {
    now[c] == t[c] && now[c + size] == t[c + size] && now[c + 2 * size] == t[c + 2 * size]
  }

  /** Of every particle the update moves the second component and leaves the first and the third. */
  method UpdateOf(t: array<real>, np: nat, nd: nat, ghost p: nat)
    requires IsTable(t, np, nd) && t[0] != 0.0 && p < np
    modifies t
    ensures Start(p, nd) + nd <= Start(np, nd)
    ensures CellStayed(t[..], old(t[..]), Start(np, nd), 1 + Start(p, nd))
    ensures nd >= 2 ==> CellMoved(t[..], old(t[..]), Start(np, nd), 2 + Start(p, nd))
    ensures nd >= 3 ==> CellStayed(t[..], old(t[..]), Start(np, nd), 3 + Start(p, nd))
  {
    hide Start, ViewOf, Updated, CellMoved, CellStayed;
    ghost var before := t[..];
    CellsFit(p, np, nd);
    UpdatePosVelAccel(t, np, nd);
    ComponentAfter(t[..], before, np, nd, p, 0);
    if nd >= 2 {
      ComponentAfter(t[..], before, np, nd, p, 1);
    }
    if nd >= 3 {
      ComponentAfter(t[..], before, np, nd, p, 2);
    }
  }

  lemma ComponentAfter(now: seq<real>, t: seq<real>, np: nat, nd: nat, p: nat, i: nat)
    requires 1 <= nd <= 3 && |now| == |t| == 1 + 6 * Start(np, nd) && p < np && i < nd && t[0] != 0.0
    requires ViewOf(now, np, nd) == Updated(ViewOf(t, np, nd))
    ensures Start(p, nd) + nd <= Start(np, nd)
    ensures if i == 1 then CellMoved(now, t, Start(np, nd), 1 + Start(p, nd) + i)
            else CellStayed(now, t, Start(np, nd), 1 + Start(p, nd) + i)
  {
    hide Start;
    CellsFit(p, np, nd);
    var s, r, c := ViewOf(t, np, nd), ViewOf(now, np, nd), Cell(p, i, nd);
    ViewCells(t, np, nd, c);
    ViewCells(now, np, nd, c);
    RefreshedAt(s.pos, nd, np, NewPositions(s), p, i);
    RefreshedAt(s.vel, nd, np, NewVelocities(s), p, i);
    RefreshedAt(s.acc, nd, np, NewAccelerations(s), p, i);
    NewValues(s, p, i, c);
    hide ViewOf, NewPos, NewVel, NewAcc, Refreshed, Cell, Over;
  }

  lemma NewValues(s: Sim, p: nat, i: nat, c: nat)
    requires s.Valid() && s.mass != 0.0 && c == Cell(p, i, s.nd) && c < Start(s.np, s.nd)
    ensures NewPos(s, p, i) == s.pos[c] + s.vel[c] + s.acc[c] / 2.0
    ensures NewVel(s, p, i) == s.vel[c] + (Over(s.f[c], s.mass) + s.acc[c]) / 2.0 && NewAcc(s, p, i) == Over(s.f[c], s.mass)
  {
    UpdatedValues(s, p, i, c);
    OverMass(s.f[c], s.mass);
    hide NewPos, NewVel, NewAcc, Cell, Start, Over;
  }

  lemma OverMass(f: real, mass: real)
    requires mass != 0.0
    ensures f * (1.0 / mass) == Over(f, mass)
  {
  }

  lemma ViewCells(t: seq<real>, np: nat, nd: nat, c: nat)
    requires 1 <= nd <= 3 && |t| == 1 + 6 * Start(np, nd) && c < Start(np, nd)
    ensures var (s, n) := (ViewOf(t, np, nd), Start(np, nd));
            s.mass == t[0] && |s.pos| == |s.vel| == |s.acc| == |s.f| == n &&
            s.pos[c] == t[1 + c] && s.vel[c] == t[1 + c + n] && s.acc[c] == t[1 + c + 2 * n] && s.f[c] == t[1 + c + 3 * n]
  {
    hide Start;
  }
}
