/** The molecular dynamics of MDProxy.c: pairwise forces and a Verlet-style update, on
    the values held by the flat table. Reals stand for doubles; sqrt and sin are parameters. */
module MdSystem {
  import opened FlatTables
  import opened Sums

  datatype Libm = Libm(sqrt: real -> real, sin: real -> real)

  /** All that is needed of sqrt: no positive number has root zero. */
  ghost predicate LibmOk(lib: Libm) {
    forall x: real :: x > 0.0 ==> lib.sqrt(x) != 0.0
  }

  const HALF_PI := 3.141592653589793 / 2.0

  /** np particles in nd dimensions: positions, velocities, accelerations, forces, and the
      two energy arrays. */
  datatype Sim = Sim(np: nat, nd: nat, mass: real, pos: seq<real>, vel: seq<real>, acc: seq<real>,
                     f: seq<real>, pe: seq<real>, ke: seq<real>) {

    predicate Valid() {
      1 <= nd <= 3 && |pos| == |vel| == |acc| == |f| == |pe| == |ke| == Start(np, nd)
    }
  }

  // Component i of particle p in one of the arrays; 0 off the table.
  function At(a: seq<real>, nd: nat, p: nat, i: nat): real {
    if Cell(p, i, nd) < |a| then a[Cell(p, i, nd)] else 0.0
  }

  // ---------- forces ----------

  function Gap(s: Sim, p: nat, q: nat, i: nat): real {
    At(s.pos, s.nd, p, i) - At(s.pos, s.nd, q, i)
  }

  function Square(x: real): real { Times(x, x) }

  /** Squared distance over the first n dimensions. */
  function Dist2(s: Sim, p: nat, q: nat, n: nat): real {
    if n == 0 then 0.0 else Dist2(s, p, q, n - 1) + Square(Gap(s, p, q, n - 1))
  }

  function Dist(s: Sim, lib: Libm, p: nat, q: nat): real {
    lib.sqrt(Dist2(s, p, q, s.nd))
  }

  function Cut(d: real): real { if d < HALF_PI then d else HALF_PI }

  ghost predicate Differ(s: Sim, p: nat, q: nat, n: nat) {
    exists i :: 0 <= i < n && Gap(s, p, q, i) != 0.0
  }

  /** No two particles have the same position. */
  ghost predicate Distinct(s: Sim) {
    forall p, q :: 0 <= p < q < s.np ==> Differ(s, p, q, s.nd)
  }

  ghost predicate Separated(s: Sim, lib: Libm) {
    forall p, q :: 0 <= p < s.np && 0 <= q < s.np && p != q ==> Dist(s, lib, p, q) != 0.0
  }

  lemma {:induction false} Dist2Symmetric(s: Sim, p: nat, q: nat, n: nat)
    ensures Dist2(s, p, q, n) == Dist2(s, q, p, n)
  {
    if n > 0 {
      Dist2Symmetric(s, p, q, n - 1);
      assert Gap(s, p, q, n - 1) == -Gap(s, q, p, n - 1);
    }
  }

  lemma SquareNotNegative(x: real)
    ensures Square(x) >= 0.0 && (x != 0.0 ==> Square(x) > 0.0)
  {
    if x > 0.0 {
      PositiveSquare(x);
    } else if x < 0.0 {
      PositiveSquare(-x);
      SquareOfNegation(x);
    } else {
      assert x == 0.0;
    }
  }

  lemma PositiveSquare(x: real)
    requires x > 0.0
    ensures Square(x) > 0.0
  {
    PositiveProduct(x, x);
  }

  lemma PositiveProduct(x: real, y: real)
    requires x > 0.0 && y > 0.0
    ensures Times(x, y) > 0.0
  {
  }

  lemma SquareOfNegation(x: real)
    ensures Square(-x) == Square(x)
  {
  }

  lemma {:induction false} Dist2NotNegative(s: Sim, p: nat, q: nat, n: nat)
    ensures Dist2(s, p, q, n) >= 0.0
  {
    if n > 0 {
      Dist2NotNegative(s, p, q, n - 1);
      SquareNotNegative(Gap(s, p, q, n - 1));
    }
    hide Square, Gap;
  }

  lemma {:induction false} Dist2Positive(s: Sim, p: nat, q: nat, n: nat, i: nat)
    requires i < n && Gap(s, p, q, i) != 0.0
    ensures Dist2(s, p, q, n) > 0.0
  {
    SquareNotNegative(Gap(s, p, q, n - 1));
    if i < n - 1 {
      Dist2Positive(s, p, q, n - 1, i);
    } else {
      Dist2NotNegative(s, p, q, n - 1);
    }
    hide Square, Gap;
  }

  /** Pairwise distinct positions give nonzero distances. */
  lemma DistinctIsSeparated(s: Sim, lib: Libm)
    requires Distinct(s) && LibmOk(lib)
    ensures Separated(s, lib)
  {
    forall p, q | 0 <= p < s.np && 0 <= q < s.np && p != q ensures Dist(s, lib, p, q) != 0.0 {
      var a, b := if p < q then p else q, if p < q then q else p;
      assert Differ(s, a, b, s.nd);
      var i :| 0 <= i < s.nd && Gap(s, a, b, i) != 0.0;
      Dist2Positive(s, a, b, s.nd, i);
      Dist2Symmetric(s, p, q, s.nd);
    }
  }

  /** What particle q subtracts from component i of the force on p. */
  function Pull(s: Sim, lib: Libm, p: nat, q: nat, i: nat): real
    requires Separated(s, lib) && p < s.np && q < s.np && p != q
  {
    Quotient(Gap(s, p, q, i), lib.sin(1.0 * Cut(Dist(s, lib, p, q))), Dist(s, lib, p, q))
  }

  function Quotient(g: real, w: real, d: real): real
    requires d != 0.0
  {
    g * w / d
  }

  // The same for every pair of indices: 0 for a particle on itself.
  function Push(s: Sim, lib: Libm, i: nat): (nat, nat) -> real
    requires Separated(s, lib)
  {
    (p: nat, q: nat) => if p < s.np && q < s.np && p != q then -Pull(s, lib, p, q, i) else 0.0
  }

  /** Component i of the force on p from the first n particles. */
  function Force(s: Sim, lib: Libm, p: nat, i: nat, n: nat): real
    requires Separated(s, lib) && p < s.np && n <= s.np
  {
    Sum(Row(Push(s, lib, i), p), n)
  }

  /** Newton's third law. */
  lemma PushesAreOpposite(s: Sim, lib: Libm, i: nat)
    requires Separated(s, lib)
    ensures Antisymmetric(Push(s, lib, i), s.np)
  {
    forall p: nat, q: nat | p < s.np && q < s.np ensures Push(s, lib, i)(p, q) == -Push(s, lib, i)(q, p) {
      if p != q {
        Dist2Symmetric(s, p, q, s.nd);
        assert Strength(s, lib, p, q) == Strength(s, lib, q, p);
        PullIsStrength(s, lib, p, q, i);
        PullIsStrength(s, lib, q, p, i);
        TimesNegation(Strength(s, lib, p, q), Gap(s, p, q, i));
        hide At, Strength, Times, Push, Pull;
      }
    }
  }

  lemma TimesNegation(k: real, x: real)
    ensures Times(k, -x) == -Times(k, x)
  {
  }

  // ---------- one round ----------

  /** Potential energy added to particle p by the first n particles. */
  function Potential(s: Sim, lib: Libm, p: nat, n: nat): real {
    if n == 0 then 0.0
    else Potential(s, lib, p, n - 1) + if n - 1 == p then 0.0 else 0.5 * Square(lib.sin(Cut(Dist(s, lib, p, n - 1))))
  }

  function Speed2(s: Sim, p: nat, n: nat): real {
    if n == 0 then 0.0 else Speed2(s, p, n - 1) + Square(At(s.vel, s.nd, p, n - 1))
  }

  function Potentials(s: Sim, lib: Libm): seq<real>
    requires s.Valid()
  {
    seq(|s.pe|, k requires 0 <= k < |s.pe| => if k < s.np then s.pe[k] + Potential(s, lib, k, s.np) else s.pe[k])
  }

  function HalfMass(x: real, mass: real): real { x * (0.5 * mass) }

  // The first particle's kinetic energy is never touched, and none is ever reset.
  function Kinetics(s: Sim): seq<real>
    requires s.Valid()
  {
    seq(|s.ke|, k requires 0 <= k < |s.ke| => if 1 <= k < s.np then HalfMass(s.ke[k] + Speed2(s, k, s.nd), s.mass)
      else s.ke[k])
  }

  function Forces(s: Sim, lib: Libm): seq<real>
    requires s.Valid() && Separated(s, lib)
  {
    seq(Start(s.np, s.nd), k requires 0 <= k < Start(s.np, s.nd) =>
      CellEncodes(k, s.np, s.nd); Force(s, lib, RowOf(k, s.nd), ColumnOf(k, s.nd), s.np))
  }

  /** ComputeParticles_Multi */
  function Computed(s: Sim, lib: Libm): (r: Sim)
    requires s.Valid() && Separated(s, lib)
    ensures r.Valid()
  {
    s.(f := Forces(s, lib), pe := Potentials(s, lib), ke := Kinetics(s))
  }

  // Dimensions the update visits: it starts at 1 and steps by 2.
  predicate Visited(i: nat) { i % 2 == 1 }

  function NewPos(s: Sim, p: nat, i: nat): real {
    At(s.pos, s.nd, p, i) + At(s.vel, s.nd, p, i) * 1.0 + 0.5 * At(s.acc, s.nd, p, i) * 1.0 * 1.0
  }

  function NewVel(s: Sim, p: nat, i: nat): real
    requires s.mass != 0.0
  {
    At(s.vel, s.nd, p, i) + 0.5 * 1.0 * (At(s.f, s.nd, p, i) * (1.0 / s.mass) + At(s.acc, s.nd, p, i))
  }

  function NewAcc(s: Sim, p: nat, i: nat): real
    requires s.mass != 0.0
  {
    At(s.f, s.nd, p, i) * (1.0 / s.mass)
  }

  function NewPositions(s: Sim): (nat, nat) -> real { (p: nat, i: nat) => NewPos(s, p, i) }

  function NewVelocities(s: Sim): (nat, nat) -> real
    requires s.mass != 0.0
  {
    (p: nat, i: nat) => NewVel(s, p, i)
  }

  function NewAccelerations(s: Sim): (nat, nat) -> real
    requires s.mass != 0.0
  {
    (p: nat, i: nat) => NewAcc(s, p, i)
  }

  // A new array: visited components from g, the others as in a.
  function Refreshed(a: seq<real>, nd: nat, g: (nat, nat) -> real): (r: seq<real>)
    requires nd > 0
    ensures |r| == |a|
  {
    seq(|a|, k requires 0 <= k < |a| => if Visited(ColumnOf(k, nd)) then g(RowOf(k, nd), ColumnOf(k, nd)) else a[k])
  }

  /** UpdatePosVelAccel_Multi */
  function Updated(s: Sim): (r: Sim)
    requires s.Valid() && s.mass != 0.0
    ensures r.Valid()
  {
    s.(pos := Refreshed(s.pos, s.nd, NewPositions(s)),
       vel := Refreshed(s.vel, s.nd, NewVelocities(s)),
       acc := Refreshed(s.acc, s.nd, NewAccelerations(s)))
  }

  lemma RefreshedAt(a: seq<real>, nd: nat, np: nat, g: (nat, nat) -> real, p: nat, i: nat)
    requires nd > 0 && |a| == Start(np, nd) && p < np && i < nd
    ensures At(Refreshed(a, nd, g), nd, p, i) == if Visited(i) then g(p, i) else At(a, nd, p, i)
  {
    CellInRange(p, i, np, nd);
    CellDecodes(p, i, nd);
  }

  lemma ForcesAt(s: Sim, lib: Libm, p: nat, i: nat)
    requires s.Valid() && Separated(s, lib) && p < s.np && i < s.nd
    ensures At(Forces(s, lib), s.nd, p, i) == Force(s, lib, p, i, s.np)
  {
    CellInRange(p, i, s.np, s.nd);
    CellDecodes(p, i, s.nd);
  }

  // ---------- conservation ----------

  /** Component i of one of the arrays, particle by particle. */
  function Component(a: seq<real>, nd: nat, i: nat): nat -> real {
    (p: nat) => At(a, nd, p, i)
  }

  /** Total of component i over all particles. */
  function TotalOf(a: seq<real>, s: Sim, i: nat): real {
    Sum(Component(a, s.nd, i), s.np)
  }

  /** After the force computation the forces cancel in every dimension. */
  lemma ForcesCancel(s: Sim, lib: Libm, i: nat)
    requires s.Valid() && Separated(s, lib) && i < s.nd
    ensures TotalOf(Computed(s, lib).f, s, i) == 0.0
  {
    var g := Push(s, lib, i);
    PushesAreOpposite(s, lib, i);
    DoubleSumCancels(g, s.np);
    forall p | 0 <= p < s.np ensures Component(Forces(s, lib), s.nd, i)(p) == RowSum(g, s.np)(p) {
      ForcesAt(s, lib, p, i);
    }
    SumAgree(Component(Forces(s, lib), s.nd, i), RowSum(g, s.np), s.np);
  }

  /** Position (xa, xb) crossed with force (fa, fb). */
  function Cross(xa: real, xb: real, fa: real, fb: real): real { xa * fb - xb * fa }

  lemma CrossAdds(xa: real, xb: real, fa: real, fb: real, ga: real, gb: real)
    ensures Cross(xa, xb, fa + ga, fb + gb) == Cross(xa, xb, fa, fb) + Cross(xa, xb, ga, gb)
    ensures Cross(xa, xb, 0.0, 0.0) == 0.0
  {
  }

  // A pair pulling along its own line exerts opposite torques on its two ends.
  lemma CrossOfPair(pa: real, pb: real, qa: real, qb: real, k: real)
    ensures Cross(pa, pb, -Times(k, pa - qa), -Times(k, pb - qb)) == -Cross(qa, qb, -Times(k, qa - pa), -Times(k, qb - pb))
  {
    assert pa * -(k * (pb - qb)) == -(pa * pb * k) + pa * qb * k;
    assert pb * -(k * (pa - qa)) == -(pa * pb * k) + pb * qa * k;
    assert qa * -(k * (qb - pb)) == -(qa * qb * k) + qa * pb * k;
    assert qb * -(k * (qa - pa)) == -(qa * qb * k) + qb * pa * k;
  }

  // The strength of the pull between two particles, per unit of distance.
  function Strength(s: Sim, lib: Libm, p: nat, q: nat): real
    requires Dist(s, lib, p, q) != 0.0
  {
    lib.sin(1.0 * Cut(Dist(s, lib, p, q))) / Dist(s, lib, p, q)
  }

  lemma PullIsStrength(s: Sim, lib: Libm, p: nat, q: nat, i: nat)
    requires Separated(s, lib) && p < s.np && q < s.np && p != q
    ensures Push(s, lib, i)(p, q) == -Times(Strength(s, lib, p, q), Gap(s, p, q, i))
  {
    hide Gap, Dist, Cut, Times, Quotient;
    Regroup(Gap(s, p, q, i), lib.sin(1.0 * Cut(Dist(s, lib, p, q))), Dist(s, lib, p, q));
  }

  lemma Regroup(g: real, w: real, d: real)
    requires d != 0.0
    ensures Quotient(g, w, d) == Times(w / d, g)
  {
  }

  // Torque of q on p in the plane of dimensions a and b, about the origin.
  function PairTorque(s: Sim, lib: Libm, a: nat, b: nat): (nat, nat) -> real
    requires Separated(s, lib)
  {
    (p: nat, q: nat) => Cross(At(s.pos, s.nd, p, a), At(s.pos, s.nd, p, b), Push(s, lib, a)(p, q), Push(s, lib, b)(p, q))
  }

  /** Torque on particle p. */
  function Torque(s: Sim, f: seq<real>, a: nat, b: nat): nat -> real {
    (p: nat) => Cross(At(s.pos, s.nd, p, a), At(s.pos, s.nd, p, b), At(f, s.nd, p, a), At(f, s.nd, p, b))
  }

  lemma PairTorqueOpposite(s: Sim, lib: Libm, a: nat, b: nat, p: nat, q: nat)
    requires Separated(s, lib) && p < s.np && q < s.np && p != q
    ensures PairTorque(s, lib, a, b)(p, q) == -PairTorque(s, lib, a, b)(q, p)
  {
    Dist2Symmetric(s, p, q, s.nd);
    assert Strength(s, lib, p, q) == Strength(s, lib, q, p);
    PullIsStrength(s, lib, p, q, a);
    PullIsStrength(s, lib, p, q, b);
    PullIsStrength(s, lib, q, p, a);
    PullIsStrength(s, lib, q, p, b);
    var pa, pb, qa, qb := At(s.pos, s.nd, p, a), At(s.pos, s.nd, p, b), At(s.pos, s.nd, q, a), At(s.pos, s.nd, q, b);
    CrossOfPair(pa, pb, qa, qb, Strength(s, lib, p, q));
    hide Cross, At, Times, Strength, Push, Pull;
  }

  lemma PairTorquesAreOpposite(s: Sim, lib: Libm, a: nat, b: nat)
    requires Separated(s, lib)
    ensures Antisymmetric(PairTorque(s, lib, a, b), s.np)
  {
    var g := PairTorque(s, lib, a, b);
    forall p: nat, q: nat | p < s.np && q < s.np ensures g(p, q) == -g(q, p) {
      if p != q {
        PairTorqueOpposite(s, lib, a, b, p, q);
      } else {
        NoSelfTorque(s, lib, a, b, p);
      }
    }
  }

  lemma NoSelfTorque(s: Sim, lib: Libm, a: nat, b: nat, p: nat)
    requires Separated(s, lib)
    ensures PairTorque(s, lib, a, b)(p, p) == 0.0
  {
    CrossAdds(At(s.pos, s.nd, p, a), At(s.pos, s.nd, p, b), 0.0, 0.0, 0.0, 0.0);
    hide Cross, At;
    assert Push(s, lib, a)(p, p) == 0.0 && Push(s, lib, b)(p, p) == 0.0;
  }

  /** After the force computation the total torque is zero in every plane. */
  lemma TorquesCancel(s: Sim, lib: Libm, a: nat, b: nat)
    requires s.Valid() && Separated(s, lib) && a < s.nd && b < s.nd
    ensures Sum(Torque(s, Computed(s, lib).f, a, b), s.np) == 0.0
  {
    var g := PairTorque(s, lib, a, b);
    PairTorquesAreOpposite(s, lib, a, b);
    DoubleSumCancels(g, s.np);
    forall p: nat | p < s.np ensures Torque(s, Forces(s, lib), a, b)(p) == RowSum(g, s.np)(p) {
      TorqueIsRowSum(s, lib, a, b, p);
    }
    SumAgree(Torque(s, Forces(s, lib), a, b), RowSum(g, s.np), s.np);
  }

  lemma TorqueIsRowSum(s: Sim, lib: Libm, a: nat, b: nat, p: nat)
    requires s.Valid() && Separated(s, lib) && a < s.nd && b < s.nd && p < s.np
    ensures Torque(s, Forces(s, lib), a, b)(p) == RowSum(PairTorque(s, lib, a, b), s.np)(p)
  {
    ForcesAt(s, lib, p, a);
    ForcesAt(s, lib, p, b);
    TorqueOfRow(s, lib, a, b, p, s.np);
    hide Cross, Pull, At, Force, Forces, PairTorque;
  }

  lemma {:induction false} TorqueOfRow(s: Sim, lib: Libm, a: nat, b: nat, p: nat, n: nat)
    requires Separated(s, lib) && p < s.np && n <= s.np
    ensures Sum(Row(PairTorque(s, lib, a, b), p), n) ==
            Cross(At(s.pos, s.nd, p, a), At(s.pos, s.nd, p, b), Force(s, lib, p, a, n), Force(s, lib, p, b, n))
  {
    var xa, xb := At(s.pos, s.nd, p, a), At(s.pos, s.nd, p, b);
    if n == 0 {
      CrossAdds(xa, xb, 0.0, 0.0, 0.0, 0.0);
    } else {
      TorqueOfRow(s, lib, a, b, p, n - 1);
      CrossAdds(xa, xb, Force(s, lib, p, a, n - 1), Force(s, lib, p, b, n - 1), Push(s, lib, a)(p, n - 1), Push(s, lib, b)(p, n - 1));
    }
    hide Cross, At, Pull;
  }

  // ---------- momentum over any number of rounds ----------

  // What the update adds to a velocity, before the factor one half.
  function Kick(s: Sim, k: real, i: nat): nat -> real
  {
    (p: nat) => At(s.acc, s.nd, p, i) + Times(k, At(s.f, s.nd, p, i))
  }

  lemma NewVelIsKick(s: Sim, p: nat, i: nat)
    requires s.mass != 0.0
    ensures NewVel(s, p, i) == At(s.vel, s.nd, p, i) + Times(0.5, Kick(s, 1.0 / s.mass, i)(p))
    ensures NewAcc(s, p, i) == 0.0 + Times(1.0 / s.mass, At(s.f, s.nd, p, i))
  {
    hide At;
  }

  // Totals of a kick of every velocity, for any factor k.
  lemma KickTotals(s: Sim, v: nat -> real, k: real, i: nat)
    requires forall p :: 0 <= p < s.np ==> v(p) == At(s.vel, s.nd, p, i) + Times(0.5, Kick(s, k, i)(p))
    ensures Sum(v, s.np) == TotalOf(s.vel, s, i) + Times(0.5, TotalOf(s.acc, s, i) + Times(k, TotalOf(s.f, s, i)))
  {
    hide Times;
    SumLinear(v, Component(s.vel, s.nd, i), 0.5, Kick(s, k, i), s.np);
    SumLinear(Kick(s, k, i), Component(s.acc, s.nd, i), k, Component(s.f, s.nd, i), s.np);
    hide At;
  }

  lemma ScaledTotals(s: Sim, a: nat -> real, k: real, i: nat)
    requires forall p :: 0 <= p < s.np ==> a(p) == 0.0 + Times(k, At(s.f, s.nd, p, i))
    ensures Sum(a, s.np) == Times(k, TotalOf(s.f, s, i))
  {
    hide Times;
    SumLinear(a, (p: nat) => 0.0, k, Component(s.f, s.nd, i), s.np);
    SumOfZeros(s.np);
    hide At;
  }

  /** The velocity total after one update, for a visited dimension. */
  lemma UpdateVelocity(s: Sim, i: nat)
    requires s.Valid() && s.mass != 0.0 && i < s.nd && Visited(i)
    ensures TotalOf(Updated(s).vel, s, i) ==
            TotalOf(s.vel, s, i) + Times(0.5, TotalOf(s.acc, s, i) + Times(1.0 / s.mass, TotalOf(s.f, s, i)))
  {
    var v := Component(Updated(s).vel, s.nd, i);
    forall p: nat | p < s.np ensures v(p) == At(s.vel, s.nd, p, i) + Times(0.5, Kick(s, 1.0 / s.mass, i)(p)) {
      RefreshedAt(s.vel, s.nd, s.np, NewVelocities(s), p, i);
      NewVelIsKick(s, p, i);
      hide NewVel, At, Kick, Refreshed, Times;
    }
    hide NewVel, At, Kick, Refreshed, Updated, Times;
    KickTotals(s, v, 1.0 / s.mass, i);
  }

  /** The acceleration total after one update, for a visited dimension. */
  lemma UpdateAcceleration(s: Sim, i: nat)
    requires s.Valid() && s.mass != 0.0 && i < s.nd && Visited(i)
    ensures TotalOf(Updated(s).acc, s, i) == Times(1.0 / s.mass, TotalOf(s.f, s, i))
  {
    var a := Component(Updated(s).acc, s.nd, i);
    forall p: nat | p < s.np ensures a(p) == 0.0 + Times(1.0 / s.mass, At(s.f, s.nd, p, i)) {
      RefreshedAt(s.acc, s.nd, s.np, NewAccelerations(s), p, i);
      NewVelIsKick(s, p, i);
      hide NewAcc, At, Refreshed, Times;
    }
    hide NewAcc, At, Refreshed, Updated, Times;
    ScaledTotals(s, a, 1.0 / s.mass, i);
  }

  // What the update adds to a position.
  function Shift(s: Sim, i: nat): nat -> real
  {
    (p: nat) => At(s.vel, s.nd, p, i) + Times(0.5, At(s.acc, s.nd, p, i))
  }

  lemma NewPosIsShift(s: Sim, p: nat, i: nat)
    ensures NewPos(s, p, i) == At(s.pos, s.nd, p, i) + Times(1.0, Shift(s, i)(p))
  {
    hide At;
  }

  lemma ShiftTotals(s: Sim, x: nat -> real, i: nat)
    requires forall p :: 0 <= p < s.np ==> x(p) == At(s.pos, s.nd, p, i) + Times(1.0, Shift(s, i)(p))
    ensures Sum(x, s.np) == TotalOf(s.pos, s, i) + Times(1.0, TotalOf(s.vel, s, i) + Times(0.5, TotalOf(s.acc, s, i)))
  {
    hide Times;
    SumLinear(x, Component(s.pos, s.nd, i), 1.0, Shift(s, i), s.np);
    SumLinear(Shift(s, i), Component(s.vel, s.nd, i), 0.5, Component(s.acc, s.nd, i), s.np);
    hide At;
  }

  /** The position total after one update, for a visited dimension. */
  lemma UpdatePosition(s: Sim, i: nat)
    requires s.Valid() && s.mass != 0.0 && i < s.nd && Visited(i)
    ensures TotalOf(Updated(s).pos, s, i) ==
            TotalOf(s.pos, s, i) + Times(1.0, TotalOf(s.vel, s, i) + Times(0.5, TotalOf(s.acc, s, i)))
  {
    var x := Component(Updated(s).pos, s.nd, i);
    forall p: nat | p < s.np ensures x(p) == At(s.pos, s.nd, p, i) + Times(1.0, Shift(s, i)(p)) {
      RefreshedAt(s.pos, s.nd, s.np, NewPositions(s), p, i);
      NewPosIsShift(s, p, i);
      hide NewPos, At, Shift, Refreshed, Times;
    }
    hide NewPos, At, Shift, Refreshed, Updated, Times;
    ShiftTotals(s, x, i);
  }

  lemma {:induction false} SumOfZeros(n: nat)
    ensures Sum((p: nat) => 0.0, n) == 0.0
  {
    if n > 0 {
      SumOfZeros(n - 1);
    }
  }

  /** The state after n compute/update rounds. */
  function Rounds(s: Sim, lib: Libm, n: nat): (r: Sim)
    requires s.Valid() && s.mass != 0.0 && StaysApart(s, lib, n)
    ensures r.Valid() && r.mass == s.mass && r.np == s.np && r.nd == s.nd
    decreases n, 1
  {
    if n == 0 then s else Updated(Computed(Rounds(s, lib, n - 1), lib))
  }

  /** The particles are apart whenever forces are computed. */
  ghost predicate StaysApart(s: Sim, lib: Libm, n: nat)
    requires s.Valid() && s.mass != 0.0
    decreases n, 0
  {
    n == 0 || (StaysApart(s, lib, n - 1) && Separated(Rounds(s, lib, n - 1), lib))
  }

  /** Positions that stay pairwise distinct, round after round, keep the particles apart. */
  lemma {:induction false} DistinctRoundsStayApart(s: Sim, lib: Libm, n: nat)
    requires s.Valid() && s.mass != 0.0 && LibmOk(lib)
    requires forall k: nat :: k < n && StaysApart(s, lib, k) ==> Distinct(Rounds(s, lib, k))
    ensures StaysApart(s, lib, n)
  {
    hide Distinct, Separated;
    if n > 0 {
      DistinctRoundsStayApart(s, lib, n - 1);
      DistinctIsSeparated(Rounds(s, lib, n - 1), lib);
    }
  }

  /** What a round does to the totals of a visited dimension: the positions move on by the
      velocities and half the accelerations, the velocities by half the accelerations alone,
      and the accelerations sum to zero. A dimension the update skips keeps every position,
      velocity and acceleration. */
  lemma RoundConserves(s: Sim, lib: Libm, i: nat)
    requires s.Valid() && s.mass != 0.0 && Separated(s, lib) && i < s.nd
    ensures var r := Updated(Computed(s, lib));
            if Visited(i) then
              TotalOf(r.acc, s, i) == 0.0 &&
              TotalOf(r.vel, s, i) == TotalOf(s.vel, s, i) + TotalOf(s.acc, s, i) / 2.0 &&
              TotalOf(r.pos, s, i) == TotalOf(s.pos, s, i) + TotalOf(s.vel, s, i) + TotalOf(s.acc, s, i) / 2.0
            else
              forall p :: 0 <= p < s.np ==>
                At(r.pos, s.nd, p, i) == At(s.pos, s.nd, p, i) && At(r.vel, s.nd, p, i) == At(s.vel, s.nd, p, i) &&
                At(r.acc, s.nd, p, i) == At(s.acc, s.nd, p, i)
  {
    var c := Computed(s, lib);
    var r := Updated(c);
    if Visited(i) {
      ForcesCancel(s, lib, i);
      UpdatePosition(c, i);
      UpdateVelocity(c, i);
      UpdateAcceleration(c, i);
      hide Updated, Forces;
    } else {
      forall p | 0 <= p < s.np
        ensures At(r.pos, s.nd, p, i) == At(s.pos, s.nd, p, i) && At(r.vel, s.nd, p, i) == At(s.vel, s.nd, p, i) &&
                At(r.acc, s.nd, p, i) == At(s.acc, s.nd, p, i)
      {
        RefreshedAt(c.pos, s.nd, s.np, NewPositions(c), p, i);
        RefreshedAt(c.vel, s.nd, s.np, NewVelocities(c), p, i);
        RefreshedAt(c.acc, s.nd, s.np, NewAccelerations(c), p, i);
        hide NewVel, NewAcc, NewPos, At, Refreshed, Forces;
      }
    }
  }

  /** The drift of the total position: total velocity and half the total acceleration at the
      start. */
  function Drift(s: Sim, i: nat): real {
    TotalOf(s.vel, s, i) + TotalOf(s.acc, s, i) / 2.0
  }

  /** Over any number of rounds, in the dimensions the update visits, the drift is conserved: it
      is the total velocity from the first round on, when the accelerations sum to zero, and the
      centre of mass moves by it in every round. */
  lemma {:induction false} MomentumConserved(s: Sim, lib: Libm, n: nat, i: nat)
    requires s.Valid() && s.mass != 0.0 && StaysApart(s, lib, n) && i < s.nd && Visited(i)
    ensures var r := Rounds(s, lib, n);
            && Drift(r, i) == Drift(s, i)
            && (n > 0 || TotalOf(s.acc, s, i) == 0.0 ==> TotalOf(r.acc, s, i) == 0.0 && TotalOf(r.vel, s, i) == Drift(s, i))
            && TotalOf(r.pos, s, i) == TotalOf(s.pos, s, i) + Times(n as real, Drift(s, i))
  {
    NextMultiple(n, Drift(s, i));
    hide Times;
    if n > 0 {
      MomentumConserved(s, lib, n - 1, i);
      RoundConserves(Rounds(s, lib, n - 1), lib, i);
    }
    hide Updated, Computed, Separated, TotalOf;
  }

  lemma NextMultiple(n: nat, x: real)
    ensures if n == 0 then Times(n as real, x) == 0.0 else Times(n as real, x) == Times((n - 1) as real, x) + x
  {
    if n > 0 {
      assert n as real == (n - 1) as real + 1.0;
    }
  }

  /** In the dimensions the stride of two skips, nothing moves over any number of rounds. */
  lemma {:induction false} SkippedDimensionsStay(s: Sim, lib: Libm, n: nat, i: nat, p: nat)
    requires s.Valid() && s.mass != 0.0 && StaysApart(s, lib, n) && i < s.nd && !Visited(i) && p < s.np
    ensures var r := Rounds(s, lib, n);
            At(r.pos, s.nd, p, i) == At(s.pos, s.nd, p, i) && At(r.vel, s.nd, p, i) == At(s.vel, s.nd, p, i) &&
            At(r.acc, s.nd, p, i) == At(s.acc, s.nd, p, i)
  {
    if n > 0 {
      SkippedDimensionsStay(s, lib, n - 1, i, p);
      RoundConserves(Rounds(s, lib, n - 1), lib, i);
      hide Updated, Computed, Separated, At;
    }
  }
}
