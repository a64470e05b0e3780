/** The initializer of the particle positions: a linear congruential generator that
    avoids overflow by Schrage's splitting, and the loop that draws from it. */
module ParticleInit {
  import opened FlatTables
  import opened MdSystem
  import opened Sums

  const M := 2147483647
  const A := 16807
  const Q := 127773
  const R := 2836
  const INVERSE := 1407677000

  newtype Int32 = x: int | -0x8000_0000 <= x < 0x8000_0000

  /** The recurrence of minstd_rand0 (section 26.5.5 of ISO/IEC 14882:2011). */
  function Next(seed: int): int { (A * seed) % M }

  ghost predicate IsSeed(s: int) { 1 <= s < M }

  // ---------- arithmetic modulo M ----------

  lemma ModUnique(x: int, q: int, r: int)
    requires x == q * M + r && 0 <= r < M
    ensures x % M == r
  {
  }

  /** M = A * Q + R, so A*seed differs from A*(seed mod Q) - R*(seed div Q) by a multiple of M. */
  lemma SchrageAgrees(seed: int)
    requires IsSeed(seed)
    ensures var k := seed / Q; var t := A * (seed - k * Q) - k * R;
            -M < t < M && Next(seed) == if t < 0 then t + M else t
  {
    var k := seed / Q;
    var t := A * (seed - k * Q) - k * R;
    assert A * seed == k * M + t;
    if t < 0 {
      ModUnique(A * seed, k - 1, t + M);
    } else {
      ModUnique(A * seed, k, t);
    }
  }

  /** A has an inverse modulo M, so a step can be undone. */
  lemma NextIsUndone(seed: int)
    requires IsSeed(seed)
    ensures (INVERSE * Next(seed)) % M == seed
  {
    var q := (A * seed) / M;
    assert INVERSE * A == 11017 * M + 1;
    ModUnique(INVERSE * Next(seed), 11017 * seed - INVERSE * q, seed);
  }

  /** A step stays among the seeds and takes no two seeds to the same one. */
  lemma NextPermutesSeeds(s: int, t: int)
    requires IsSeed(s) && IsSeed(t)
    ensures IsSeed(Next(s))
    ensures Next(s) == Next(t) ==> s == t
    ensures IsSeed((INVERSE * t) % M) && Next((INVERSE * t) % M) == t
  {
    NextIsUndone(s);
    NextIsUndone(t);
    var u := (INVERSE * t) % M;
    var q := (INVERSE * t) / M;
    assert INVERSE * A == 11017 * M + 1;
    ModUnique(A * u, 11017 * t - A * q, t);
  }

  // ---------- closed form ----------

  function Pow(n: nat): nat { if n == 0 then 1 else A * Pow(n - 1) }

  /** The seed after n calls. */
  function SeedAfter(seed: int, n: nat): int { (Pow(n) * seed) % M }

  lemma ModOfMod(x: int)
    ensures (A * (x % M)) % M == (A * x) % M
  {
    var q := x / M;
    var p := (A * (x % M)) / M;
    ModUnique(A * x, A * q + p, (A * (x % M)) % M);
  }

  lemma SeedAfterNext(seed: int, n: nat)
    ensures SeedAfter(seed, n + 1) == Next(SeedAfter(seed, n))
  {
    ModOfMod(Pow(n) * seed);
    assert Pow(n + 1) * seed == A * (Pow(n) * seed);
  }

  lemma {:induction false} SeedAfterIsSeed(seed: int, n: nat)
    requires IsSeed(seed)
    ensures IsSeed(SeedAfter(seed, n))
  {
    if n == 0 {
      ModUnique(seed, 0, seed);
    } else {
      SeedAfterIsSeed(seed, n - 1);
      SeedAfterNext(seed, n - 1);
      NextPermutesSeeds(SeedAfter(seed, n - 1), 1);
    }
  }

  const SCALE := 0.0000000004656612875

  /** The n-th number drawn, counting from 1. */
  function Draw(seed: int, n: nat): real { SeedAfter(seed, n) as real * SCALE }

  lemma DrawIs(seed: int, n: nat)
    ensures Draw(seed, n) == SeedAfter(seed, n) as real * SCALE
  {
  }

  lemma DrawInUnitInterval(seed: int, n: nat)
    requires IsSeed(seed)
    ensures 0.0 < Draw(seed, n) < 1.0
  {
    SeedAfterIsSeed(seed, n);
  }

  // ---------- the code ----------

  class Generator {
    var seed: Int32

    constructor (s: Int32)
      ensures seed == s
    {
      seed := s;
    }

    /** r8_uniform_01: every intermediate value fits 32 signed bits. */
    method Uniform01() returns (r: real)
      requires IsSeed(seed as int)
      modifies this
      ensures seed as int == Next(old(seed) as int) && IsSeed(seed as int)
      ensures r == seed as real * SCALE
    {
      SchrageAgrees(seed as int);
      NextPermutesSeeds(seed as int, 1);
      var k := seed / 127773;
      seed := 16807 * (seed - k * 127773) - k * 2836;
      if seed < 0 {
        seed := seed + 2147483647;
      }
      r := seed as real * SCALE;
    }
  }

  /** A position component: the side of the box times a draw. */
  function Placed(side: real, r: real): real { Times(side, r) }

  /** One particle: a draw for each of its components. */
  method InitParticle(table: array<real>, np: nat, nd: nat, j: nat, box: seq<real>, gen: Generator, ghost seed0: int)
    requires table.Length >= 2 + Start(np, nd) && |box| == nd && j < np && Start(j + 1, nd) <= Start(np, nd)
    requires IsSeed(gen.seed as int) && gen.seed as int == SeedAfter(seed0, Start(j, nd)) &&
             Drawn(table[..], box, seed0, nd, Start(j, nd))
    requires Start(j + 1, nd) == Cell(j, nd, nd)
    modifies table, gen
    ensures IsSeed(gen.seed as int) && gen.seed as int == SeedAfter(seed0, Start(j + 1, nd)) &&
            Drawn(table[..], box, seed0, nd, Start(j + 1, nd))
    ensures forall k :: 0 <= k < table.Length && !(2 <= k < 2 + Start(np, nd)) ==> table[k] == old(table[k])
  {
    hide Start, SeedAfter, Next, ColumnOf, Draw, Drawn, Placed;
    for i := 0 to nd
      invariant IsSeed(gen.seed as int) && gen.seed as int == SeedAfter(seed0, Cell(j, i, nd))
      invariant Drawn(table[..], box, seed0, nd, Cell(j, i, nd))
      invariant forall k :: 0 <= k < table.Length && !(2 <= k < 2 + Start(np, nd)) ==> table[k] == old(table[k])
    {
      CellInRange(j, i, np, nd);
      SeedAfterNext(seed0, Cell(j, i, nd));
      ghost var before := table[..];
      var r := gen.Uniform01();
      table[2 + Cell(j, i, nd)] := Placed(box[i], r);
      DrawIs(seed0, Cell(j, i, nd) + 1);
      DrawnNext(table[..], before, box, seed0, nd, j, i, r);
    }
  }

  lemma DrawnNext(now: seq<real>, before: seq<real>, box: seq<real>, seed0: int, nd: nat, j: nat, i: nat, r: real)
    requires |now| == |before| && |box| == nd && i < nd && |now| > 2 + Cell(j, i, nd) &&
             Drawn(before, box, seed0, nd, Cell(j, i, nd))
    requires now == before[2 + Cell(j, i, nd) := Placed(box[i], r)] && r == Draw(seed0, Cell(j, i, nd) + 1)
    ensures Drawn(now, box, seed0, nd, Cell(j, i + 1, nd))
  {
    CellDecodes(j, i, nd);
    hide Start, Draw, ColumnOf, RowOf, Placed;
  }

  /** MD_InitParticles: the position array starts at cell 2 of the table. Cell i + j*nd gets
      box[i] times the draw of that number, each cell one draw, in order. */
  method InitParticles(table: array<real>, np: nat, nd: nat, box: seq<real>, gen: Generator)
    requires table.Length >= 2 + Start(np, nd) && |box| == nd && IsSeed(gen.seed as int)
    modifies table, gen
    ensures forall j, i :: 0 <= j < np && 0 <= i < nd ==>
              Cell(j, i, nd) < Start(np, nd) &&
                table[2 + Cell(j, i, nd)] == Placed(box[i], Draw(old(gen.seed) as int, Cell(j, i, nd) + 1))
    ensures forall k :: 0 <= k < table.Length && !(2 <= k < 2 + Start(np, nd)) ==> table[k] == old(table[k])
    ensures gen.seed as int == SeedAfter(old(gen.seed) as int, Start(np, nd))
  {
    ghost var seed0 := gen.seed as int;
    assert Start(0, nd) == 0;
    SeedAfterNothing(seed0);
    hide Start, SeedAfter, Draw, Placed, Next;
    for j := 0 to np
      invariant IsSeed(gen.seed as int) && gen.seed as int == SeedAfter(seed0, Start(j, nd)) &&
                Start(j, nd) <= Start(np, nd)
      invariant Drawn(table[..], box, seed0, nd, Start(j, nd))
      invariant forall k :: 0 <= k < table.Length && !(2 <= k < 2 + Start(np, nd)) ==> table[k] == old(table[k])
    {
      hide Drawn;
      NextStart(j, np, nd);
      InitParticle(table, np, nd, j, box, gen, seed0);
    }
    DrawnEverywhere(table[..], box, seed0, np, nd);
    hide Drawn;
  }

  lemma SeedAfterNothing(seed: int)
    requires IsSeed(seed)
    ensures SeedAfter(seed, 0) == seed
  {
    ModUnique(seed, 0, seed);
  }

  lemma DrawnEverywhere(table: seq<real>, box: seq<real>, seed0: int, np: nat, nd: nat)
    requires |table| >= 2 + Start(np, nd) && |box| == nd && Drawn(table, box, seed0, nd, Start(np, nd))
    ensures forall j, i :: 0 <= j < np && 0 <= i < nd ==>
              Cell(j, i, nd) < Start(np, nd) && table[2 + Cell(j, i, nd)] == Placed(box[i], Draw(seed0, Cell(j, i, nd) + 1))
  {
    forall j, i | 0 <= j < np && 0 <= i < nd
      ensures Cell(j, i, nd) < Start(np, nd) && table[2 + Cell(j, i, nd)] == Placed(box[i], Draw(seed0, Cell(j, i, nd) + 1))
    {
      CellInRange(j, i, np, nd);
      CellDecodes(j, i, nd);
      hide Start, ColumnOf, Draw, Placed;
    }
  }

  lemma NextStart(j: nat, np: nat, nd: nat)
    requires j < np
    ensures Start(j + 1, nd) == Cell(j, nd, nd) && Start(j + 1, nd) <= Start(np, nd)
  {
    assert (j + 1) * nd == nd + j * nd;
    MoreRows(j + 1, np, nd);
  }

  /** The first n position cells hold the first n draws, scaled by their side of the box. */
  ghost predicate Drawn(table: seq<real>, box: seq<real>, seed0: int, nd: nat, n: nat)
    requires |table| >= 2 + n && |box| == nd
  {
    n > 0 ==> nd > 0 && forall k :: 0 <= k < n && ColumnOf(k, nd) < nd ==>
      table[2 + k] == Placed(box[ColumnOf(k, nd)], Draw(seed0, k + 1))
  }

  /** For positive sides every position is strictly inside the box. */
  lemma PositionsInsideBox(side: real, seed: int, n: nat)
    requires side > 0.0 && IsSeed(seed)
    ensures 0.0 < Placed(side, Draw(seed, n)) < side
  {
    DrawInUnitInterval(seed, n);
    ProductInside(side, Draw(seed, n));
  }

  lemma ProductInside(side: real, x: real)
    requires side > 0.0 && 0.0 < x < 1.0
    ensures 0.0 < Placed(side, x) < side
  {
    PositiveProduct(side, x);
    PositiveProduct(side, 1.0 - x);
    TimesAdds(side, x, 1.0 - x);
    assert Times(side, 1.0) == side;
    hide Times;
  }

  /** A draw is the seed over 2147483647, but for less than one part in as many. */
  lemma DrawIsSeedRatio(seed: int, n: nat)
    requires IsSeed(seed)
    ensures var x := SeedAfter(seed, n) as real;
            (x - 1.0) / 2147483647.0 < Draw(seed, n) < (x + 1.0) / 2147483647.0
  {
    SeedAfterIsSeed(seed, n);
    hide SeedAfter;
  }

  /** A position over its side of the box is the draw. */
  lemma PlacedOverSide(side: real, r: real)
    requires side != 0.0
    ensures Placed(side, r) / side == r
  {
  }
}
