/** What the weights of the bilateral filter are: Gaussians of distance and of difference, each
    with its own width, over the whole window. */
module BilateralWeights {
  import opened Bilateral
  import opened FlatTables
  import opened Sums

  lemma SquareIsProduct(x: real)
    ensures Square(x) == x * x
  {
  }

  // ---------- the shape of the Gaussians ----------

  /** The weight by distance is the same at equal distances. */
  lemma EqualDistances(x: real, y: real, u: real, v: real, sigma: real, lib: Libm)
    requires sigma != 0.0 && LibmOk(lib) && x * x + y * y == u * u + v * v
    ensures Gaussian2d(x, y, sigma, lib) == Gaussian2d(u, v, sigma, lib)
  {
    SquareIsProduct(x);
    SquareIsProduct(y);
    SquareIsProduct(u);
    SquareIsProduct(v);
    assert Square(x) + Square(y) == Square(u) + Square(v);
    hide Square;
  }

  lemma Halved(v: real)
    requires v > 0.0
    ensures -v / (2.0 * v) == -0.5 && -(2.0 * v) / (2.0 * v) == -1.0
  {
    assert -v == -0.5 * (2.0 * v);
  }

  lemma Undivided(e: real, d: real)
    requires d != 0.0
    ensures (e / d) * d == e
  {
  }

  /** At a difference of sigma the weight is exp(-1/2) of what it is divided by, and at a distance
      of sigma in both directions exp(-1). */
  lemma AtSigma(sigma: real, lib: Libm)
    requires sigma != 0.0 && LibmOk(lib)
    ensures Gaussian1d(sigma, sigma, lib) * lib.sqrt(2.0 * 3.14159265 * (sigma * sigma)) == lib.expf(-0.5)
    ensures Gaussian2d(sigma, sigma, sigma, lib) * (2.0 * 3.14159265 * (sigma * sigma)) == lib.expf(-1.0)
  {
    SquareIsProduct(sigma);
    SquarePositive(sigma);
    var v := Square(sigma);
    hide Square;
    Halved(v);
    assert 2.0 * PI * v > 0.0;
    assert -(v + v) == -(2.0 * v);
    Undivided(lib.expf(-0.5), lib.sqrt(2.0 * PI * v));
    Undivided(lib.expf(-1.0), 2.0 * PI * v);
  }

  /** The likeness part of a weight: 1 for no difference. */
  function Likeness(x: real, sigma: real, lib: Libm): real
    requires sigma != 0.0 && LibmOk(lib)
  {
    Gaussian1d(x, sigma, lib) / Gaussian1d(0.0, sigma, lib)
  }

  lemma ExpOfZero(lib: Libm)
    requires LibmOk(lib) && LibmExact(lib)
    ensures lib.expf(0.0) == 1.0
  {
    assert lib.expf(0.0 + 0.0) == Times(lib.expf(0.0), lib.expf(0.0));
    OwnSquare(lib.expf(0.0));
  }

  lemma Cancelled(x: real, e: real)
    requires e > 0.0
    ensures Times(x, e) / e == x
  {
  }

  lemma OwnSquare(e: real)
    requires e > 0.0 && e == Times(e, e)
    ensures e == 1.0
  {
    Cancelled(1.0, e);
    Cancelled(e, e);
  }

  lemma Ratios(e: real, r: real)
    requires r > 0.0
    ensures 1.0 / r > 0.0 && (e / r) / (1.0 / r) == e
  {
    assert e / r == e * (1.0 / r);
  }

  lemma LikenessIsExp(x: real, sigma: real, lib: Libm)
    requires sigma != 0.0 && LibmOk(lib) && LibmExact(lib)
    ensures Square(sigma) > 0.0 && Likeness(x, sigma, lib) == lib.expf(-Square(x) / (2.0 * Square(sigma)))
  {
    SquarePositive(sigma);
    SquareIsProduct(0.0);
    var v := Square(sigma);
    hide Square;
    ExpOfZero(lib);
    assert -0.0 / (2.0 * v) == 0.0;
    var e, r := lib.expf(-Square(x) / (2.0 * v)), lib.sqrt(2.0 * PI * v);
    assert r > 0.0 by { assert 2.0 * PI * v > 0.0; }
    Ratios(e, r);
  }

  lemma FourTimes(q: real, d: real)
    requires d > 0.0
    ensures -(4.0 * q) / d == (-q / d + -q / d) + (-q / d + -q / d)
  {
  }

  /** Twice the difference gives the fourth power of the likeness. */
  lemma TwiceTheDifference(x: real, sigma: real, lib: Libm)
    requires sigma != 0.0 && LibmOk(lib) && LibmExact(lib)
    ensures var l := Likeness(x, sigma, lib); Likeness(2.0 * x, sigma, lib) == (l * l) * (l * l)
  {
    LikenessIsExp(x, sigma, lib);
    LikenessIsExp(2.0 * x, sigma, lib);
    SquareIsProduct(x);
    SquareIsProduct(2.0 * x);
    var q, d := Square(x), 2.0 * Square(sigma);
    assert Square(2.0 * x) == 4.0 * q;
    hide Square, Likeness, LibmExact, LibmOk;
    FourTimes(q, d);
    FourthPower(-q / d, lib);
  }

  lemma FourthPower(e: real, lib: Libm)
    requires LibmExact(lib)
    ensures var l := lib.expf(e); lib.expf((e + e) + (e + e)) == (l * l) * (l * l)
  {
    var l := lib.expf(e);
    assert lib.expf(e + e) == Times(l, l);
    assert lib.expf((e + e) + (e + e)) == Times(Times(l, l), Times(l, l));
  }

  /** Scaling difference and width alike divides the weight by the scale. */
  lemma Scaled(x: real, sigma: real, k: real, lib: Libm)
    requires sigma != 0.0 && k > 0.0 && LibmOk(lib) && LibmExact(lib)
    ensures k * sigma != 0.0 && Gaussian1d(k * x, k * sigma, lib) == Gaussian1d(x, sigma, lib) / k
  {
    var q, v := Square(x), Square(sigma);
    ScaledSquare(k, x);
    ScaledSquare(k, sigma);
    SquarePositive(sigma);
    SquarePositive(k);
    NotZero(k, sigma);
    var kk := Square(k);
    hide Square;
    SameExponent(kk, q, 2.0 * v);
    assert 2.0 * Times(kk, v) == Times(kk, 2.0 * v) && 2.0 * PI * Times(kk, v) == Times(kk, 2.0 * PI * v);
    assert 2.0 * PI * v > 0.0;
    SquareIsProduct(k);
    ScaledRoot(k, 2.0 * PI * v, lib);
    var r := lib.sqrt(2.0 * PI * v);
    hide Times;
    OverBoth(lib.expf(-q / (2.0 * v)), k, r);
  }

  lemma NotZero(k: real, x: real)
    requires k > 0.0 && x != 0.0
    ensures k * x != 0.0
  {
  }

  lemma ScaledSquare(k: real, x: real)
    ensures Square(k * x) == Times(Square(k), Square(x))
  {
  }

  lemma SameExponent(kk: real, q: real, d: real)
    requires kk > 0.0 && d > 0.0
    ensures Times(kk, d) > 0.0 && -Times(kk, q) / Times(kk, d) == -q / d
  {
    ProductPositive(kk, d);
    assert -Times(kk, q) == (-q / d) * Times(kk, d);
  }

  lemma ScaledRoot(k: real, a: real, lib: Libm)
    requires k > 0.0 && a > 0.0 && LibmOk(lib) && LibmExact(lib)
    ensures Times(k * k, a) > 0.0 && lib.sqrt(Times(k * k, a)) == Times(k, lib.sqrt(a))
  {
    ProductPositive(k, k);
    ProductPositive(k * k, a);
    var r, s := lib.sqrt(Times(k * k, a)), lib.sqrt(a);
    assert Times(r, r) == Times(k * k, a) && Times(s, s) == a;
    ProductPositive(k, s);
    SquareOfProduct(k, s);
    SameRoot(r, Times(k, s));
  }

  lemma SquareOfProduct(k: real, s: real)
    ensures Times(Times(k, s), Times(k, s)) == Times(k * k, Times(s, s))
  {
  }

  lemma SameRoot(r: real, d: real)
    requires r > 0.0 && d > 0.0 && Times(r, r) == Times(d, d)
    ensures r == d
  {
    if r < d {
      TimesBelow(r, d, r);
      TimesBelow(r, d, d);
    } else if d < r {
      TimesBelow(d, r, r);
      TimesBelow(d, r, d);
    }
    assert Times(r, d) == Times(d, r);
  }

  lemma OverBoth(e: real, k: real, r: real)
    requires k > 0.0 && r > 0.0
    ensures Times(k, r) > 0.0 && e / Times(k, r) == (e / r) / k
  {
    ProductPositive(k, r);
    assert e == ((e / r) / k) * (k * r);
  }

  // ---------- the weights of the mean ----------

  /** A weight is the product of the two Gaussians: that of the distance has the spatial width, and
      that of the difference the other one. So at equal colours weights are to each other as the
      weights of their distances, whatever f.range is ... */
  lemma EqualColours(f: Filter, img: Image, x: int, y: int, i: int, j: int, ch: Channel)
    requires f.Valid() && img.At(x, y).Of(ch) == Sample(img, x, y, i, j).Of(ch)
    ensures Weight(f, img, x, y, i, j, ch)
            == Gaussian2d(i as real, j as real, f.spatial, f.lib) * Gaussian1d(0.0, f.range, f.lib)
  {
    hide Gaussian1d, Gaussian2d, Sample, Image.At;
  }

  /** ... and at equal distances as the weights of their differences, whatever f.spatial is. */
  lemma EqualOffsets(f: Filter, img: Image, x: int, y: int, i: int, j: int, k: int, l: int, ch: Channel)
    requires f.Valid() && i * i + j * j == k * k + l * l
    ensures var c := img.At(x, y).Of(ch);
            var (d, e) := (c - Sample(img, x, y, i, j).Of(ch), c - Sample(img, x, y, k, l).Of(ch));
            Weight(f, img, x, y, i, j, ch) * Gaussian1d(e, f.range, f.lib)
            == Weight(f, img, x, y, k, l, ch) * Gaussian1d(d, f.range, f.lib)
  {
    hide Gaussian1d, Gaussian2d, Sample, Image.At, LibmOk;
    RealSquares(i, j);
    RealSquares(k, l);
    EqualDistances(i as real, j as real, k as real, l as real, f.spatial, f.lib);
    var c := img.At(x, y).Of(ch);
    var d, e := c - Sample(img, x, y, i, j).Of(ch), c - Sample(img, x, y, k, l).Of(ch);
    Swapped(Gaussian2d(i as real, j as real, f.spatial, f.lib), Gaussian1d(d, f.range, f.lib), Gaussian1d(e, f.range, f.lib));
  }

  lemma RealSquares(i: int, j: int)
    ensures (i as real) * (i as real) + (j as real) * (j as real) == (i * i + j * j) as real
  {
    RealSquare(i);
    RealSquare(j);
  }

  lemma {:induction false} RealSquare(i: int)
    ensures (i as real) * (i as real) == (i * i) as real
    decreases if i < 0 then 1 - i else i
  {
    if i < 0 {
      RealSquare(-i);
      assert (-i) as real == -(i as real);
      assert i * i == -i * -i;
    } else if i > 0 {
      RealSquare(i - 1);
      assert i as real == (i - 1) as real + 1.0;
    }
  }

  lemma Swapped(a: real, b: real, c: real)
    ensures Times(a, b) * c == Times(a, c) * b
  {
  }

  // The weights of one direction, from -radius to radius.
  function Direction(f: Filter): nat -> real
    requires f.Valid()
  {
    (p: nat) => Gaussian1d((p as int - f.radius as int) as real, f.spatial, f.lib)
  }

  ghost predicate SameColours(f: Filter, img: Image, x: int, y: int, ch: Channel) {
    var r: int := f.radius;
    forall i: int, j: int :: -r <= i <= r && -r <= j <= r ==> Sample(img, x, y, i, j).Of(ch) == img.At(x, y).Of(ch)
  }

  /** With all colours of a channel equal over the window, the divisor is the weight of no difference
      times the square of the sum of the weights of one direction, over all 2 * radius + 1 offsets. */
  lemma TotalOfEqualColours(f: Filter, img: Image, x: int, y: int, ch: Channel)
    requires f.Valid() && LibmExact(f.lib)
    requires SameColours(f, img, x, y, ch)
    ensures var one := Sum(Direction(f), 2 * f.radius + 1);
            Total(f, img, x, y, ch) == (one * one) * Gaussian1d(0.0, f.range, f.lib)
  {
    hide Gaussian1d, Gaussian2d, LibmExact, LibmOk, SameColours, Times, Weights, Direction;
    var g, d, n := Weights(f, img, x, y, ch), Direction(f), 2 * f.radius + 1;
    var c := Gaussian1d(0.0, f.range, f.lib);
    forall p: nat, q: nat | p < n && q < n ensures g(p, q) == Times(Times(c, d(p)), d(q)) {
      OneWeight(f, img, x, y, ch, p, q);
    }
    ProductOfSums(g, d, c, n, n);
    WrittenOut(c, Sum(d, n));
  }

  lemma SameAt(f: Filter, img: Image, x: int, y: int, ch: Channel, i: int, j: int)
    requires SameColours(f, img, x, y, ch)
    requires var r: int := f.radius; -r <= i <= r && -r <= j <= r
    ensures Sample(img, x, y, i, j).Of(ch) == img.At(x, y).Of(ch)
  {
    hide Sample, Image.At;
  }

  lemma DirectionAt(f: Filter, p: nat)
    requires f.Valid()
    ensures var i: int := p - f.radius; Direction(f)(p) == Gaussian1d(i as real, f.spatial, f.lib)
  {
    hide Gaussian1d, LibmOk;
  }

  lemma OneWeight(f: Filter, img: Image, x: int, y: int, ch: Channel, p: nat, q: nat)
    requires f.Valid() && LibmExact(f.lib) && SameColours(f, img, x, y, ch)
    requires p < 2 * f.radius + 1 && q < 2 * f.radius + 1
    ensures Weights(f, img, x, y, ch)(p, q) ==
            Times(Times(Gaussian1d(0.0, f.range, f.lib), Direction(f)(p)), Direction(f)(q))
  {
    hide Gaussian1d, Gaussian2d, LibmExact, LibmOk, SameColours, Sample, Times, Direction, Weight;
    var i: int, j: int := p - f.radius, q - f.radius;
    SameAt(f, img, x, y, ch, i, j);
    EqualColours(f, img, x, y, i, j, ch);
    SpatialWeightSeparates(i as real, j as real, f.spatial, f.lib);
    DirectionAt(f, p);
    DirectionAt(f, q);
    Grouped(Direction(f)(p), Direction(f)(q), Gaussian1d(0.0, f.range, f.lib));
  }

  lemma Grouped(a: real, b: real, c: real)
    ensures Times(a, b) * c == Times(Times(c, a), b)
  {
  }

  lemma WrittenOut(c: real, s: real)
    ensures Times(Times(c, s), s) == (s * s) * c
  {
  }

  lemma {:induction false} ScaledSum(g: nat -> real, k: real, d: nat -> real, n: nat)
    requires forall q :: 0 <= q < n ==> g(q) == Times(k, d(q))
    ensures Sum(g, n) == Times(k, Sum(d, n))
  {
    if n == 0 {
      TimesAdds(k, 0.0, 0.0);
    } else {
      ScaledSum(g, k, d, n - 1);
      TimesAdds(k, Sum(d, n - 1), d(n - 1));
    }
    hide Times;
  }

  // The sum over the first m columns.
  lemma {:induction false} ProductOfSums(g: (nat, nat) -> real, d: nat -> real, c: real, m: nat, n: nat)
    requires forall p, q :: 0 <= p < m && 0 <= q < n ==> g(p, q) == Times(Times(c, d(p)), d(q))
    ensures Sum(RowSum(g, n), m) == Times(Times(c, Sum(d, m)), Sum(d, n))
  {
    if m == 0 {
      TimesAdds(c, 0.0, 0.0);
      ZeroTimes(Sum(d, n));
    } else {
      ProductOfSums(g, d, c, m - 1, n);
      ScaledSum(Row(g, m - 1), Times(c, d(m - 1)), d, n);
      TimesAdds(c, Sum(d, m - 1), d(m - 1));
      TimesDistributes(Times(c, Sum(d, m - 1)), Times(c, d(m - 1)), Sum(d, n));
    }
    hide Times;
  }

  lemma ZeroTimes(x: real)
    ensures Times(0.0, x) == 0.0
  {
  }
}
