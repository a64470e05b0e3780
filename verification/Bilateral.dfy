/** The bilateral filter: every pixel becomes a mean of its neighbourhood, weighted by
    distance and by likeness, channel by channel. Reals stand for floats; expf and sqrt are
    parameters. */
module Bilateral {
  import opened FlatTables
  import opened Sums

  datatype Libm = Libm(expf: real -> real, sqrt: real -> real)

  ghost predicate LibmOk(lib: Libm) {
    && (forall x: real :: lib.expf(x) > 0.0)
    && (forall x: real :: x > 0.0 ==> lib.sqrt(x) > 0.0)
  }

  const PI := 3.14159265

  datatype RGB = RGB(R: real, G: real, B: real) {
    function Plus(c: RGB): RGB { RGB(R + c.R, G + c.G, B + c.B) }

    function Product(c: RGB): RGB { RGB(Times(R, c.R), Times(G, c.G), Times(B, c.B)) }

    function Over(c: RGB): RGB
      requires c.R != 0.0 && c.G != 0.0 && c.B != 0.0
    {
      RGB(R / c.R, G / c.G, B / c.B)
    }

    function Of(ch: Channel): real {
      match ch
      case Red => R
      case Green => G
      case Blue => B
    }
  }

  datatype Channel = Red | Green | Blue

  /** The parameters of one filtering. */
  datatype Filter = Filter(radius: nat, spatial: real, range: real, lib: Libm) {
    // Samples in a row of the window.
    function Side(): nat { 2 * radius + 1 }

    ghost predicate Valid() { spatial != 0.0 && range != 0.0 && LibmOk(lib) }
  }

  datatype Image = Image(width: nat, height: nat, data: seq<RGB>) {
    predicate Valid() { |data| == Start(height, width) }

    /** The pixel in column x of row y; black off the image. */
    function At(x: int, y: int): RGB {
      if 0 <= x < width && 0 <= y < height && Cell(y, x, width) < |data| then data[Cell(y, x, width)]
      else RGB(0.0, 0.0, 0.0)
    }
  }

  // ---------- weights ----------

  function Square(x: real): real { Times(x, x) }

  lemma SquarePositive(x: real)
    requires x != 0.0
    ensures Square(x) > 0.0
  {
    if x > 0.0 {
      ProductPositive(x, x);
    } else {
      ProductPositive(-x, -x);
      assert Times(-x, -x) == Times(x, x);
    }
  }

  function Gaussian1d(x: real, sigma: real, lib: Libm): (g: real)
    requires sigma != 0.0 && LibmOk(lib)
    ensures g > 0.0
  {
    SquarePositive(sigma);
    var variance := Square(sigma);
    lib.expf(-Square(x) / (2.0 * variance)) / lib.sqrt(2.0 * PI * variance)
  }

  function Gaussian2d(x: real, y: real, sigma: real, lib: Libm): (g: real)
    requires sigma != 0.0 && LibmOk(lib)
    ensures g > 0.0
  {
    SquarePositive(sigma);
    var variance := Square(sigma);
    lib.expf(-(Square(x) + Square(y)) / (2.0 * variance)) / (2.0 * PI * variance)
  }

  /** What expf and sqrt are for. */
  ghost predicate LibmExact(lib: Libm) {
    && (forall a, b :: lib.expf(a + b) == Times(lib.expf(a), lib.expf(b)))
    && (forall x: real :: x > 0.0 ==> Times(lib.sqrt(x), lib.sqrt(x)) == x)
  }

  /** The weight by distance is the product of one weight a direction. */
  lemma SpatialWeightSeparates(x: real, y: real, sigma: real, lib: Libm)
    requires sigma != 0.0 && LibmOk(lib) && LibmExact(lib)
    ensures Gaussian2d(x, y, sigma, lib) == Times(Gaussian1d(x, sigma, lib), Gaussian1d(y, sigma, lib))
  {
    SquarePositive(sigma);
    var variance := Square(sigma);
    var root := lib.sqrt(2.0 * PI * variance);
    var a, b := -Square(x) / (2.0 * variance), -Square(y) / (2.0 * variance);
    QuotientOfSum(Square(x), Square(y), 2.0 * variance);
    assert lib.expf(a + b) == Times(lib.expf(a), lib.expf(b));
    ProductOfQuotients(lib.expf(a), lib.expf(b), root);
    hide Times, Square;
  }

  lemma QuotientOfSum(x: real, y: real, d: real)
    requires d > 0.0
    ensures -(x + y) / d == -x / d + -y / d
  {
  }

  lemma ProductOfQuotients(x: real, y: real, r: real)
    requires r > 0.0
    ensures Times(r, r) != 0.0 && Times(x, y) / Times(r, r) == Times(x / r, y / r)
  {
    ProductPositive(r, r);
    var p, q := x / r, y / r;
    assert x == p * r && y == q * r;
    assert Times(x, y) == Times(p, q) * Times(r, r);
  }

  /** The sample at offset i from x, reflected about x when it leaves the image. */
  function Mirror(x: int, i: int, n: int): int {
    if x + i < 0 || x + i >= n then x - i else x + i
  }

  function Sample(img: Image, x: int, y: int, i: int, j: int): RGB {
    img.At(Mirror(x, i, img.width), Mirror(y, j, img.height))
  }

  function Weight(f: Filter, img: Image, x: int, y: int, i: int, j: int, ch: Channel): real
    requires f.Valid()
  {
    Times(Gaussian2d(i as real, j as real, f.spatial, f.lib),
          Gaussian1d(img.At(x, y).Of(ch) - Sample(img, x, y, i, j).Of(ch), f.range, f.lib))
  }

  // Column p and row q of the window, as functions to be summed.
  function Weights(f: Filter, img: Image, x: int, y: int, ch: Channel): (nat, nat) -> real
    requires f.Valid()
  {
    (p: nat, q: nat) => Weight(f, img, x, y, p - f.radius, q - f.radius, ch)
  }

  function Terms(f: Filter, img: Image, x: int, y: int, ch: Channel): (nat, nat) -> real
    requires f.Valid()
  {
    (p: nat, q: nat) =>
      Times(Sample(img, x, y, p - f.radius, q - f.radius).Of(ch),
            Weight(f, img, x, y, p - f.radius, q - f.radius, ch))
  }

  function WindowSum(g: (nat, nat) -> real, n: nat): real { Sum(RowSum(g, n), n) }

  function Total(f: Filter, img: Image, x: int, y: int, ch: Channel): real
    requires f.Valid()
  {
    WindowSum(Weights(f, img, x, y, ch), f.Side())
  }

  lemma {:induction false} PositiveRow(g: nat -> real, n: nat)
    requires forall q :: 0 <= q < n ==> g(q) > 0.0
    ensures n > 0 ==> Sum(g, n) > 0.0
  {
    if n > 0 {
      PositiveRow(g, n - 1);
    }
  }

  lemma WeightPositive(f: Filter, img: Image, x: int, y: int, i: int, j: int, ch: Channel)
    requires f.Valid()
    ensures Weight(f, img, x, y, i, j, ch) > 0.0
  {
    ProductPositive(Gaussian2d(i as real, j as real, f.spatial, f.lib),
                    Gaussian1d(img.At(x, y).Of(ch) - Sample(img, x, y, i, j).Of(ch), f.range, f.lib));
  }

  lemma ProductPositive(a: real, b: real)
    requires a > 0.0 && b > 0.0
    ensures Times(a, b) > 0.0
  {
  }

  /** The divisor is never zero. */
  lemma TotalPositive(f: Filter, img: Image, x: int, y: int, ch: Channel)
    requires f.Valid()
    ensures Total(f, img, x, y, ch) > 0.0
  {
    var g, n := Weights(f, img, x, y, ch), f.Side();
    forall p, q | 0 <= p < n && 0 <= q < n ensures g(p, q) > 0.0 {
      WeightPositive(f, img, x, y, p - f.radius, q - f.radius, ch);
    }
    forall p | 0 <= p < n ensures RowSum(g, n)(p) > 0.0 {
      PositiveRow(Row(g, p), n);
    }
    PositiveRow(RowSum(g, n), n);
  }

  /** The weighted mean of one channel over the window. */
  function Mean(f: Filter, img: Image, x: int, y: int, ch: Channel): real
    requires f.Valid()
  {
    TotalPositive(f, img, x, y, ch);
    WindowSum(Terms(f, img, x, y, ch), f.Side()) / Total(f, img, x, y, ch)
  }

  ghost predicate Filtered(f: Filter, before: Image, after: Image)
    requires f.Valid()
  {
    && after.width == before.width && after.height == before.height && after.Valid()
    && forall x, y, ch ::
         0 <= x < before.width && 0 <= y < before.height ==> after.At(x, y).Of(ch) == Mean(f, before, x, y, ch)
  }

  // ---------- the mirrored index ----------

  /** An image the window's reflections stay within. */
  predicate Fits(n: int, radius: int) { n >= 1 && n >= 2 * radius }

  /** Every mirrored index is in bounds exactly when the image is at least twice the radius. */
  lemma MirrorInBounds(n: int, radius: int)
    requires n >= 1 && radius >= 0
    ensures (forall x, i :: 0 <= x < n && -radius <= i <= radius ==> 0 <= Mirror(x, i, n) < n) <==> Fits(n, radius)
  {
    if !Fits(n, radius) {
      var x: int := if n < radius then n - 1 else radius - 1;
      assert Mirror(x, -radius, n) == x + radius >= n;
    }
  }

  // ---------- the loops ----------

  /** The sums so far: p whole columns of the window and q samples of the next. */
  ghost predicate SummedTo(f: Filter, img: Image, x: int, y: int, normalization: RGB, res: RGB, p: nat, q: nat)
    requires f.Valid()
  {
    forall ch: Channel ::
      && normalization.Of(ch)
         == Sum(RowSum(Weights(f, img, x, y, ch), f.Side()), p) + Sum(Row(Weights(f, img, x, y, ch), p), q)
      && res.Of(ch)
         == Sum(RowSum(Terms(f, img, x, y, ch), f.Side()), p) + Sum(Row(Terms(f, img, x, y, ch), p), q)
  }

  lemma NothingSummed(f: Filter, img: Image, x: int, y: int)
    requires f.Valid()
    ensures SummedTo(f, img, x, y, RGB(0.0, 0.0, 0.0), RGB(0.0, 0.0, 0.0), 0, 0)
  {
  }

  lemma NextSample(f: Filter, img: Image, x: int, y: int, normalization: RGB, res: RGB, p: nat, q: nat,
                   weight: RGB, color: RGB)
    requires f.Valid() && SummedTo(f, img, x, y, normalization, res, p, q)
    requires color == Sample(img, x, y, p - f.radius, q - f.radius)
    requires forall ch: Channel :: weight.Of(ch) == Weight(f, img, x, y, p - f.radius, q - f.radius, ch)
    ensures SummedTo(f, img, x, y, normalization.Plus(weight), res.Plus(color.Product(weight)), p, q + 1)
  {
    hide Weight, Sample, Times;
    forall ch: Channel
      ensures normalization.Plus(weight).Of(ch) == normalization.Of(ch) + weight.Of(ch)
      ensures res.Plus(color.Product(weight)).Of(ch) == res.Of(ch) + Times(color.Of(ch), weight.Of(ch))
    {
    }
  }

  lemma NextColumn(f: Filter, img: Image, x: int, y: int, normalization: RGB, res: RGB, p: nat)
    requires f.Valid() && SummedTo(f, img, x, y, normalization, res, p, f.Side())
    ensures SummedTo(f, img, x, y, normalization, res, p + 1, 0)
  {
  }

  // The sums at the end of the window.
  lemma WindowDone(f: Filter, img: Image, x: int, y: int, normalization: RGB, res: RGB)
    requires f.Valid() && SummedTo(f, img, x, y, normalization, res, f.Side(), 0)
    ensures normalization.R != 0.0 && normalization.G != 0.0 && normalization.B != 0.0
    ensures forall ch: Channel :: res.Over(normalization).Of(ch) == Mean(f, img, x, y, ch)
  {
    forall ch: Channel
      ensures normalization.Of(ch) == Total(f, img, x, y, ch) > 0.0
      ensures res.Of(ch) == WindowSum(Terms(f, img, x, y, ch), f.Side())
    {
      TotalPositive(f, img, x, y, ch);
    }
    hide SummedTo, Total, WindowSum;
    assert normalization.Of(Red) > 0.0 && normalization.Of(Green) > 0.0 && normalization.Of(Blue) > 0.0;
  }

  /** The body of the innermost loop. */
  method AddSample(data: array<RGB>, width: nat, height: nat, x: nat, y: nat, i: int, j: int, f: Filter,
                   ghost img: Image, normalization: RGB, res: RGB) returns (normalization': RGB, res': RGB)
    requires f.Valid() && img == Image(width, height, data[..]) && img.Valid()
    requires x < width && y < height && Fits(width, f.radius) && Fits(height, f.radius)
    requires 0 <= i + f.radius < f.Side() && 0 <= j + f.radius < f.Side()
    requires SummedTo(f, img, x, y, normalization, res, i + f.radius, j + f.radius)
    ensures SummedTo(f, img, x, y, normalization', res', i + f.radius, j + f.radius + 1)
  {
    hide SummedTo, Gaussian1d, Gaussian2d;
    MirrorInBounds(width, f.radius);
    MirrorInBounds(height, f.radius);
    CellInRange(y, x, height, width);
    var current := data[Cell(y, x, width)];
    var xSample, ySample := x + i, y + j;
    if xSample < 0 || xSample >= width {
      xSample := x - i;
    }
    if ySample < 0 || ySample >= height {
      ySample := y - j;
    }
    assert xSample == Mirror(x, i, width) && ySample == Mirror(y, j, height);
    CellInRange(ySample, xSample, height, width);
    var color := data[Cell(ySample, xSample, width)];
    assert color == Sample(img, x, y, i, j) && current == img.At(x, y);
    hide Sample, Image.At, Cell, Mirror, Times;
    var spatial := Gaussian2d(i as real, j as real, f.spatial, f.lib);
    var weight := RGB(Times(spatial, Gaussian1d(current.R - color.R, f.range, f.lib)),
                      Times(spatial, Gaussian1d(current.G - color.G, f.range, f.lib)),
                      Times(spatial, Gaussian1d(current.B - color.B, f.range, f.lib)));
    NextSample(f, img, x, y, normalization, res, i + f.radius, j + f.radius, weight, color);
    normalization' := normalization.Plus(weight);
    res' := res.Plus(color.Product(weight));
  }

  /** The inner loop over the window: one of its columns. */
  method AddColumn(data: array<RGB>, width: nat, height: nat, x: nat, y: nat, i: int, f: Filter,
                   ghost img: Image, normalization: RGB, res: RGB) returns (normalization': RGB, res': RGB)
    requires f.Valid() && img == Image(width, height, data[..]) && img.Valid()
    requires x < width && y < height && Fits(width, f.radius) && Fits(height, f.radius)
    requires 0 <= i + f.radius < f.Side()
    requires SummedTo(f, img, x, y, normalization, res, i + f.radius, 0)
    ensures SummedTo(f, img, x, y, normalization', res', i + f.radius + 1, 0)
  {
    var r: int := f.radius;
    assert f.Side() == 2 * r + 1;
    hide *;
    normalization', res' := normalization, res;
    for j := -r to r + 1
      invariant SummedTo(f, img, x, y, normalization', res', i + r, j + r)
    {
      normalization', res' := AddSample(data, width, height, x, y, i, j, f, img, normalization', res');
    }
    NextColumn(f, img, x, y, normalization', res', i + r);
  }

  /** The two loops over the window: one filtered pixel. */
  method FilterPixel(data: array<RGB>, width: nat, height: nat, x: nat, y: nat, f: Filter, ghost img: Image)
    returns (out: RGB)
    requires f.Valid() && img == Image(width, height, data[..]) && img.Valid()
    requires x < width && y < height && Fits(width, f.radius) && Fits(height, f.radius)
    ensures forall ch: Channel :: out.Of(ch) == Mean(f, img, x, y, ch)
  {
    var r: int := f.radius;
    var res, normalization := RGB(0.0, 0.0, 0.0), RGB(0.0, 0.0, 0.0);
    NothingSummed(f, img, x, y);
    assert f.Side() == 2 * r + 1;
    hide *;
    for i := -r to r + 1
      invariant SummedTo(f, img, x, y, normalization, res, i + r, 0)
    {
      normalization, res := AddColumn(data, width, height, x, y, i, f, img, normalization, res);
    }
    WindowDone(f, img, x, y, normalization, res);
    out := res.Over(normalization);
  }

  // Column x is done up to row y, and every column before it.
  ghost predicate DoneTo(f: Filter, img: Image, res: seq<RGB>, x: int, y: int)
    requires f.Valid() && |res| == |img.data| && img.Valid()
  {
    var after := Image(img.width, img.height, res);
    forall a, b, ch ::
      0 <= a < img.width && 0 <= b < img.height && (a < x || (a == x && b < y)) ==>
        after.At(a, b).Of(ch) == Mean(f, img, a, b, ch)
  }

  lemma WriteKeepsDone(f: Filter, img: Image, res: seq<RGB>, x: nat, y: nat, out: RGB)
    requires f.Valid() && |res| == |img.data| && img.Valid()
    requires x < img.width && y < img.height
    requires DoneTo(f, img, res, x, y)
    requires forall ch: Channel :: out.Of(ch) == Mean(f, img, x, y, ch)
    ensures Cell(y, x, img.width) < |res|
    ensures DoneTo(f, img, res[Cell(y, x, img.width) := out], x, y + 1)
  {
    CellInRange(y, x, img.height, img.width);
    var res' := res[Cell(y, x, img.width) := out];
    var before, after := Image(img.width, img.height, res), Image(img.width, img.height, res');
    hide Mean, DoneTo, Start;
    forall a: nat, b: nat | a < img.width && b < img.height
      ensures after.At(a, b) == if a == x && b == y then out else before.At(a, b)
    {
      CellInRange(b, a, img.height, img.width);
      CellDecodes(b, a, img.width);
      CellDecodes(y, x, img.width);
    }
    StillDone(f, img, res, res', x, y, out);
  }

  lemma StillDone(f: Filter, img: Image, res: seq<RGB>, res': seq<RGB>, x: nat, y: nat, out: RGB)
    requires f.Valid() && |res| == |res'| == |img.data| && img.Valid()
    requires DoneTo(f, img, res, x, y)
    requires forall ch: Channel :: out.Of(ch) == Mean(f, img, x, y, ch)
    requires forall a: nat, b: nat :: a < img.width && b < img.height ==>
               Image(img.width, img.height, res').At(a, b)
               == if a == x && b == y then out else Image(img.width, img.height, res).At(a, b)
    ensures DoneTo(f, img, res', x, y + 1)
  {
    hide Mean, Image.At, Cell;
  }

  /** CPUbilateralFiltering: the image is replaced by its filtered form. */
  method BilateralFilter(data: array<RGB>, width: nat, height: nat, f: Filter)
    requires f.Valid() && data.Length == Start(height, width)
    requires width > 0 && height > 0 ==> Fits(width, f.radius) && Fits(height, f.radius)
    modifies data
    ensures Filtered(f, Image(width, height, old(data[..])), Image(width, height, data[..]))
  {
    ghost var img := Image(width, height, data[..]);
    var count := Start(height, width);
    var res := new RGB[count](_ => RGB(0.0, 0.0, 0.0));
    hide Mean, Start, Cell, Fits, Image.At, DoneTo;
    assert DoneTo(f, img, res[..], 0, 0) by { NothingDone(f, img, res[..]); }
    for x := 0 to width
      invariant data[..] == img.data
      invariant DoneTo(f, img, res[..], x, 0)
    {
      for y := 0 to height
        invariant data[..] == img.data
        invariant DoneTo(f, img, res[..], x, y)
      {
        var out := FilterPixel(data, width, height, x, y, f, img);
        WriteKeepsDone(f, img, res[..], x, y, out);
        ghost var before := res[..];
        res[Cell(y, x, width)] := out;
        assert res[..] == before[Cell(y, x, width) := out];
      }
      ColumnDone(f, img, res[..], x);
    }
    AllDone(f, img, res[..]);
    hide *;
    CopyBack(data, res);
  }

  method CopyBack(data: array<RGB>, res: array<RGB>)
    requires data != res && data.Length == res.Length
    modifies data
    ensures data[..] == res[..]
  {
    for i := 0 to data.Length
      invariant forall k :: 0 <= k < i ==> data[k] == res[k]
    {
      data[i] := res[i];
    }
  }

  lemma NothingDone(f: Filter, img: Image, res: seq<RGB>)
    requires f.Valid() && |res| == |img.data| && img.Valid()
    ensures DoneTo(f, img, res, 0, 0)
  {
  }

  lemma ColumnDone(f: Filter, img: Image, res: seq<RGB>, x: nat)
    requires f.Valid() && |res| == |img.data| && img.Valid()
    requires DoneTo(f, img, res, x, img.height)
    ensures DoneTo(f, img, res, x + 1, 0)
  {
    hide Mean, Image.At;
  }

  lemma AllDone(f: Filter, img: Image, res: seq<RGB>)
    requires f.Valid() && |res| == |img.data| && img.Valid()
    requires DoneTo(f, img, res, img.width, 0)
    ensures Filtered(f, img, Image(img.width, img.height, res))
  {
    hide Mean, Image.At;
  }

  // ---------- the output stays between the extremes ----------

  lemma TimesBetween(lo: real, c: real, hi: real, w: real)
    requires lo <= c <= hi && w > 0.0
    ensures Times(lo, w) <= Times(c, w) <= Times(hi, w)
  {
  }

  lemma {:induction false} SumBetween(t: nat -> real, w: nat -> real, lo: real, hi: real, n: nat)
    requires forall p :: 0 <= p < n ==> Times(lo, w(p)) <= t(p) <= Times(hi, w(p))
    ensures Times(lo, Sum(w, n)) <= Sum(t, n) <= Times(hi, Sum(w, n))
  {
    if n == 0 {
      TimesAdds(lo, 0.0, 0.0);
      TimesAdds(hi, 0.0, 0.0);
    } else {
      SumBetween(t, w, lo, hi, n - 1);
      TimesAdds(lo, Sum(w, n - 1), w(n - 1));
      TimesAdds(hi, Sum(w, n - 1), w(n - 1));
    }
    hide Times;
  }

  lemma QuotientBetween(lo: real, hi: real, num: real, den: real)
    requires den > 0.0 && Times(lo, den) <= num <= Times(hi, den)
    ensures lo <= num / den <= hi
  {
    assert num == Times(num / den, den);
    if num / den < lo {
      TimesBelow(num / den, lo, den);
    } else if num / den > hi {
      TimesBelow(hi, num / den, den);
    }
  }

  lemma TimesBelow(x: real, y: real, w: real)
    requires x < y && w > 0.0
    ensures Times(x, w) < Times(y, w)
  {
  }

  ghost predicate ChannelWithin(img: Image, ch: Channel, lo: real, hi: real) {
    forall x, y :: 0 <= x < img.width && 0 <= y < img.height ==> lo <= img.At(x, y).Of(ch) <= hi
  }

  /** Each output channel lies between bounds of that channel over the input. */
  lemma MeanBetween(f: Filter, img: Image, x: int, y: int, ch: Channel, lo: real, hi: real)
    requires f.Valid() && Fits(img.width, f.radius) && Fits(img.height, f.radius)
    requires 0 <= x < img.width && 0 <= y < img.height
    requires ChannelWithin(img, ch, lo, hi)
    ensures lo <= Mean(f, img, x, y, ch) <= hi
  {
    var w, t, n := Weights(f, img, x, y, ch), Terms(f, img, x, y, ch), f.Side();
    MirrorInBounds(img.width, f.radius);
    MirrorInBounds(img.height, f.radius);
    forall p: nat, q: nat | p < n && q < n
      ensures Times(lo, w(p, q)) <= t(p, q) <= Times(hi, w(p, q))
    {
      var i, j := p - f.radius, q - f.radius;
      WeightPositive(f, img, x, y, i, j, ch);
      assert 0 <= Mirror(x, i, img.width) < img.width && 0 <= Mirror(y, j, img.height) < img.height;
      TimesBetween(lo, Sample(img, x, y, i, j).Of(ch), hi, w(p, q));
    }
    hide Times, Weights, Terms, Fits, ChannelWithin;
    forall p: nat | p < n
      ensures Times(lo, RowSum(w, n)(p)) <= RowSum(t, n)(p) <= Times(hi, RowSum(w, n)(p))
    {
      SumBetween(Row(t, p), Row(w, p), lo, hi, n);
    }
    SumBetween(RowSum(t, n), RowSum(w, n), lo, hi, n);
    TotalPositive(f, img, x, y, ch);
    QuotientBetween(lo, hi, Sum(RowSum(t, n), n), Sum(RowSum(w, n), n));
  }

  /** An image of one colour is a fixed point. */
  lemma ConstantImageIsFixed(f: Filter, before: Image, after: Image, color: RGB)
    requires f.Valid() && before.Valid() && Filtered(f, before, after)
    requires Fits(before.width, f.radius) && Fits(before.height, f.radius)
    requires forall k :: 0 <= k < |before.data| ==> before.data[k] == color
    ensures after == before
  {
    hide Mean, Fits;
    forall k | 0 <= k < |after.data| ensures after.data[k] == color {
      var w := before.width;
      CellEncodes(k, before.height, w);
      var x, y := ColumnOf(k, w), RowOf(k, w);
      forall a, b | 0 <= a < w && 0 <= b < before.height ensures before.At(a, b) == color {
        CellInRange(b, a, before.height, w);
      }
      forall ch: Channel ensures after.At(x, y).Of(ch) == color.Of(ch) {
        MeanBetween(f, before, x, y, ch, color.Of(ch), color.Of(ch));
      }
      assert after.At(x, y) == after.data[k];
      hide Image.At;
      assert after.data[k].Of(Red) == color.R && after.data[k].Of(Green) == color.G && after.data[k].Of(Blue) == color.B;
    }
  }

  // ---------- brightness and reflection ----------

  ghost predicate Brighter(a: Image, b: Image, ch: Channel, d: real) {
    && a.width == b.width && a.height == b.height
    && forall x, y :: 0 <= x < a.width && 0 <= y < a.height ==> b.At(x, y).Of(ch) == a.At(x, y).Of(ch) + d
  }

  /** Brightening a channel of the input by d brightens that channel of the output by d. */
  lemma BrightnessCarriesOver(f: Filter, a: Image, b: Image, x: int, y: int, ch: Channel, d: real)
    requires f.Valid() && Fits(a.width, f.radius) && Fits(a.height, f.radius)
    requires 0 <= x < a.width && 0 <= y < a.height && Brighter(a, b, ch, d)
    ensures Mean(f, b, x, y, ch) == Mean(f, a, x, y, ch) + d
  {
    var w, t, n := Weights(f, a, x, y, ch), Terms(f, a, x, y, ch), f.Side();
    var w', t' := Weights(f, b, x, y, ch), Terms(f, b, x, y, ch);
    MirrorInBounds(a.width, f.radius);
    MirrorInBounds(a.height, f.radius);
    forall p: nat, q: nat | p < n && q < n
      ensures w'(p, q) == w(p, q) && t'(p, q) == t(p, q) + Times(d, w(p, q))
    {
      BrighterSample(f, a, b, x, y, p - f.radius, q - f.radius, ch, d);
    }
    hide Times, Weights, Terms, Fits, Brighter;
    forall p: nat | p < n
      ensures RowSum(w', n)(p) == RowSum(w, n)(p)
      ensures RowSum(t', n)(p) == RowSum(t, n)(p) + Times(d, RowSum(w, n)(p))
    {
      SumAgree(Row(w', p), Row(w, p), n);
      SumLinear(Row(t', p), Row(t, p), d, Row(w, p), n);
    }
    SumAgree(RowSum(w', n), RowSum(w, n), n);
    SumLinear(RowSum(t', n), RowSum(t, n), d, RowSum(w, n), n);
    TotalPositive(f, a, x, y, ch);
    QuotientShifts(Sum(RowSum(t, n), n), d, Sum(RowSum(w, n), n));
  }

  lemma QuotientShifts(num: real, d: real, den: real)
    requires den > 0.0
    ensures (num + Times(d, den)) / den == num / den + d
  {
  }

  lemma BrighterSample(f: Filter, a: Image, b: Image, x: int, y: int, i: int, j: int, ch: Channel, d: real)
    requires f.Valid() && 0 <= x < a.width && 0 <= y < a.height && Brighter(a, b, ch, d)
    requires 0 <= Mirror(x, i, a.width) < a.width && 0 <= Mirror(y, j, a.height) < a.height
    ensures var w := Weight(f, a, x, y, i, j, ch);
            Weight(f, b, x, y, i, j, ch) == w &&
            Times(Sample(b, x, y, i, j).Of(ch), w) == Times(Sample(a, x, y, i, j).Of(ch), w) + Times(d, w)
  {
    hide Gaussian1d, Gaussian2d;
    var c, c' := Sample(a, x, y, i, j).Of(ch), Sample(b, x, y, i, j).Of(ch);
    assert c' == c + d;
    assert b.At(x, y).Of(ch) - c' == a.At(x, y).Of(ch) - c;
    TimesDistributes(c, d, Weight(f, a, x, y, i, j, ch));
  }

  lemma TimesDistributes(c: real, d: real, w: real)
    ensures Times(c + d, w) == Times(c, w) + Times(d, w)
  {
  }

  ghost predicate Reflected(a: Image, b: Image) {
    && a.width == b.width && a.height == b.height
    && forall x, y :: 0 <= x < a.width && 0 <= y < a.height ==> b.At(x, y) == a.At(a.width - 1 - x, y)
  }

  // The first k terms of h are the last k of g.
  lemma {:induction false} SumReversed(g: nat -> real, h: nat -> real, n: nat, k: nat)
    requires k <= n && forall p :: 0 <= p < n ==> h(p) == g(n - 1 - p)
    ensures Sum(h, k) == Sum(g, n) - Sum(g, n - k)
  {
    if k > 0 {
      SumReversed(g, h, n, k - 1);
      assert h(k - 1) == g(n - k);
    }
  }

  /** Filtering commutes with reflecting the image left to right. */
  lemma ReflectionCarriesOver(f: Filter, a: Image, b: Image, x: int, y: int, ch: Channel)
    requires f.Valid() && Fits(a.width, f.radius) && Fits(a.height, f.radius)
    requires 0 <= x < a.width && 0 <= y < a.height && Reflected(a, b)
    ensures Mean(f, b, x, y, ch) == Mean(f, a, a.width - 1 - x, y, ch)
  {
    var x', n := a.width - 1 - x, f.Side();
    var w, t := Weights(f, a, x', y, ch), Terms(f, a, x', y, ch);
    var w', t' := Weights(f, b, x, y, ch), Terms(f, b, x, y, ch);
    MirrorInBounds(a.width, f.radius);
    MirrorInBounds(a.height, f.radius);
    forall p: nat, q: nat | p < n && q < n
      ensures w'(p, q) == w(n - 1 - p, q) && t'(p, q) == t(n - 1 - p, q)
    {
      ReflectedSample(f, a, b, x, y, p - f.radius, q - f.radius, ch);
      assert n - 1 - p - f.radius == -(p - f.radius);
    }
    hide Weights, Terms, Fits, Reflected;
    forall p: nat | p < n
      ensures RowSum(w', n)(p) == RowSum(w, n)(n - 1 - p)
      ensures RowSum(t', n)(p) == RowSum(t, n)(n - 1 - p)
    {
      SumAgree(Row(w', p), Row(w, n - 1 - p), n);
      SumAgree(Row(t', p), Row(t, n - 1 - p), n);
    }
    SumReversed(RowSum(w, n), RowSum(w', n), n, n);
    SumReversed(RowSum(t, n), RowSum(t', n), n, n);
  }

  lemma ReflectedSample(f: Filter, a: Image, b: Image, x: int, y: int, i: int, j: int, ch: Channel)
    requires f.Valid() && 0 <= x < a.width && 0 <= y < a.height && Reflected(a, b)
    requires 0 <= Mirror(x, i, a.width) < a.width && 0 <= Mirror(y, j, a.height) < a.height
    ensures var x' := a.width - 1 - x;
            Sample(b, x, y, i, j) == Sample(a, x', y, -i, j) &&
            Weight(f, b, x, y, i, j, ch) == Weight(f, a, x', y, -i, j, ch)
  {
    var x' := a.width - 1 - x;
    assert Mirror(x', -i, a.width) == a.width - 1 - Mirror(x, i, a.width);
    assert Gaussian2d((-i) as real, j as real, f.spatial, f.lib) == Gaussian2d(i as real, j as real, f.spatial, f.lib) by {
      assert Square((-i) as real) == Square(i as real) by {
        SquareOfNegation(i as real);
        assert (-i) as real == -(i as real);
      }
    }
    hide Gaussian1d, Gaussian2d;
  }

  lemma SquareOfNegation(x: real)
    ensures Square(-x) == Square(x)
  {
  }
}
