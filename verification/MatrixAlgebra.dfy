/** 4x4 matrices, and what row operations on the augmented matrix [m | 1] keep. */
module MatrixAlgebra {

  type Vec = v: seq<real> | |v| == 4 witness [0.0, 0.0, 0.0, 0.0]

  // One row of the augmented matrix: left half, then right half.
  type Row8 = r: seq<real> | |r| == 8 witness [0.0, 0.0, 0.0, 0.0, 0.0, 0.0, 0.0, 0.0]

  type Rows = s: seq<seq<real>> | |s| == 4 && forall i :: 0 <= i < 4 ==> |s[i]| == 8
    witness seq(4, i => [0.0, 0.0, 0.0, 0.0, 0.0, 0.0, 0.0, 0.0])

  /** matrix4: sixteen cells, column after column. */
  type Cells = c: seq<real> | |c| == 16 witness seq(16, i => 0.0)

  // The cell of (row, col); the C++ code writes row | (col << 2).
  function Index(row: nat, col: nat): nat
    requires row < 4 && col < 4
  {
    row + 4 * col
  }

  function Element(m: Cells, row: nat, col: nat): real
    requires row < 4 && col < 4
  {
    m[Index(row, col)]
  }

  function RowOf(m: Cells, i: nat): Vec
    requires i < 4
  {
    [Element(m, i, 0), Element(m, i, 1), Element(m, i, 2), Element(m, i, 3)]
  }

  function ColumnOf(m: Cells, j: nat): Vec
    requires j < 4
  {
    [Element(m, 0, j), Element(m, 1, j), Element(m, 2, j), Element(m, 3, j)]
  }

  // ---------- products, with multiplication kept out of the way ----------

  function Mul(x: real, y: real): real { x * y }

  lemma MulDistributes(x: real, k: real, y: real, z: real)
    ensures Mul(x + Mul(k, y), z) == Mul(x, z) + Mul(k, Mul(y, z))
    ensures Mul(z, x + Mul(k, y)) == Mul(z, x) + Mul(k, Mul(z, y))
    ensures Mul(x - Mul(k, y), z) == Mul(x, z) - Mul(k, Mul(y, z))
    ensures Mul(z, x - Mul(k, y)) == Mul(z, x) - Mul(k, Mul(z, y))
  {
  }

  lemma MulZero(x: real)
    ensures Mul(x, 0.0) == 0.0 && Mul(0.0, x) == 0.0 && Mul(1.0, x) == x && Mul(x, 1.0) == x
  {
  }

  lemma MulCommutes(x: real, y: real)
    ensures Mul(x, y) == Mul(y, x)
  {
  }

  lemma MulDivides(x: real, d: real, y: real)
    requires d != 0.0
    ensures Mul(x / d, y) == Mul(x, y) / d && Mul(Mul(y, d), x / d) == Mul(y, x) && Mul(d, x / d) == x
  {
    assert Mul(d, x / d) == x;
  }

  function Products(a: Vec, b: Vec): Vec {
    [Mul(a[0], b[0]), Mul(a[1], b[1]), Mul(a[2], b[2]), Mul(a[3], b[3])]
  }

  function Sum(p: Vec): real { p[0] + p[1] + p[2] + p[3] }

  function Dot(a: Vec, b: Vec): real { Sum(Products(a, b)) }

  function Delta(i: int, j: int): real { if i == j then 1.0 else 0.0 }

  ghost predicate IsIdentity(p: Cells) {
    forall i, j :: 0 <= i < 4 && 0 <= j < 4 ==> Element(p, i, j) == Delta(i, j)
  }

  /** p is the matrix product a * b. */
  ghost predicate IsProduct(p: Cells, a: Cells, b: Cells) {
    forall i, j :: 0 <= i < 4 && 0 <= j < 4 ==> Element(p, i, j) == Dot(RowOf(a, i), ColumnOf(b, j))
  }

  /** a * b is the identity. */
  ghost predicate Undoes(a: Cells, b: Cells) {
    forall i, j :: 0 <= i < 4 && 0 <= j < 4 ==> Dot(RowOf(a, i), ColumnOf(b, j)) == Delta(i, j)
  }

  ghost predicate Invertible(m: Cells) {
    exists n: Cells :: Undoes(n, m) && Undoes(m, n)
  }

  // ---------- linearity ----------

  const ZERO: Vec := [0.0, 0.0, 0.0, 0.0]

  function Plus(a: Vec, k: real, b: Vec): Vec {
    [a[0] + Mul(k, b[0]), a[1] + Mul(k, b[1]), a[2] + Mul(k, b[2]), a[3] + Mul(k, b[3])]
  }

  function Minus(a: Vec, k: real, b: Vec): Vec {
    [a[0] - Mul(k, b[0]), a[1] - Mul(k, b[1]), a[2] - Mul(k, b[2]), a[3] - Mul(k, b[3])]
  }

  function Scaled(a: Vec, d: real): Vec
    requires d != 0.0
  {
    [a[0] / d, a[1] / d, a[2] / d, a[3] / d]
  }

  lemma MulOverSum(k: real, a: real, b: real, c: real, d: real)
    ensures Mul(k, a + b + c + d) == Mul(k, a) + Mul(k, b) + Mul(k, c) + Mul(k, d)
  {
  }

  lemma DotMinus(a: Vec, k: real, b: Vec, x: Vec)
    ensures Dot(Minus(a, k, b), x) == Dot(a, x) - Mul(k, Dot(b, x))
  {
    MulOverSum(k, Mul(b[0], x[0]), Mul(b[1], x[1]), Mul(b[2], x[2]), Mul(b[3], x[3]));
    forall i | 0 <= i < 4 { MulDistributes(a[i], k, b[i], x[i]); }
    hide Mul;
  }

  lemma DotPlus(x: Vec, a: Vec, k: real, b: Vec)
    ensures Dot(x, Plus(a, k, b)) == Dot(x, a) + Mul(k, Dot(x, b))
  {
    MulOverSum(k, Mul(x[0], b[0]), Mul(x[1], b[1]), Mul(x[2], b[2]), Mul(x[3], b[3]));
    forall i | 0 <= i < 4 { MulDistributes(a[i], k, b[i], x[i]); }
    hide Mul;
  }

  lemma DotScaled(a: Vec, d: real, x: Vec)
    requires d != 0.0
    ensures Dot(Scaled(a, d), x) == Dot(a, x) / d
  {
    forall i | 0 <= i < 4 { MulDivides(a[i], d, x[i]); }
    hide Mul;
    SumOfQuotients(Products(a, x), d);
  }

  lemma SumOfQuotients(p: Vec, d: real)
    requires d != 0.0
    ensures p[0] / d + p[1] / d + p[2] / d + p[3] / d == Sum(p) / d
  {
  }

  lemma DotZero(a: Vec)
    ensures Dot(a, ZERO) == 0.0 && Dot(ZERO, a) == 0.0
  {
    forall i | 0 <= i < 4 { MulZero(a[i]); }
    hide Mul;
  }

  // Sums that differ at two indices only, by the same total.
  lemma SumOfTwo(p: Vec, q: Vec, i: nat, j: nat)
    requires i < 4 && j < 4 && i != j
    requires (forall k :: 0 <= k < 4 && k != i && k != j ==> p[k] == q[k]) && p[i] + p[j] == q[i] + q[j]
    ensures Sum(p) == Sum(q)
  {
  }

  lemma ProductsAt(a: Vec, b: Vec)
    ensures forall k :: 0 <= k < 4 ==> Products(a, b)[k] == Mul(a[k], b[k])
  {
    hide Mul;
  }

  /** The combination that undoes row j -= c * row i. */
  lemma DotRowOperation(t: Vec, x: Vec, i: nat, j: nat, c: real)
    requires i < 4 && j < 4 && i != j
    ensures Dot(t[i := t[i] + Mul(c, t[j])], x[j := x[j] - Mul(c, x[i])]) == Dot(t, x)
  {
    var t', x' := t[i := t[i] + Mul(c, t[j])], x[j := x[j] - Mul(c, x[i])];
    MulDistributes(t[i], c, t[j], x[i]);
    MulDistributes(x[j], c, x[i], t[j]);
    hide Mul;
    ProductsAt(t', x');
    ProductsAt(t, x);
    hide Products;
    SumOfTwo(Products(t', x'), Products(t, x), i, j);
  }

  lemma DotSwap(t: Vec, x: Vec, i: nat, j: nat)
    requires i < 4 && j < 4
    ensures Dot(t[i := t[j]][j := t[i]], x[i := x[j]][j := x[i]]) == Dot(t, x)
  {
    var t', x' := t[i := t[j]][j := t[i]], x[i := x[j]][j := x[i]];
    hide Mul;
    ProductsAt(t', x');
    ProductsAt(t, x);
    if i == j {
      assert t' == t && x' == x;
    } else {
      hide Products;
      SumOfTwo(Products(t', x'), Products(t, x), i, j);
    }
  }

  /** The combination of four columns with weights v. */
  function Combined(c0: Vec, c1: Vec, c2: Vec, c3: Vec, v: Vec): Vec {
    Plus(Plus(Plus(Plus(ZERO, v[0], c0), v[1], c1), v[2], c2), v[3], c3)
  }

  lemma DotCombined(a: Vec, c0: Vec, c1: Vec, c2: Vec, c3: Vec, v: Vec)
    ensures Dot(a, Combined(c0, c1, c2, c3, v)) ==
            Mul(v[0], Dot(a, c0)) + Mul(v[1], Dot(a, c1)) + Mul(v[2], Dot(a, c2)) + Mul(v[3], Dot(a, c3))
  {
    hide Mul;
    var b1 := Plus(ZERO, v[0], c0);
    var b2 := Plus(b1, v[1], c1);
    var b3 := Plus(b2, v[2], c2);
    DotPlus(a, ZERO, v[0], c0);
    DotPlus(a, b1, v[1], c1);
    DotPlus(a, b2, v[2], c2);
    DotPlus(a, b3, v[3], c3);
    DotZero(a);
    hide Dot, Plus;
  }

  // ---------- the augmented matrix ----------

  function Left(r: Row8): Vec { [r[0], r[1], r[2], r[3]] }

  function Right(r: Row8): Vec { [r[4], r[5], r[6], r[7]] }

  function Col(s: Rows, c: nat): Vec
    requires c < 8
  {
    [s[0][c], s[1][c], s[2][c], s[3][c]]
  }

  // Entry (r, c) of [m | 1].
  function Augmented(m: Cells, r: nat, c: nat): real
    requires r < 4 && c < 8
  {
    if c < 4 then Element(m, r, c) else Delta(r, c - 4)
  }

  /** Left half = right half times m. */
  ghost predicate RowAgrees(r: Row8, m: Cells) {
    forall c :: 0 <= c < 4 ==> r[c] == Dot(Right(r), ColumnOf(m, c))
  }

  /** Some combination of the rows gives [m | 1] back. */
  ghost predicate GivesBack(t: seq<Vec>, s: Rows, m: Cells) {
    |t| == 4 && forall r, c :: 0 <= r < 4 && 0 <= c < 8 ==> Dot(t[r], Col(s, c)) == Augmented(m, r, c)
  }

  ghost predicate Good(s: Rows, m: Cells) {
    (forall i :: 0 <= i < 4 ==> RowAgrees(s[i], m)) && exists t :: GivesBack(t, s, m)
  }

  function Unit(r: nat): Vec { [Delta(r, 0), Delta(r, 1), Delta(r, 2), Delta(r, 3)] }

  lemma DotUnit(r: nat, x: Vec)
    requires r < 4
    ensures Dot(Unit(r), x) == x[r]
  {
    forall i | 0 <= i < 4 { MulZero(x[i]); }
    hide Mul;
  }

  ghost predicate IsStart(s: Rows, m: Cells) {
    forall i, c :: 0 <= i < 4 && 0 <= c < 8 ==> s[i][c] == Augmented(m, i, c)
  }

  lemma StartIsGood(s: Rows, m: Cells)
    requires IsStart(s, m)
    ensures Good(s, m)
  {
    var t: seq<Vec> := seq(4, r requires 0 <= r < 4 => Unit(r));
    forall r, c | 0 <= r < 4 && 0 <= c < 8 ensures Dot(t[r], Col(s, c)) == Augmented(m, r, c) {
      DotUnit(r, Col(s, c));
    }
    assert GivesBack(t, s, m);
    forall i, c | 0 <= i < 4 && 0 <= c < 4 ensures s[i][c] == Dot(Right(s[i]), ColumnOf(m, c)) {
      assert Right(s[i]) == Unit(i);
      DotUnit(i, ColumnOf(m, c));
    }
    hide GivesBack, Dot;
  }

  /** row j -= c * row i. */
  function Subtracted(s: Rows, j: nat, c: real, i: nat): Rows
    requires i < 4 && j < 4
  {
    s[j := seq(8, k requires 0 <= k < 8 => s[j][k] - Mul(c, s[i][k]))]
  }

  lemma SubtractedRowAgrees(s: Rows, m: Cells, j: nat, c: real, i: nat)
    requires i < 4 && j < 4 && RowAgrees(s[i], m) && RowAgrees(s[j], m)
    ensures RowAgrees(Subtracted(s, j, c, i)[j], m)
  {
    hide Mul;
    var row := Subtracted(s, j, c, i)[j];
    assert Right(row) == Minus(Right(s[j]), c, Right(s[i]));
    forall k | 0 <= k < 4 ensures row[k] == Dot(Right(row), ColumnOf(m, k)) {
      DotMinus(Right(s[j]), c, Right(s[i]), ColumnOf(m, k));
      hide Dot, Minus, Right;
    }
  }

  lemma SubtractedGivesBack(t: seq<Vec>, s: Rows, m: Cells, j: nat, c: real, i: nat)
    requires GivesBack(t, s, m) && i < 4 && j < 4 && i != j
    ensures exists t' :: GivesBack(t', Subtracted(s, j, c, i), m)
  {
    hide Mul;
    var s' := Subtracted(s, j, c, i);
    var t': seq<Vec> := seq(4, r requires 0 <= r < 4 => t[r][i := t[r][i] + Mul(c, t[r][j])]);
    forall r, k | 0 <= r < 4 && 0 <= k < 8 ensures Dot(t'[r], Col(s', k)) == Augmented(m, r, k) {
      var x := Col(s, k);
      assert s'[j][k] == s[j][k] - Mul(c, s[i][k]);
      assert x[i] == s[i][k] && x[j] == s[j][k];
      assert Col(s', k) == x[j := x[j] - Mul(c, x[i])];
      DotRowOperation(t[r], x, i, j, c);
      hide Dot, Col;
      assert Dot(t[r], x) == Augmented(m, r, k);
    }
    hide Dot;
    assert GivesBack(t', s', m);
  }

  lemma SubtractedIsGood(s: Rows, m: Cells, j: nat, c: real, i: nat)
    requires Good(s, m) && i < 4 && j < 4 && i != j
    ensures Good(Subtracted(s, j, c, i), m)
  {
    var t :| GivesBack(t, s, m);
    hide GivesBack, RowAgrees;
    SubtractedRowAgrees(s, m, j, c, i);
    SubtractedGivesBack(t, s, m, j, c, i);
  }

  function Swapped(s: Rows, i: nat, j: nat): Rows
    requires i < 4 && j < 4
  {
    s[i := s[j]][j := s[i]]
  }

  lemma SwappedIsGood(s: Rows, m: Cells, i: nat, j: nat)
    requires Good(s, m) && i < 4 && j < 4
    ensures Good(Swapped(s, i, j), m)
  {
    hide RowAgrees, Mul;
    var s' := Swapped(s, i, j);
    var t :| GivesBack(t, s, m);
    var t': seq<Vec> := seq(4, r requires 0 <= r < 4 => t[r][i := t[r][j]][j := t[r][i]]);
    forall r, k | 0 <= r < 4 && 0 <= k < 8 ensures Dot(t'[r], Col(s', k)) == Augmented(m, r, k) {
      var x := Col(s, k);
      assert Col(s', k) == x[i := x[j]][j := x[i]];
      DotSwap(t[r], x, i, j);
      hide Dot, Col;
      assert Dot(t[r], x) == Augmented(m, r, k);
    }
    hide Dot;
    assert GivesBack(t', s', m);
  }

  // ---------- singular matrices ----------

  /** m * v. */
  function Image(m: Cells, v: Vec): Vec {
    [Dot(RowOf(m, 0), v), Dot(RowOf(m, 1), v), Dot(RowOf(m, 2), v), Dot(RowOf(m, 3), v)]
  }

  lemma ImageIsCombined(m: Cells, v: Vec)
    ensures Image(m, v) == Combined(ColumnOf(m, 0), ColumnOf(m, 1), ColumnOf(m, 2), ColumnOf(m, 3), v)
  {
    forall r, c | 0 <= r < 4 && 0 <= c < 4 ensures Mul(v[c], Element(m, r, c)) == Mul(Element(m, r, c), v[c]) {
      MulCommutes(v[c], Element(m, r, c));
    }
    hide Mul, Element;
  }

  /** A left inverse brings v back from its image. */
  lemma LeftInverseRecovers(n: Cells, m: Cells, v: Vec, r: nat)
    requires Undoes(n, m) && r < 4
    ensures Dot(RowOf(n, r), Image(m, v)) == v[r]
  {
    ImageIsCombined(m, v);
    DotCombined(RowOf(n, r), ColumnOf(m, 0), ColumnOf(m, 1), ColumnOf(m, 2), ColumnOf(m, 3), v);
    assert forall c :: 0 <= c < 4 ==> Dot(RowOf(n, r), ColumnOf(m, c)) == Delta(r, c);
    forall c | 0 <= c < 4 { MulZero(v[c]); }
    hide Mul, Dot, Combined, Image, RowOf, ColumnOf;
  }

  /** A matrix that sends a nonzero vector to zero is not invertible. */
  lemma KernelMeansSingular(m: Cells, v: Vec)
    requires Image(m, v) == ZERO && v != ZERO
    ensures !Invertible(m)
  {
    hide Mul, Dot, Image;
    if Invertible(m) {
      var n: Cells :| Undoes(n, m) && Undoes(m, n);
      var r :| 0 <= r < 4 && v[r] != 0.0;
      DotZero(RowOf(n, r));
      LeftInverseRecovers(n, m, v, r);
    }
  }

  lemma ZeroRowMeansSingular(m: Cells, i: nat)
    requires i < 4 && RowOf(m, i) == ZERO
    ensures !Invertible(m)
  {
    hide Mul, Dot, RowOf, ColumnOf;
    if Invertible(m) {
      var n: Cells :| Undoes(n, m) && Undoes(m, n);
      DotZero(ColumnOf(n, i));
    }
  }

  lemma ColumnsCombine(s: Rows, v: Vec)
    ensures Combined(Col(s, 0), Col(s, 1), Col(s, 2), Col(s, 3), v) ==
            [Dot(Left(s[0]), v), Dot(Left(s[1]), v), Dot(Left(s[2]), v), Dot(Left(s[3]), v)]
  {
    forall r, c | 0 <= r < 4 && 0 <= c < 4 ensures Mul(v[c], s[r][c]) == Mul(s[r][c], v[c]) {
      MulCommutes(v[c], s[r][c]);
    }
    hide Mul;
  }

  /** If the left halves all send v to zero, so does m: row operations keep the kernel. */
  lemma LeftKernel(s: Rows, m: Cells, v: Vec)
    requires Good(s, m) && forall i :: 0 <= i < 4 ==> Dot(Left(s[i]), v) == 0.0
    ensures Image(m, v) == ZERO
  {
    hide Mul;
    var t :| GivesBack(t, s, m);
    ColumnsCombine(s, v);
    forall r | 0 <= r < 4 ensures Dot(RowOf(m, r), v) == 0.0 {
      LeftKernelRow(t, s, m, v, r);
    }
  }

  lemma LeftKernelRow(t: seq<Vec>, s: Rows, m: Cells, v: Vec, r: nat)
    requires GivesBack(t, s, m) && r < 4
    requires Combined(Col(s, 0), Col(s, 1), Col(s, 2), Col(s, 3), v) == ZERO
    ensures Dot(RowOf(m, r), v) == 0.0
  {
    var a := t[r];
    DotCombined(a, Col(s, 0), Col(s, 1), Col(s, 2), Col(s, 3), v);
    DotZero(a);
    forall c | 0 <= c < 4 ensures Dot(a, Col(s, c)) == Element(m, r, c) {
      assert Dot(a, Col(s, c)) == Augmented(m, r, c);
    }
    forall c | 0 <= c < 4 { MulCommutes(v[c], Element(m, r, c)); }
    hide Mul, Col, Combined, GivesBack;
  }

  /** Columns left of i are cleared below the diagonal, and their pivots are not zero. */
  ghost predicate Triangular(s: Rows, i: nat) {
    (forall r, c :: 0 <= c < r < 4 && c < i ==> s[r][c] == 0.0) &&
    forall k :: 0 <= k < i && k < 4 ==> s[k][k] != 0.0
  }

  // Back substitution for the vector with 1 at i and 0 beyond, against rows 0 .. i-1.
  ghost function NullVector(s: Rows, i: nat): Vec
    requires i < 4 && Triangular(s, i)
  {
    var v3 := if i == 3 then 1.0 else 0.0;
    var v2 := if i == 2 then 1.0 else if i < 2 then 0.0 else -Mul(s[2][3], v3) / s[2][2];
    var v1 := if i == 1 then 1.0 else if i < 1 then 0.0 else -(Mul(s[1][2], v2) + Mul(s[1][3], v3)) / s[1][1];
    var v0 := if i == 0 then 1.0 else -(Mul(s[0][1], v1) + Mul(s[0][2], v2) + Mul(s[0][3], v3)) / s[0][0];
    [v0, v1, v2, v3]
  }

  lemma Cancels(d: real, x: real)
    requires d != 0.0
    ensures Mul(d, -x / d) == -x
  {
    MulDivides(-x, d, 1.0);
  }

  lemma NullVectorWorks(s: Rows, i: nat)
    requires i < 4 && Triangular(s, i) && forall r :: i <= r < 4 ==> s[r][i] == 0.0
    ensures forall r :: 0 <= r < 4 ==> Dot(Left(s[r]), NullVector(s, i)) == 0.0
    ensures NullVector(s, i)[i] == 1.0
  {
    var v := NullVector(s, i);
    if i > 0 {
      Cancels(s[0][0], Mul(s[0][1], v[1]) + Mul(s[0][2], v[2]) + Mul(s[0][3], v[3]));
    }
    if i > 1 {
      Cancels(s[1][1], Mul(s[1][2], v[2]) + Mul(s[1][3], v[3]));
    }
    if i > 2 {
      Cancels(s[2][2], Mul(s[2][3], v[3]));
    }
    forall x: real ensures Mul(x, 0.0) == 0.0 && Mul(0.0, x) == 0.0 && Mul(x, 1.0) == x { MulZero(x); }
    hide Mul;
  }

  /** A column with nothing left to pivot on means m is singular. */
  lemma NoPivotMeansSingular(s: Rows, m: Cells, i: nat)
    requires Good(s, m) && i < 4 && Triangular(s, i) && forall r :: i <= r < 4 ==> s[r][i] == 0.0
    ensures !Invertible(m)
  {
    NullVectorWorks(s, i);
    hide *;
    LeftKernel(s, m, NullVector(s, i));
    KernelMeansSingular(m, NullVector(s, i));
  }

  // ---------- reading off the inverse ----------

  ghost predicate Diagonal(s: Rows) {
    forall r, c :: 0 <= r < 4 && 0 <= c < 4 ==> (s[r][c] != 0.0 <==> r == c)
  }

  /** The final division of each right half by its pivot. */
  ghost predicate ReadOff(minv: Cells, s: Rows)
    requires Diagonal(s)
  {
    forall i, j :: 0 <= i < 4 && 0 <= j < 4 ==> Element(minv, i, j) == s[i][j + 4] / s[i][i]
  }

  lemma ReadOffUndoes(minv: Cells, s: Rows, m: Cells)
    requires Good(s, m) && Diagonal(s) && ReadOff(minv, s)
    ensures Undoes(minv, m)
  {
    hide Mul;
    forall i, j | 0 <= i < 4 && 0 <= j < 4 ensures Dot(RowOf(minv, i), ColumnOf(m, j)) == Delta(i, j) {
      assert RowOf(minv, i) == Scaled(Right(s[i]), s[i][i]);
      DotScaled(Right(s[i]), s[i][i], ColumnOf(m, j));
      hide Dot, RowOf, ColumnOf, Scaled, Right;
      assert RowAgrees(s[i], m);
      QuotientIsDelta(s[i][j], s[i][i], i, j);
    }
  }

  lemma QuotientIsDelta(x: real, d: real, i: int, j: int)
    requires d != 0.0 && (if i == j then x == d else x == 0.0)
    ensures x / d == Delta(i, j)
  {
  }

  lemma DiagonalDot(t: Vec, s: Rows, c: nat)
    requires Diagonal(s) && c < 4
    ensures Dot(t, Col(s, c)) == Mul(t[c], s[c][c])
  {
    forall k | 0 <= k < 4 ensures Mul(t[k], 0.0) == 0.0 { MulZero(t[k]); }
    hide Mul;
    ProductsAt(t, Col(s, c));
    hide Products;
  }

  lemma ReadOffIsUndone(minv: Cells, s: Rows, m: Cells)
    requires Good(s, m) && Diagonal(s) && ReadOff(minv, s)
    ensures Undoes(m, minv)
  {
    var t :| GivesBack(t, s, m);
    forall r, j | 0 <= r < 4 && 0 <= j < 4 ensures Dot(RowOf(m, r), ColumnOf(minv, j)) == Delta(r, j) {
      ReadOffProducts(t, minv, s, m, r, j);
      assert Dot(t[r], Col(s, j + 4)) == Augmented(m, r, j + 4);
      hide Products, Mul;
    }
  }

  lemma ReadOffProducts(t: seq<Vec>, minv: Cells, s: Rows, m: Cells, r: nat, j: nat)
    requires GivesBack(t, s, m) && Diagonal(s) && ReadOff(minv, s) && r < 4 && j < 4
    ensures Products(RowOf(m, r), ColumnOf(minv, j)) == Products(t[r], Col(s, j + 4))
  {
    hide Mul;
    forall c | 0 <= c < 4 ensures Mul(Element(m, r, c), Element(minv, c, j)) == Mul(t[r][c], s[c][j + 4]) {
      assert Dot(t[r], Col(s, c)) == Augmented(m, r, c);
      DiagonalDot(t[r], s, c);
      MulDivides(s[c][j + 4], s[c][c], t[r][c]);
      hide Dot;
    }
    hide GivesBack, ReadOff, Diagonal;
  }

  // ---------- in the sixteen cells ----------

  /** Row i of a times column j of b, in the cells: a row has every fourth cell, a column four
      cells in a row. */
  function CellProduct(a: Cells, b: Cells, i: nat, j: nat): real
    requires i < 4 && j < 4
  {
    a[i] * b[4 * j] + a[i + 4] * b[4 * j + 1] + a[i + 8] * b[4 * j + 2] + a[i + 12] * b[4 * j + 3]
  }

  lemma DotInCells(a: Cells, b: Cells, i: nat, j: nat)
    requires i < 4 && j < 4
    ensures Dot(RowOf(a, i), ColumnOf(b, j)) == CellProduct(a, b, i, j)
  {
    var p := Products(RowOf(a, i), ColumnOf(b, j));
    assert p[0] == a[i] * b[4 * j] && p[1] == a[i + 4] * b[4 * j + 1];
    assert p[2] == a[i + 8] * b[4 * j + 2] && p[3] == a[i + 12] * b[4 * j + 3];
  }

  lemma ProductInCells(r: Cells, a: Cells, b: Cells)
    requires IsProduct(r, a, b)
    ensures forall k :: 0 <= k < 16 ==> r[k] == CellProduct(a, b, k % 4, k / 4)
  {
    forall k | 0 <= k < 16 ensures r[k] == CellProduct(a, b, k % 4, k / 4) {
      DotInCells(a, b, k % 4, k / 4);
      assert Index(k % 4, k / 4) == k;
      hide Dot, CellProduct, RowOf, ColumnOf;
    }
  }

  lemma UndoesInCells(a: Cells, b: Cells)
    requires Undoes(a, b)
    ensures forall k :: 0 <= k < 16 ==> CellProduct(a, b, k % 4, k / 4) == if k % 5 == 0 then 1.0 else 0.0
  {
    forall k | 0 <= k < 16 ensures CellProduct(a, b, k % 4, k / 4) == if k % 5 == 0 then 1.0 else 0.0 {
      DotInCells(a, b, k % 4, k / 4);
      assert k % 5 == 0 <==> k % 4 == k / 4;
      hide CellProduct, Dot, RowOf, ColumnOf;
    }
  }
}
