/** inverse: Gauss-Jordan elimination with scaled partial pivoting on the augmented
    matrix, by loops over four rows of eight cells that are swapped through their
    pointers. Reals stand for the floating-point cells. */
module MatrixInverse {
  import opened MatrixAlgebra

  /** How the function ends. In floating point a zero divisor gives infinities; here it
      is an ending of its own. */
  datatype Ending = Finished | ZeroRow | ZeroLastPivot | DividedByZero

  /** The four row pointers: different arrays of eight cells. */
  ghost predicate Pointers(s: seq<array<real>>) {
    |s| == 4 && (forall i :: 0 <= i < 4 ==> s[i].Length == 8) &&
    forall i, j :: 0 <= i < j < 4 ==> s[i] != s[j]
  }

  ghost function View(s: seq<array<real>>): Rows
    requires Pointers(s)
    reads s
  {
    [s[0][..], s[1][..], s[2][..], s[3][..]]
  }

  function Abs(x: real): real { if x < 0.0 then -x else x }

  /** s = [m | 1] */
  method Load(m: Cells) returns (s: seq<array<real>>)
    ensures Pointers(s) && fresh(s) && Good(View(s), m)
    ensures forall i :: 0 <= i < 4 ==> Left(View(s)[i]) == RowOf(m, i)
  {
    var r1, r2, r3, r4 := new real[8], new real[8], new real[8], new real[8];
    s := [r1, r2, r3, r4];
    for i := 0 to 4
      invariant forall k, c :: 0 <= k < i && 0 <= c < 8 ==> s[k][c] == Augmented(m, k, c)
    {
      for j := 0 to 4
        invariant forall k, c :: 0 <= k < i && 0 <= c < 8 ==> s[k][c] == Augmented(m, k, c)
        invariant forall c :: 0 <= c < j ==> s[i][c] == Augmented(m, i, c)
        invariant forall c :: 4 <= c < j + 4 ==> s[i][c] == Augmented(m, i, c)
      {
        s[i][j] := Element(m, i, j);
        s[i][j + 4] := if i == j then 1.0 else 0.0;
      }
    }
    hide Good, RowAgrees, GivesBack;
    StartIsGood(View(s), m);
  }

  /** The largest absolute value in a left half. */
  ghost predicate IsScale(row: seq<real>, scale: real)
    requires |row| == 8
  {
    (forall c :: 0 <= c < 4 ==> -scale <= row[c] <= scale) && exists c :: 0 <= c < 4 && (row[c] == scale || row[c] == -scale)
  }

  /** The scale of one row. */
  method RowScale(row: array<real>) returns (scale: real)
    requires row.Length == 8
    ensures forall c :: 0 <= c < 4 ==> Abs(row[c]) <= scale
    ensures exists c :: 0 <= c < 4 && scale == Abs(row[c])
    ensures IsScale(row[..], scale)
  {
    scale := Abs(row[0]);
    for j := 1 to 4
      invariant forall c :: 0 <= c < j ==> Abs(row[c]) <= scale
      invariant exists c :: 0 <= c < j && scale == Abs(row[c])
    {
      if Abs(row[j]) > scale {
        scale := Abs(row[j]);
      }
    }
  }

  /** The scale of every row; stops at a row that is all zero. */
  method RowScales(s: seq<array<real>>) returns (scp: array<real>, zeroRow: int)
    requires Pointers(s)
    ensures fresh(scp) && scp.Length == 4 && -1 <= zeroRow < 4
    ensures zeroRow >= 0 ==> Left(View(s)[zeroRow]) == ZERO
    ensures zeroRow < 0 ==> forall i :: 0 <= i < 4 ==> scp[i] > 0.0
    ensures zeroRow < 0 ==> forall i, j :: 0 <= i < 4 && 0 <= j < 4 ==> Abs(s[i][j]) <= scp[i]
    ensures zeroRow < 0 ==> forall i :: 0 <= i < 4 ==> IsScale(View(s)[i], scp[i])
  {
    hide IsScale;
    scp := new real[4];
    for i := 0 to 4
      invariant forall k :: 0 <= k < i ==> scp[k] > 0.0
      invariant forall k, j :: 0 <= k < i && 0 <= j < 4 ==> Abs(s[k][j]) <= scp[k]
      invariant forall k :: 0 <= k < i ==> IsScale(View(s)[k], scp[k])
    {
      scp[i] := RowScale(s[i]);
      if scp[i] == 0.0 {
        return scp, i;
      }
    }
    zeroRow := -1;
  }

  function Ratio(x: real, scale: real): real
    requires scale != 0.0
  {
    Abs(x / scale)
  }

  /** The first row from i on whose entry in column i is largest relative to its scale. */
  method SelectPivot(s: seq<array<real>>, scp: array<real>, i: nat) returns (pivot: nat)
    requires Pointers(s) && scp.Length == 4 && i < 4 && forall k :: 0 <= k < 4 ==> scp[k] > 0.0
    ensures i <= pivot < 4
    ensures forall r :: i <= r < 4 ==> Ratio(s[r][i], scp[r]) <= Ratio(s[pivot][i], scp[pivot])
    ensures forall r :: i <= r < pivot ==> Ratio(s[r][i], scp[r]) < Ratio(s[pivot][i], scp[pivot])
  {
    pivot := i;
    var best := Abs(s[i][i] / scp[i]);
    for p := i + 1 to 4
      invariant i <= pivot < p && best == Ratio(s[pivot][i], scp[pivot])
      invariant forall r :: i <= r < p ==> Ratio(s[r][i], scp[r]) <= best
      invariant forall r :: i <= r < pivot ==> Ratio(s[r][i], scp[r]) < best
    {
      if Abs(s[p][i] / scp[p]) > best {
        best := Abs(s[p][i] / scp[p]);
        pivot := p;
      }
    }
  }

  lemma ZeroRatio(x: real, scale: real)
    requires scale > 0.0 && Ratio(x, scale) <= 0.0
    ensures x == 0.0
  {
    assert x / scale == 0.0;
    assert x == (x / scale) * scale;
  }

  /** The inner loops: dst[k] -= c * src[k] from k = from on. */
  method SubtractFrom(dst: array<real>, src: array<real>, c: real, from: nat)
    requires dst.Length == 8 && src.Length == 8 && dst != src && from <= 8
    modifies dst
    ensures forall k :: 0 <= k < 8 ==> dst[k] == if k < from then old(dst[k]) else old(dst[k]) - Mul(c, src[k])
  {
    for jj := from to 8
      invariant forall k :: 0 <= k < 8 ==> dst[k] == if from <= k < jj then old(dst[k]) - Mul(c, src[k]) else old(dst[k])
    {
      dst[jj] := dst[jj] - c * src[jj];
    }
  }

  lemma QuotientTimes(x: real, d: real)
    requires d != 0.0
    ensures Mul(x / d, d) == x
  {
  }

  // Starting after the pivot column is as good as subtracting whole rows: to its left
  // both rows are zero, and in it the difference is zero.
  lemma SkippedCellsAreZero(a: Row8, b: Row8, i: nat, c: real)
    requires i < 4 && b[i] != 0.0 && c == a[i] / b[i] && forall k :: 0 <= k < i ==> a[k] == 0.0 && b[k] == 0.0
    ensures forall k :: 0 <= k < i ==> a[k] - Mul(c, b[k]) == 0.0
    ensures a[i] - Mul(c, b[i]) == 0.0
  {
    QuotientTimes(a[i], b[i]);
    MulZero(c);
  }

  /** Gaussian elimination below the pivot of column i. */
  method EliminateBelow(s: seq<array<real>>, i: nat, ghost m: Cells)
    requires Pointers(s) && i < 4 && Good(View(s), m) && Triangular(View(s), i) && s[i][i] != 0.0
    modifies s
    ensures Good(View(s), m) && Triangular(View(s), i + 1)
  {
    for j := i + 1 to 4
      invariant Good(View(s), m) && Triangular(View(s), i) && s[i][i] != 0.0
      invariant forall r :: i < r < j ==> s[r][i] == 0.0
    {
      EliminateRow(s, i, j, m);
    }
  }

  method EliminateRow(s: seq<array<real>>, i: nat, j: nat, ghost m: Cells)
    requires Pointers(s) && i < j < 4 && Good(View(s), m) && Triangular(View(s), i) && s[i][i] != 0.0
    modifies s[j]
    ensures Good(View(s), m) && Triangular(View(s), i) && s[j][i] == 0.0
  {
    hide Good, Mul;
    ghost var before := View(s);
    var mji := s[j][i] / s[i][i];
    SkippedCellsAreZero(before[j], before[i], i, mji);
    s[j][i] := 0.0;
    SubtractFrom(s[j], s[i], mji, i + 1);
    assert forall k :: 0 <= k < 8 ==> s[j][k] == before[j][k] - Mul(mji, before[i][k]);
    assert View(s)[j] == Subtracted(before, j, mji, i)[j];
    assert View(s) == Subtracted(before, j, mji, i);
    SubtractedIsGood(before, m, j, mji, i);
  }

  /** Columns right of i are cleared above the diagonal as well. */
  ghost predicate ClearedFrom(s: Rows, i: int) {
    Triangular(s, 4) && forall r, c :: 0 <= r < c < 4 && c > i ==> s[r][c] == 0.0
  }

  /** Row j loses its entry in column i; the loop starts after the diagonal of row j. */
  method SubstituteRow(s: seq<array<real>>, i: nat, j: nat, ghost m: Cells)
    requires Pointers(s) && j < i < 4 && Good(View(s), m) && ClearedFrom(View(s), i)
    modifies s[j]
    ensures Good(View(s), m) && ClearedFrom(View(s), i) && s[j][i] == 0.0
    ensures forall r :: 0 <= r < 4 && s[r] != s[j] ==> s[r][..] == old(s[r][..])
  {
    hide Good, Mul;
    ghost var before := View(s);
    var mij := s[j][i] / s[i][i];
    QuotientTimes(s[j][i], s[i][i]);
    MulZero(mij);
    SubtractFrom(s[j], s[i], mij, j + 1);
    assert forall k :: 0 <= k < 8 ==> s[j][k] == before[j][k] - Mul(mij, before[i][k]);
    assert View(s)[j] == Subtracted(before, j, mij, i)[j];
    assert View(s) == Subtracted(before, j, mij, i);
    SubtractedIsGood(before, m, j, mij, i);
  }

  /** Back substitution: from the last column to the second, clear the entries above the pivot. */
  method BackSubstitute(s: seq<array<real>>, ghost m: Cells)
    requires Pointers(s) && Good(View(s), m) && Triangular(View(s), 4)
    modifies s
    ensures Good(View(s), m) && Diagonal(View(s))
  {
    hide Good;
    var i := 3;
    while i > 0
      invariant 0 <= i <= 3
      invariant Good(View(s), m) && ClearedFrom(View(s), i)
    {
      var j := i - 1;
      while j > -1
        invariant -1 <= j < i
        invariant Good(View(s), m) && ClearedFrom(View(s), i)
        invariant forall r :: j < r < i ==> s[r][i] == 0.0
      {
        SubstituteRow(s, i, j, m);
        j := j - 1;
      }
      i := i - 1;
    }
  }

  /** minv(i,j) = s[i][j+4] / s[i][i] */
  method Divide(s: seq<array<real>>, minv: array<real>)
    requires Pointers(s) && minv.Length == 16 && minv !in s && Diagonal(View(s))
    modifies minv
    ensures ReadOff(minv[..], View(s))
  {
    ghost var v := View(s);
    for i := 0 to 4
      invariant View(s) == v
      invariant forall r, c :: 0 <= r < i && 0 <= c < 4 ==> minv[Index(r, c)] == v[r][c + 4] / v[r][r]
    {
      assert v[i][i] != 0.0;
      DivideRow(s, minv, i);
    }
  }

  method DivideRow(s: seq<array<real>>, minv: array<real>, i: nat)
    requires Pointers(s) && minv.Length == 16 && minv !in s && i < 4 && s[i][i] != 0.0
    modifies minv
    ensures forall c :: 0 <= c < 4 ==> minv[Index(i, c)] == s[i][c + 4] / s[i][i]
    ensures forall r, c :: 0 <= r < 4 && 0 <= c < 4 && r != i ==> minv[Index(r, c)] == old(minv[Index(r, c)])
  {
    for j := 0 to 4
      invariant forall c :: 0 <= c < j ==> minv[Index(i, c)] == s[i][c + 4] / s[i][i]
      invariant forall r, c :: 0 <= r < 4 && 0 <= c < 4 && r != i ==> minv[Index(r, c)] == old(minv[Index(r, c)])
    {
      minv[Index(i, j)] := s[i][j + 4] / s[i][i];
    }
  }

  /** Swap the row pointers and the scales, if the pivot row is not already on top. */
  method Pivot(s: seq<array<real>>, scp: array<real>, i: nat, pivot: nat, ghost m: Cells) returns (t: seq<array<real>>)
    requires Pointers(s) && scp.Length == 4 && scp !in s && i <= pivot < 4 && Good(View(s), m) && Triangular(View(s), i)
    requires forall k :: 0 <= k < 4 ==> scp[k] > 0.0
    modifies scp
    ensures Pointers(t) && (forall k :: 0 <= k < 4 ==> t[k] in s) && View(t) == Swapped(old(View(s)), i, pivot)
    ensures Good(View(t), m) && Triangular(View(t), i)
    ensures forall k :: 0 <= k < 4 ==> scp[k] > 0.0
  {
    SwappedIsGood(View(s), m, i, pivot);
    hide Good;
    t := s;
    if pivot != i {
      t := s[i := s[pivot]][pivot := s[i]];
      scp[i], scp[pivot] := scp[pivot], scp[i];
    }
    SwappedRowsView(s, t, i, pivot);
    SwapKeepsTriangular(View(s), i, pivot);
  }

  lemma SwappedRowsView(s: seq<array<real>>, t: seq<array<real>>, i: nat, j: nat)
    requires Pointers(s) && i < 4 && j < 4 && t == s[i := s[j]][j := s[i]]
    ensures Pointers(t) && View(t) == Swapped(View(s), i, j)
  {
    hide Good, Triangular;
  }

  lemma SwapKeepsTriangular(s: Rows, i: nat, j: nat)
    requires i <= j < 4 && Triangular(s, i)
    ensures Triangular(Swapped(s, i, j), i)
  {
  }

  // The chosen pivot is zero only when the whole rest of its column is.
  lemma ZeroPivotMeansSingular(s: Rows, scp: seq<real>, m: Cells, i: nat, pivot: nat)
    requires Good(s, m) && Triangular(s, i) && i <= pivot < 4 && |scp| == 4 && forall k :: 0 <= k < 4 ==> scp[k] > 0.0
    requires forall r :: i <= r < 4 ==> Ratio(s[r][i], scp[r]) <= Ratio(s[pivot][i], scp[pivot])
    requires s[pivot][i] == 0.0
    ensures !Invertible(m)
  {
    hide Good, Invertible;
    forall r | i <= r < 4 ensures s[r][i] == 0.0 {
      ZeroRatio(s[r][i], scp[r]);
    }
    NoPivotMeansSingular(s, m, i);
  }

  /** One column of the elimination loop: pick a pivot row, swap it up, clear below it. */
  method EliminateColumn(s: seq<array<real>>, scp: array<real>, i: nat, ghost m: Cells) returns (t: seq<array<real>>, divided: bool)
    requires Pointers(s) && scp.Length == 4 && scp !in s && i < 4 && Good(View(s), m) && Triangular(View(s), i)
    requires forall k :: 0 <= k < 4 ==> scp[k] > 0.0
    modifies s, scp
    ensures Pointers(t) && forall k :: 0 <= k < 4 ==> t[k] in s
    ensures forall k :: 0 <= k < 4 ==> scp[k] > 0.0
    ensures divided ==> !Invertible(m)
    ensures !divided ==> Good(View(t), m) && Triangular(View(t), if i < 3 then i + 1 else 3)
    ensures i == 3 && t[3][3] == 0.0 ==> !Invertible(m)
  {
    hide Good, Invertible, Triangular, Ratio;
    var pivot := SelectPivot(s, scp, i);
    ghost var v, scales := View(s), scp[..];
    t := Pivot(s, scp, i, pivot, m);
    assert t[i][i] == View(t)[i][i] == v[pivot][i];
    if v[pivot][i] == 0.0 {
      ZeroPivotMeansSingular(v, scales, m, i, pivot);
    }
    divided := false;
    if i < 3 {
      if t[i][i] == 0.0 {
        divided := true;
      } else {
        EliminateBelow(t, i, m);
      }
    }
  }

  /** The elimination loop. */
  method Eliminate(s0: seq<array<real>>, scp: array<real>, ghost m: Cells) returns (s: seq<array<real>>, divided: bool)
    requires Pointers(s0) && scp.Length == 4 && scp !in s0 && Good(View(s0), m)
    requires forall k :: 0 <= k < 4 ==> scp[k] > 0.0
    modifies s0, scp
    ensures Pointers(s) && forall k :: 0 <= k < 4 ==> s[k] in s0
    ensures divided ==> !Invertible(m)
    ensures !divided ==> Good(View(s), m) && Triangular(View(s), 3) && (s[3][3] == 0.0 ==> !Invertible(m))
  {
    hide Good, Invertible;
    s := s0;
    divided := false;
    for i := 0 to 4
      invariant Pointers(s) && forall k :: 0 <= k < 4 ==> s[k] in s0
      invariant Good(View(s), m) && Triangular(View(s), if i < 3 then i else 3)
      invariant i == 4 && s[3][3] == 0.0 ==> !Invertible(m)
      invariant forall k :: 0 <= k < 4 ==> scp[k] > 0.0
    {
      hide Triangular;
      s, divided := EliminateColumn(s, scp, i, m);
      if divided {
        return;
      }
    }
  }

  // matrix4's default constructor.
  method NewIdentity() returns (minv: array<real>)
    ensures fresh(minv) && minv.Length == 16 && IsIdentity(minv[..])
  {
    minv := new real[16](k => if k % 5 == 0 then 1.0 else 0.0);
    forall i, j | 0 <= i < 4 && 0 <= j < 4 ensures minv[Index(i, j)] == Delta(i, j) {
      assert Index(i, j) == 5 * i + 4 * (j - i);
    }
  }

  /** inverse. The exits for a singular matrix hand back the identity matrix that minv
      starts as. The function finishes exactly on the invertible matrices, and then
      returns the inverse. */
  method Inverse(m: Cells) returns (minv: array<real>, ending: Ending)
    ensures fresh(minv) && minv.Length == 16
    ensures ending.Finished? <==> Invertible(m)
    ensures ending.Finished? ==> Undoes(minv[..], m) && Undoes(m, minv[..])
    ensures ending.Finished? ==>
              forall k :: 0 <= k < 16 ==> CellProduct(minv[..], m, k % 4, k / 4) == if k % 5 == 0 then 1.0 else 0.0
    ensures ending.ZeroRow? || ending.ZeroLastPivot? ==> IsIdentity(minv[..])
  {
    minv := NewIdentity();
    var s := Load(m);
    var scp, zeroRow := RowScales(s);
    if zeroRow >= 0 {
      ZeroRowMeansSingular(m, zeroRow);
      return minv, ZeroRow;
    }
    hide Good, Undoes, IsIdentity, Invertible, CellProduct, IsScale;
    var t, divided := Eliminate(s, scp, m);
    if divided {
      return minv, DividedByZero;
    }
    if t[3][3] == 0.0 {
      return minv, ZeroLastPivot;
    }
    BackSubstitute(t, m);
    Divide(t, minv);
    ReadOffUndoes(minv[..], View(t), m);
    ReadOffIsUndone(minv[..], View(t), m);
    UndoesInCells(minv[..], m);
    ending := Finished;
  }

  /** operator*: every cell accumulates its four products. */
  method Multiply(lhs: Cells, rhs: Cells) returns (r: array<real>)
    ensures fresh(r) && r.Length == 16 && IsProduct(r[..], lhs, rhs)
    ensures forall k :: 0 <= k < 16 ==> r[..][k] == CellProduct(lhs, rhs, k % 4, k / 4)
  {
    hide CellProduct, Dot, RowOf, ColumnOf;
    r := new real[16](_ => 0.0);
    for i := 0 to 4
      invariant forall a, b :: 0 <= a < i && 0 <= b < 4 ==> r[Index(a, b)] == Dot(RowOf(lhs, a), ColumnOf(rhs, b))
      invariant forall a, b :: i <= a < 4 && 0 <= b < 4 ==> r[Index(a, b)] == 0.0
    {
      MultiplyRow(r, lhs, rhs, i);
    }
    ProductInCells(r[..], lhs, rhs);
  }

  method MultiplyRow(r: array<real>, lhs: Cells, rhs: Cells, i: nat)
    requires r.Length == 16 && i < 4 && forall b :: 0 <= b < 4 ==> r[Index(i, b)] == 0.0
    modifies r
    ensures forall b :: 0 <= b < 4 ==> r[Index(i, b)] == Dot(RowOf(lhs, i), ColumnOf(rhs, b))
    ensures forall a, b :: 0 <= a < 4 && 0 <= b < 4 && a != i ==> r[Index(a, b)] == old(r[Index(a, b)])
  {
    hide Dot, RowOf, ColumnOf;
    for j := 0 to 4
      invariant forall b :: 0 <= b < j ==> r[Index(i, b)] == Dot(RowOf(lhs, i), ColumnOf(rhs, b))
      invariant forall b :: j <= b < 4 ==> r[Index(i, b)] == 0.0
      invariant forall a, b :: 0 <= a < 4 && 0 <= b < 4 && a != i ==> r[Index(a, b)] == old(r[Index(a, b)])
    {
      MultiplyCell(r, lhs, rhs, i, j);
    }
  }

  method MultiplyCell(r: array<real>, lhs: Cells, rhs: Cells, i: nat, j: nat)
    requires r.Length == 16 && i < 4 && j < 4 && r[Index(i, j)] == 0.0
    modifies r
    ensures r[Index(i, j)] == Dot(RowOf(lhs, i), ColumnOf(rhs, j))
    ensures forall a, b :: 0 <= a < 4 && 0 <= b < 4 && (a != i || b != j) ==> r[Index(a, b)] == old(r[Index(a, b)])
  {
    ghost var p := Products(RowOf(lhs, i), ColumnOf(rhs, j));
    for c := 0 to 4
      invariant r[Index(i, j)] == SumTo(p, c)
      invariant forall k :: 0 <= k < 16 && k != Index(i, j) ==> r[k] == old(r[k])
    {
      assert p[c] == Mul(Element(lhs, i, c), Element(rhs, c, j));
      r[Index(i, j)] := r[Index(i, j)] + Element(lhs, i, c) * Element(rhs, c, j);
    }
    SumToFour(p);
  }

  ghost function SumTo(p: Vec, c: nat): real
    requires c <= 4
  {
    if c == 0 then 0.0 else SumTo(p, c - 1) + p[c - 1]
  }

  lemma SumToFour(p: Vec)
    ensures SumTo(p, 4) == Sum(p)
  {
    assert SumTo(p, 1) == SumTo(p, 0) + p[0];
    assert SumTo(p, 2) == p[0] + p[1];
  }
}
