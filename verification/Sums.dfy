/** Finite sums of reals, and the double sums of pair forces. */
module Sums {

  function Sum(g: nat -> real, n: nat): real {
    if n == 0 then 0.0 else Sum(g, n - 1) + g(n - 1)
  }

  lemma {:induction false} SumAgree(g: nat -> real, h: nat -> real, n: nat)
    requires forall p :: 0 <= p < n ==> g(p) == h(p)
    ensures Sum(g, n) == Sum(h, n)
  {
    if n > 0 {
      SumAgree(g, h, n - 1);
    }
  }

  // A product the solver can be kept from looking into.
  function Times(k: real, x: real): real { k * x }

  lemma TimesAdds(k: real, x: real, y: real)
    ensures Times(k, x + y) == Times(k, x) + Times(k, y) && Times(k, 0.0) == 0.0
  {
  }

  /** Sum of a + k * b, term by term. */
  lemma {:induction false} SumLinear(s: nat -> real, a: nat -> real, k: real, b: nat -> real, n: nat)
    requires forall p :: 0 <= p < n ==> s(p) == a(p) + Times(k, b(p))
    ensures Sum(s, n) == Sum(a, n) + Times(k, Sum(b, n))
  {
    if n == 0 {
      TimesAdds(k, 0.0, 0.0);
    } else {
      SumLinear(s, a, k, b, n - 1);
      TimesAdds(k, Sum(b, n - 1), b(n - 1));
    }
    hide Times;
  }

  function Row(g: (nat, nat) -> real, p: nat): nat -> real {
    (q: nat) => g(p, q)
  }

  function Column(g: (nat, nat) -> real, q: nat): nat -> real {
    (p: nat) => g(p, q)
  }

  function RowSum(g: (nat, nat) -> real, m: nat): nat -> real {
    (p: nat) => Sum(Row(g, p), m)
  }

  ghost predicate Antisymmetric(g: (nat, nat) -> real, n: nat) {
    forall p, q :: 0 <= p < n && 0 <= q < n ==> g(p, q) == -g(q, p)
  }

  // The column sum is minus the row sum.
  lemma {:induction false} ColumnIsMinusRow(g: (nat, nat) -> real, c: nat, n: nat, k: nat)
    requires Antisymmetric(g, n) && c < n && k <= n
    ensures Sum(Column(g, c), k) == -Sum(Row(g, c), k)
  {
    if k > 0 {
      ColumnIsMinusRow(g, c, n, k - 1);
      assert g(k - 1, c) == -g(c, k - 1);
    }
  }

  // Widening every row by one column adds that column.
  lemma {:induction false} WidenRows(g: (nat, nat) -> real, n: nat, k: nat)
    ensures Sum(RowSum(g, n + 1), k) == Sum(RowSum(g, n), k) + Sum(Column(g, n), k)
  {
    if k > 0 {
      WidenRows(g, n, k - 1);
    }
  }

  /** An antisymmetric double sum cancels. */
  lemma {:induction false} DoubleSumCancels(g: (nat, nat) -> real, n: nat)
    requires Antisymmetric(g, n)
    ensures Sum(RowSum(g, n), n) == 0.0
  {
    if n > 0 {
      DoubleSumCancels(g, n - 1);
      WidenRows(g, n - 1, n - 1);
      ColumnIsMinusRow(g, n - 1, n, n - 1);
      assert g(n - 1, n - 1) == -g(n - 1, n - 1);
      assert RowSum(g, n)(n - 1) == Sum(Row(g, n - 1), n - 1) + g(n - 1, n - 1);
    }
  }
}
