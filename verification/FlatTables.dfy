/** Tables of np rows of nd entries laid out one row after another in one array. */
module FlatTables {

  /** Entry i of row p. */
  function Cell(p: nat, i: nat, nd: nat): nat { i + Start(p, nd) }

  // Where row p starts; for p = np, the size of the whole table.
  function Start(p: nat, nd: nat): nat { p * nd }

  lemma CellInRange(p: nat, i: nat, np: nat, nd: nat)
    requires p < np && i < nd
    ensures Cell(p, i, nd) < Start(np, nd)
  {
    assert (p + 1) * nd <= np * nd;
  }

  lemma CellDecodes(p: nat, i: nat, nd: nat)
    requires i < nd
    ensures RowOf(Cell(p, i, nd), nd) == p && ColumnOf(Cell(p, i, nd), nd) == i
  {
    DivModUnique(Cell(p, i, nd), nd, p, i);
  }

  lemma DivModUnique(k: nat, nd: nat, p: nat, i: nat)
    requires i < nd && k == i + p * nd
    ensures k / nd == p && k % nd == i
  {
    assert (k / nd - p) * nd == i - k % nd;
    Multiple(k / nd - p, nd);
  }

  lemma Multiple(x: int, nd: int)
    requires -nd < x * nd < nd
    ensures x == 0
  {
  }

  // Which row and which entry a cell belongs to.
  function RowOf(k: nat, nd: nat): nat
    requires nd > 0
  {
    k / nd
  }

  function ColumnOf(k: nat, nd: nat): nat
    requires nd > 0
  {
    k % nd
  }

  lemma CellEncodes(k: nat, np: nat, nd: nat)
    requires k < Start(np, nd)
    ensures nd > 0 && RowOf(k, nd) < np && ColumnOf(k, nd) < nd && Cell(RowOf(k, nd), ColumnOf(k, nd), nd) == k
  {
    QuotientBelow(k / nd, k % nd, np, nd);
  }

  lemma QuotientBelow(q: nat, r: nat, np: nat, nd: nat)
    requires q * nd + r < np * nd
    ensures q < np
  {
    if q >= np {
      MoreRows(np, q, nd);
    }
  }

  lemma MoreRows(np: nat, q: nat, nd: nat)
    requires np <= q
    ensures np * nd <= q * nd
  {
  }
}
