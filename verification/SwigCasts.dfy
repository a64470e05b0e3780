/** The cast list of a SWIG type: a doubly linked list in which a successful lookup moves
    its entry to the front, and into which new casts are put at the front. */
module SwigCasts {
  import opened Rings

  // ---------- the list as a sequence ----------

  /** Index of the first entry with this name; the length if there is none. */
  function FirstNamed(names: seq<string>, c: string): (k: nat)
    ensures k <= |names|
    ensures forall j :: 0 <= j < k ==> names[j] != c
    ensures k < |names| ==> names[k] == c
  {
    if names == [] then 0
    else if names[0] == c then 0
    else FirstNamed(names[1..], c) + 1
  }

  /** Entry k moved to the front, the others in their old order. */
  function ToFront<T>(s: seq<T>, k: nat): seq<T>
    requires k < |s|
  {
    [s[k]] + s[..k] + s[k + 1..]
  }

  // ---------- the linked list ----------

  class CastInfo {
    const typeName: string
    var next: CastInfo?
    var prev: CastInfo?

    constructor (name: string)
      ensures typeName == name && next == null && prev == null
    {
      typeName := name;
      next, prev := null, null;
    }
  }

  ghost predicate Distinct(s: seq<CastInfo>) {
    forall i, j :: 0 <= i < j < |s| ==> s[i] != s[j]
  }

  ghost function NextOf(s: seq<CastInfo>, i: int): CastInfo? {
    if 0 <= i + 1 < |s| then s[i + 1] else null
  }

  ghost function PrevOf(s: seq<CastInfo>, i: int): CastInfo? {
    if 0 <= i - 1 < |s| then s[i - 1] else null
  }

  /** The pointers of these nodes chain them in this order. */
  ghost predicate Linked(s: seq<CastInfo>)
    reads s
  {
    Distinct(s) &&
    forall i :: 0 <= i < |s| ==> s[i].next == NextOf(s, i) && s[i].prev == PrevOf(s, i)
  }

  function Names(s: seq<CastInfo>): seq<string> {
    seq(|s|, i requires 0 <= i < |s| => s[i].typeName)
  }

  class TypeInfo {
    var cast: CastInfo?
    ghost var casts: seq<CastInfo>

    ghost predicate Valid()
      reads this, casts
    {
      Linked(casts) && cast == NextOf(casts, -1)
    }

    constructor ()
      ensures Valid() && casts == []
    {
      cast := null;
      casts := [];
    }

    /** The loop body of SWIG_InitializeModule that adds a cast. */
    method AddCast(c: CastInfo)
      requires Valid() && c !in casts && c.next == null && c.prev == null
      modifies this, casts, c
      ensures Valid() && casts == [c] + old(casts) == After(old(casts), Add(c))
    {
      if cast != null {
        cast.prev := c;
        c.next := cast;
      }
      cast := c;
      casts := [c] + casts;
    }

    /** The relinking of SWIG_TypeCheck: entry k, not the first, goes to the front. */
    method MoveToFront(iter: CastInfo, ghost k: nat)
      requires Valid() && 0 < k < |casts| && iter == casts[k]
      modifies this, casts
      ensures Valid() && casts == ToFront(old(casts), k)
    {
      ghost var s := casts;
      FrontHead(s, k);
      Relink(iter, cast, s, k);
      cast := iter;
      casts := ToFront(s, k);
      RelinkedIsFront(s, k);
    }

    /** SWIG_TypeCheck, for a type that is not null. */
    method TypeCheck(c: string) returns (found: CastInfo?)
      requires Valid()
      modifies this, casts
      ensures Valid()
      ensures var k := FirstNamed(Names(old(casts)), c);
              if k == |old(casts)| then found == null && casts == old(casts)
              else found == old(casts)[k] && casts == ToFront(old(casts), k)
      ensures casts == After(old(casts), Lookup(c))
    {
      ghost var s := casts;
      var iter := cast;
      ghost var k: nat := 0;
      while iter != null
        invariant casts == s && Valid() && k <= |s| && iter == NextOf(s, k - 1)
        invariant forall j :: 0 <= j < k ==> Names(s)[j] != c
        decreases |s| - k
      {
        assert iter == s[k];
        if iter.typeName == c {
          FirstNamedIs(Names(s), c, k);
          if iter == cast {
            return iter;
          }
          MoveToFront(iter, k);
          return iter;
        }
        assert iter.next == NextOf(s, k);
        iter := iter.next;
        k := k + 1;
      }
      FirstNamedIs(Names(s), c, k);
      return null;
    }
  }

  /** The pointer assignments of the move. */
  method Relink(iter: CastInfo, first: CastInfo?, ghost s: seq<CastInfo>, ghost k: nat)
    requires Linked(s) && 0 < k < |s| && iter == s[k] && first == s[0]
    modifies s
    ensures Relinked(s, k)
  {
    assert iter.prev == s[k - 1] && iter.next == NextOf(s, k);
    assert s[k - 1] in s && s[0] in s && s[k] in s;
    iter.prev.next := iter.next;
    if iter.next != null {
      iter.next.prev := iter.prev;
    }
    iter.next := first;
    iter.prev := null;
    if first != null {
      first.prev := iter;
    }
  }

  lemma FirstNamedIs(names: seq<string>, c: string, k: nat)
    requires k <= |names| && (forall j :: 0 <= j < k ==> names[j] != c) && (k < |names| ==> names[k] == c)
    ensures FirstNamed(names, c) == k
  {
  }

  /** The pointers of s after entry k has been unlinked and put in front. */
  ghost predicate Relinked(s: seq<CastInfo>, k: nat)
    requires 0 < k < |s|
    reads s
  {
    Distinct(s) && s[k].next == s[0] && s[k].prev == null && s[k - 1].next == NextOf(s, k) && s[0].prev == s[k] &&
    (k + 1 < |s| ==> s[k + 1].prev == s[k - 1]) &&
    (forall i :: 0 <= i < |s| && i != k && i != k - 1 ==> s[i].next == NextOf(s, i)) &&
    forall i :: 0 < i < |s| && i != k && i != k + 1 ==> s[i].prev == PrevOf(s, i)
  }

  // Where entry i of the new order was before.
  function Source(k: nat, i: nat): nat { if i == 0 then k else if i <= k then i - 1 else i }

  lemma FrontAt<T>(s: seq<T>, k: nat, i: nat)
    requires k < |s| && i < |s|
    ensures |ToFront(s, k)| == |s| && ToFront(s, k)[i] == s[Source(k, i)]
  {
  }

  lemma RelinkedAt(s: seq<CastInfo>, k: nat, i: nat)
    requires 0 < k < |s| && i < |s| && Relinked(s, k)
    ensures s[Source(k, i)].next == if i + 1 < |s| then s[Source(k, i + 1)] else null
    ensures s[Source(k, i)].prev == if i > 0 then s[Source(k, i - 1)] else null
  {
  }

  lemma RelinkedIsFront(s: seq<CastInfo>, k: nat)
    requires 0 < k < |s| && Relinked(s, k)
    ensures Linked(ToFront(s, k))
  {
    var t := ToFront(s, k);
    FrontHead(s, k);
    forall i | 0 <= i < |t| ensures t[i] == s[Source(k, i)] {
      FrontAt(s, k, i);
    }
    assert Distinct(t);
    hide ToFront, Distinct;
    forall i | 0 <= i < |t| ensures t[i].next == NextOf(t, i) && t[i].prev == PrevOf(t, i) {
      RelinkedAt(s, k, i);
      hide Relinked, Source;
    }
  }

  lemma FrontHead(s: seq<CastInfo>, k: nat)
    requires k < |s|
    ensures |ToFront(s, k)| == |s| && ToFront(s, k)[0] == s[k] && NextOf(ToFront(s, k), -1) == s[k]
    ensures forall x :: x in ToFront(s, k) ==> x in s
  {
  }

  // ---------- any mix of lookups and insertions ----------

  datatype Op = Lookup(name: string) | Add(entry: CastInfo)

  /** What TypeCheck and AddCast do to the sequence of entries. */
  function After(s: seq<CastInfo>, op: Op): seq<CastInfo> {
    match op
    case Lookup(c) => var k := FirstNamed(Names(s), c); if k < |s| then ToFront(s, k) else s
    case Add(e) => [e] + s
  }

  function History(s: seq<CastInfo>, ops: seq<Op>): seq<CastInfo>
    decreases |ops|
  {
    if ops == [] then s else History(After(s, ops[0]), ops[1..])
  }

  function Added(ops: seq<Op>): multiset<CastInfo> {
    if ops == [] then multiset{} else (if ops[0].Add? then multiset{ops[0].entry} else multiset{}) + Added(ops[1..])
  }

  lemma ToFrontKeepsEntries(s: seq<CastInfo>, k: nat)
    requires k < |s|
    ensures multiset(ToFront(s, k)) == multiset(s)
  {
    assert s == s[..k] + [s[k]] + s[k + 1..];
  }

  /** No lookup or insertion loses, doubles or invents an entry. */
  lemma {:induction false} HistoryKeepsEntries(s: seq<CastInfo>, ops: seq<Op>)
    ensures multiset(History(s, ops)) == multiset(s) + Added(ops)
    decreases |ops|
  {
    if ops != [] {
      HistoryKeepsEntries(After(s, ops[0]), ops[1..]);
      if ops[0].Lookup? {
        var k := FirstNamed(Names(s), ops[0].name);
        if k < |s| {
          ToFrontKeepsEntries(s, k);
        }
      }
    }
  }

  /** After any history a lookup finds a name exactly when an entry with it was there at
      the start or has been added, and then leaves such an entry in front. */
  lemma LookupAfterHistory(s: seq<CastInfo>, ops: seq<Op>, c: string)
    ensures var t := History(s, ops); var k := FirstNamed(Names(t), c);
            (k < |t| <==> exists e :: e in multiset(s) + Added(ops) && e.typeName == c) &&
            (k < |t| ==> History(s, ops + [Lookup(c)]) == ToFront(t, k) && ToFront(t, k)[0].typeName == c)
  {
    var t := History(s, ops);
    var k := FirstNamed(Names(t), c);
    HistoryKeepsEntries(s, ops);
    HistoryAppend(s, ops, Lookup(c));
    if k < |t| {
      assert t[k] in multiset(t);
    }
    if e :| e in multiset(s) + Added(ops) && e.typeName == c {
      assert e in t;
      var i :| 0 <= i < |t| && t[i] == e;
      assert Names(t)[i] == c;
    }
  }

  lemma {:induction false} HistoryAppend(s: seq<CastInfo>, ops: seq<Op>, op: Op)
    ensures History(s, ops + [op]) == After(History(s, ops), op)
    decreases |ops|
  {
    if ops == [] {
      assert History(After(s, op), []) == After(s, op);
    } else {
      HistoryAppend(After(s, ops[0]), ops[1..], op);
      assert (ops + [op])[1..] == ops[1..] + [op];
    }
  }

  ghost predicate Before(s: seq<CastInfo>, a: CastInfo, b: CastInfo) {
    exists i, j :: 0 <= i < j < |s| && s[i] == a && s[j] == b
  }

  // Moving entry k leaves the order of two others.
  lemma FrontKeepsOrder(s: seq<CastInfo>, k: nat, i: nat, j: nat)
    requires k < |s| && i < j < |s| && i != k && j != k
    ensures Before(ToFront(s, k), s[i], s[j])
  {
    var i', j' := if i < k then i + 1 else i, if j < k then j + 1 else j;
    FrontAt(s, k, i');
    FrontAt(s, k, j');
    var t := ToFront(s, k);
    hide ToFront;
    assert t[i'] == s[i] && t[j'] == s[j];
  }

  lemma OrderKept(s: seq<CastInfo>, op: Op, a: CastInfo, b: CastInfo)
    requires Before(s, a, b) && (op.Lookup? ==> op.name != a.typeName && op.name != b.typeName)
    ensures Before(After(s, op), a, b)
  {
    var i, j :| 0 <= i < j < |s| && s[i] == a && s[j] == b;
    if op.Add? {
      assert After(s, op)[i + 1] == a && After(s, op)[j + 1] == b;
    } else {
      var k := FirstNamed(Names(s), op.name);
      if k < |s| {
        assert Names(s)[k] == s[k].typeName;
        FrontKeepsOrder(s, k, i, j);
      }
    }
  }

  /** Entries that are not looked up keep their relative order through any history. */
  lemma {:induction false} HistoryKeepsOrder(s: seq<CastInfo>, ops: seq<Op>, a: CastInfo, b: CastInfo)
    requires Before(s, a, b)
    requires forall n :: 0 <= n < |ops| && ops[n].Lookup? ==> ops[n].name != a.typeName && ops[n].name != b.typeName
    ensures Before(History(s, ops), a, b)
    decreases |ops|
  {
    if ops != [] {
      assert ops[0].Lookup? ==> ops[0].name != a.typeName && ops[0].name != b.typeName;
      OrderKept(s, ops[0], a, b);
      forall n | 0 <= n < |ops[1..]| && ops[1..][n].Lookup? ensures ops[1..][n].name != a.typeName &&
        ops[1..][n].name != b.typeName {
        assert ops[1..][n] == ops[n + 1];
      }
      HistoryKeepsOrder(After(s, ops[0]), ops[1..], a, b);
    }
  }

  // ---------- most recently used first ----------

  /** The entry an operation puts in front: the hit of a lookup, or what is added. */
  function Touched(s: seq<CastInfo>, op: Op): Option<CastInfo> {
    match op
    case Lookup(c) => var k := FirstNamed(Names(s), c); if k < |s| then Some(s[k]) else None
    case Add(e) => Some(e)
  }

  /** What AddCast asks for: an entry that is not on the list. */
  ghost predicate AddsNew(s: seq<CastInfo>, ops: seq<Op>) {
    forall n :: 0 <= n < |ops| && ops[n].Add? ==> ops[n].entry !in History(s, ops[..n])
  }

  /** The number of the operation that last put an entry in front; -1 if none has. */
  function LastTouch(s: seq<CastInfo>, ops: seq<Op>, a: CastInfo): (n: int)
    ensures -1 <= n < |ops|
    decreases |ops|
  {
    if ops == [] then -1
    else
      var n := |ops| - 1;
      if Touched(History(s, ops[..n]), ops[n]) == Some(a) then n else LastTouch(s, ops[..n], a)
  }

  lemma AfterDistinct(s: seq<CastInfo>, op: Op)
    requires Distinct(s) && (op.Add? ==> op.entry !in s)
    ensures Distinct(After(s, op))
  {
    if op.Lookup? {
      var k := FirstNamed(Names(s), op.name);
      if k < |s| {
        FrontDistinct(s, k);
      }
    }
  }

  lemma FrontDistinct(s: seq<CastInfo>, k: nat)
    requires Distinct(s) && k < |s|
    ensures Distinct(ToFront(s, k))
  {
    forall i | 0 <= i < |ToFront(s, k)| ensures ToFront(s, k)[i] == s[Source(k, i)] {
      FrontAt(s, k, i);
    }
    hide ToFront;
  }

  // One operation puts what it touches in front, and leaves the order of the rest.
  lemma OrderAfter(s: seq<CastInfo>, op: Op, a: CastInfo, b: CastInfo)
    requires Distinct(s) && (op.Add? ==> op.entry !in s) && a != b && a in After(s, op) && b in After(s, op)
    ensures var x := Touched(s, op);
            && (a in s || x == Some(a)) && (b in s || x == Some(b))
            && (Before(After(s, op), a, b) <==> x == Some(a) || (x != Some(b) && Before(s, a, b)))
  {
    match op
    case Add(e) => AddedInFront(s, e, a, b);
    case Lookup(c) =>
      var k := FirstNamed(Names(s), c);
      if k < |s| {
        MovedToFront(s, k, a, b);
      }
  }

  lemma AddedInFront(s: seq<CastInfo>, e: CastInfo, a: CastInfo, b: CastInfo)
    requires Distinct(s) && e !in s && a != b && a in [e] + s && b in [e] + s
    ensures (a in s || a == e) && (b in s || b == e)
    ensures Before([e] + s, a, b) <==> a == e || (b != e && Before(s, a, b))
  {
    var t := [e] + s;
    if a != e && b != e {
      SameOrder(s, t, a, b, (i: int) => i + 1);
    } else if a == e {
      var j :| 0 <= j < |t| && t[j] == b;
      assert t[0] == a;
    }
  }

  // Two entries of a list without repetition stand in the same order in another one if their
  // places do.
  lemma SameOrder(s: seq<CastInfo>, t: seq<CastInfo>, a: CastInfo, b: CastInfo, to: int -> int)
    requires Distinct(s) && Distinct(t) && a != b && a in s && b in s
    requires forall i :: 0 <= i < |s| && (s[i] == a || s[i] == b) ==> 0 <= to(i) < |t| && t[to(i)] == s[i]
    requires forall i, j :: 0 <= i < j < |s| && {s[i], s[j]} == {a, b} ==> to(i) < to(j)
    ensures Before(t, a, b) <==> Before(s, a, b)
  {
    var i :| 0 <= i < |s| && s[i] == a;
    var j :| 0 <= j < |s| && s[j] == b;
    assert t[to(i)] == a && t[to(j)] == b;
  }

  lemma MovedToFront(s: seq<CastInfo>, k: nat, a: CastInfo, b: CastInfo)
    requires Distinct(s) && k < |s| && a != b && a in ToFront(s, k) && b in ToFront(s, k)
    ensures a in s && b in s
    ensures Before(ToFront(s, k), a, b) <==> a == s[k] || (b != s[k] && Before(s, a, b))
  {
    var t := ToFront(s, k);
    FrontHead(s, k);
    FrontDistinct(s, k);
    if a != s[k] && b != s[k] {
      SameOrder(s, t, a, b, (i: int) => if i < k then i + 1 else i);
    } else if a == s[k] {
      var j :| 0 <= j < |t| && t[j] == b;
      assert t[0] == a;
    }
  }

  /** The list is always in order of last use: after any mix of lookups and insertions one entry
      stands before another exactly when it was touched last, or neither was touched at all and
      it stood before the other at the start. */
  lemma {:induction false} MostRecentFirst(s: seq<CastInfo>, ops: seq<Op>, a: CastInfo, b: CastInfo)
    requires Distinct(s) && AddsNew(s, ops) && a != b && a in History(s, ops) && b in History(s, ops)
    ensures Before(History(s, ops), a, b) <==>
            LastTouch(s, ops, a) > LastTouch(s, ops, b) ||
            (LastTouch(s, ops, a) == LastTouch(s, ops, b) == -1 && Before(s, a, b))
    decreases |ops|
  {
    if ops != [] {
      var n := |ops| - 1;
      var pre, op := ops[..n], ops[n];
      var t := History(s, pre);
      assert ops == pre + [op];
      HistoryAppend(s, pre, op);
      EarlierAddsNew(s, ops, n);
      HistoryDistinct(s, pre);
      hide History, Before, AddsNew, Distinct, After, Touched;
      OrderAfter(t, op, a, b);
      if a in t && b in t {
        MostRecentFirst(s, pre, a, b);
      }
    }
  }

  lemma EarlierAddsNew(s: seq<CastInfo>, ops: seq<Op>, n: nat)
    requires AddsNew(s, ops) && n <= |ops|
    ensures AddsNew(s, ops[..n])
    ensures n < |ops| && ops[n].Add? ==> ops[n].entry !in History(s, ops[..n])
  {
    hide History;
    forall i | 0 <= i < n && ops[..n][i].Add? ensures ops[..n][i].entry !in History(s, ops[..n][..i]) {
      assert ops[..n][..i] == ops[..i];
    }
  }

  lemma {:induction false} HistoryDistinct(s: seq<CastInfo>, ops: seq<Op>)
    requires Distinct(s) && AddsNew(s, ops)
    ensures Distinct(History(s, ops))
    decreases |ops|
  {
    if ops != [] {
      var n := |ops| - 1;
      assert ops == ops[..n] + [ops[n]];
      HistoryAppend(s, ops[..n], ops[n]);
      EarlierAddsNew(s, ops, n);
      HistoryDistinct(s, ops[..n]);
      AfterDistinct(History(s, ops[..n]), ops[n]);
    }
  }
}
