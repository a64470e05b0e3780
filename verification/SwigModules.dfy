/** Finding a SWIG type by its mangled name: a binary search in each module's sorted type
    array, around the circular list of loaded modules; and adding a module to that list. */
module SwigModules {
  import opened Rings

  // ---------- strcmp ----------

  /** Sign of strcmp: negative, zero or positive. */
  function Compare(a: string, b: string): (r: int)
    ensures r == 0 <==> a == b
  {
    if a == [] then (if b == [] then 0 else -1)
    else if b == [] then 1
    else if a[0] != b[0] then (if a[0] < b[0] then -1 else 1)
    else Compare(a[1..], b[1..])
  }

  lemma {:induction false} CompareReverses(a: string, b: string)
    ensures Compare(a, b) < 0 <==> Compare(b, a) > 0
  {
    if a != [] && b != [] && a[0] == b[0] {
      CompareReverses(a[1..], b[1..]);
    }
  }

  lemma {:induction false} CompareTransitive(a: string, b: string, c: string)
    requires Compare(a, b) < 0 && Compare(b, c) <= 0
    ensures Compare(a, c) < 0
  {
    if a != [] && b != [] && c != [] && a[0] == b[0] == c[0] {
      CompareTransitive(a[1..], b[1..], c[1..]);
    }
  }

  /** The order of strcmp: the first difference decides, and an end comes before any character. */
  lemma {:induction false} CompareDecides(a: string, b: string, k: nat)
    requires k <= |a| && k <= |b| && a[..k] == b[..k]
    ensures k == |a| && k < |b| ==> Compare(a, b) < 0
    ensures k == |b| && k < |a| ==> Compare(a, b) > 0
    ensures k < |a| && k < |b| && a[k] != b[k] ==> (Compare(a, b) < 0 <==> a[k] < b[k])
  {
    if k > 0 {
      assert a[0] == a[..k][0] == b[..k][0] == b[0];
      assert a[1..][..k - 1] == a[..k][1..] == b[..k][1..] == b[1..][..k - 1];
      CompareDecides(a[1..], b[1..], k - 1);
    }
  }

  // ---------- the search in one module ----------

  ghost predicate Sorted(names: seq<string>) {
    forall i, j :: 0 <= i < j < |names| ==> Compare(names[i], names[j]) <= 0
  }

  /** The inner do-while loop. The upper end of the interval never drops below zero. */
  method Search(names: seq<string>, name: string) returns (found: Option<nat>)
    requires Sorted(names)
    ensures found.Some? ==> found.value < |names| && names[found.value] == name
    ensures found.None? ==> name !in names
  {
    if |names| == 0 {
      return None;
    }
    var l, r := 0, |names| - 1;
    while true
      invariant 0 <= l <= r < |names|
      invariant forall k :: 0 <= k < l ==> Compare(names[k], name) < 0
      invariant forall k :: r < k < |names| ==> Compare(name, names[k]) < 0
      decreases r - l
    {
      var i := (l + r) / 2;
      var compare := Compare(name, names[i]);
      if compare == 0 {
        return Some(i);
      } else if compare < 0 {
        AllAfter(names, name, i);
        if i > 0 {
          r := i - 1;
        } else {
          break;
        }
      } else {
        AllBefore(names, name, i);
        l := i + 1;
      }
      if l > r {
        break;
      }
    }
    return None;
  }

  lemma AllAfter(names: seq<string>, name: string, i: nat)
    requires Sorted(names) && i < |names| && Compare(name, names[i]) < 0
    ensures forall k :: i <= k < |names| ==> Compare(name, names[k]) < 0
  {
    forall k | i < k < |names| ensures Compare(name, names[k]) < 0 {
      CompareTransitive(name, names[i], names[k]);
    }
  }

  lemma AllBefore(names: seq<string>, name: string, i: nat)
    requires Sorted(names) && i < |names| && Compare(name, names[i]) > 0
    ensures forall k :: 0 <= k <= i ==> Compare(names[k], name) < 0
  {
    CompareReverses(names[i], name);
    forall k | 0 <= k < i ensures Compare(names[k], name) < 0 {
      if names[k] != names[i] {
        assert Compare(names[k], names[i]) < 0;
        CompareReverses(name, names[i]);
        CompareTransitive(names[k], names[i], name);
      }
    }
  }

  // ---------- the circular list ----------

  class ModuleInfo {
    var names: seq<string>   // the names of its types
    var next: ModuleInfo?

    constructor (names: seq<string>)
      ensures this.names == names && next == null
    {
      this.names := names;
      next := null;
    }
  }

  ghost function After(ring: seq<ModuleInfo>, i: nat): ModuleInfo
    requires i < |ring|
  {
    if i + 1 < |ring| then ring[i + 1] else ring[0]
  }

  /** One ring, through these modules in this order, each once. */
  ghost predicate IsRing(ring: seq<ModuleInfo>)
    reads ring
  {
    ring != [] && (forall i, j :: 0 <= i < j < |ring| ==> ring[i] != ring[j]) &&
    forall i :: 0 <= i < |ring| ==> ring[i].next == After(ring, i)
  }

  ghost predicate AllSorted(ring: seq<ModuleInfo>)
    reads ring
  {
    forall i :: 0 <= i < |ring| ==> Sorted(ring[i].names)
  }

  /** SWIG_MangledTypeQueryModule. The ring is read from start; `stop` is where end lies on
      it. It searches the modules up to, not including, end, and the whole ring when end is
      start. The answer is the first module that has the name, with a position of it there. */
  method MangledTypeQueryModule(start: ModuleInfo, end: ModuleInfo, name: string, ghost ring: seq<ModuleInfo>, ghost stop: nat)
    returns (found: Option<(ModuleInfo, nat)>)
    requires IsRing(ring) && AllSorted(ring) && start == ring[0] && stop < |ring| && end == ring[stop]
    ensures var reach := if stop == 0 then |ring| else stop;
            match found
            case None => forall i :: 0 <= i < reach ==> name !in ring[i].names
            case Some(hit) =>
              (exists i :: 0 <= i < reach && hit.0 == ring[i] && forall j :: 0 <= j < i ==> name !in ring[j].names) &&
              hit.1 < |hit.0.names| && hit.0.names[hit.1] == name
  {
    hide IsRing, Sorted;
    ghost var reach := if stop == 0 then |ring| else stop;
    var iter := start;
    ghost var k := 0;
    while true
      invariant 0 <= k < reach && iter == ring[k]
      invariant forall j :: 0 <= j < k ==> name !in ring[j].names
      decreases reach - k
    {
      var hit := Search(iter.names, name);
      if hit.Some? {
        return Some((iter, hit.value));
      }
      NextOnRing(ring, k, stop);
      iter := iter.next;
      k := k + 1;
      if iter == end {
        break;
      }
    }
    return None;
  }

  lemma NextOnRing(ring: seq<ModuleInfo>, k: nat, stop: nat)
    requires IsRing(ring) && k < |ring| && stop < |ring|
    ensures ring[k].next == After(ring, k)
    ensures ring[k].next == ring[stop] <==> k + 1 == if stop == 0 then |ring| else stop
  {
  }

  /** A ring can be read from any of its modules. */
  lemma RotatedIsRing(ring: seq<ModuleInfo>, a: nat)
    requires IsRing(ring) && a < |ring|
    ensures IsRing(ring[a..] + ring[..a])
  {
    var r := ring[a..] + ring[..a];
    forall i | 0 <= i < |r| ensures r[i].next == After(r, i) {
      var o := if i + a < |ring| then i + a else i + a - |ring|;
      assert r[i] == ring[o] && ring[o].next == After(ring, o);
    }
  }

  // ---------- a ring that modules outside it lead into ----------

  /** The modules of `tail` lead one after the other to ring[at], and the ring leads to none of
      them. */
  ghost predicate Lasso(tail: seq<ModuleInfo>, ring: seq<ModuleInfo>, at: nat)
    reads tail, ring
  {
    IsRing(ring) && at < |ring| && (forall i, j :: 0 <= i < j < |tail| ==> tail[i] != tail[j]) &&
    (forall x :: x in tail ==> x !in ring) &&
    forall i :: 0 <= i < |tail| ==> tail[i].next == if i + 1 < |tail| then tail[i + 1] else ring[at]
  }

  /** The module n links on. */
  ghost function Nth(m: ModuleInfo, n: nat): ModuleInfo?
    reads *
  {
    if n == 0 then m
    else
      var p := Nth(m, n - 1);
      if p == null then null else p.next
  }

  /** The loop of MangledTypeQueryModule ends: it comes to a module with the name, or to end. */
  ghost predicate SearchEnds(start: ModuleInfo, end: ModuleInfo, name: string)
    reads *
  {
    exists n: nat :: var p := Nth(start, n); p != null && (name in p.names || (n > 0 && p == end))
  }

  lemma {:induction false} NthAdds(m: ModuleInfo, n: nat, k: nat)
    requires Nth(m, n) != null
    ensures Nth(m, n + k) == Nth(Nth(m, n), k)
  {
    if k > 0 {
      NthAdds(m, n, k - 1);
    }
  }

  lemma {:induction false} AlongRing(ring: seq<ModuleInfo>, a: nat, k: nat)
    requires IsRing(ring) && a + k < |ring|
    ensures Nth(ring[a], k) == ring[a + k]
  {
    if k > 0 {
      AlongRing(ring, a, k - 1);
      assert ring[a + (k - 1)].next == After(ring, a + (k - 1));
    }
  }

  lemma {:induction false} InTail(tail: seq<ModuleInfo>, ring: seq<ModuleInfo>, at: nat, j: nat, n: nat)
    requires Lasso(tail, ring, at) && j < |tail|
    ensures var p := Nth(tail[j], n); p != null && if j + n < |tail| then p == tail[j + n] else p in ring
    ensures j + n == |tail| ==> Nth(tail[j], n) == ring[at]
  {
    if n > 0 {
      InTail(tail, ring, at, j, n - 1);
      var p := Nth(tail[j], n - 1);
      if j + n > |tail| {
        var i :| 0 <= i < |ring| && ring[i] == p;
        assert p.next == After(ring, i);
      } else {
        assert tail[j + n - 1].next == if j + n < |tail| then tail[j + n] else ring[at];
      }
    }
  }

  lemma ReachesRing(tail: seq<ModuleInfo>, ring: seq<ModuleInfo>, at: nat, j: nat, i: nat) returns (n: nat)
    requires Lasso(tail, ring, at) && j < |tail| && i < |ring|
    ensures Nth(tail[j], n) == ring[i]
  {
    n := |tail| - j;
    InTail(tail, ring, at, j, n);
    if at <= i {
      AlongRing(ring, at, i - at);
      NthAdds(tail[j], n, i - at);
      n := n + (i - at);
    } else {
      var last: nat := |ring| - 1 - at;
      AlongRing(ring, at, last);
      NthAdds(tail[j], n, last);
      assert ring[|ring| - 1].next == After(ring, |ring| - 1);
      n := n + last + 1;
      assert Nth(tail[j], n) == ring[0];
      AlongRing(ring, 0, i);
      NthAdds(tail[j], n, i);
      n := n + i;
    }
  }

  /** A search that starts, and is to end, at a module outside the ring never comes back to it.
      So it ends exactly when a module that follows, there or on the ring, has the name. */
  lemma SearchFromTail(tail: seq<ModuleInfo>, ring: seq<ModuleInfo>, at: nat, j: nat, name: string)
    requires Lasso(tail, ring, at) && j < |tail|
    ensures SearchEnds(tail[j], tail[j], name) <==> exists x :: x in tail[j..] + ring && name in x.names
  {
    if x :| x in tail[j..] + ring && name in x.names {
      var n: nat;
      if x in ring {
        var i :| 0 <= i < |ring| && ring[i] == x;
        n := ReachesRing(tail, ring, at, j, i);
      } else {
        var i: nat :| j <= i < |tail| && tail[i] == x;
        n := i - j;
        InTail(tail, ring, at, j, n);
      }
      assert Nth(tail[j], n) == x;
    }
    if n: nat :| var p := Nth(tail[j], n); p != null && (name in p.names || (n > 0 && p == tail[j])) {
      InTail(tail, ring, at, j, n);
      var p := Nth(tail[j], n);
      assert p in tail[j..] + ring by {
        if j + n < |tail| {
          assert tail[j..][n] == p;
        }
      }
    }
  }

  lemma LinkedBehindHead(before: seq<ModuleInfo>, me: ModuleInfo)
    requires before != [] && (forall i, j :: 0 <= i < j < |before| ==> before[i] != before[j]) && me !in before
    requires before[0].next == me && me.next == if |before| > 1 then before[1] else before[0]
    requires forall i :: 1 <= i < |before| ==> before[i].next == After(before, i)
    ensures IsRing([before[0], me] + before[1..])
  {
    var r := [before[0], me] + before[1..];
    forall i | 0 <= i < |r| ensures r[i].next == After(r, i) {
      if i >= 2 {
        assert r[i] == before[i - 1];
      }
    }
  }

  // Only the link of `me`, the first of `elsewhere`, has changed there.
  lemma OtherLeadsHere(me: ModuleInfo, elsewhere: seq<ModuleInfo>, ring: seq<ModuleInfo>)
    requires |ring| >= 2 && IsRing(ring) && ring[1] == me && elsewhere != [] && elsewhere[0] == me
    requires forall i, j :: 0 <= i < j < |elsewhere| ==> elsewhere[i] != elsewhere[j]
    requires forall x :: x in elsewhere && x != me ==> x !in ring
    requires forall i :: 1 <= i < |elsewhere| ==> elsewhere[i].next == After(elsewhere, i)
    ensures !IsRing(elsewhere) && Lasso(elsewhere[1..], ring, 1)
  {
    assert me.next == After(ring, 1) && After(ring, 1) != me && After(ring, 1) in ring;
    assert After(elsewhere, 0) in elsewhere;
  }

  /** What an interpreter knows of the loaded modules: one module of their ring. */
  class Interpreter {
    var head: ModuleInfo?
    ghost var ring: seq<ModuleInfo>

    ghost predicate Valid()
      reads this, ring
    {
      if head == null then ring == [] else IsRing(ring) && ring[0] == head
    }

    constructor ()
      ensures Valid() && ring == []
    {
      head := null;
      ring := [];
    }

    /** The list part of SWIG_InitializeModule. A module new to the process has no next; one
        already loaded here is left alone. A module that another interpreter has loaded is on
        a ring of its own, `elsewhere`: an interpreter without modules takes that ring over,
        but one with modules links the module into its own ring. What is left of the other then
        leads into this ring, and is not reached from it. */
    method InitializeModule(me: ModuleInfo, ghost elsewhere: seq<ModuleInfo>) returns (init: bool)
      requires Valid()
      requires me.next != null && me !in ring ==>
                 IsRing(elsewhere) && elsewhere[0] == me && forall x :: x in elsewhere ==> x !in ring
      modifies this, ring`next, me`next
      ensures Valid() && init == (old(me.next) == null)
      ensures ring == if me in old(ring) then old(ring)
              else if old(ring) == [] then (if init then [me] else elsewhere)
              else [old(ring)[0], me] + old(ring)[1..]
      ensures !init && me !in old(ring) && old(ring) != [] ==>
                !IsRing(elsewhere) && Lasso(elsewhere[1..], ring, 1)
    {
      hide Lasso;
      ghost var before := ring;
      init := me.next == null;
      if init {
        me.next := me;
      }
      if head == null {
        head := me;
        ring := if init then [me] else elsewhere;
      } else {
        var found := Find(me);
        if !found {
          me.next := head.next;
          head.next := me;
          ring := [before[0], me] + before[1..];
          LinkedBehindHead(before, me);
          if !init {
            assert forall i :: 0 <= i < |elsewhere| ==> elsewhere[i] !in before;
            OtherLeadsHere(me, elsewhere, ring);
          }
        }
      }
    }

    method Find(me: ModuleInfo) returns (found: bool)
      requires Valid() && head != null
      ensures found <==> me in ring
    {
      var iter := head;
      ghost var k := 0;
      while true
        invariant 0 <= k < |ring| && iter == ring[k]
        invariant forall j :: 0 <= j < k ==> ring[j] != me
        decreases |ring| - k
      {
        if iter == me {
          return true;
        }
        assert iter.next == After(ring, k);
        iter := iter.next;
        k := k + 1;
        if iter == head {
          break;
        }
      }
      return false;
    }
  }

  /** Two interpreters: the first loads c and a, the second b, and then a as well. The search
      for a name from the head of the first, c, ends exactly when one of the three has it; for
      any other name it goes round a and b for ever. */
  method LoadTwice(c: ModuleInfo, a: ModuleInfo, b: ModuleInfo) returns (i1: Interpreter, i2: Interpreter)
    requires c.next == null && a.next == null && b.next == null && c != a && a != b && c != b
    modifies c`next, a`next, b`next
    ensures i1.head == c && i1.ring == [c, a] && !i1.Valid()
    ensures i2.Valid() && i2.ring == [b, a]
    ensures forall name :: SearchEnds(c, c, name) <==> name in c.names + a.names + b.names
  {
    i1 := LoadBoth(c, a);
    i2 := new Interpreter();
    var init := i2.InitializeModule(b, []);
    RotatedIsRing(i1.ring, 1);
    assert i1.ring[1..] + i1.ring[..1] == [a, c];
    init := i2.InitializeModule(a, [a, c]);
    assert [a, c][1..] == [c] && [b, a] == [b, a] + [b][1..];
    SearchAfter(c, a, b);
  }

  method LoadBoth(c: ModuleInfo, a: ModuleInfo) returns (i: Interpreter)
    requires c.next == null && a.next == null && c != a
    modifies c`next, a`next
    ensures fresh(i) && i.Valid() && i.head == c && i.ring == [c, a]
  {
    i := new Interpreter();
    var init := i.InitializeModule(c, []);
    init := i.InitializeModule(a, []);
    assert [c, a] == [c, a] + [c][1..];
  }

  lemma SearchAfter(c: ModuleInfo, a: ModuleInfo, b: ModuleInfo)
    requires Lasso([c], [b, a], 1)
    ensures forall name :: SearchEnds(c, c, name) <==> name in c.names + a.names + b.names
  {
    hide SearchEnds, Lasso;
    forall name ensures SearchEnds(c, c, name) <==> name in c.names + a.names + b.names {
      SearchFromTail([c], [b, a], 1, 0, name);
      assert [c][0..] + [b, a] == [c, b, a];
      assert c in [c, b, a] && b in [c, b, a] && a in [c, b, a];
    }
  }
}
