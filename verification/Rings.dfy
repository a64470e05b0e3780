/** The ring buffer both runtimes queue their jobs in: a fixed array with two
    indices, Front (the next slot to read) and Rear (the last slot written).
    `Ring` is its value at one instant, the thing the concurrent protocols step
    over; `JobQueue` is the mutable record the C functions update in place. */
module Rings {

  datatype Option<+T> = None | Some(value: T)

  /** Index x brought back into 0..n-1, for the index at most one lap ahead. */
  function Wrap(x: nat, n: nat): nat
    requires x < 2 * n
  {
    if x < n then x else x - n
  }

  // The C code writes x % n; on the indices it forms, the two agree.
  lemma WrapIsRemainder(x: nat, n: nat)
    requires x < 2 * n
    ensures Wrap(x, n) == x % n
  {
    if x >= n {
      assert x == n + (x - n);
      ModStep(x - n, n);
    } else {
      ModSmall(x, n);
    }
  }

  lemma ModSmall(y: nat, n: nat)
    requires y < n
    ensures y % n == y
  {
  }

  lemma ModStep(y: nat, n: nat)
    requires y < n
    ensures (y + n) % n == y
  {
    var q, r := (y + n) / n, (y + n) % n;
    assert (q - 1) * n == y - r;
    MultipleInRange(q - 1, n);
  }

  lemma MultipleInRange(k: int, n: int)
    requires -n < k * n < n
    ensures k == 0
  {
  }

  /** How many slots lie from `front` up to and including `rear`, going round:
      (rear + 1 - front) mod n. */
  function Span(front: nat, rear: nat, n: nat): (d: nat)
    requires front < n && rear < n
    ensures d < n
    ensures Wrap(front + d, n) == Wrap(rear + 1, n)
  {
    if rear + 1 < front then rear + 1 + n - front
    else if rear + 1 - front == n then 0
    else rear + 1 - front
  }

  datatype Ring<T> = Ring(slots: seq<T>, front: nat, rear: nat) {

    function Cap(): nat { |slots| }

    // Front starts at 1, so a ring needs at least two slots.
    predicate Valid() {
      2 <= Cap() && front < Cap() && rear < Cap()
    }

    predicate IsEmpty()
      requires Valid()
    {
      Wrap(rear + 1, Cap()) == front
    }

    predicate IsFull()
      requires Valid()
    {
      Wrap(rear + 2, Cap()) == front
    }

    /** Occupancy: the number of jobs waiting to be read. */
    function Occ(): nat
      requires Valid()
    {
      Span(front, rear, Cap())
    }

    // The slot of the k-th waiting job.
    function SlotOf(k: nat): nat
      requires Valid() && k < Cap()
    {
      Wrap(front + k, Cap())
    }

    function Items(): (s: seq<T>)
      requires Valid()
      ensures |s| == Occ()
      ensures forall k :: 0 <= k < Occ() ==> s[k] == slots[SlotOf(k)]
    {
      seq(Occ(), k requires 0 <= k < Occ() => slots[SlotOf(k)])
    }

    // The slot write of Enqueue; nothing is published yet.
    function Write(at: nat, job: T): Ring<T>
      requires at < Cap()
    {
      this.(slots := slots[at := job])
    }

    function MoveRear(at: nat): Ring<T> { this.(rear := at) }

    function MoveFront(at: nat): Ring<T> { this.(front := at) }

    /** The ring after a whole Enqueue, and after a whole Dequeue, with nobody in between. */
    function Enqueued(job: T): Ring<T>
      requires Valid()
    {
      Write(Wrap(rear + 1, Cap()), job).MoveRear(Wrap(rear + 1, Cap()))
    }

    function Dequeued(): Ring<T>
      requires Valid()
    {
      MoveFront(Wrap(front + 1, Cap()))
    }
  }

  /** The two tests of the C code decide exactly "no job waiting" and
      "one slot short of capacity". */
  lemma TestsMeasureOccupancy<T>(q: Ring<T>)
    requires q.Valid()
    ensures q.IsEmpty() <==> q.Occ() == 0
    ensures q.IsFull() <==> q.Occ() == q.Cap() - 1
    ensures q.IsEmpty() <==> (q.rear + 1) % q.Cap() == q.front
    ensures q.IsFull() <==> (q.rear + 2) % q.Cap() == q.front
  {
    WrapIsRemainder(q.rear + 1, q.Cap());
    WrapIsRemainder(q.rear + 2, q.Cap());
  }

  /** Writing the slot after Rear leaves every unread slot alone. */
  lemma WriteKeepsItems<T>(q: Ring<T>, job: T)
    requires q.Valid()
    ensures var q' := q.Write(Wrap(q.rear + 1, q.Cap()), job);
            q'.Valid() && q'.Items() == q.Items() && q'.Occ() == q.Occ()
    ensures forall k :: 0 <= k < q.Occ() ==> q.SlotOf(k) != Wrap(q.rear + 1, q.Cap())
  {
    var at := Wrap(q.rear + 1, q.Cap());
    var q' := q.Write(at, job);
    forall k | 0 <= k < q.Occ()
      ensures q'.Items()[k] == q.Items()[k]
    {
      assert q.SlotOf(k) != at;
    }
  }

  /** Publishing a slot below capacity appends its job. */
  lemma PublishAppends<T>(q: Ring<T>)
    requires q.Valid() && q.Occ() <= q.Cap() - 2
    ensures var at := Wrap(q.rear + 1, q.Cap());
            q.MoveRear(at).Valid() &&
            q.MoveRear(at).Items() == q.Items() + [q.slots[at]] && q.MoveRear(at).Occ() == q.Occ() + 1
  {
    var at := Wrap(q.rear + 1, q.Cap());
    var q' := q.MoveRear(at);
    assert q'.Occ() == q.Occ() + 1;
  }

  /** Publishing on a full ring makes every waiting job vanish: the ring then
      reads as empty. */
  lemma PublishOnFullLosesAll<T>(q: Ring<T>)
    requires q.Valid() && q.IsFull()
    ensures q.MoveRear(Wrap(q.rear + 1, q.Cap())).Items() == []
  {
  }

  /** Moving Front on drops exactly the head. */
  lemma AdvanceDropsHead<T>(q: Ring<T>)
    requires q.Valid() && q.Occ() > 0
    ensures var q' := q.MoveFront(Wrap(q.front + 1, q.Cap()));
            q'.Valid() && q'.Items() == q.Items()[1..] && q.Items()[0] == q.slots[q.front] && q'.Occ() == q.Occ() - 1
  {
    var q' := q.MoveFront(Wrap(q.front + 1, q.Cap()));
    assert q'.Occ() == q.Occ() - 1;
    HeadIsFrontSlot(q);
    forall k | 0 <= k < q'.Occ()
      ensures q'.Items()[k] == q.Items()[1..][k]
    {
      assert q'.SlotOf(k) == q.SlotOf(k + 1);
    }
  }

  lemma HeadIsFrontSlot<T>(q: Ring<T>)
    requires q.Valid() && q.Occ() > 0
    ensures q.Items()[0] == q.slots[q.front]
  {
    assert q.SlotOf(0) == q.front;
  }

  /** A whole Enqueue below capacity appends one job. */
  lemma EnqueuedAppends<T>(q: Ring<T>, job: T)
    requires q.Valid() && q.Occ() <= q.Cap() - 2
    ensures q.Enqueued(job).Valid() && q.Enqueued(job).Items() == q.Items() + [job]
  {
    WriteKeepsItems(q, job);
    PublishAppends(q.Write(Wrap(q.rear + 1, q.Cap()), job));
  }

  /** struct QueueRecord, updated in place. */
  class JobQueue<T(0)> {
    var Array: array<T>
    var Capacity: nat
    var Front: nat
    var Rear: nat

    ghost predicate Valid()
      reads this, Array
    {
      Capacity == Array.Length && View().Valid()
    }

    ghost function View(): Ring<T>
      reads this, Array
    {
      Ring(Array[..], Front, Rear)
    }

    ghost function Contents(): seq<T>
      requires Valid()
      reads this, Array
    {
      View().Items()
    }

    // CreateQueue
    constructor (maxElements: nat)
      requires 2 <= maxElements
      ensures Valid() && fresh(Array) && Capacity == maxElements
      ensures Contents() == []
    {
      Array := new T[maxElements];
      Capacity := maxElements;
      Front := 1;
      Rear := 0;
    }

    method IsEmpty() returns (empty: bool)
      requires Valid()
      ensures empty <==> Contents() == []
    {
      TestsMeasureOccupancy(View());
      empty := (Rear + 1) % Capacity == Front;
    }

    method IsFull() returns (full: bool)
      requires Valid()
      ensures full <==> |Contents()| == Capacity - 1
    {
      TestsMeasureOccupancy(View());
      full := (Rear + 2) % Capacity == Front;
    }

    /** Run by itself, Enqueue gets past its spin loop exactly on a ring that is
        not full; it then appends. */
    method Enqueue(job: T)
      requires Valid() && |Contents()| < Capacity - 1
      modifies this`Rear, Array
      ensures Valid() && Array == old(Array)
      ensures Contents() == old(Contents()) + [job] && View() == old(View()).Enqueued(job)
    {
      ghost var q := View();
      WrapIsRemainder(Rear + 1, Capacity);
      EnqueuedAppends(q, job);
      hide Ring.Items, Ring.Occ;
      var temp := (Rear + 1) % Capacity;
      Array[temp] := job;
      Rear := temp;
      assert View() == q.Enqueued(job);
    }

    /** Front: reads the head without removing it. */
    method Head() returns (job: T)
      requires Valid() && Contents() != []
      ensures job == Contents()[0]
    {
      HeadIsFrontSlot(View());
      job := Array[Front];
    }

    method Dequeue()
      requires Valid() && Contents() != []
      modifies this`Front
      ensures Valid()
      ensures Contents() == old(Contents())[1..] && View() == old(View()).Dequeued()
    {
      AdvanceDropsHead(View());
      WrapIsRemainder(Front + 1, Capacity);
      Front := (Front + 1) % Capacity;
    }

    method MaybeFandD() returns (job: Option<T>)
      requires Valid()
      modifies this`Front
      ensures Valid()
      ensures old(Contents()) == [] ==> job == None && View() == old(View())
      ensures old(Contents()) != [] ==>
                job == Some(old(Contents())[0]) && Contents() == old(Contents())[1..] && View() == old(View()).Dequeued()
    {
      var empty := IsEmpty();
      if empty {
        return None;
      }
      AdvanceDropsHead(View());
      WrapIsRemainder(Front + 1, Capacity);
      job := Some(Array[Front]);
      Front := (Front + 1) % Capacity;
    }
  }
}
