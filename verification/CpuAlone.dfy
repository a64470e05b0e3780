/** The queue operations of the CPU runtime run alone, against the methods that update the
    queue record in place: the same result on a ring where they can go on, and nothing but
    spinning on one where they cannot. */
module CpuAlone {
  import opened Rings
  import opened CpuMachine

  /** n steps of Enqueue with nobody in between; fewer if it publishes before. */
  function EnqAlone(e: Enq, job: Job, r: Ring<Job>, n: nat): EnqOut
    requires r.Valid() && EnqFits(e, r.Cap())
    decreases n
  {
    if n == 0 then EnqGo(e, r)
    else
      match EnqNext(e, job, r)
      case Published(r') => Published(r')
      case EnqGo(e', r') => if r'.Valid() && EnqFits(e', r'.Cap()) then EnqAlone(e', job, r', n - 1) else EnqGo(e', r')
  }

  /** n steps of Front, Dequeue or MaybeFandD. */
  function DeqAlone(d: Deq, r: Ring<Job>, n: nat): DeqOut
    requires r.Valid() && DeqFits(d, r.Cap())
    decreases n
  {
    if n == 0 then DeqGo(d)
    else
      match DeqNext(d, r)
      case DeqGo(d') => if DeqFits(d', r.Cap()) then DeqAlone(d', r, n - 1) else DeqGo(d')
      case other => other
  }

  /** What JobQueue.Enqueue does, in five steps. */
  lemma EnqueueAlone(r: Ring<Job>, job: Job)
    requires r.Valid() && !r.IsFull()
    ensures EnqAlone(FullRear, job, r, 5) == Published(r.Enqueued(job))
  {
    var at := Wrap(r.rear + 1, r.Cap());
    var w := r.Write(at, job);
    assert EnqAlone(EnqPublish(at), job, w, 1) == Published(r.Enqueued(job));
    assert EnqAlone(EnqWrite(at), job, r, 2) == EnqAlone(EnqPublish(at), job, w, 1);
    assert EnqAlone(EnqRead, job, r, 3) == EnqAlone(EnqWrite(at), job, r, 2);
    assert EnqAlone(FullFront(r.rear), job, r, 4) == EnqAlone(EnqRead, job, r, 3);
  }

  /** On a full ring Enqueue only repeats its test. */
  lemma {:induction false} EnqueueSpins(r: Ring<Job>, job: Job, k: nat)
    requires r.Valid() && r.IsFull()
    ensures EnqAlone(FullRear, job, r, 2 * k) == EnqGo(FullRear, r)
  {
    if k > 0 {
      EnqueueSpins(r, job, k - 1);
      assert EnqAlone(FullFront(r.rear), job, r, 2 * k - 1) == EnqAlone(FullRear, job, r, 2 * (k - 1));
    }
  }

  /** What JobQueue.Head does, in four steps: the oldest job is read and the ring untouched. */
  lemma FrontAlone(r: Ring<Job>)
    requires r.Valid() && !r.IsEmpty()
    ensures r.Items() != [] && DeqAlone(EmptyRear, r, 4) == Got(r.Items()[0])
  {
    TestsMeasureOccupancy(r);
    HeadIsFrontSlot(r);
    assert DeqAlone(ReadSlot(r.front), r, 1) == Got(r.Items()[0]);
    assert DeqAlone(ReadFront, r, 2) == DeqAlone(ReadSlot(r.front), r, 1);
    assert DeqAlone(EmptyFront(r.rear), r, 3) == DeqAlone(ReadFront, r, 2);
  }

  /** What JobQueue.Dequeue does, in four more; `copy` is what Front has read. */
  lemma DequeueAlone(r: Ring<Job>, copy: Job)
    requires r.Valid() && !r.IsEmpty()
    ensures DeqAlone(AgainRear(copy), r, 4) == Took(copy, r.Dequeued())
  {
    assert DeqAlone(Advance(copy, r.front), r, 1) == Took(copy, r.Dequeued());
    assert DeqAlone(ReadAgain(copy), r, 2) == DeqAlone(Advance(copy, r.front), r, 1);
    assert DeqAlone(AgainFront(copy, r.rear), r, 3) == DeqAlone(ReadAgain(copy), r, 2);
  }

  /** On an empty ring Front sees that it is empty, and tries again or gives up; Dequeue only
      repeats its test. */
  lemma {:induction false} DequeueSpins(r: Ring<Job>, copy: Job, k: nat)
    requires r.Valid() && r.IsEmpty()
    ensures DeqAlone(EmptyRear, r, 2) == SawEmpty
    ensures DeqAlone(AgainRear(copy), r, 2 * k) == DeqGo(AgainRear(copy))
  {
    assert DeqAlone(EmptyFront(r.rear), r, 1) == SawEmpty;
    if k > 0 {
      DequeueSpins(r, copy, k - 1);
      assert DeqAlone(AgainFront(copy, r.rear), r, 2 * k - 1) == DeqAlone(AgainRear(copy), r, 2 * (k - 1));
    }
  }
}
