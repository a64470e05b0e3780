/** The coprocessor runtime's API as the C functions run it: global queues, job records filled
    in and handed over, and the driver that cuts a task list into jobs. Calls are taken one
    at a time here; every interleaving is the business of MicMachine. */
module MicRuntime {
  import opened Rings
  import opened MicMachine

  // ---------- a queue operation is its steps, run alone ----------

  /** n steps of Enqueue by thread t with no other thread in between. */
  function EnqAlone(pc: Pc, q: Guarded, t: nat, n: nat): (Pc, Guarded)
    decreases n
  {
    if n == 0 || !IsEnq(pc) || !q.ring.Valid() || !Fits(pc, q.ring.Cap()) then (pc, q)
    else
      var (pc', q') := EnqNext(pc, q, t);
      EnqAlone(pc', q', t, n - 1)
  }

  function DeqAlone(pc: Pc, q: Guarded, t: nat, n: nat): (Pc, Guarded)
    decreases n
  {
    if n == 0 || !IsDeq(pc) || !q.ring.Valid() || !Fits(pc, q.ring.Cap()) then (pc, q)
    else
      var (pc', q') := DeqNext(pc, q, t);
      DeqAlone(pc', q', t, n - 1)
  }

  lemma EnqOnce(pc: Pc, q: Guarded, t: nat, n: nat)
    requires n > 0 && IsEnq(pc) && q.ring.Valid() && Fits(pc, q.ring.Cap())
    ensures EnqAlone(pc, q, t, n) == EnqAlone(EnqNext(pc, q, t).0, EnqNext(pc, q, t).1, t, n - 1)
  {
  }

  lemma DeqOnce(pc: Pc, q: Guarded, t: nat, n: nat)
    requires n > 0 && IsDeq(pc) && q.ring.Valid() && Fits(pc, q.ring.Cap())
    ensures DeqAlone(pc, q, t, n) == DeqAlone(DeqNext(pc, q, t).0, DeqNext(pc, q, t).1, t, n - 1)
  {
  }

  lemma AloneStops(pc: Pc, q: Guarded, t: nat, n: nat)
    ensures !IsEnq(pc) ==> EnqAlone(pc, q, t, n) == (pc, q)
    ensures !IsDeq(pc) ==> DeqAlone(pc, q, t, n) == (pc, q)
  {
  }

  lemma AloneIsDone(pc: Pc, q: Guarded, t: nat)
    ensures EnqAlone(pc, q, t, 0) == (pc, q) && DeqAlone(pc, q, t, 0) == (pc, q)
  {
  }

  /** Run alone on a ring that is not full, the seven steps of Enqueue amount to what
      JobQueue.Enqueue does. */
  lemma EnqueueAlone(r: Ring<Job>, job: Job, t: nat)
    requires r.Valid() && !r.IsFull()
    ensures EnqAlone(FullRear(job), Guarded(r, None), t, 7) == (AtHead, Guarded(r.Enqueued(job), None))
  {
    hide EnqAlone, Ring.Enqueued;
    var free := Guarded(r, None);
    EnqOnce(FullRear(job), free, t, 7);
    EnqOnce(FullFront(job, r.rear), free, t, 6);
    EnqOnce(EnqLock(job), free, t, 5);
    LockedEnqueueAlone(r, job, t);
  }

  /** On a full ring Enqueue only repeats its test, before it asks for the mutex. */
  lemma {:induction false} EnqueueSpins(r: Ring<Job>, job: Job, t: nat, k: nat)
    requires r.Valid() && r.IsFull()
    ensures EnqAlone(FullRear(job), Guarded(r, None), t, 2 * k) == (FullRear(job), Guarded(r, None))
  {
    hide EnqAlone;
    var free := Guarded(r, None);
    if k == 0 {
      AloneIsDone(FullRear(job), free, t);
    } else {
      EnqOnce(FullRear(job), free, t, 2 * k);
      EnqOnce(FullFront(job, r.rear), free, t, 2 * k - 1);
      EnqueueSpins(r, job, t, k - 1);
    }
  }

  lemma LockedEnqueueAlone(r: Ring<Job>, job: Job, t: nat)
    requires r.Valid()
    ensures EnqAlone(EnqRead(job), Guarded(r, Some(t)), t, 4) == (AtHead, Guarded(r.Enqueued(job), None))
  {
    hide EnqAlone;
    var at := Wrap(r.rear + 1, r.Cap());
    var held := Guarded(r, Some(t));
    EnqOnce(EnqRead(job), held, t, 4);
    EnqOnce(EnqWrite(job, at), held, t, 3);
    EnqOnce(EnqPublish(job, at), Guarded(r.Write(at, job), Some(t)), t, 2);
    EnqOnce(EnqUnlock, Guarded(r.Enqueued(job), Some(t)), t, 1);
    AloneIsDone(AtHead, Guarded(r.Enqueued(job), None), t);
  }

  /** Run alone, MaybeFandD gives up after two steps on an empty ring; otherwise ten steps take
      the head off, as JobQueue.MaybeFandD does. */
  lemma MaybeFandDAlone(r: Ring<Job>, t: nat)
    requires r.Valid()
    ensures r.IsEmpty() ==> DeqAlone(EmptyRear, Guarded(r, None), t, 2) == (AtHead, Guarded(r, None))
    ensures !r.IsEmpty() ==>
              r.Items() != [] &&
              DeqAlone(EmptyRear, Guarded(r, None), t, 10) == (Holding(r.Items()[0]), Guarded(r.Dequeued(), None))
  {
    hide DeqAlone, Ring.Items;
    var free := Guarded(r, None);
    if r.IsEmpty() {
      DeqOnce(EmptyRear, free, t, 2);
      DeqOnce(EmptyFront(r.rear), free, t, 1);
      AloneIsDone(AtHead, free, t);
    } else {
      TestsMeasureOccupancy(r);
      HeadIsFrontSlot(r);
      DeqOnce(EmptyRear, free, t, 10);
      DeqOnce(EmptyFront(r.rear), free, t, 9);
      DeqOnce(DeqLock, free, t, 8);
      LockedDequeueAlone(r, t);
    }
  }

  lemma LockedDequeueAlone(r: Ring<Job>, t: nat)
    requires r.Valid() && !r.IsEmpty()
    ensures DeqAlone(LockedRear, Guarded(r, Some(t)), t, 7)
         == (Holding(r.slots[r.front]), Guarded(r.Dequeued(), None))
  {
    hide DeqAlone, Ring.Dequeued;
    var held := Guarded(r, Some(t));
    DeqOnce(LockedRear, held, t, 7);
    DeqOnce(LockedFront(r.rear), held, t, 6);
    DeqOnce(DeqReadFront, held, t, 5);
    TakeHeadAlone(r, t);
  }

  lemma TakeHeadAlone(r: Ring<Job>, t: nat)
    requires r.Valid()
    ensures DeqAlone(DeqReadSlot(r.front), Guarded(r, Some(t)), t, 4)
         == (Holding(r.slots[r.front]), Guarded(r.Dequeued(), None))
  {
    hide DeqAlone;
    var job, held, taken := r.slots[r.front], Guarded(r, Some(t)), Guarded(r.Dequeued(), Some(t));
    DeqOnce(DeqReadSlot(r.front), held, t, 4);
    DeqOnce(DeqReadAgain(job), held, t, 3);
    DeqOnce(DeqAdvance(job, r.front), held, t, 2);
    DeqOnce(GotUnlock(job), taken, t, 1);
    AloneIsDone(Holding(job), Guarded(r.Dequeued(), None), t);
  }

  // ---------- the API ----------

  /** The globals of the runtime and one worker. `memory` is what each device block holds;
      `serial` counts the job records made. */
  class Runtime {
    const newJobs: JobQueue<Job>
    const finishedJobs: JobQueue<Job>
    var kill: bool
    var memory: seq<int>
    var serial: nat
    ghost var pushed: seq<Job>
    ghost var polled: seq<Job>

    /** Two separate queues of one size, and no job lost, copied or out of order. */
    ghost predicate Valid()
      reads this, newJobs, finishedJobs, newJobs.Array, finishedJobs.Array
    {
      && newJobs != finishedJobs && newJobs.Array != finishedJobs.Array
      && newJobs.Valid() && finishedJobs.Valid() && newJobs.Capacity == finishedJobs.Capacity
      && pushed == polled + Waiting() && |pushed| == serial
    }

    /** Every job not yet polled, oldest first. */
    ghost function Waiting(): seq<Job>
      requires newJobs.Valid() && finishedJobs.Valid()
      reads this, newJobs, finishedJobs, newJobs.Array, finishedJobs.Array
    {
      finishedJobs.Contents() + newJobs.Contents()
    }

    // MIC_gemtcSetup
    constructor (queueSize: nat)
      requires 2 <= queueSize
      ensures Valid() && !kill && pushed == polled == [] && Waiting() == [] && newJobs.Capacity == queueSize
      ensures fresh(newJobs) && fresh(finishedJobs) && fresh(newJobs.Array) && fresh(finishedJobs.Array)
    {
      newJobs := new JobQueue<Job>(queueSize);
      finishedJobs := new JobQueue<Job>(queueSize);
      kill := false;
      memory := [];
      serial := 0;
      pushed := [];
      polled := [];
    }

    /** gemtcGPUMalloc and gemtcMemcpyHostToDevice: a new block with the given value. */
    method CopyToDevice(value: int) returns (block: nat)
      modifies this`memory
      ensures block == |old(memory)| && memory == old(memory) + [value]
    {
      block := |memory|;
      memory := memory + [value];
    }

    /** MIC_gemtcPush. */
    method Push(taskType: int, threads: int, id: int, params: int)
      requires Valid() && |newJobs.Contents()| < newJobs.Capacity - 1
      modifies this`pushed, this`serial, newJobs`Rear, newJobs.Array
      ensures Valid() && newJobs.Array == old(newJobs.Array)
      ensures var job := Job(|old(pushed)|, taskType, threads, id, params);
              pushed == old(pushed) + [job] && Waiting() == old(Waiting()) + [job] &&
              |newJobs.Contents()| == |old(newJobs.Contents())| + 1
    {
      var job := Job(serial, taskType, threads, id, params);
      serial := serial + 1;
      newJobs.Enqueue(job);
      pushed := pushed + [job];
    }

    /** MIC_gemtcPoll: the oldest result, or -1 and NULL. */
    method Poll() returns (id: int, params: Option<int>)
      requires Valid()
      modifies this`polled, finishedJobs`Front
      ensures Valid()
      ensures old(finishedJobs.Contents()) == [] ==>
                id == -1 && params == None && polled == old(polled) && Waiting() == old(Waiting()) &&
                finishedJobs.Contents() == []
      ensures old(finishedJobs.Contents()) != [] ==>
                var job := old(Waiting())[0];
                id == job.jobId && params == Some(job.params) && polled == old(polled) + [job] &&
                Waiting() == old(Waiting())[1..] && finishedJobs.Contents() == old(finishedJobs.Contents())[1..]
    {
      hide Ring.Items, Ring.Occ, Ring.Dequeued, Ring.Valid, JobQueue.View;
      var job := finishedJobs.MaybeFandD();
      if job.None? {
        return -1, None;
      }
      assert old(Waiting()) == [job.value] + Waiting();
      polled := polled + [job.value];
      assert old(polled) + ([job.value] + Waiting()) == polled + Waiting();
      return job.value.jobId, Some(job.value.params);
    }

    /** One pass of super_kernel's loop: the oldest new job moves to the finished queue, which
        must not be full when there is one. */
    method Work()
      requires Valid()
      requires !kill && newJobs.Contents() != [] ==> |finishedJobs.Contents()| < finishedJobs.Capacity - 1
      modifies newJobs`Front, finishedJobs`Rear, finishedJobs.Array
      ensures Valid() && finishedJobs.Array == old(finishedJobs.Array)
      ensures Waiting() == old(Waiting()) && polled == old(polled)
      ensures !kill && old(newJobs.Contents()) != [] ==>
                newJobs.Contents() == old(newJobs.Contents())[1..] &&
                |finishedJobs.Contents()| == |old(finishedJobs.Contents())| + 1
      ensures kill || old(newJobs.Contents()) == [] ==>
                newJobs.View() == old(newJobs.View()) && finishedJobs.View() == old(finishedJobs.View())
    {
      hide Ring.Items, Ring.Occ, Ring.Enqueued, Ring.Dequeued, Ring.Valid, JobQueue.View;
      if kill {
        return;
      }
      var job := newJobs.MaybeFandD();
      if job.None? {
        return;
      }
      finishedJobs.Enqueue(job.value);
    }
  }
}
