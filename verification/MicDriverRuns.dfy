/** pushJobs and then pullJobs against concurrent workers, under every fair schedule. */
module MicDriverRuns {
  import opened Rings
  import opened MicMachine
  import opened MicLiveness
  import MicSafety
  import opened MicDriver

  /** The calls pushJobs makes for n tasks; block k is the parameter block of chunk k. */
  function ChunkCalls(n: int, microkernel: int, blocks: seq<int>): (calls: seq<Args>)
    requires |blocks| == ChunkCount(n)
    ensures |calls| == ChunkCount(n)
  {
    seq(ChunkCount(n), k requires 0 <= k < ChunkCount(n) => Args(microkernel, Width(k, n), 1000 * k, blocks[k]))
  }

  function DriverBatch(n: nat, microkernel: int, blocks: seq<int>): Batch
    requires |blocks| == ChunkCount(n)
  {
    Batch(ChunkCalls(n, microkernel, blocks), n / MAX_WORKERS)
  }

  lemma DrainedIsAllPolled(s: State)
    requires MicSafety.Inv(s)
    ensures Drained(s) <==> |s.pushed| == |s.polled|
  {
    var one := (job: Job) => 1;
    JobsAddUp(s);
    if Drained(s) {
      MicSafety.NoHands(one, s.threads);
    } else if |s.pushed| == |s.polled| {
      forall t | 0 <= t < |s.threads| ensures MicSafety.Hand(s.threads[t]) == None {
        MicSafety.HandWithinHands(one, s.threads, t);
      }
    }
  }

  /** Both calls return under every fair schedule, with any number of workers if the ring has room
      for all chunks, and with one worker exactly if there are at most 2*Capacity-1 chunks. From
      then on the pushed jobs are the chunks, each in exactly one place; one of them stays unpolled
      exactly when 32 does not divide the number of tasks, and otherwise nothing is left. With
      more chunks pushJobs spins for ever. */
  lemma DriverCompletes(s: State, n: nat, microkernel: int, blocks: seq<int>, sched: nat -> nat) returns (m: nat)
    requires Init(s) && 1 <= s.workers && |s.threads| == s.workers + 1 && Fair(sched, |s.threads|)
    requires |blocks| == ChunkCount(n) && (ChunkCount(n) <= s.Cap() - 1 || s.workers == 1)
    ensures var batch := DriverBatch(n, microkernel, blocks);
            BatchInv(s, batch) &&
            forall k :: m <= k ==>
              var end := At(s, batch, sched, k);
              end.Valid() &&
              if ChunkCount(n) <= 2 * s.Cap() - 1 then
                Complete(end, batch) && |end.pushed| - |end.polled| == (if n % MAX_WORKERS == 0 then 0 else 1) &&
                (Drained(end) <==> n % MAX_WORKERS == 0)
              else Jammed(end) && !HostDone(end, batch)
  {
    var batch := DriverBatch(n, microkernel, blocks);
    ReturnedVersusPushed(n);
    hide BatchInv, Init, Fair, Drained, Jammed, ChunkCalls;
    m := BatchCompletes(s, batch, sched);
    forall k | m <= k
      ensures Drained(At(s, batch, sched, k))
              <==> |At(s, batch, sched, k).pushed| == |At(s, batch, sched, k).polled|
    {
      HasInv(At(s, batch, sched, k), batch);
      DrainedIsAllPolled(At(s, batch, sched, k));
    }
  }

  lemma HasInv(s: State, batch: Batch)
    requires BatchInv(s, batch)
    ensures MicSafety.Inv(s)
  {
  }
}
