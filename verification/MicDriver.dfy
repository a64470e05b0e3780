/** The driver that cuts a task list into jobs of at most 32 tasks, pushes them, and polls for
    as many results as it reports having pushed. */
module MicDriver {
  import opened Rings
  import opened MicMachine
  import opened MicRuntime

  const MAX_WORKERS := 32

  /** C's division, which truncates toward zero. */
  function Quotient(n: int): int {
    if n >= 0 then n / MAX_WORKERS else -(-n / MAX_WORKERS)
  }

  /** The number of jobs n tasks are cut into. */
  function ChunkCount(n: int): nat {
    if n <= 0 then 0 else (n + MAX_WORKERS - 1) / MAX_WORKERS
  }

  // Chunk k is the tasks from Offset(k) up to Offset(k) + Width(k, n).
  function Offset(k: nat): nat { k * MAX_WORKERS }

  function Width(k: nat, n: int): int {
    if Offset(k) + MAX_WORKERS <= n then MAX_WORKERS else n - Offset(k)
  }

  predicate InChunk(task: int, k: nat, n: int) {
    Offset(k) <= task < Offset(k) + Width(k, n)
  }

  /** The chunks are in order and touch, none is empty or too wide, and they end at n. */
  lemma ChunksAreContiguous(n: int, k: nat)
    requires k < ChunkCount(n)
    ensures 1 <= Width(k, n) <= MAX_WORKERS
    ensures k + 1 < ChunkCount(n) ==> Offset(k) + Width(k, n) == Offset(k + 1)
    ensures k + 1 == ChunkCount(n) ==> Offset(k) + Width(k, n) == n
  {
  }

  /** Every task is in exactly one chunk, and nothing else is. */
  lemma EveryTaskInOneChunk(n: int, task: int)
    ensures 0 <= task < n <==> exists k :: 0 <= k < ChunkCount(n) && InChunk(task, k, n)
    ensures forall k, l :: 0 <= k < ChunkCount(n) && 0 <= l < ChunkCount(n) && InChunk(task, k, n) && InChunk(task, l, n)
                           ==> k == l
  {
    if 0 <= task < n {
      assert InChunk(task, task / MAX_WORKERS, n);
    }
    forall k | 0 <= k < ChunkCount(n) && InChunk(task, k, n) ensures 0 <= task < n {
      ChunksAreContiguous(n, k);
    }
  }

  /** What pushJobs returns is the number of jobs it pushed exactly when 32 divides n;
      otherwise, for positive n, it is one too few. */
  lemma ReturnedVersusPushed(n: int)
    requires n >= 0
    ensures Quotient(n) == ChunkCount(n) <==> n % MAX_WORKERS == 0
    ensures n % MAX_WORKERS != 0 ==> ChunkCount(n) == Quotient(n) + 1
  {
  }

  /** jobs are the first |jobs| chunks of n tasks: each job's parameter block holds its offset. */
  ghost predicate AreChunks(jobs: seq<Job>, n: int, microkernel: int, memory: seq<int>) {
    && |jobs| <= ChunkCount(n)
    && forall k :: 0 <= k < |jobs| ==> IsChunk(jobs[k], k, n, microkernel, memory)
  }

  ghost predicate IsChunk(job: Job, k: nat, n: int, microkernel: int, memory: seq<int>) {
    && job.jobType == microkernel && job.numThreads == Width(k, n) && job.jobId == 1000 * k
    && 0 <= job.params < |memory| && memory[job.params] == Offset(k)
  }

  lemma NoChunks(n: int, microkernel: int, memory: seq<int>)
    ensures AreChunks([], n, microkernel, memory)
  {
  }

  // One more chunk, whose offset has just been stored.
  lemma NextChunk(jobs: seq<Job>, job: Job, n: int, microkernel: int, memory: seq<int>, value: int)
    requires AreChunks(jobs, n, microkernel, memory) && |jobs| < ChunkCount(n)
    requires IsChunk(job, |jobs|, n, microkernel, memory + [value])
    ensures AreChunks(jobs + [job], n, microkernel, memory + [value])
  {
    hide Width, Offset, ChunkCount;
    forall k | 0 <= k < |jobs| ensures IsChunk((jobs + [job])[k], k, n, microkernel, memory + [value]) {
      assert IsChunk(jobs[k], k, n, microkernel, memory);
    }
  }

  /** The body of pushJobs' loop for a chunk that is not empty. */
  method PushChunk(rt: Runtime, i: nat, offset: int, threads: int, n: int, microkernel: int, ghost made: seq<Job>)
    requires rt.Valid() && |rt.newJobs.Contents()| < rt.newJobs.Capacity - 1
    requires AreChunks(made, n, microkernel, rt.memory) && |made| == i < ChunkCount(n)
    requires offset == Offset(i) && threads == Width(i, n)
    modifies rt`pushed, rt`serial, rt`memory, rt.newJobs`Rear, rt.newJobs.Array
    ensures rt.Valid() && rt.newJobs.Array == old(rt.newJobs.Array)
    ensures |rt.newJobs.Contents()| == |old(rt.newJobs.Contents())| + 1
    ensures |rt.pushed| > 0
    ensures var job := rt.pushed[|rt.pushed| - 1];
            rt.pushed == old(rt.pushed) + [job] && rt.Waiting() == old(rt.Waiting()) + [job] &&
            AreChunks(made + [job], n, microkernel, rt.memory)
  {
    hide JobQueue.View, Ring.Items, Ring.Occ, AreChunks;
    ghost var memory := rt.memory;
    var block := rt.CopyToDevice(offset);
    rt.Push(microkernel, threads, i * 1000, block);
    NextChunk(made, rt.pushed[|rt.pushed| - 1], n, microkernel, memory, offset);
  }

  /** pushJobs. It returns the quotient, but pushes one job a chunk. */
  method PushJobs(rt: Runtime, n: int, microkernel: int) returns (kernelCalls: int)
    requires rt.Valid() && |rt.newJobs.Contents()| + ChunkCount(n) <= rt.newJobs.Capacity - 1
    modifies rt`pushed, rt`serial, rt`memory, rt.newJobs`Rear, rt.newJobs.Array
    ensures rt.Valid() && rt.newJobs.Array == old(rt.newJobs.Array)
    ensures kernelCalls == Quotient(n)
    ensures old(rt.pushed) <= rt.pushed && rt.Waiting() == old(rt.Waiting()) + rt.pushed[|old(rt.pushed)|..]
    ensures |rt.pushed| == |old(rt.pushed)| + ChunkCount(n)
    ensures AreChunks(rt.pushed[|old(rt.pushed)|..], n, microkernel, rt.memory)
  {
    hide JobQueue.View, JobQueue.Contents, Runtime.Waiting, AreChunks;
    kernelCalls := Quotient(n);
    ghost var made: seq<Job> := [];
    NoChunks(n, microkernel, rt.memory);
    var i := 0;
    while i <= kernelCalls
      invariant 0 <= i && (i <= kernelCalls + 1 || i == 0)
      invariant rt.Valid() && rt.newJobs.Array == old(rt.newJobs.Array)
      invariant rt.pushed == old(rt.pushed) + made && rt.Waiting() == old(rt.Waiting()) + made
      invariant |rt.newJobs.Contents()| == |old(rt.newJobs.Contents())| + |made|
      invariant |made| == if i <= ChunkCount(n) then i else ChunkCount(n)
      invariant AreChunks(made, n, microkernel, rt.memory)
    {
      var offset := i * MAX_WORKERS;
      var threads := if offset + MAX_WORKERS <= n then MAX_WORKERS else n - offset;
      if threads > 0 {
        PushChunk(rt, i, offset, threads, n, microkernel, made);
        made := made + [rt.pushed[|rt.pushed| - 1]];
      }
      i := i + 1;
    }
  }

  /** pullJobs's inner loop, with the worker given one pass before each poll: the oldest job
      is polled. */
  method PullOne(rt: Runtime)
    requires rt.Valid() && !rt.kill && 0 < |rt.Waiting()| < rt.newJobs.Capacity
    modifies rt`polled, rt.newJobs`Front, rt.finishedJobs`Front, rt.finishedJobs`Rear, rt.finishedJobs.Array
    ensures rt.Valid() && rt.finishedJobs.Array == old(rt.finishedJobs.Array)
    ensures rt.polled == old(rt.polled) + [old(rt.Waiting())[0]] && rt.Waiting() == old(rt.Waiting())[1..]
  {
    ghost var all := rt.Waiting();
    var ret: Option<int> := None;
    hide JobQueue.View, Ring.Items, Ring.Occ;
    while ret.None?
      invariant rt.Valid() && rt.finishedJobs.Array == old(rt.finishedJobs.Array)
      invariant ret.None? ==> rt.polled == old(rt.polled) && rt.Waiting() == all
      invariant ret.Some? ==> rt.polled == old(rt.polled) + [all[0]] && rt.Waiting() == all[1..]
      decreases ret.None?, |rt.newJobs.Contents()|
    {
      rt.Work();
      var id;
      id, ret := rt.Poll();
    }
  }

  /** pullJobs: as many of the oldest jobs as asked for. */
  method PullJobs(rt: Runtime, kernelCalls: int)
    requires rt.Valid() && !rt.kill
    requires kernelCalls <= |rt.Waiting()| < rt.newJobs.Capacity
    modifies rt`polled, rt.newJobs`Front, rt.finishedJobs`Front, rt.finishedJobs`Rear, rt.finishedJobs.Array
    ensures rt.Valid()
    ensures var k := if kernelCalls < 0 then 0 else kernelCalls;
            rt.polled == old(rt.polled) + old(rt.Waiting())[..k] && rt.Waiting() == old(rt.Waiting())[k..]
  {
    hide Runtime.Waiting, JobQueue.Contents, JobQueue.View;
    ghost var all := rt.Waiting();
    var i := 0;
    while i < kernelCalls
      invariant rt.Valid() && rt.finishedJobs.Array == old(rt.finishedJobs.Array)
      invariant 0 <= i && (i <= kernelCalls || i == 0)
      invariant rt.polled == old(rt.polled) + all[..i] && rt.Waiting() == all[i..]
    {
      PullOne(rt);
      assert all[..i + 1] == all[..i] + [all[i]];
      i := i + 1;
    }
  }

  /** A batch on an idle runtime: polled in order are the first n / 32 chunks, and one job is
      left behind exactly when 32 does not divide the number of tasks. */
  method RunBatch(rt: Runtime, n: nat, microkernel: int)
    requires rt.Valid() && !rt.kill && rt.Waiting() == []
    requires ChunkCount(n) <= rt.newJobs.Capacity - 1
    modifies rt`pushed, rt`polled, rt`serial, rt`memory, rt.newJobs, rt.newJobs.Array
    modifies rt.finishedJobs`Front, rt.finishedJobs`Rear, rt.finishedJobs.Array
    ensures rt.Valid()
    ensures old(rt.polled) <= rt.polled && |rt.polled| == |old(rt.polled)| + n / MAX_WORKERS
    ensures AreChunks(rt.polled[|old(rt.polled)|..], n, microkernel, rt.memory)
    ensures rt.Waiting() == [] <==> n % MAX_WORKERS == 0
    ensures |rt.Waiting()| <= 1
  {
    var k := PushJobs(rt, n, microkernel);
    ReturnedVersusPushed(n);
    PullJobs(rt, k);
  }

  /** The chunks in numbers: chunk k starts at task 32 * k and has 32 tasks or what is left, there
      are as many as cover n, and the count returned is n / 32. */
  lemma ChunksOf32(n: nat, k: nat)
    requires k < ChunkCount(n)
    ensures Offset(k) == 32 * k && Width(k, n) == if 32 * k + 32 <= n then 32 else n - 32 * k
    ensures 32 * (ChunkCount(n) - 1) < n <= 32 * ChunkCount(n)
    ensures 32 * Quotient(n) <= n < 32 * Quotient(n) + 32
  {
  }
}
