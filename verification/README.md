# GeMTC verification

A Dafny model of the parts of GeMTC, a many-task runtime, whose correctness is not plain from
reading one function, with machine-checked proofs about them. `dafny verify dfyconfig.toml`
checks everything.

The runtime has host threads push jobs into a ring buffer; worker threads ("super kernels")
take them out, run a kernel and publish the results into a second ring; host threads poll.

| files | what they hold |
|---|---|
| `Rings` | the ring buffer: a value (`Ring`) that the protocols step over, and the record updated in place (`JobQueue`) |
| `MicMachine`, `MicSafety` | the coprocessor runtime as a transition system, one step per shared read or write, one mutex per ring, any number of workers and hosts; what every run keeps while at most Capacity-1 jobs are outstanding |
| `MicSoleProducers`, `MicPaths`, `MicOverrun`, `MicBound` | exactly when that bound is needed: runs with a single producer for each ring keep every job without it, and all other configurations can lose every job as soon as one job more is outstanding |
| `MicLiveness`, `MicBatchBound`, `MicDriverRuns`, `Turns` | exactly which batches complete under every fair schedule, for every capacity and number of workers; and what the driver leaves unpolled |
| `MicShutdown` | what setting the kill flag leads to: each worker takes at most one more job, and all threads stop with no job lost |
| `MicRuntime`, `MicDriver` | the coprocessor API and the driver that cuts a task list into jobs, as methods over the mutable queues; the queue operations shown equal to the machine's steps run alone |
| `CpuMachine`, `CpuAlone`, `CpuCalls`, `CpuFifo`, `CpuBlockingRun`, `CpuProgress` | the lock-free CPU runtime with one worker: first in, first out from push to poll at every step; blocking runs take exactly their own result and no state is a dead end |
| `CpuFairness`, `CpuPaths`, `CpuLivelock` | under a fair schedule all blocking runs return exactly if the dequeue mutex starves nobody; under every fair schedule they do exactly if there is at most one host |
| `CpuPolls`, `CpuShutdown` | the same for polls among pushes and polls that start at any time; and exactly when the worker leaves its loop once the kill flag is set |
| `MatrixAlgebra`, `MatrixInverse` | the 4x4 inverse by elimination with scaled partial pivoting, row pointers and all: it finishes exactly on the invertible matrices and then returns the two-sided inverse |
| `Sums`, `FlatTables`, `MdSystem`, `MdKernels`, `MdCells` | the molecular dynamics kernels on their flat table, the conservation laws they obey, and what they do to single cells |
| `ParticleInit` | the overflow-avoiding random generator and the particle initializer |
| `SwigCasts`, `SwigModules`, `SwigHex` | the SWIG runtime type table: move-to-front cast list, search around the ring of modules, hex codec for pointers |
| `Ppm`, `PpmHeader`, `PpmLayouts` | the PPM/PGM printer and parser, exactly which header lines the parser passes over, and all layouts of the three numbers |
| `Bilateral`, `BilateralWeights` | the bilateral image filter, and what its weights are |

Reading notes.

* A run of a protocol is any finite sequence of states, from the state after setup, in which each
  state follows from the one before by one step of one thread, the start of an API call, or the
  setting of the kill flag. Spin loops are steps that lead back to their test.
* "Outstanding" jobs of the coprocessor runtime are those whose push has started and whose poll
  has not finished. With w workers, h hosts, capacity n and at most b jobs outstanding, all runs
  keep every job exactly when h is 0, or w and h are at most 1, or b is at most n - 1
  (`MicBound.BoundIsExact`). The reason is that `IsFull` is tested before the mutex is taken, so
  that two producers of one ring can both find room for one job. The CPU results need no bound.
* Fair scheduling, in which every thread gets its turn again and again, makes every batch complete
  exactly when it has at most Capacity-1 jobs, or there is one worker and it has at most
  2*Capacity-1, which is what both rings and the worker hold (`MicBatchBound.CompletesExactly`).
  With more, one worker and the host look for room for ever, and two workers can lose Capacity jobs.
* Fair scheduling makes concurrent blocking runs on the CPU return exactly when there is at most
  one host, at every capacity (`CpuLivelock.FairIsEnoughExactly`): a second host that looks again
  and again at the head can hold the dequeue mutex whenever the owner of the head is scheduled.
* Once the kill flag is set, and without further calls, the coprocessor's workers leave their loops
  under every fair schedule. The CPU worker tests its flag only between jobs and spins in Front and
  in Enqueue: it leaves exactly if it is at its test, or gets a job and finds room for the result
  (`CpuShutdown.WorkerLeavesExactly`).
* Floating-point numbers are reals, and `sqrt`, `sin` and `expf` are parameters: of `sqrt` and
  `expf` positivity is used, of `sin` nothing (`Bilateral.SpatialWeightSeparates`, `BilateralWeights` and `MdCells` use more).
  Where a program would divide by zero, the model has an ending of its own
  (`MatrixInverse.DividedByZero`) or proves that it does not happen.
* Places where the code does not do what its neighbourhood suggests are proved as they are, with
  the exact condition. `pushJobs` returns one less than it pushed unless 32 divides the number of
  tasks, and then leaves one job unpolled (`MicDriver.ReturnedVersusPushed`,
  `MicDriverRuns.DriverCompletes`). A header line of any length is passed over exactly when each of
  the pieces of at most 63 characters that fgets cuts it into is a comment or has a first
  character, other than blanks, that starts no number (`PpmHeader.SkippedEverywhereExactly`). A
  blank line takes the parser back by one number, and ends the header, with a wrapped counter, only
  when none has been read (`PpmHeader.BlankLineStepsBack`). Saving and loading an image is the
  identity exactly while the byte count fits an unsigned int (`Ppm.SaveLoadRoundTrip`). The
  four-byte functions bring an image back, but for each fourth byte, exactly under the same
  condition (`Ppm.FourByteRoundTrip`). Loading a module into a second interpreter that already has
  modules breaks the ring of the first (`SwigModules.Interpreter.InitializeModule`); a search from
  a module that is left outside then ends exactly when it comes to the name, and otherwise goes
  round for ever (`SwigModules.SearchFromTail`).

## Model

| member | source | states |
|---|---|---|
| Rings.TestsMeasureOccupancy | MICAPI/src/lib/QueueJobs.c:6-12 | the two index tests decide exactly "nothing waits" and "Capacity-1 jobs wait", also when written with the remainder |
| Rings.WriteKeepsItems | MICAPI/src/lib/QueueJobs.c:49-52 | the slot Enqueue writes is never one that holds a waiting job |
| Rings.PublishAppends | MICAPI/src/lib/QueueJobs.c:49-54 | moving Rear below capacity appends the written job to the waiting ones |
| Rings.PublishOnFullLosesAll | MICAPI/src/lib/QueueJobs.c:49-54 | moving Rear on a full ring makes all waiting jobs vanish |
| Rings.AdvanceDropsHead | MICAPI/src/lib/QueueJobs.c:70-71 | moving Front removes the oldest job and no other |
| Rings.JobQueue.constructor | MICAPI/src/lib/QueueJobs.c:18-30 | a new queue is well formed and empty |
| Rings.JobQueue.IsEmpty | MICAPI/src/lib/QueueJobs.c:6-8 | true exactly when no job waits |
| Rings.JobQueue.IsFull | MICAPI/src/lib/QueueJobs.c:10-12 | true exactly when Capacity-1 jobs wait |
| Rings.JobQueue.Enqueue | MICAPI/src/lib/QueueJobs.c:42-57 | with room, appends the job; the new indices and slots are those of the ring value |
| Rings.JobQueue.MaybeFandD | MICAPI/src/lib/QueueJobs.c:59-76 | None and no change on an empty queue, otherwise takes out the oldest job |
| Rings.JobQueue.Head | CPUAPI/QueueJobs.c:65-70 | reads the oldest job and removes nothing |
| Rings.JobQueue.Dequeue | CPUAPI/QueueJobs.c:72-76 | removes the oldest job |
| MicRuntime.EnqueueAlone | MICAPI/src/lib/QueueJobs.c:42-57 | the seven interleavable steps of Enqueue, run alone on a ring that is not full, are what JobQueue.Enqueue does |
| MicRuntime.MaybeFandDAlone | MICAPI/src/lib/QueueJobs.c:59-76 | the steps of MaybeFandD, run alone, are what JobQueue.MaybeFandD does, on an empty ring and on others |
| MicRuntime.EnqueueSpins | MICAPI/src/lib/QueueJobs.c:44-44 | on a full ring Enqueue, run alone, only repeats its test, for any number of steps |
| MicSafety.EnqItems | MICAPI/src/lib/QueueJobs.c:42-57 | of the seven steps only the publish changes what waits, by one job at the end, when there is room |
| MicSafety.DeqItems | MICAPI/src/lib/QueueJobs.c:59-76 | of the steps of MaybeFandD only the advance changes what waits, and the thread then holds the former head |
| MicSafety.RoomToPublish | MICAPI/src/lib/QueueJobs.c:44-54 | a thread holding a job to enqueue has room in both rings, although it tested IsFull before locking: its own job is one of the outstanding ones |
| MicSafety.StepKeepsInv | MICAPI/src/base/super_kernel.c:20-33 | every step, call and kill keeps the lock, index, slot and job-count invariant |
| MicSafety.RunKeepsInv | MICAPI/src/base/super_kernel.c:20-33 | the invariant holds in a state of a run once the states before it were bounded |
| MicSafety.EveryJobInExactlyOnePlace | MICAPI/src/base/gemtc_mic_api.c:64-91 | while at most Capacity-1 jobs have been outstanding, a pushed job is in exactly one ring slot, thread's hand or the polled set, once; any other job is nowhere |
| MicSafety.NoUnreadSlotOverwritten | MICAPI/src/lib/QueueJobs.c:42-57 | a thread about to write or publish holds the mutex, has room, writes to no waiting slot, and its step changes what waits exactly as intended |
| MicSafety.MutualExclusion | MICAPI/src/lib/QueueJobs.c:46-72 | two threads are never inside the same ring's mutex |
| MicSafety.ShutdownLeavesNoJobBehind | MICAPI/src/base/super_kernel.c:20-35 | once all workers have exited every pushed job is in a ring, with a host thread, or polled; none is in a worker's hand |
| MicShutdown.AtMostOneMore | MICAPI/src/base/super_kernel.c:20-33 | after the kill flag is set each worker takes at most one more job, in any run with any calls, and none unless it has passed its test of the flag |
| MicShutdown.TakesTheHead | MICAPI/src/lib/QueueJobs.c:59-76 | what a worker takes is the head of newJobs |
| MicShutdown.ShutdownCompletes | MICAPI/src/base/super_kernel.c:20-35 | when the flag is set in any state of a bounded run, under every fair schedule without further calls all workers have left their loops and all calls have returned at some point and for ever after, no mutex is held, and each job pushed is polled or waits in one ring, once |
| MicSoleProducers.SoleProducersNeedNoBound | MICAPI/src/lib/QueueJobs.c:42-57 | with at most one worker and one host, every run keeps each pushed job in exactly one place, however many are outstanding |
| MicOverrun.HostsOverrun | MICAPI/src/lib/QueueJobs.c:42-57 | for every capacity n, two hosts among any number of threads can push n jobs and leave none anywhere, never having more than n outstanding |
| MicOverrun.WorkersOverrun | MICAPI/src/base/super_kernel.c:20-33 | for every capacity n, two workers can run finishedJobs over with n jobs pushed by a single host, and leave none anywhere |
| MicBound.BoundIsTight | MICAPI/src/lib/QueueJobs.c:42-57 | a run for every capacity n, with at most n outstanding, that ends with n jobs pushed, none polled, both calls returned and both rings empty |
| MicBound.BoundIsExact | MICAPI/src/lib/QueueJobs.c:42-57 | all runs of a configuration keep every job in exactly one place if and only if it has no host, or at most one worker and one host, or a bound of at most Capacity-1 on outstanding jobs |
| MicLiveness.NextKeepsBatchInv | MICAPI/src/drivers/MICAPI_mdproxy.c:164-198 | every step of a batch keeps the batch invariant, in particular that pushes come before polls, stay in batch order, and no more is polled than wanted |
| MicLiveness.PushNeverFindsRingFull | MICAPI/src/lib/QueueJobs.c:44-44 | a push of a batch of at most Capacity-1 jobs passes its IsFull test at the first try |
| MicLiveness.StepDescends | MICAPI/src/base/super_kernel.c:20-33 | every step that is not idle lowers the stage-weighted count of unfinished jobs, or keeps it and lowers the step ranks |
| MicLiveness.IdleChangesNothing | MICAPI/src/base/super_kernel.c:20-26 | an idle step, such as a test that finds its ring empty or full, moves one program counter and no measure |
| MicLiveness.SomeoneNotIdle | MICAPI/src/drivers/MICAPI_mdproxy.c:188-198 | until the host has pushed all and polled as often as wanted, some thread has a step that is not idle, unless both rings are full and all threads look for room |
| MicLiveness.JamHolds | MICAPI/src/lib/QueueJobs.c:44-44 | when that is so, the batch has at least 2*Capacity jobs, exactly 2*Capacity pushes have started and no poll has |
| MicLiveness.BatchCompletes | MICAPI/src/drivers/MICAPI_mdproxy.c:164-198 | under every fair schedule, for at most Capacity-1 jobs with any number of workers or any number of jobs with one: a batch of at most 2*Capacity-1 jobs with any number of polls wanted is done at some point and for ever after, each job in exactly one place, and nothing left anywhere when all were wanted; in a larger one both rings are full at some point and for ever after, with 2*Capacity jobs pushed or being pushed and none polled |
| MicBatchBound.NothingReturns | MICAPI/src/lib/QueueJobs.c:42-57 | on full rings too, no step lets the jobs waiting, in hand or polled grow by more than the jobs pushed, so what is lost stays lost |
| MicBatchBound.WorkersLoseBatch | MICAPI/src/base/super_kernel.c:20-33 | for every capacity n, with two workers or more and a batch of n jobs or more, a fair schedule under which the batch is never complete from some step on |
| MicBatchBound.CompletesExactly | MICAPI/src/drivers/MICAPI_mdproxy.c:164-198 | for every capacity, number of workers, number of jobs and number of polls wanted: all batches complete under all fair schedules if and only if they have at most Capacity-1 jobs, or there is one worker and they have at most 2*Capacity-1 |
| MicRuntime.Runtime.constructor | MICAPI/src/base/gemtc_mic_api.c:22-31 | setup gives two empty queues and a cleared kill flag |
| MicRuntime.Runtime.Push | MICAPI/src/base/gemtc_mic_api.c:64-73 | the job record, filled field by field, joins the end of what waits and of the push log |
| MicRuntime.Runtime.Poll | MICAPI/src/base/gemtc_mic_api.c:74-91 | -1 and NULL with nothing finished, otherwise ID and parameters of the oldest job, which leaves; pushed = polled + finished + new is kept |
| MicRuntime.Runtime.Work | MICAPI/src/base/super_kernel.c:20-33 | one pass of a worker moves the oldest new job to the end of the finished ones, and nothing once kill is set |
| MicDriver.ChunksAreContiguous | MICAPI/src/drivers/MICAPI_mdproxy.c:164-186 | chunks are in order and adjacent, hold 1 to 32 tasks, and the last ends at the number of tasks |
| MicDriver.EveryTaskInOneChunk | MICAPI/src/drivers/MICAPI_mdproxy.c:164-186 | exactly the tasks 0..n-1 are in a chunk, each in one, for every integer n |
| MicDriver.ReturnedVersusPushed | MICAPI/src/drivers/MICAPI_mdproxy.c:164-186 | the returned count equals the number pushed exactly when 32 divides n, and is one less otherwise |
| MicDriver.ChunksOf32 | MICAPI/src/drivers/MICAPI_mdproxy.c:164-186 | chunk k starts at task 32k and has 32 tasks or what is left; n / 32 is returned |
| MicDriver.PushJobs | MICAPI/src/drivers/MICAPI_mdproxy.c:164-186 | pushes one job a chunk, in order, each with its kernel, width, ID and a parameter block of its own holding its offset; returns the truncated quotient |
| MicDriver.PullJobs | MICAPI/src/drivers/MICAPI_mdproxy.c:188-198 | polls as many of the oldest jobs as asked for, and leaves the rest |
| MicDriver.RunBatch | MICAPI/src/drivers/MICAPI_mdproxy.c:105-107 | pushJobs then pullJobs on an idle runtime polls the first n/32 chunks and drains everything exactly when 32 divides n |
| MicDriverRuns.DriverCompletes | MICAPI/src/drivers/MICAPI_mdproxy.c:164-198 | pushJobs and pullJobs return under every fair schedule, with any number of workers for at most Capacity-1 chunks and with one worker exactly for at most 2*Capacity-1; from then on exactly one job is unpolled when 32 does not divide the number of tasks, and nothing is left otherwise |
| CpuAlone.EnqueueAlone | CPUAPI/QueueJobs.c:40-51 | the five steps of Enqueue, run alone on a ring that is not full, are what JobQueue.Enqueue does |
| CpuAlone.EnqueueSpins | CPUAPI/QueueJobs.c:42-42 | on a full ring Enqueue, run alone, only repeats its test |
| CpuAlone.FrontAlone | CPUAPI/QueueJobs.c:65-70 | the four steps of Front, run alone, read the oldest job, as JobQueue.Head does |
| CpuAlone.DequeueAlone | CPUAPI/QueueJobs.c:72-76 | the four steps of Dequeue, run alone, move Front as JobQueue.Dequeue does |
| CpuAlone.DequeueSpins | CPUAPI/QueueJobs.c:65-76 | on an empty ring Front and Dequeue, run alone, only repeat their test |
| CpuCalls.PollOnEmpty | CPUAPI/gemtcCPU.c:120-139 | with nothing finished a poll is over after four steps and leaves the whole state as it was, its mutex free |
| CpuCalls.PollTakesHead | CPUAPI/gemtcCPU.c:120-139 | otherwise after eight, having removed the oldest result, for no particular caller, and changed nothing else |
| CpuCalls.PushAlone | CPUAPI/gemtcCPU.c:105-118 | a push into a ring with room is over after seven steps, having appended its job and changed nothing else |
| CpuCalls.BlockingRunPushes | CPUAPI/gemtcCPU.c:61-75 | a blocking run does the same, is counted, and then waits for its own ID |
| CpuCalls.BlockingRunWaitsInside | CPUAPI/gemtcCPU.c:82-91 | with nothing finished it keeps looking and keeps the dequeue mutex, for any number of steps |
| CpuCalls.BlockingRunLeavesOthers | CPUAPI/gemtcCPU.c:82-91 | at a result of someone else it is back after six steps with the state as it was |
| CpuCalls.BlockingRunTakesOwn | CPUAPI/gemtcCPU.c:82-91 | its own result it takes out in ten steps, and returns |
| CpuFifo.EnqStep | CPUAPI/QueueJobs.c:40-51 | a producer's step keeps what it knows of its ring (room since its IsFull test) and only its publish adds a job |
| CpuFifo.DeqStep | CPUAPI/QueueJobs.c:53-76 | a consumer's step keeps what it knows (the head it has read is still the head) and only its advance removes one |
| CpuFifo.StepKeepsInv | CPUAPI/SuperKernel.c:17-29 | every step of worker and hosts keeps mutexes, knowledge and order |
| CpuFifo.PipelineIsFifo | CPUAPI/gemtcCPU.c:105-139 | in every state of every run: pushed = removed ++ finishedJobs ++ the worker's job ++ newJobs ++ the job being enqueued, in order; between Front and Dequeue the worker's copy is the head of newJobs |
| CpuFifo.TestsStayValid | CPUAPI/QueueJobs.c:40-51 | a passed IsFull test holds until that producer's own publish, its write hits no waiting slot, and a host's copy of the head is the head |
| CpuBlockingRun.HostStepShape | CPUAPI/gemtcCPU.c:61-92 | a host's step logs nothing, one push of its own job, or one removal of a job with its own ID |
| CpuBlockingRun.MatchPush | CPUAPI/gemtcCPU.c:69-73 | pushing a fresh ID keeps waiting calls and outstanding jobs in one-to-one correspondence |
| CpuBlockingRun.MatchTake | CPUAPI/gemtcCPU.c:86-89 | a call that takes the head with its ID keeps the correspondence |
| CpuBlockingRun.CallersGetTheirOwn | CPUAPI/gemtcCPU.c:61-92 | in every state of concurrent blocking runs with distinct IDs the head of finishedJobs belongs to a call that has not returned, each waiting call has exactly one outstanding job, every result went to the call with its ID, and each host took one result a call |
| CpuProgress.HostDescends | CPUAPI/gemtcCPU.c:61-92 | a host's step that is neither spinning nor blocked lowers the measure |
| CpuProgress.WorkerDescends | CPUAPI/SuperKernel.c:17-29 | a worker's step that is not spinning lowers the measure |
| CpuProgress.NoDeadlock | CPUAPI/gemtcCPU.c:82-91 | in every state in which some host is in a call some thread has a step that lowers the measure |
| CpuProgress.EveryCallCanReturn | CPUAPI/gemtcCPU.c:61-92 | from every state some schedule ends all calls, with as many results taken as calls started by each host and nothing outstanding |
| CpuFairness.HostSteps | CPUAPI/gemtcCPU.c:61-92 | every step of a host, spinning or not, lowers the count of what is left to do or moves no job |
| CpuFairness.GoalIsMet | CPUAPI/gemtcCPU.c:61-92 | under a fair schedule a thread with a pending goal reaches it, or the count has gone down |
| CpuFairness.AskingOwnerLowers | CPUAPI/gemtcCPU.c:86-89 | when the dequeue mutex starves nobody, the owner of the head gets its result out, whatever the other hosts do |
| CpuFairness.EveryCallReturns | CPUAPI/gemtcCPU.c:61-92 | under every fair schedule with a starvation-free dequeue mutex, from every state, all calls return and stay returned, each host with one result a call and nothing outstanding |
| CpuFairness.ReturnsExactly | CPUAPI/gemtcCPU.c:61-92 | under a fair schedule, from every state of concurrent blocking runs, all calls return for good if and only if the dequeue mutex starves nobody |
| CpuFairness.LoneHostIsNotStarved | CPUAPI/gemtcCPU.c:77-91 | with at most one host a fair schedule starves nobody |
| CpuLivelock.FairIsNotEnough | CPUAPI/gemtcCPU.c:77-91 | for every capacity and every number of hosts from two on, a run and a fair schedule after which the owner of the head of finishedJobs waits for the mutex for ever |
| CpuLivelock.FairIsEnoughExactly | CPUAPI/gemtcCPU.c:61-92 | for every capacity and number of hosts: every state of every blocking run returns all its calls under every fair schedule if and only if there is at most one host |
| CpuPolls.InsideReturns | CPUAPI/gemtcCPU.c:120-139 | under a fair schedule with calls starting at any time, a poll inside the mutex returns and frees it, whether or not there is a result |
| CpuPolls.PollsReturnExactly | CPUAPI/gemtcCPU.c:120-139 | in runs of pushes and polls, under a fair schedule, every poll returns if and only if the dequeue mutex starves nobody |
| CpuPolls.FairIsNotEnough | CPUAPI/gemtcCPU.c:120-139 | for every capacity and every number of hosts from two on, a fair schedule under which a poll waits for the mutex for ever |
| CpuPolls.FairIsEnoughExactly | CPUAPI/gemtcCPU.c:120-139 | for every capacity and number of hosts: in every run of pushes and polls, under every fair schedule, every poll returns if and only if there is at most one host |
| CpuShutdown.AtMostOneMore | CPUAPI/SuperKernel.c:17-29 | after the kill flag is set the worker takes at most one more job, in any run, and none unless it has passed its test of the flag |
| CpuShutdown.TakesTheHead | CPUAPI/SuperKernel.c:20-21 | what it takes is the head of newJobs |
| CpuShutdown.WorkerLeavesExactly | CPUAPI/SuperKernel.c:17-30 | when the flag is set in any state of any run, under a fair schedule without further calls, the worker leaves its loop for good if and only if it is at its test, or it has or gets a job and finishedJobs is not full at some step; it gets one unless it is still looking, newJobs is empty and nobody is pushing |
| CpuShutdown.WithRoomLeavesExactly | CPUAPI/SuperKernel.c:17-30 | with room in finishedJobs when the flag is set: it leaves under every fair schedule if and only if it is not looking into an empty newJobs with nobody pushing |
| MatrixAlgebra.StartIsGood | samples_include/inc/nvMatrix.h:247-262 | of [m, 1] each left half is its right half times m, and the rows generate [m, 1] |
| MatrixAlgebra.SubtractedIsGood | samples_include/inc/nvMatrix.h:319-322 | subtracting a multiple of one row from another keeps both |
| MatrixAlgebra.SwappedIsGood | samples_include/inc/nvMatrix.h:302-304 | swapping rows keeps both |
| MatrixAlgebra.KernelMeansSingular | samples_include/inc/nvMatrix.h:276-279 | a matrix with a nonzero null vector has no inverse |
| MatrixAlgebra.LeftKernel | samples_include/inc/nvMatrix.h:314-323 | row operations keep the null space |
| MatrixAlgebra.NoPivotMeansSingular | samples_include/inc/nvMatrix.h:285-297 | a column with only zeros from the diagonal down means m is singular |
| MatrixAlgebra.ReadOffUndoes | samples_include/inc/nvMatrix.h:362-366 | the divided right half times m is the identity |
| MatrixAlgebra.ReadOffIsUndone | samples_include/inc/nvMatrix.h:362-366 | m times the divided right half is the identity |
| MatrixInverse.Load | samples_include/inc/nvMatrix.h:235-262 | four separate rows holding [m, 1] |
| MatrixInverse.RowScale | samples_include/inc/nvMatrix.h:268-274 | the largest absolute value of a row's left half |
| MatrixInverse.SelectPivot | samples_include/inc/nvMatrix.h:287-297 | a row from the diagonal down whose scaled entry is largest |
| MatrixInverse.ZeroPivotMeansSingular | samples_include/inc/nvMatrix.h:287-297 | scaled pivoting picks a zero only for a singular matrix |
| MatrixInverse.Pivot | samples_include/inc/nvMatrix.h:299-309 | swapping pointers and scales exchanges two rows and keeps the invariant |
| MatrixInverse.EliminateRow | samples_include/inc/nvMatrix.h:316-322 | clears one entry below the pivot, although the inner loop starts after the pivot column |
| MatrixInverse.SubstituteRow | samples_include/inc/nvMatrix.h:353-358 | clears one entry above the pivot, although the inner loop starts after row j's diagonal |
| MatrixInverse.BackSubstitute | samples_include/inc/nvMatrix.h:349-360 | leaves a diagonal left half and keeps the invariant |
| MatrixInverse.Inverse | samples_include/inc/nvMatrix.h:233-369 | finishes exactly on the invertible matrices, then with a left and right inverse; a singular exit returns the identity it started with |
| MatrixInverse.Multiply | samples_include/inc/nvMatrix.h:400-412 | the accumulated cells are the matrix product |
| MatrixAlgebra.ProductInCells | samples_include/inc/nvMatrix.h:400-412 | in the sixteen cells: cell k of a product is row k % 4, every fourth cell, times column k / 4, four cells in a row |
| MatrixAlgebra.UndoesInCells | samples_include/inc/nvMatrix.h:233-370 | the same of the inverse times the matrix: 1 in cells 0, 5, 10 and 15 and 0 elsewhere |
| Sums.DoubleSumCancels | examples/swift/g/MDProxy.c:35-57 | an antisymmetric double sum is zero |
| MdSystem.DistinctIsSeparated | examples/swift/g/MDProxy.c:43-49 | pairwise distinct positions give nonzero distances, so the force loop divides by no zero |
| MdSystem.DistinctRoundsStayApart | examples/swift/g/MDProxy.c:104-111 | positions that stay pairwise distinct keep every round of a run defined |
| MdSystem.PushesAreOpposite | examples/swift/g/MDProxy.c:54-56 | what particle q adds to the force on p is minus what p adds to the force on q |
| MdSystem.ForcesCancel | examples/swift/g/MDProxy.c:13-59 | after the computation the forces sum to zero in every dimension |
| MdSystem.TorquesCancel | examples/swift/g/MDProxy.c:13-59 | after the computation the total torque is zero in every plane of dimensions |
| MdSystem.RoundConserves | examples/swift/g/MDProxy.c:95-110 | in visited dimensions a round moves the total position by the total velocity and half the total acceleration, the total velocity by the latter alone, and leaves accelerations that sum to zero; in skipped ones it keeps every position, velocity and acceleration |
| MdSystem.MomentumConserved | examples/swift/g/MDProxy.c:95-110 | over any number of rounds, in a visited dimension, the drift (total velocity and half the total acceleration) stays; from the first round on it is the total velocity, and the total position after n rounds is where it started plus n times the drift |
| MdSystem.SkippedDimensionsStay | examples/swift/g/MDProxy.c:95-101 | over any number of rounds nothing moves in a dimension that the stride of two skips |
| MdKernels.Distance | examples/swift/g/MDProxy.c:43-49 | differences and distance of two particles, read from the flat table |
| MdKernels.ComputeParticle | examples/swift/g/MDProxy.c:35-57 | one particle's forces and potential energy are the sums over all others, and no other cell changes |
| MdKernels.ComputeParticles | examples/swift/g/MDProxy.c:8-71 | the whole table afterwards: mass, positions, velocities and accelerations untouched, forces and energies as specified |
| MdKernels.UpdatePosVelAccel | examples/swift/g/MDProxy.c:72-102 | the whole table afterwards: visited components from the old values of all arrays, everything else untouched |
| MdKernels.MDProxy | examples/swift/g/MDProxy.c:104-111 | the table after any number of rounds is the one the conservation laws speak of |
| MdCells.DistanceSquared | examples/swift/g/MDProxy.c:43-49 | with exact roots the distance squared is the sum of the squared differences of the coordinates in the table |
| MdCells.TwoOnAxis | examples/swift/g/MDProxy.c:35-69 | two particles that differ on one axis alone are drawn together by sin(min(d, pi/2)), each potential energy grows by half its square, the kinetic energy of the second is its old one and its squared speed times half the mass, that of the first is untouched, and so is everything else |
| MdCells.UpdateOf | examples/swift/g/MDProxy.c:94-101 | cell by cell: the second component of every particle moves by velocity and half the acceleration, its velocity by half of force over mass and acceleration, its acceleration becomes force over mass; the first and third stay |
| ParticleInit.SchrageAgrees | MICAPI/src/kernels/md_proxy.c:76-81 | the split computation stays between -m and m and yields 16807*seed mod 2147483647 |
| ParticleInit.NextIsUndone | MICAPI/src/kernels/md_proxy.c:76-81 | multiplying by 1407677000 undoes a step |
| ParticleInit.NextPermutesSeeds | MICAPI/src/kernels/md_proxy.c:76-81 | a step is a bijection on 1..2147483646 |
| ParticleInit.SeedAfterNext | MICAPI/src/kernels/md_proxy.c:76-81 | 16807^n * seed mod 2147483647 is the seed after n calls |
| ParticleInit.SeedAfterIsSeed | MICAPI/src/kernels/md_proxy.c:76-81 | it stays in 1..2147483646 |
| ParticleInit.DrawInUnitInterval | MICAPI/src/kernels/md_proxy.c:83-84 | every number returned lies strictly between 0 and 1 |
| ParticleInit.Generator.Uniform01 | MICAPI/src/kernels/md_proxy.c:72-85 | with every intermediate in 32 signed bits, the new seed is the recurrence's and the result its scaling |
| ParticleInit.InitParticles | MICAPI/src/kernels/md_proxy.c:105-112 | pos[i+j*nd] is box[i] times draw number j*nd+i+1, and no other table cell changes |
| ParticleInit.PositionsInsideBox | MICAPI/src/kernels/md_proxy.c:105-112 | with positive sides every position is strictly inside the box |
| ParticleInit.DrawIsSeedRatio | MICAPI/src/kernels/md_proxy.c:83-84 | a draw is the seed over 2147483647 but for less than 1/2147483647 |
| ParticleInit.PlacedOverSide | MICAPI/src/kernels/md_proxy.c:105-112 | a position over its side is the draw |
| SwigCasts.TypeInfo.AddCast | examples/swift/fake-gemtc/gemtc_wrap.c:3556-3560 | puts a cast at the front of a well-formed list and keeps it well formed |
| SwigCasts.TypeInfo.TypeCheck | examples/swift/fake-gemtc/gemtc_wrap.c:404-426 | finds the first entry with the name or nothing; the list stays a doubly linked list, of the same nodes, the hit in front and the others in order |
| SwigCasts.Relink | examples/swift/fake-gemtc/gemtc_wrap.c:413-419 | the pointer assignments unlink one node and put it before the first, touching no other link |
| SwigCasts.HistoryKeepsEntries | examples/swift/fake-gemtc/gemtc_wrap.c:404-426 | any mix of lookups and insertions keeps exactly the entries there were and those added |
| SwigCasts.LookupAfterHistory | examples/swift/fake-gemtc/gemtc_wrap.c:404-426 | after any mix a lookup succeeds exactly when an entry with that name was there or was added, and leaves it in front |
| SwigCasts.HistoryKeepsOrder | examples/swift/fake-gemtc/gemtc_wrap.c:404-426 | entries not looked up keep their relative order through any mix |
| SwigCasts.MostRecentFirst | examples/swift/fake-gemtc/gemtc_wrap.c:404-426 | after any mix an entry stands before another if and only if its last hit or insertion is the later one, or neither had any and it stood before the other at the start |
| SwigModules.CompareTransitive | examples/swift/fake-gemtc/gemtc_wrap.c:554-554 | the order of strcmp is transitive, as the search needs |
| SwigModules.CompareDecides | examples/swift/fake-gemtc/gemtc_wrap.c:554-554 | the first difference decides the order of strcmp, and an end comes before any character |
| SwigModules.Search | examples/swift/fake-gemtc/gemtc_wrap.c:546-570 | the binary search of a sorted type array ends with a position of the name exactly when the name is there |
| SwigModules.MangledTypeQueryModule | examples/swift/fake-gemtc/gemtc_wrap.c:540-574 | returns the first module from start up to, not including, end that has the name (the whole ring when they are equal), or nothing when none has |
| SwigModules.RotatedIsRing | examples/swift/fake-gemtc/gemtc_wrap.c:540-574 | the ring may be read from any module, so the search may start anywhere |
| SwigModules.Interpreter.InitializeModule | examples/swift/fake-gemtc/gemtc_wrap.c:3446-3487 | afterwards the modules form one ring with each once: the old ones and the new one behind the head, or the ring of another interpreter taken over; a module linked away from another ring breaks that one, whose other modules then lead into this ring and are not reached from it |
| SwigModules.SearchFromTail | examples/swift/fake-gemtc/gemtc_wrap.c:540-574 | a search from a module that leads into a ring it is not on ends if and only if a module that follows has the name |
| SwigModules.LoadTwice | examples/swift/fake-gemtc/gemtc_wrap.c:3446-3487 | loading c and a in one interpreter, b in another and then a there too: the first ring is broken, and its search ends if and only if one of the three has the name |
| SwigHex.UnpackUndoesPack | examples/swift/fake-gemtc/gemtc_wrap.c:614-653 | unpacking what was packed gives every byte back, whatever text follows |
| SwigHex.PackUndoesUnpack | examples/swift/fake-gemtc/gemtc_wrap.c:614-653 | packing what was unpacked gives the text read back, two characters a byte |
| SwigHex.HighDigitFirst | examples/swift/fake-gemtc/gemtc_wrap.c:614-625 | a byte is the digit of its upper half and then that of its lower half |
| SwigHex.PackData | examples/swift/fake-gemtc/gemtc_wrap.c:614-625 | writes exactly the packed text, and no other character of the buffer |
| SwigHex.UnpackData | examples/swift/fake-gemtc/gemtc_wrap.c:630-653 | reads never past the terminator; on failure the bytes before the bad digit have been stored and the rest is untouched |
| SwigHex.PackVoidPtr | examples/swift/fake-gemtc/gemtc_wrap.c:658-667 | succeeds exactly when the text fits the buffer, and then holds underscore, pointer, name, terminator and else what it held; on failure at most underscore and pointer are written |
| SwigHex.UnpackVoidPtr | examples/swift/fake-gemtc/gemtc_wrap.c:669-680 | returns pointer and rest of the text, the null pointer for "NULL", or nothing, with the bytes before a bad digit stored |
| SwigHex.PointerRoundTrip | examples/swift/fake-gemtc/gemtc_wrap.c:658-680 | a packed pointer unpacks to itself and leaves its type name |
| SwigHex.PointerTextIsPacked | examples/swift/fake-gemtc/gemtc_wrap.c:669-680 | every text accepted other than "NULL" is a packed pointer followed by a name |
| SwigHex.NullIsZero | examples/swift/fake-gemtc/gemtc_wrap.c:669-680 | the text "NULL" gives eight zero bytes and the name |
| Ppm.ShortLine | samples_include/inc/helper_image.h:168-174 | a line of at most 62 characters and its newline is read whole and leaves the rest of the file |
| Ppm.LoadPPM | samples_include/inc/helper_image.h:126-219 | the header loop with its counter computes the parse of the file, line by line, and the bytes that follow |
| Ppm.LoadPPMInto | samples_include/inc/helper_image.h:195-216 | with a buffer supplied the same pixels go to its front and the rest of it stays |
| Ppm.SavePPM | samples_include/inc/helper_image.h:285-333 | prints magic line, sizes, 255 and the pixel bytes; fails exactly for other than 1 or 3 channels |
| Ppm.DecimalDigits | samples_include/inc/helper_image.h:315-315 | the printed digits of a number evaluate to it |
| Ppm.ReadsNumber | samples_include/inc/helper_image.h:181-192 | a printed number on a line of its own is converted back, and the conversion count is one |
| Ppm.ParsesNumberLine | samples_include/inc/helper_image.h:168-193 | such a line sets exactly the header number whose turn it is and moves the counter by one |
| Ppm.PrintedLoads | samples_include/inc/helper_image.h:285-333 | loading what was printed yields the same width, height, channels and the bytes written |
| Ppm.SaveLoadRoundTrip | samples_include/inc/helper_image.h:285-333 | saving and loading w*h*channels bytes is the identity exactly when that number fits an unsigned int |
| Ppm.CommentsChangeNothing | samples_include/inc/helper_image.h:176-179 | for every file, any number of comment lines of at most 62 characters after the magic line changes nothing |
| Ppm.CommentsAreSkipped | samples_include/inc/helper_image.h:176-179 | the same anywhere in the header |
| PpmHeader.ScanIgnores | samples_include/inc/helper_image.h:176-192 | a piece of a line leaves the parser as it was exactly when it is a comment or its first character other than blanks starts no number |
| PpmHeader.BlankStepsBack | samples_include/inc/helper_image.h:181-192 | a piece takes the counter back by one, past 0 to 2^32 - 1, exactly when it is all blank, and then keeps the numbers |
| PpmHeader.BlankLineStepsBack | samples_include/inc/helper_image.h:168-193 | a blank line ends the header when no number has been read, and otherwise goes back by one |
| PpmHeader.BlankLineUndoesNumber | samples_include/inc/helper_image.h:168-193 | a blank line after the width or the height makes the next number take its place |
| PpmHeader.LongLine | samples_include/inc/helper_image.h:168-193 | a line of 63 or more characters is read as its first 63 and then as the line of the rest |
| PpmHeader.SkippedExactly | samples_include/inc/helper_image.h:168-193 | a line of any length is passed over at a given header, for every continuation, exactly when scanning its pieces gives that header back |
| PpmHeader.SkippedEverywhereExactly | samples_include/inc/helper_image.h:168-193 | a line of any length is passed over at every header, for every continuation, exactly when each of its pieces is ignored |
| PpmHeader.CommentSkippedExactly | samples_include/inc/helper_image.h:176-179 | a comment is passed over exactly when it has at most 62 characters or all its further pieces are ignored |
| PpmHeader.LimitIsSharp | samples_include/inc/helper_image.h:168-179 | at every length above 62 some comment is not passed over |
| PpmLayouts.EveryLayoutParses | samples_include/inc/helper_image.h:168-193 | width, height and maximal value below 2^32, spread over one, two or three lines of at most 63 characters and spaced with any blanks, are parsed, and what follows is left |
| PpmLayouts.ReadsAll | samples_include/inc/helper_image.h:181-192 | all numbers of a line are read, in order |
| PpmLayouts.SizesOnOneLine | samples_include/inc/helper_image.h:181-184 | a line with width and height sets both |
| PpmLayouts.UsualFileLoads | samples_include/inc/helper_image.h:126-219 | a file with both sizes on one line is loaded with its sizes, and as many bytes as they ask for or as there are |
| PpmLayouts.ReadsSigned | samples_include/inc/helper_image.h:181-192 | a minus takes a number from 2^32 and a plus changes nothing |
| PpmLayouts.NulEndsText | samples_include/inc/helper_image.h:168-193 | of a line with a NUL only what comes before it is read |
| PpmLayouts.TakesAtMost63 | samples_include/inc/helper_image.h:168-174 | of a longer line 63 characters are taken |
| Ppm.SavePPM4ub | samples_include/inc/helper_image.h:354-374 | prints the three-channel image without each fourth byte, for as many pixels as the wrapped product says |
| Ppm.LoadPPM4ub | samples_include/inc/helper_image.h:920-948 | gives the loaded bytes, also of a short file, with a zero after every three |
| Ppm.FourByteRoundTrip | samples_include/inc/helper_image.h:354-374 | of every file saved with four-byte pixels the bytes written come back; loading then always gives every byte but each fourth, which becomes 0, if and only if three times the number of pixels fits an unsigned int |
| Ppm.SaveAndLoad | samples_include/inc/helper_image.h:354-374 | the two functions one after the other do that |
| Bilateral.Gaussian1d | debunk/bilat/cpu/main.cpp:30-35 | a weight is positive |
| Bilateral.Gaussian2d | debunk/bilat/cpu/main.cpp:37-42 | a weight is positive |
| Bilateral.SpatialWeightSeparates | debunk/bilat/cpu/main.cpp:30-42 | the weight by distance is the product of the one-dimensional weights of the two offsets |
| BilateralWeights.EqualDistances | debunk/bilat/cpu/main.cpp:37-42 | offsets with the same x*x + y*y have the same weight |
| BilateralWeights.AtSigma | debunk/bilat/cpu/main.cpp:30-42 | at sigma the weights are exp(-1/2) and exp(-1) over their divisors |
| BilateralWeights.TwiceTheDifference | debunk/bilat/cpu/main.cpp:30-35 | relative to no difference, twice the difference gives the fourth power |
| BilateralWeights.Scaled | debunk/bilat/cpu/main.cpp:30-35 | scaling difference and sigma by k divides the weight by k |
| BilateralWeights.EqualColours | debunk/bilat/cpu/main.cpp:116-125 | at equal colours the weight is that of the distance, by the spatial sigma, times a constant |
| BilateralWeights.EqualOffsets | debunk/bilat/cpu/main.cpp:116-125 | at equal distances weights are to each other as those of the differences, by the range sigma |
| BilateralWeights.TotalOfEqualColours | debunk/bilat/cpu/main.cpp:101-136 | over equal colours the divisor is that constant times the square of the sum of one direction, over all 2*radius+1 offsets |
| Bilateral.TotalPositive | debunk/bilat/cpu/main.cpp:130-136 | the normalization is positive, so the filter divides by no zero |
| Bilateral.MirrorInBounds | debunk/bilat/cpu/main.cpp:103-114 | all reflected indices are inside exactly when the image is at least twice the radius wide |
| Bilateral.AddSample | debunk/bilat/cpu/main.cpp:102-132 | the innermost body reads inside the image and adds its sample to both sums in every channel |
| Bilateral.FilterPixel | debunk/bilat/cpu/main.cpp:93-136 | each channel of a filtered pixel is the weighted mean over the window |
| Bilateral.BilateralFilter | debunk/bilat/cpu/main.cpp:84-143 | every pixel is replaced by its weighted mean over the image as it was before |
| Bilateral.MeanBetween | debunk/bilat/cpu/main.cpp:101-136 | every output channel lies between any bounds of that channel over the input |
| Bilateral.ConstantImageIsFixed | debunk/bilat/cpu/main.cpp:84-143 | an image of one colour is unchanged |
| Bilateral.BrightnessCarriesOver | debunk/bilat/cpu/main.cpp:116-132 | adding a constant to a channel of the input adds it to that channel of the output |
| Bilateral.ReflectionCarriesOver | debunk/bilat/cpu/main.cpp:103-136 | filtering commutes with reflecting the image left to right |

## Left out

- Rings.JobQueue.Enqueue: by itself it spins for ever on a full ring (MicRuntime.EnqueueSpins, CpuAlone.EnqueueSpins), so a ring that is not full is the precondition of the method; the spinning is a step of the transition systems.
- Rings.JobQueue.Head: by itself it spins for ever on an empty ring (CpuAlone.DequeueSpins), which is its precondition; the same holds of JobQueue.Dequeue.
- MicRuntime.Runtime.Push: needs a ring that is not full, as Enqueue does when run alone.
- MicRuntime.Runtime.Work: needs room in finishedJobs when there is a job to pass on, as Enqueue does when run alone.
- MicDriver.PushJobs: needs room for all its jobs, because calls run one at a time there; interleaved with workers it is covered by MicDriverRuns.
- MicDriver.PullJobs: the worker is given one pass before each poll, which is one fair schedule; all fair schedules are covered by MicDriverRuns.
- MicLiveness.BatchCompletes: with several workers only up to Capacity-1 jobs, because above that bound some fair schedules lose jobs (MicBatchBound.WorkersLoseBatch); MicDriverRuns.DriverCompletes likewise.
- CpuLivelock.FairIsEnoughExactly: the schedules that follow a state start no further calls; calls may have started at any step before it.
- MicShutdown.ShutdownCompletes: for runs with at most Capacity-1 jobs outstanding, as the invariant it starts from; without that bound a worker may find finishedJobs full for ever.
- CpuShutdown.WorkerLeavesExactly: without further calls after the flag; the queues are not disposed of.
- MatrixInverse.Inverse: over the reals, so rounding, overflow and infinities are not modelled; where floating point would go on with infinities after dividing by zero, the model ends with DividedByZero.
- MdKernels.MDProxy: the number of rounds is a parameter, the code always runs eight; it is stated for positions whose distances stay nonzero.
- ParticleInit.InitParticles: the product with a side of the box is exact, not rounded to a double.
- SwigModules.Interpreter.InitializeModule: only the list of modules; merging the types and casts of modules that share names is not modelled.
- SwigModules.MangledTypeQueryModule: type names are never null, and each type array is sorted, as its generator promises.
- SwigHex.PackVoidPtr: pointers have eight bytes.
- Ppm.LoadPPM: a number outside the unsigned range, undefined in C, is taken modulo 2^32; pixel cells that a short file leaves unset are not part of the result.
- Ppm.LoadPPM4ub: stated for three-channel files; on one-channel files the code reads beyond the bytes it has allocated. A number of pixels that is negative as an int is left out, there and in Ppm.SavePPM4ub.
- Ppm.SavePPM: the stream accepts every byte; opening, closing and write errors are left out.
- The CPU runtime with more than one worker: two workers may take the same head, since Front and Dequeue are separate unlocked steps.
- Cleanup: both runtimes dispose of the queues while workers may still run; kill is modelled as a flag only.
- A job is told from others by a serial number, not by its address, so reuse of freed addresses is not modelled; nor are allocation sizes, leaks, offload transfers, sleeps, timing and printing.
- Shared variables are read and written one at a time in program order; weaker memory orders of the hardware are left out.
- Executing a kernel is one step that leaves the job alone; the coprocessor's own MD kernels return at once or repeat those of MDProxy.c.
- Matrix squaring and multiplication kernels, the histogram, vector and quaternion helpers, the Tcl wrappers, CUDA loaders, timers and user interfaces: wrong index arithmetic that only counterexamples could describe, or members without a property worth proving.
