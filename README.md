# CPU scheduler simulator — Dafny model

`cpu_schedular.c` simulates a machine with two CPUs and a shared pool of
2048 units of RAM. Processes have a name, an arrival time, a priority
(0 to 3), a burst time and a RAM requirement. There are four passes over the
process table:

- Priority-0 processes run first-come-first-served on CPU-1.
- Priority-1 processes run shortest-job-first on CPU-2. They are stably
  bubble-sorted by burst time first.
- Priority-2 processes run round robin with a quantum of 8.
- Priority-3 processes run round robin with a quantum of 16.

Every hand-off goes through `assign_processes`. A process that fits in the
free RAM is dispatched: it takes its RAM, advances the global clock
`current_time` by its whole burst, logs five lines, and gives its RAM back.
A process that does not fit is logged as refused and appended to the
intrusive waiting queue.

The model has six modules:

- `Processes` (`process.dfy`): the process record and the simulation
  constants. The process is a class because its `next` link is updated in
  place. It also holds the output-log events.
- `WaitingQueue` (`waiting_queue.dfy`): the linked queue as a class with a
  ghost `Contents` sequence tied to the `next` pointers. `Enqueued` is its
  value-level specification.
- `Sorting` (`sorting.dfy`): the two in-place bubble sorts on an `array`.
  They are proved equal to a reference stable insertion sort, `StableSort`,
  and that function is proved sorted, a permutation, and order-preserving
  within each key.
- `Admission` (`admission.dfy`): the RAM check, `assign_process`,
  `handle_insufficient_ram` and `assign_processes`. It also holds the FCFS
  and SJF passes as functions on a value snapshot (clock, RAM pool, log,
  waiting queue), with closed forms of their effect.
- `RoundRobin` (`round_robin.dfy`): the round-robin pass in two layers:
  - The schedule of slices computed from the remaining-burst counters alone,
    which is independent of RAM and clock.
  - The effect of applying those slices to the snapshot.

  Termination, per-process hand-off counts, the RAM balance and the clock
  are proved on these layers.
- `Simulation` (`simulation.dfy`): the mutable simulation state as the class
  `Sim`. It holds the clock, the RAM pool, the log and the waiting queue.
  Its methods mirror the C functions loop for loop. Each instance method is
  proved to leave `Snap()` equal to the specification function applied to
  the old snapshot. The static `CollectPriority` is proved to fill its
  buffer with the priority filter of the table.

The model keeps these behaviours of the code as written:

- **Repeated full dispatch in round robin.** A round-robin process with
  burst `b` and quantum `q` is handed to `assign_processes` `m` times, where
  `(m-1)*q < b <= m*q` (`RrDispatchCount`). `assign_process` always runs
  the whole burst, so each of these hand-offs that fits the pool advances
  the clock by `b`, and a refused one advances it by nothing (`SliceEffect`).
- **Second RAM release.** After the final slice, `rr_scheduler` calls
  `release_ram` again, although `assign_process` has already released the
  RAM. The second release also runs when that slice was refused for lack of
  RAM. Every served round-robin process with a positive burst therefore
  leaves the pool higher by its requirement, so the pool ends above 2048 (`RrPassRam`,
  `RrRepeatsAndOverCredits`). A process that needs more RAM than the
  machine has is therefore not always refused. Such a process in the
  quantum-8 pass credits its whole requirement to the pool. A priority-3
  process with the same requirement is then dispatched by the quantum-16
  pass (`OversizedAdmittedLater`, which shows each pass on a one-process
  table). It is refused whenever its requirement exceeds the current pool
  (`RefusedExactly`), and so always while the pool is at most 2048
  (`OversizedRefused`).
- **Requeue of a node already queued.** Appending a node already in the
  queue rewires the links. The queue is truncated to the prefix that ends at
  that node (`Enqueued`, `ReenqueueTruncates`).
- **Counters of both round-robin classes are decremented in every pass.**
  Only the class the quantum serves is dispatched. A counter that reaches its
  last slice is set to 0 and then lowered by the quantum again, so it ends
  at minus the quantum (`SettledValue`).

## Model

| member | source | states |
|---|---|---|
| Simulation.Sim.constructor | cpu_schedular.c:99 | the simulation starts at time 0, with the whole 2048 of RAM free, an empty log and an empty waiting queue |
| Processes.Process.constructor | cpu_schedular.c:11-20 | a process record carries the given name, arrival, priority, burst and RAM, and is unlinked |
| WaitingQueue.Queue.constructor | cpu_schedular.c:27-30 | `initialize_queue`: the new queue is empty and well-formed |
| WaitingQueue.Queue.IsEmpty | cpu_schedular.c:32-34 | `is_queue_empty` holds exactly when the queue holds no process |
| WaitingQueue.Queue.Enqueue | cpu_schedular.c:36-47 | the links stay well-formed; the contents become `Enqueued(old contents, p)`; one "queued" line is logged |
| WaitingQueue.Enqueued | cpu_schedular.c:36-47 | appending a node not in the queue adds it at the rear; appending a queued node cuts the queue back to the prefix ending at it; no other process enters |
| WaitingQueue.EnqueuedDistinct | cpu_schedular.c:36-47 | enqueueing keeps the queue free of duplicates |
| WaitingQueue.ReenqueueTruncates | cpu_schedular.c:36-47 | re-enqueueing a queued node leaves the queue unchanged iff it is the rear, and strictly shortens it otherwise |
| WaitingQueue.Queue.Dequeue | cpu_schedular.c:49-60 | an empty queue yields null and stays empty; otherwise the front is returned and removed |
| Simulation.Sim.ReleaseRam | cpu_schedular.c:62-65 | `release_ram` returns the process's RAM to the pool and logs the release |
| Sorting.BubblePass | cpu_schedular.c:77-83 | one pass of the inner loop moves a largest key of the unsorted prefix to its end, keeps the sorted suffix, and keeps equal keys in order |
| Sorting.BubbleSort | cpu_schedular.c:75-97 | the in-place bubble sort leaves the first `n` entries equal to the stable sort of the old ones, and nothing after them changes |
| Sorting.SortProcessesByArrival | cpu_schedular.c:75-85 | `sort_processes_by_arrival` leaves the array equal to the stable sort by arrival time |
| Sorting.SortProcessesByBurstTime | cpu_schedular.c:87-97 | `sort_processes_by_burst_time` leaves the array equal to the stable sort by burst time |
| Sorting.StableSortSorted | cpu_schedular.c:75-97 | the reference sort is ordered by the key |
| Sorting.StableSortPermutes | cpu_schedular.c:75-97 | the reference sort is a permutation of its input |
| Sorting.StableSortKeepsRuns | cpu_schedular.c:75-97 | the reference sort keeps the relative order of processes with equal keys, which a bubble sort that swaps only on a strict `>` guarantees |
| Sorting.SortedRunsUnique | cpu_schedular.c:75-97 | two sorted arrangements with the same per-key runs are equal, so the bubble sort's result is determined |
| Admission.RefusedExactly | cpu_schedular.c:101-103 | `check_ram_availability`: a process of a pass is refused exactly when its requirement exceeds the free RAM |
| Simulation.Sim.AssignProcess | cpu_schedular.c:105-113 | `assign_process` advances the clock by the burst, logs assigned/starts/completes/terminated/releases in that order with the start and end times, and leaves the pool as it was |
| Simulation.Sim.HandleInsufficientRam | cpu_schedular.c:115-118 | `handle_insufficient_ram` logs the refusal and appends the process to the waiting queue |
| Simulation.Sim.AssignProcesses | cpu_schedular.c:120-133 | `assign_processes` processes the list in order: each process that fits is dispatched on CPU-1 (priority 0) or CPU-2, every other one is refused |
| Admission.AssignAllKeepsRam | cpu_schedular.c:120-133 | a call to `assign_processes` leaves the RAM pool unchanged |
| Admission.AssignAllClock | cpu_schedular.c:120-133 | the clock advances by the total burst of the processes that fit |
| Admission.AssignAllLog | cpu_schedular.c:120-133 | the log grows by each process's dispatch lines at the running clock, or by its two refusal lines |
| Admission.AssignAllWaiting | cpu_schedular.c:120-133 | exactly the processes that do not fit are enqueued, in order |
| Admission.PassLogCpu | cpu_schedular.c:124-128 | when every process of a list belongs on one CPU, every assignment line of the pass names that CPU |
| Simulation.Sim.FcfsScheduler | cpu_schedular.c:135-144 | `fcfs_scheduler` hands the priority-0 processes over one by one in table order |
| Admission.FcfsPassEffect | cpu_schedular.c:135-144 | the FCFS pass keeps the pool; it advances the clock by the admitted priority-0 bursts; it logs them in table order on CPU-1 and queues exactly the ones that do not fit |
| Simulation.Sim.CollectPriority | cpu_schedular.c:151-155 | the collection loop copies exactly the processes of one priority, in table order, to the front of the buffer |
| Simulation.Sim.SjfScheduler | cpu_schedular.c:146-164 | `sjf_scheduler` hands over the priority-1 processes in the stable burst-time order |
| Admission.SjfPassEffect | cpu_schedular.c:146-164 | the SJF order is sorted by burst, a permutation of the priority-1 processes, and stable; the pass keeps the pool, advances the clock by the admitted bursts, logs them in that order on CPU-2 and queues exactly the ones that do not fit |
| Admission.SjfShorterFirst | cpu_schedular.c:146-164 | two fitting priority-1 processes with bursts 10 and 3 are run shorter first in either table order, with start times following each other |
| Admission.FcfsSingleProcess | cpu_schedular.c:135-144 | a single fitting priority-0 process produces exactly its five dispatch lines at time 0 and advances the clock by its burst |
| Admission.OversizedRefused | cpu_schedular.c:101-118 | while the pool is at most 2048, a process needing more than 2048 is refused and queued, not dispatched |
| Simulation.Sim.RequeueProcess | cpu_schedular.c:202-203 | a process with more than a quantum left is enqueued again and the quantum line is logged |
| Simulation.Sim.RrVisit | cpu_schedular.c:182-208 | one entry of a round: the visit is pending iff the counter is positive and the priority is 2 or 3; the counter moves to `Decremented`; the state changes by one slice only for the served class |
| Simulation.Sim.RrScanStep | cpu_schedular.c:181-209 | one iteration of the scan keeps the counters, the completion flag and the state in step with the first `i + 1` entries of the round |
| Simulation.Sim.RrRound | cpu_schedular.c:179-209 | one round sets the completion flag iff no counter was pending; it lowers every counter per `NextRound` and applies the round's slices in table order |
| Simulation.Sim.RrScheduler | cpu_schedular.c:166-218 | `rr_scheduler` starts the counters at the bursts, runs rounds until one finds nothing pending, and ends in `RrPass` |
| RoundRobin.NextRound | cpu_schedular.c:181-209 | a round never raises a counter and leaves entries outside priorities 2 and 3 untouched |
| RoundRobin.RoundLowersOutstanding | cpu_schedular.c:178-214 | a round that finds work strictly lowers the total outstanding burst, so the `while (1)` loop ends |
| RoundRobin.SettledValue | cpu_schedular.c:190-207 | `Settled` is the counter array on exit (`RrScheduler` keeps it invariant across rounds and asserts the match at the `break`): every entry that was pending ends at minus the quantum, and every other entry keeps its burst |
| RoundRobin.ScheduleFromRegistry | cpu_schedular.c:166-218 | every slice of the pass hands over the table entry it names |
| RoundRobin.RrDispatchCount | cpu_schedular.c:185-205 | a served process with burst `b > 0` is handed to `assign_processes` `m` times with `(m-1)*q < b <= m*q`, and each hand-off that fits runs the full burst; all but the last are followed by a requeue, the last by a second release; other processes are never handed over |
| RoundRobin.TrajectoryShape | cpu_schedular.c:185-207 | one process's slices: the count bound above, with only the final slice marked last |
| RoundRobin.SliceEffect | cpu_schedular.c:189-202 | a slice advances the clock by the whole burst when it fits and by nothing when it is refused; a final slice raises the pool by the process's RAM either way |
| RoundRobin.OversizedAdmittedLater | cpu_schedular.c:185-195 | a priority-2 process needing 3000 from a full pool has all its q=8 slices refused (clock unchanged) yet leaves the pool at 5048, after which a priority-3 process needing 3000 is dispatched in the q=16 pass (each pass shown over a one-process table) |
| RoundRobin.RrPassRam | cpu_schedular.c:189-192 | the RR pass raises the pool by the RAM of every served process with a positive burst: the release after its final slice runs whether that slice was dispatched or refused |
| RoundRobin.RrPassClock | cpu_schedular.c:166-218 | with non-negative bursts the RR pass never moves the clock back |
| RoundRobin.RrRepeatsAndOverCredits | cpu_schedular.c:166-218 | a burst-20 priority-2 process in the q=8 pass from a full pool is dispatched three times (clock +60) and leaves the pool at 2148 |
| Admission.AssignAllAppend | cpu_schedular.c:120-133 | handing a list over in two parts equals handing it over at once, which makes the one-process calls of the schedulers equal a single call |
| RoundRobin.ApplyAppend | cpu_schedular.c:178-214 | applying a schedule in two parts equals applying it at once |

## Left out

- `main` (`cpu_schedular.c:220` onward) is not part of this model. It is glue: it opens the files, parses the input and calls the four passes in a fixed order. Its set-up of the RAM pool and the waiting queue is the `Sim` constructor.
- File output is modelled as a log: each `fprintf` line is an `Event` appended to it, without its exact text. The two print helpers (`cpu_schedular.c:67-73`) write to the output file and are inlined as the `Assigned` and `Terminated` events of `Sim.AssignProcess`.
- The console output of `printf` (`cpu_schedular.c:136,140,143,147,161,163,168-170,193,204,217`) is not modelled.
- C `int` is 32 bits, but the model uses unbounded integers. The clock, the RAM pool and the counters are not wrapped on overflow.
- The fixed 200-entry buffer of `sjf_scheduler` becomes an array the size of the table. The unchecked `malloc` of `rr_scheduler` becomes an allocation that always succeeds, and its `free` is not modelled.
- Process fields that none of the modelled code reads are not modelled.
- Callers must list every process of the table in the ghost set `Sim.Procs`, because the queue writes their `next` fields. Every method requires its processes to be in it. The C code has no such set.
- Simulation.Sim.RrScheduler: requires `quantum > 0`. With any other quantum the C loop never ends, and the callers pass only 8 and 16.
- Simulation.Sim.RrVisit: receives the counter as a value and returns the new one. `RrScanStep` writes it back to the array. Nothing reads the counter inside the visit, so the two zeroing assignments of the C code are kept on the local copy.
- Process names are not required to be distinct. Log events carry the name as written.
