# CPU scheduling simulator, modelled in Dafny

`SysOp.cpp` reads a list of processes (arrival time, duration) and simulates
three CPU scheduling policies on it, printing for each the mean turnaround,
response and wait times:

- **FCFS** (first come, first served): a stable sort by arrival, then each
  process runs to completion; the clock jumps to an arrival when the
  processor would otherwise idle.
- **SJF** (shortest job first, non-preemptive): at every decision point the
  shortest arrived, unfinished process runs to completion, the lowest index
  winning ties; with nothing ready the clock advances one unit.
- **RR** (round robin, quantum 2): a FIFO ready queue, each dispatch runs
  `min(2, remaining)` units, arrivals due by the new time are admitted before
  the preempted process is re-queued, and an empty queue makes the clock jump
  to the next arrival.

The model has one module per part of the program:

- `Processes`: the process record, the three metric vectors, and sums and counts over sequences.
- `Ordering`: the arrival orders the two sorts produce.
- `Fcfs`, `Sjf`, `RoundRobin`: the three simulators.
- `Averages`: the sums and means of `calcularMedias`.

The simulators are imperative in the source, so they are methods with loops:

- FCFS and SJF are each one method. They are proved against a predicate
  (`IsFcfsSchedule`, `IsSjfSchedule`) that states the policy's promise entry
  by entry.
- The RR loop body is split into the steps the source performs: admission,
  dispatch and fast-forward. Each step is a method over an `RrState` value
  and states its effect exactly (`IsDispatch`). Each step preserves the loop
  invariant `Valid`. The ghost function `Step` is one loop iteration as a
  value, and `Run` iterates it until every process has finished. The
  `RoundRobin` method is proved to return the metrics of `Run` from the
  initial state.

FCFS metrics come out in processing order, SJF metrics in dispatch order and
RR metrics by input index, as in the source. `Fcfs` also returns the
processing order and `Sjf` the dispatch order (`run`), so that contracts can
name the process behind each entry.

## Model

| member | source | states |
|---|---|---|
| Ordering.StableArrivalOrder | SysOp.cpp:92-95 | the index order of a stable sort on arrival: a permutation, strictly increasing in (arrival, input position) |
| Ordering.StableIsArrivalOrder | SysOp.cpp:92-95 | a stable arrival order is also an arrival order (non-decreasing arrivals) |
| Ordering.StableOrderUnique | SysOp.cpp:92-95 | any two stable arrival orders of the same input are equal, so FCFS's order does not depend on the sort implementation |
| Fcfs.Fcfs | SysOp.cpp:82-117 | processes run in stable arrival order. Each starts at its arrival, or later at the previous completion when that is later. Response equals wait, which is never negative. Turnaround is wait plus duration. One entry per process |
| Fcfs.FcfsKeepsSortedInput | SysOp.cpp:92-98 | input already sorted by arrival is processed in input order |
| Fcfs.FcfsCompletesInOrder | SysOp.cpp:104-116 | with positive durations, completion times strictly increase along the processing order |
| Fcfs.TieKeepsInputOrder | SysOp.cpp:92-117 | on (0,5),(0,3) FCFS keeps input order; turnarounds are 5 then 8, responses and waits 0 then 5 |
| Sjf.ShortestReady | SysOp.cpp:142-154 | returns -1 exactly when no unfinished process has arrived; otherwise a ready process that is no longer than any ready process, with the lowest index among equals |
| Sjf.ShortestReadyAsWritten | SysOp.cpp:142-154 | the scan as written returns -1 exactly when every ready process has duration at least INT_MAX; otherwise the same pick as ShortestReady |
| Sjf.LongestJobNeverPicked | SysOp.cpp:142-160 | on the single ready process (0, INT_MAX) the scan as written finds nothing while the corrected scan picks process 0 |
| Sjf.Sjf | SysOp.cpp:128-176 | the SJF schedule: every process dispatched exactly once. Each starts no earlier than the previous completion, and later only when no unfinished process had arrived by then. Each is the shortest (lowest index on ties) among unfinished processes arrived by its start. Response equals wait, which is never negative. Turnaround is wait plus duration |
| Sjf.IdleStep | SysOp.cpp:156-160 | advancing the clock one unit while nothing is ready keeps the loop invariant, and while a process is unfinished some arrival lies beyond the current time |
| Sjf.DispatchStep | SysOp.cpp:162-175 | running the picked process to completion keeps the loop invariant with its entry appended |
| Sjf.SjfScheduleUnique | SysOp.cpp:139-176 | the SJF promise determines the dispatch order and all metrics: two schedules meeting it are equal |
| Sjf.ShorterJobFirst | SysOp.cpp:139-176 | on (0,5),(0,3) SJF runs process 1 first; turnarounds are 3 then 8 |
| RoundRobin.NextPending | SysOp.cpp:214-217 | the position admission stops at: every process from the cursor up to it has arrived by the given time, and the process at it, if any, arrives later |
| RoundRobin.NextPendingUnique | SysOp.cpp:214-217 | no other position has those properties |
| RoundRobin.Admit | SysOp.cpp:213-217 | appends to the queue, in arrival order, exactly the not-yet-admitted processes arrived by the given time, and stops at the first later one (NextPending) |
| RoundRobin.Start | SysOp.cpp:189-217 | initial state: clock 0, full durations remaining, no first run or completion, the processes arrived at 0 queued in arrival order; it equals Initial and satisfies the invariant |
| RoundRobin.StartValid | SysOp.cpp:191-217 | the initial state satisfies the loop invariant |
| RoundRobin.Initial | SysOp.cpp:189-217 | the initial state as a value; it satisfies the loop invariant |
| RoundRobin.Dispatch | SysOp.cpp:221-252 | one dispatch: the head runs min(2, remaining) units. The first run is recorded on the first dispatch. Arrivals due by the new time are queued before the head is re-queued. A finished head gets its completion time and is counted. Runs 1 to 2 units, strictly reduces the head's remaining time, keeps the invariant, and yields Step of the old state |
| RoundRobin.DispatchQueue | SysOp.cpp:223-247 | after a dispatch the ready queue still holds valid indices, none twice |
| RoundRobin.DispatchJob | SysOp.cpp:223-252 | after a dispatch every process is still in a consistent state: queued iff admitted and unfinished, first run set iff served, completion set iff drained |
| RoundRobin.DispatchKeepsValid | SysOp.cpp:221-252 | a dispatch preserves the loop invariant, including finished == number of drained processes |
| RoundRobin.DispatchExists | SysOp.cpp:221-252 | every valid state with a non-empty queue has a dispatch successor |
| RoundRobin.DispatchUnique | SysOp.cpp:221-252 | the dispatch successor is unique, so the dispatch relation is a function of the state |
| RoundRobin.FastForward | SysOp.cpp:253-263 | with an empty queue, the clock jumps to the next arrival and everything due by then is admitted; with nothing left to admit nothing changes; the result is Step of the old state |
| RoundRobin.FastForwardValid | SysOp.cpp:256-262 | the fast-forward preserves the loop invariant |
| RoundRobin.WaitingForArrival | SysOp.cpp:253-262 | an empty queue with unfinished processes means some process is still to be admitted, so the idle branch always makes progress |
| RoundRobin.Step | SysOp.cpp:220-263 | one iteration of the main loop as a value: the dispatch successor when the queue is non-empty, otherwise the jump to the next arrival, or no change; it keeps the invariant |
| RoundRobin.StepProgress | SysOp.cpp:220-264 | while a process is unfinished, a step strictly lowers the remaining service plus the processes still to be admitted, a quantity never negative, so the loop terminates |
| RoundRobin.AllCompleted | SysOp.cpp:246-251 | once the finished count reaches the number of processes, every process has a first run and a completion time |
| RoundRobin.Run | SysOp.cpp:220-264 | the main loop as a value: steps until every process has finished; the final state is valid and has a first run and a completion time for every process |
| RoundRobin.RunStep | SysOp.cpp:220-264 | from an unfinished state, running on is running on from its successor |
| RoundRobin.RunDone | SysOp.cpp:220 | the loop stops once every process has finished |
| RoundRobin.RunAlong | SysOp.cpp:220-264 | a sequence of states that step into one another and ends finished is what the loop computes |
| RoundRobin.DeriveMetrics | SysOp.cpp:266-274 | by input index: turnaround = completion - arrival, response = first run - arrival, wait = turnaround - duration |
| RoundRobin.RoundRobin | SysOp.cpp:187-274 | the metrics are exactly those of the state the loop reaches from the initial state (IsRoundRobinOutcome), where every process has completed. Turnaround equals wait plus duration. Response is never negative and never exceeds wait |
| RoundRobin.RoundRobinInStableOrder | SysOp.cpp:203-274 | Round-Robin on the order a stable sort by arrival yields, which is one of the orders the sort may produce; the outcome is as for RoundRobin |
| RoundRobin.InputStart | SysOp.cpp:203-217 | on (0,4),(0,4) the order [0,1] is an arrival order, and the initial state queues both processes at time 0 in that order |
| RoundRobin.SwappedStart | SysOp.cpp:203-217 | on (0,4),(0,4) the order [1,0] is an arrival order, and the initial state queues both processes at time 0 in that order |
| RoundRobin.InputDispatch | SysOp.cpp:221-252 | in order [0,1], each of the four dispatches leads to the next state of the expected trace |
| RoundRobin.SwappedDispatch | SysOp.cpp:221-252 | in order [1,0], each of the four dispatches leads to the next state of the expected trace |
| RoundRobin.InputStep | SysOp.cpp:220-264 | in order [0,1], each loop step leads to the next trace state |
| RoundRobin.SwappedStep | SysOp.cpp:220-264 | in order [1,0], each loop step leads to the next trace state |
| RoundRobin.InputRun | SysOp.cpp:220-264 | in order [0,1], the loop ends with first runs 0 and 2 and completions 6 and 8 |
| RoundRobin.SwappedRun | SysOp.cpp:220-264 | in order [1,0], the loop ends with first runs 2 and 0 and completions 8 and 6 |
| RoundRobin.TwoEqualJobs | SysOp.cpp:187-274 | RoundRobin on (0,4),(0,4) in order [0,1]: response 0 and 2, wait 2 and 4, turnaround 6 and 8 |
| RoundRobin.TwoEqualJobsSwapped | SysOp.cpp:187-274 | RoundRobin on (0,4),(0,4) in order [1,0]: response 2 and 0, wait 4 and 2, turnaround 8 and 6; the processes trade places and only the totals agree |
| Averages.Totals | SysOp.cpp:18-25 | the single pass yields the sums of the response, wait and turnaround vectors |
| Averages.ComputeMeans | SysOp.cpp:15-30 | each mean times the process count equals the vector's sum; no means exactly when there are no processes |
| Averages.TotalServiceInAnyOrder | SysOp.cpp:97-117 | durations summed along any permutation of the processes give the total duration |
| Averages.FcfsTotals | SysOp.cpp:111-113 | FCFS: total response equals total wait; total turnaround is total wait plus total duration |
| Averages.SjfTotals | SysOp.cpp:168-170 | SJF: total response equals total wait; total turnaround is total wait plus total duration |
| Averages.RoundRobinTotals | SysOp.cpp:270-274 | RR: 0 <= total response <= total wait; total turnaround is total wait plus total duration |

## Left out

- Reading `processos.txt` (SysOp.cpp:47-73): file I/O and parsing. The process list is a parameter.
- Locale setup (SysOp.cpp:43-44) and printing the label and means (SysOp.cpp:33-38).
- Floating point: the means are exact reals. The `float` accumulation and rounding of `calcularMedias` are not modelled.
- Division by zero with no processes gives NaN in the source. `Averages.ComputeMeans` returns `None` in that case.
- Clearing the metric vectors between policies (SysOp.cpp:121-124, 180-183). Each simulator returns fresh vectors.
- 32-bit `int` overflow of the clocks and sums. Integers are unbounded. INT_MAX appears only as the starting minimum of the SJF scan.
- RoundRobin.RoundRobin: requires every duration to be at least 1. The program is meant for positive durations, and the invariant here needs every dispatch to serve at least one unit. Under it, a first-run time is set exactly when service has been given, and the clock never goes below 0, where the -1 "unset" sentinel would clash with a real time. The source accepts zero durations, which complete in a slice of 0 units, and negative ones, which move the clock backwards. FCFS and SJF need no such requirement.
- RoundRobin.RoundRobin: takes the arrival order as a parameter, and any permutation with non-decreasing arrivals is accepted. The source sorts with `std::sort` (SysOp.cpp:208-210), which is not stable and leaves the order of equal arrivals open. The order matters: `TwoEqualJobs` and `TwoEqualJobsSwapped` show the two outcomes for a tie. `RoundRobin.RoundRobinInStableOrder` runs it on the stable order.
- Fcfs.Fcfs: indexes the input through the sorted order instead of copying sorted (arrival, duration) pairs. The values used are the same.
- Sjf.Sjf: returns the dispatch order `run` beside the metrics. The source does not output it, but it is what the metric entries refer to.
- Sjf.Sjf: uses the corrected scan `ShortestReady` (see Findings). With every duration below INT_MAX both scans pick the same process.

## Findings

| source | as written | input that shows it | evidently intended | confidence | as-written member | corrected member |
|---|---|---|---|---|---|---|
| SysOp.cpp:142-154 | the SJF scan starts its running minimum at INT_MAX and compares with strict `<`, so a ready process of duration INT_MAX is never selected | one process (0, 2147483647): the scan returns -1 at every time, and the loop only advances the clock and never terminates | every ready process can be selected; the scan reports -1 only when nothing is ready | not executed | Sjf.LongestJobNeverPicked | Sjf.ShortestReady |
