# CPU scheduler: a verified model of the scheduling engine

This project models the single-CPU scheduling engine of the CPU scheduler
application. It covers the five schedulers of `schedule.py`:

- First-Come-First-Served;
- non-preemptive Shortest-Job-First;
- preemptive Shortest-Remaining-Time-First;
- Round Robin with a fixed quantum;
- non-preemptive priority scheduling.

It also covers the numeric half of `calculate_and_display_metrics` and the
best-algorithm selector `find_best_algorithms` of
`visualization/comparison_display.py`.

Data model:

- A process is a record `Process(pid, arrival, burst, priority)`.
- A schedule is a sequence of `Segment(pid, start, end)`.

Each scheduler is modelled twice:

- A method that keeps the source's loops, variables and branches.
  - FCFS sorts the caller's array in place, by an insertion sort whose
    result is the stable sort by arrival (`SortByArrival`).
  - The other four take the pure stable sort `SortedByArrival` of their input,
    where the source sorts a copy (schedule.py:57, 100, 196, 260).
  - The Python dictionaries are `map`s, and the ready queue is a `seq`.
  - SRTF's entries with a still-open end are `Entry(pid, start, Option<int>)`.
- A recursive specification function that takes one iteration or one inner
  loop step per call.

Each method's loop invariant ties the output emitted so far to that function:
`result + Run(state) == Schedule(input)`.

The properties are then proved of the specification functions:

- FCFS emits one segment per process, in arrival order. Each segment starts
  at `max(previous end, arrival)` and lasts exactly its burst.
- Every scheduler returns an ordered schedule of non-empty segments. No
  segment starts before its process arrives, and each process receives
  exactly its burst. This is the predicate `ValidSchedule`.
- SJF and priority scheduling pick the minimum of their key among the
  processes that have arrived and not yet run. Both idle only while nothing
  is waiting.
- SRTF:
  - it selects the least remaining time, the first such process winning ties;
  - it runs for the minimum of that time and the time until the next arrival
    inside the window;
  - its clean-up loop finds every entry already closed;
  - after its merge loop, no two adjacent segments are contiguous segments of
    one process.
- Round Robin's slices last at most one quantum. A non-empty input never
  yields the `[(0, 0, 0)]` placeholder.
- The metrics:
  - an empty schedule computes nothing;
  - a scheduled pid with no record raises `KeyError`;
  - running, completion, turnaround and waiting times follow their
    definitions;
  - on a valid schedule, waiting times are non-negative and utilisation lies
    in `(0, 100]`;
  - the averages, utilisation and throughput are 0 behind their
    zero-denominator guards.
- The selector picks, per metric, the first entry with the minimum waiting or
  turnaround time, or the maximum utilisation or throughput. A metric maps to
  `None` exactly when no entry qualifies.

The schedulers and spec functions accept any process list, as the source
does; Round Robin accepts any positive quantum. The properties above assume
valid input: unique pids and positive bursts.

Modules:

| module | file |
|---|---|
| `Processes` | data model and shared predicates (`processes.dfy`) |
| `ArrivalSort` | `sort(key=arrival)` (`arrival_sort.dfy`) |
| `Fcfs` | `fcfs.dfy` |
| `Sjf` | `sjf.dfy` |
| `Srtf` | `srtf.dfy` |
| `RoundRobin` | `round_robin.dfy` |
| `PriorityScheduling` | `priority.dfy` |
| `Metrics` | `metrics.dfy` |
| `Comparison` | `comparison.dfy` |

## Behaviour of the code where textbooks differ

The program's own help text (schedule.py:555-567) says only what each
algorithm is. Where the code departs from the usual textbook presentation of
an algorithm, the model follows the code:

- FCFS: the sort is stable, so processes with equal arrival keep their input
  order. Textbooks often break such ties by pid.
- SRTF: ties in remaining time go to the first candidate in the arrival-sorted
  list, that is the earliest arrival, then input order.
- Priority: ties in priority go to the first candidate in the arrival-sorted
  list, that is the earliest arrival, then input order.
- Round Robin: every slice lasts at most one quantum. With
  `[(1,0,5), (2,1,3), (3,2,8)]` and quantum 2 the code gives P1 0-2, P2 2-4,
  P3 4-6, P1 6-8, P2 8-9, P3 9-11, P1 11-12, P3 12-14 and P3 14-16.
- Input validation: these functions accept any list. Duplicate pids, negative
  arrivals and non-positive bursts are not rejected. The model therefore
  accepts any process list and assumes validity only in the property lemmas.

## Model

| member | source | states |
|---|---|---|
| Processes.RemInit | schedule.py:106 | every pid of the list is a key of the remaining-time dictionary |
| Processes.RemInitValue | schedule.py:202 | with unique pids the remaining-time dictionary starts each process at its burst |
| ArrivalSort.SortByArrival | schedule.py:40 | the array ends up holding the stable sort by arrival of what it held |
| ArrivalSort.InsertIntoPrefix | schedule.py:40 | one insertion step: the prefix grows by the next record at its stable place, and the rest of the array is unchanged |
| ArrivalSort.SortedByArrivalProperties | schedule.py:40 | the sort permutes its input, orders it by arrival, and keeps the records of each arrival time in input order |
| ArrivalSort.SortedValid | schedule.py:57 | a sorted copy keeps unique pids and positive bursts |
| Fcfs.Fcfs | schedule.py:39-46 | sorts the caller's array in place and returns the schedule of the sorted list |
| Fcfs.Dispatch | schedule.py:41-46 | the dispatch loop returns the FCFS schedule of the array's order |
| Fcfs.FcfsFromShape | schedule.py:42-45 | one segment per record in order; each lasts its burst and starts at `max(previous end, arrival)` |
| Fcfs.FcfsScheduleValid | schedule.py:39-46 | for valid input the schedule is valid, has one segment per process, and follows the sorted order |
| Fcfs.FcfsValidSorted | schedule.py:41-46 | the same for a list already in dispatch order |
| Sjf.ShortestJobMinimal | schedule.py:69 | no queued job has a smaller `(burst, arrival, pid)` tuple than the one `pq.get()` returns |
| Sjf.PendingRemove | schedule.py:81 | taking the chosen job out of the queue leaves the arrived jobs that are not done |
| Sjf.Sjf | schedule.py:49-89 | returns the SJF schedule of a sorted copy, and `[]` for an empty list |
| Sjf.SjfRunService | schedule.py:64-87 | from any loop state, every process not done gets one segment of its whole burst and done ones get none |
| Sjf.SjfRunTimeline | schedule.py:64-87 | from any loop state, the rest of the schedule is ordered, non-empty, and never early |
| Sjf.SjfRunShortest | schedule.py:64-84 | from any loop state, every dispatch obeys the shortest-job rule |
| Sjf.SjfRunNoIdle | schedule.py:72-87 | from any loop state, a segment starts later than the previous end only when nothing unrun has arrived |
| Sjf.SjfScheduleValid | schedule.py:60-89 | for valid input the schedule is valid and has exactly one segment per process |
| Sjf.SjfShortestFirst | schedule.py:64-84 | each dispatched process has the least `(burst, arrival, pid)` among the arrived processes not yet run |
| Sjf.SjfNoIdle | schedule.py:72-78 | the clock jumps only to the earliest arrival of an unrun process; no idle segment is emitted |
| Srtf.PickMin | schedule.py:114-121 | the selection picks the least remaining time among arrived, unfinished records; the first in sorted order wins ties, and it picks nothing exactly when there is no candidate |
| Srtf.NextArrivalMin | schedule.py:125-128 | finds the earliest future arrival of an unfinished record, and nothing exactly when there is none |
| Srtf.NextEventMin | schedule.py:145-150 | finds the earliest arrival strictly inside `(now, now + remaining)`, and nothing exactly when there is none |
| Srtf.RunLength | schedule.py:153-159 | runs for a positive time up to the remaining time, ending at the first arrival in the window when there is one, and takes that time off the remainder |
| Srtf.SelectProcess | schedule.py:114-121 | the selection loop computes `Pick` |
| Srtf.NextArrivalScan | schedule.py:125-128 | the `next_arrival` loop computes `NextArrival` |
| Srtf.NextEventScan | schedule.py:145-150 | the `next_event_time` loop computes `NextEvent` |
| Srtf.RunSelected | schedule.py:136-171 | the part of a pass after selection yields the `Dispatched` state |
| Srtf.Iterate | schedule.py:112-171 | one pass of the main loop takes one `Step` |
| Srtf.Simulate | schedule.py:103-171 | the main loop ends in the final state of `Run` |
| Srtf.FillMissingEnds | schedule.py:174-176 | the fix-up loop closes open entries at the final time |
| Srtf.MergeSegments | schedule.py:179-184 | the merge loop computes `Merged` |
| Srtf.Srtf | schedule.py:92-186 | returns the SRTF schedule of a sorted copy, and `[]` for an empty list |
| Srtf.MergedService | schedule.py:179-184 | merging keeps each pid's total CPU time |
| Srtf.MergedNoMergeable | schedule.py:179-184 | after merging, no two adjacent segments are contiguous segments of one pid |
| Srtf.MergedIdentity | schedule.py:179-184 | merging leaves a list without such neighbours unchanged |
| Srtf.DoneUpdate | schedule.py:162-163 | finishing an unfinished record adds one to the count of finished records |
| Srtf.SrtfRunInv | schedule.py:112-171 | from an invariant state, the loop ends in an invariant state with every record finished |
| Srtf.SrtfCleanupNoop | schedule.py:174-186 | for valid input, the fix-up loop finds every entry closed and merging changes nothing |
| Srtf.SrtfValid | schedule.py:92-186 | for valid input the schedule is valid and has no mergeable neighbours |
| RoundRobin.AdmitArrivals | schedule.py:208-210 | queues, in order, exactly the sorted records that have arrived, leaving the rest of the schedule unchanged |
| RoundRobin.ServeHead | schedule.py:220-247 | pops the head and runs it for `min(quantum, remaining)`; retires it, or re-queues it behind the arrivals; the rest of the schedule is unchanged |
| RoundRobin.Requeue | schedule.py:240-247 | the preempted process goes to the tail after `s[idx..idx']`, every record that arrived by the new time |
| RoundRobin.Round | schedule.py:206-247 | one pass emits one slice, or jumps an empty queue to the next arrival, or stops |
| RoundRobin.ServeAll | schedule.py:199-247 | the outer loop returns the Round Robin run from the initial state |
| RoundRobin.RoundRobin | schedule.py:188-249 | returns the Round Robin schedule of a sorted copy; the result is empty exactly when the input is |
| RoundRobin.RunJump | schedule.py:212-216 | an empty queue with arrivals still to come moves the clock without emitting a segment |
| RoundRobin.RunDispatch | schedule.py:221-228 | serving the head emits the slice `(pid, time, time + min(quantum, remaining))` |
| RoundRobin.RrStepInv | schedule.py:206-247 | each step keeps the invariant, and the loop stops only when nothing is owed |
| RoundRobin.RrRunService | schedule.py:225-236 | from an invariant state, each record receives exactly the time still owed to it |
| RoundRobin.RrTimeline | schedule.py:206-232 | from an invariant state, the rest of the schedule is ordered, non-empty, within one quantum per slice, and never early |
| RoundRobin.RoundRobinValid | schedule.py:188-249 | for valid input and quantum > 0 the schedule is valid, slices are within the quantum, and a non-empty input never yields `[(0, 0, 0)]` |
| PriorityScheduling.SelectedMinimal | schedule.py:269-278 | the selected record is ready with the least priority value; the first in sorted order wins ties; nothing is selected exactly when nothing is ready |
| PriorityScheduling.NextArrivalMinimal | schedule.py:273 | the jump target is the least arrival among the records not completed; it exists exactly when some record is not completed |
| PriorityScheduling.JumpReady | schedule.py:271-275 | after the jump, some record is ready |
| PriorityScheduling.PrioCanJump | schedule.py:273 | while processes remain, `min` is never taken of an empty list |
| PriorityScheduling.Priority | schedule.py:252-288 | returns the priority schedule of a sorted copy (`None` where the code raises), and `[]` for an empty list |
| PriorityScheduling.PrioRunService | schedule.py:267-286 | from any iteration head, the loop ends normally; each process not completed gets one segment of its burst and completed ones get none |
| PriorityScheduling.PrioRunTimeline | schedule.py:267-286 | from any iteration head, the rest of the schedule is ordered, non-empty, never early, and starts no earlier than the clock |
| PriorityScheduling.PrioRunRules | schedule.py:269-281 | from any iteration head, every dispatch obeys the priority rule and the idle-time rule |
| PriorityScheduling.PriorityScheduleValid | schedule.py:252-288 | for valid input the code never raises, the schedule is valid, and each process has one segment |
| PriorityScheduling.PriorityRules | schedule.py:269-281 | each dispatch runs the least priority value among the ready processes (the earliest in sorted order on ties) and starts at `max(previous end, earliest unrun arrival)` |
| Metrics.CalculateMetrics | schedule.py:291-346 | the calculation returns `MetricsOf`: no result for an empty schedule, the missing pid, or the report |
| Metrics.BuildProcessDict | schedule.py:296 | builds `ProcessDict` |
| Metrics.Accumulate | schedule.py:308-314 | the first loop builds the running and completion dictionaries and the pids' insertion order |
| Metrics.Derive | schedule.py:320-325 | the second loop stops at the first pid without a record, or builds the turnaround and waiting dictionaries |
| Metrics.ProcessDictLast | schedule.py:296 | the keys are the list's pids, and each entry is the last record with that pid |
| Metrics.ProcessDictUnique | schedule.py:296 | with unique pids, each record is its pid's entry |
| Metrics.MaxEndIsMaximum | schedule.py:299 | `max_completion_time` is one of the segment ends and bounds all of them |
| Metrics.RunningIsService | schedule.py:309-311 | `running_times[pid]` is the pid's total CPU time |
| Metrics.CompletionIsLatestEnd | schedule.py:314 | `completion_times[pid]` bounds every end of the pid's segments and equals one of them unless it is the default 0 |
| Metrics.FirstSeenKeys | schedule.py:308-314 | the insertion order, the completion keys, the running keys and the scheduled pids coincide |
| Metrics.DistinctCount | schedule.py:345 | the number of distinct scheduled pids equals the number of completion keys |
| Metrics.FirstMissingNone | schedule.py:320-322 | nothing is missing exactly when every scheduled pid has a record |
| Metrics.TurnaroundsAt | schedule.py:320-325 | `turnaround = completion - arrival` and `waiting = turnaround - burst` per pid |
| Metrics.MetricsOutcome | schedule.py:292-322 | empty schedule if and only if no result; a missing pid if and only if some scheduled pid has no record, and it is such a pid |
| Metrics.MetricsReport | schedule.py:308-325 | the four dictionaries share the scheduled pids as keys; running is service, turnaround is completion minus arrival, waiting is turnaround minus burst |
| Metrics.MetricsSummary | schedule.py:327-346 | the summary is taken over the distinct scheduled pids and the span from the first arrival to the last end |
| Metrics.MinArrivalIsMinimum | schedule.py:333 | `first_arrival` is one of the arrivals and bounds all of them |
| Metrics.SummaryFigures | schedule.py:328-346 | average × count = sum, utilisation × total_time = 100 × busy time, throughput × total_time = pid count; all 0 behind the guards |
| Metrics.QuotientValue | schedule.py:342 | a guarded quotient times a positive divisor gives back the dividend, and is 0 otherwise |
| Metrics.BusyWithinSpan | schedule.py:336-340 | on a valid schedule the busy time is positive and at most `total_time` |
| Metrics.ValidComputed | schedule.py:320-322 | a valid schedule never raises `KeyError` |
| Metrics.ValidProcessTimes | schedule.py:320-325 | on a valid schedule of unique-pid records, each process ran its burst, has turnaround at least its burst, and waited a non-negative time |
| Metrics.WaitingNonNegative | schedule.py:325 | on a valid schedule every waiting time is non-negative |
| Metrics.ValidSummary | schedule.py:327-346 | on a valid schedule the average wait is non-negative, utilisation lies in (0, 100], and throughput is positive |
| Comparison.Pick | visualization/comparison_display.py:118-135 | a chosen index is in range and its entry qualifies |
| Comparison.BestFor | visualization/comparison_display.py:115-137 | the inner loop's `best_algo` is `BestAlgo` |
| Comparison.FindBestAlgorithms | visualization/comparison_display.py:109-139 | the result has exactly the four metric keys, each mapped to `BestAlgo` |
| Comparison.PickNone | visualization/comparison_display.py:118-119 | a metric maps to `None` exactly when no entry has a non-empty summary holding that metric |
| Comparison.PickExtremal | visualization/comparison_display.py:124-131 | the chosen value is the minimum for the two times and the maximum for the other two, and every earlier qualifying entry has a different value |
| Comparison.PickIsFirstBest | visualization/comparison_display.py:118-135 | an index is chosen exactly when it is the first qualifying entry with the best value |
| Comparison.BestAlgoIsInput | visualization/comparison_display.py:118-137 | a name is reported exactly when some entry qualifies, and it is the name of a qualifying entry |

## Left out

- The Tk and ttkbootstrap interface:
  - `calculate_scheduling`, which reads the table and shows error dialogs;
  - the metrics display at schedule.py lines 348-384;
  - the Gantt chart;
  - the table editing callbacks;
  - the window setup;
  - the rendering functions of `visualization/comparison_display.py`.
- `algorithms/comparison.py` is not part of this model. It only calls
  scheduling and metrics modules (`algorithms.scheduling`, `algorithms.metrics`)
  that are not part of this model either.
- Floating point:
  - The metric divisions are exact fractions of integers (`Fraction`, read
    through `Value`), not IEEE doubles.
  - `(total_execution_time / total_time) * 100` is kept as `100 * busy / total_time`.
  - The selector compares `real` values, so there is no NaN or infinity.
  - SRTF's `float('inf')` is `None`.
- The SJF `PriorityQueue` is a sequence with a minimum search over
  `(burst, arrival, pid)`. Python compares the same tuples, so the pop order
  matches. The heap's internal layout is not modelled.
- Dictionary iteration order:
  - `comparison_results.items()` is modelled as the order of the entry sequence.
  - `for pid in completion_times` is modelled as the pids' insertion order (`FirstSeen`).
- Other exceptions:
  - Python exceptions other than `KeyError` in the metrics (`MissingPid`) and
    `min()` of an empty list in priority scheduling (`None`) are not modelled.
  - Neither of those two is reachable on valid input.
  - `min(p['arrival'] for p in processes)` is also never reached with an
    empty list, because the `KeyError` comes first.
- Lookup defaults:
  - `Get`, `TurnaroundOf`, `WaitingOf`, `SumOver` and `Close` fall back to 0 or
    `[]` on a missing key.
  - The code never reaches these cases, because each lookup is behind a key
    the loop has established.
- RoundRobin.RoundRobin: requires `quantum > 0`. With `quantum <= 0` a slice
  lasts `min(quantum, remaining)`, so a process whose burst exceeds the quantum
  never finishes and the source loop (schedule.py:205-248) never ends; with
  every burst at most the quantum it ends. The interface passes a typed-in
  quantum unchecked and defaults to 2 (schedule.py:26).
- Srtf.PickMin: the shortest-remaining-time rule and the run length
  (`RunLength`) are stated for each pass of the loop in `Step`, not as a
  property of the returned segment list.
- RoundRobin.RrStepInv: FIFO order is stated as the queue updates of each
  step, in `Step`, `AdmitArrivals`, `ServeHead` and `Requeue`. It is not
  stated as a property of the returned segment list.
- SRTF's `selected_pid` is modelled as the index of the selected record in
  the sorted list. Its pid names the same process, so the behaviour is the same.
- The property lemmas assume unique pids and positive bursts. The source does
  not check either.
