/** The computational half of `calculate_and_display_metrics(schedule,
    processes)`: per-process running, completion, turnaround and waiting
    times, their averages, CPU utilisation and throughput. Python's float
    division is modelled exactly: each figure is kept as a fraction of two
    integers, whose `Value` is the real quotient. */
module Metrics {
  import opened Processes

  /** An exact quotient `num / den`. */
  datatype Fraction = Fraction(num: int, den: int)

  /** The number a fraction stands for (0 for a zero denominator, which
      `Quotient` never produces). */
  function Value(q: Fraction): real
  {
    if q.den == 0 then 0.0 else q.num as real / q.den as real
  }

  /** `x / y if y > 0 else 0`, the guard every division of the calculation
      carries. */
  function Quotient(x: int, y: int): Fraction
  {
    if y > 0 then Fraction(x, y) else Fraction(0, 1)
  }

  /** The four summary figures. */
  datatype Summary = Summary(avgWaiting: Fraction, avgTurnaround: Fraction, utilization: Fraction,
                             throughput: Fraction)

  /** Everything the calculation produces: the summary and the four
      per-process dictionaries, keyed by pid. */
  datatype Report = Report(summary: Summary, completion: map<int, int>, turnaround: map<int, int>,
                           waiting: map<int, int>, running: map<int, int>)

  /** How the calculation ends: an empty schedule returns early, a scheduled
      pid without a record raises `KeyError` at `process_dict[pid]`, and
      otherwise the figures are computed. */
  datatype Outcome = NoSchedule | MissingPid(pid: int) | Computed(report: Report)

  /** `process_dict = {p['pid']: p for p in processes}`: the last record with a
      given pid sets its entry. */
  function ProcessDict(ps: seq<Process>): map<int, Process>
  {
    if ps == [] then map[] else ProcessDict(ps[..|ps| - 1])[ps[|ps| - 1].pid := ps[|ps| - 1]]
  }

  /** `max(task[2] for task in schedule)`. */
  function MaxEnd(r: seq<Segment>): int
    requires r != []
  {
    if |r| == 1 then r[0].end else Max(MaxEnd(r[..|r| - 1]), r[|r| - 1].end)
  }

  /** `min(p['arrival'] for p in processes)`. */
  function MinArrival(ps: seq<Process>): int
    requires ps != []
  {
    if |ps| == 1 then ps[0].arrival else Min(MinArrival(ps[..|ps| - 1]), ps[|ps| - 1].arrival)
  }

  /** `sum(end - start for _, start, end in schedule)`. */
  function Busy(r: seq<Segment>): int
  {
    if r == [] then 0 else Busy(r[..|r| - 1]) + (r[|r| - 1].end - r[|r| - 1].start)
  }

  /** `running_times` after the first loop has gone over `r`. */
  function RunningTimes(r: seq<Segment>): map<int, int>
  {
    if r == [] then map[]
    else
      var m, g := RunningTimes(r[..|r| - 1]), r[|r| - 1];
      m[g.pid := (if g.pid in m then m[g.pid] else 0) + (g.end - g.start)]
  }

  /** `completion_times` after the first loop has gone over `r`. */
  function CompletionTimes(r: seq<Segment>): map<int, int>
  {
    if r == [] then map[]
    else
      var m, g := CompletionTimes(r[..|r| - 1]), r[|r| - 1];
      m[g.pid := Max(if g.pid in m then m[g.pid] else 0, g.end)]
  }

  /** The keys of `completion_times` in insertion order, the order in which
      `for pid in completion_times` visits them. */
  function FirstSeen(r: seq<Segment>): seq<int>
  {
    if r == [] then []
    else
      var o, g := FirstSeen(r[..|r| - 1]), r[|r| - 1];
      if g.pid in o then o else o + [g.pid]
  }

  /** The first pid of `order` without a record: where the second loop raises. */
  function FirstMissing(order: seq<int>, d: map<int, Process>): Option<int>
  {
    FirstMissingFrom(order, d, 0)
  }

  /** The first pid of `order` from position `i` on without a record. */
  function FirstMissingFrom(order: seq<int>, d: map<int, Process>, i: nat): Option<int>
    decreases |order| - i
  {
    if i >= |order| then None
    else if order[i] !in d then Some(order[i])
    else FirstMissingFrom(order, d, i + 1)
  }

  /** `completion_times[pid] - process_dict[pid]['arrival']`; 0 where a
      lookup would fail, which the calculation never reaches (it stops at
      the first pid without a record). */
  function TurnaroundOf(pid: int, completion: map<int, int>, d: map<int, Process>): int
  {
    if pid in completion && pid in d then completion[pid] - d[pid].arrival else 0
  }

  /** `turnaround_times[pid] - process_dict[pid]['burst']`, with the same
      default. */
  function WaitingOf(pid: int, completion: map<int, int>, d: map<int, Process>): int
  {
    if pid in d then TurnaroundOf(pid, completion, d) - d[pid].burst else 0
  }

  /** The second loop's `turnaround_times` after the pids of `order`. */
  function Turnarounds(order: seq<int>, completion: map<int, int>, d: map<int, Process>): (m: map<int, int>)
    ensures forall pid :: pid in m <==> pid in order
  {
    if order == [] then map[]
    else
      var pid := order[|order| - 1];
      Turnarounds(order[..|order| - 1], completion, d)[pid := TurnaroundOf(pid, completion, d)]
  }

  /** The second loop's `waiting_times` after the pids of `order`. */
  function Waitings(order: seq<int>, completion: map<int, int>, d: map<int, Process>): (m: map<int, int>)
    ensures forall pid :: pid in m <==> pid in order
  {
    if order == [] then map[]
    else
      var pid := order[|order| - 1];
      Waitings(order[..|order| - 1], completion, d)[pid := WaitingOf(pid, completion, d)]
  }

  /** `sum(m.values())` for a dictionary whose keys are `order`; a pid
      outside the dictionary, which the calculation never passes, adds 0. */
  function SumOver(order: seq<int>, m: map<int, int>): int
  {
    if order == [] then 0
    else
      var pid := order[|order| - 1];
      SumOver(order[..|order| - 1], m) + (if pid in m then m[pid] else 0)
  }

  /** The three dictionaries share their keys, the scheduled pids, which
      the insertion order lists. */
  lemma {:induction false} FirstSeenKeys(r: seq<Segment>)
    ensures forall pid :: pid in FirstSeen(r) <==> pid in CompletionTimes(r)
    ensures forall pid :: pid in CompletionTimes(r) <==> pid in RunningTimes(r)
    ensures forall pid :: pid in RunningTimes(r) <==> pid in SegmentPids(r)
  {
    if r != [] {
      var init, g := r[..|r| - 1], r[|r| - 1];
      FirstSeenKeys(init);
      assert r == init + [g];
      assert SegmentPids(r) == SegmentPids(init) + {g.pid};
    }
  }

  /** When no pid is missing, every pid of `order` has a record. */
  lemma FirstMissingNone(order: seq<int>, d: map<int, Process>)
    ensures FirstMissing(order, d).None? <==> forall pid :: pid in order ==> pid in d
    ensures FirstMissing(order, d).Some? ==>
      FirstMissing(order, d).value in order && FirstMissing(order, d).value !in d
  {
    FirstMissingFromNone(order, d, 0);
    if forall pid :: pid in order ==> pid in d {
      forall k | 0 <= k < |order| ensures order[k] in d {
        assert order[k] in order;
      }
    }
  }

  lemma {:induction false} FirstMissingFromNone(order: seq<int>, d: map<int, Process>, i: nat)
    requires i <= |order|
    ensures FirstMissingFrom(order, d, i).None? <==> forall k :: i <= k < |order| ==> order[k] in d
    ensures FirstMissingFrom(order, d, i).Some? ==>
      FirstMissingFrom(order, d, i).value in order && FirstMissingFrom(order, d, i).value !in d
    decreases |order| - i
  {
    if i < |order| {
      FirstMissingFromNone(order, d, i + 1);
    }
  }

  /** The result of the calculation. */
  function MetricsOf(schedule: seq<Segment>, processes: seq<Process>): Outcome
  {
    if schedule == [] then NoSchedule
    else
      match FirstMissing(FirstSeen(schedule), ProcessDict(processes))
      case Some(pid) => MissingPid(pid)
      case None => Computed(ReportOf(schedule, processes))
  }

  /** The dictionaries and figures once every scheduled pid has a record. */
  function ReportOf(schedule: seq<Segment>, processes: seq<Process>): Report
    requires schedule != []
    requires FirstMissing(FirstSeen(schedule), ProcessDict(processes)).None?
  {
    var d, order := ProcessDict(processes), FirstSeen(schedule);
    FirstSeenKeys(schedule);
    FirstMissingNone(order, d);
    assert schedule[0].pid in SegmentPids(schedule);
    var completion := CompletionTimes(schedule);
    var turnaround, waiting := Turnarounds(order, completion, d), Waitings(order, completion, d);
    var totalTime := MaxEnd(schedule) - MinArrival(processes);
    Report(SummaryOf(Busy(schedule), totalTime, |order|, |SegmentPids(schedule)|,
                     SumOver(order, waiting), SumOver(order, turnaround)),
           completion, turnaround, waiting,
           RunningTimes(schedule))
  }

  /** Averages, `cpu_utilization` and `throughput` from the totals they
      divide: the busy time `total_execution_time`, the span `total_time`,
      the number of pids in the waiting and turnaround dictionaries, the
      number of distinct scheduled pids, and the two sums of values. */
  function SummaryOf(busy: int, totalTime: int, count: nat, processCount: nat,
                     waitingSum: int, turnaroundSum: int): Summary
  {
    // (busy / total_time) * 100 is kept as the exact quotient 100 * busy / total_time
    Summary(Quotient(waitingSum, count), Quotient(turnaroundSum, count), Quotient(100 * busy, totalTime),
            Quotient(processCount, totalTime))
  }

  /** `process_dict = {p['pid']: p for p in processes}`. */
  method BuildProcessDict(processes: seq<Process>) returns (processDict: map<int, Process>)
    ensures processDict == ProcessDict(processes)
  {
    processDict := map[];
    for i := 0 to |processes|
      invariant processDict == ProcessDict(processes[..i])
    {
      assert processes[..i + 1][..i] == processes[..i];
      processDict := processDict[processes[i].pid := processes[i]];
    }
    assert processes[..|processes|] == processes;
  }

  /** The first loop: running and completion time per pid, and the order in
      which pids first appear. */
  method Accumulate(schedule: seq<Segment>)
    returns (runningTimes: map<int, int>, completionTimes: map<int, int>, order: seq<int>)
    ensures runningTimes == RunningTimes(schedule)
    ensures completionTimes == CompletionTimes(schedule)
    ensures order == FirstSeen(schedule)
  {
    runningTimes, completionTimes, order := map[], map[], [];
    for i := 0 to |schedule|
      invariant runningTimes == RunningTimes(schedule[..i])
      invariant completionTimes == CompletionTimes(schedule[..i])
      invariant order == FirstSeen(schedule[..i])
    {
      FirstSeenKeys(schedule[..i]);
      assert schedule[..i + 1][..i] == schedule[..i];
      var task := schedule[i];
      if task.pid !in runningTimes {
        runningTimes := runningTimes[task.pid := 0];
      }
      runningTimes := runningTimes[task.pid := runningTimes[task.pid] + (task.end - task.start)];
      if task.pid !in completionTimes {
        order := order + [task.pid];
      }
      completionTimes := completionTimes[task.pid := Max(if task.pid in completionTimes then completionTimes[task.pid] else 0, task.end)];
    }
    assert schedule[..|schedule|] == schedule;
  }

  /** The second loop: turnaround and waiting time per pid, or the first pid
      whose record is missing. */
  method Derive(order: seq<int>, completionTimes: map<int, int>, processDict: map<int, Process>)
    returns (missing: Option<int>, turnaroundTimes: map<int, int>, waitingTimes: map<int, int>)
    requires forall pid :: pid in order ==> pid in completionTimes
    ensures missing == FirstMissing(order, processDict)
    ensures missing.None? ==>
      (forall pid :: pid in order ==> pid in processDict)
      && turnaroundTimes == Turnarounds(order, completionTimes, processDict)
      && waitingTimes == Waitings(order, completionTimes, processDict)
  {
    turnaroundTimes, waitingTimes := map[], map[];
    for j := 0 to |order|
      invariant forall k :: 0 <= k < j ==> order[k] in processDict
      invariant turnaroundTimes == Turnarounds(order[..j], completionTimes, processDict)
      invariant waitingTimes == Waitings(order[..j], completionTimes, processDict)
    {
      var pid := order[j];
      if pid !in processDict {
        FirstMissingAt(order, processDict, j);
        return Some(pid), turnaroundTimes, waitingTimes;
      }
      assert order[..j + 1][..j] == order[..j];
      var process := processDict[pid];
      turnaroundTimes := turnaroundTimes[pid := completionTimes[pid] - process.arrival];
      waitingTimes := waitingTimes[pid := turnaroundTimes[pid] - process.burst];
    }
    assert order[..|order|] == order;
    FirstMissingNone(order, processDict);
    missing := None;
  }

  /** The calculation. The dictionaries are `map`s; `order` records the
      insertion order of `completion_times`, which `for pid in
      completion_times` follows. */
  method CalculateMetrics(schedule: seq<Segment>, processes: seq<Process>) returns (out: Outcome)
    ensures out == MetricsOf(schedule, processes)
  {
    if schedule == [] {
      return NoSchedule;
    }
    var processDict := BuildProcessDict(processes);
    var runningTimes, completionTimes, order := Accumulate(schedule);
    FirstSeenKeys(schedule);
    var missing, turnaroundTimes, waitingTimes := Derive(order, completionTimes, processDict);
    if missing.Some? {
      return MissingPid(missing.value);
    }
    assert schedule[0].pid in SegmentPids(schedule);
    var totalTime := MaxEnd(schedule) - MinArrival(processes);
    var totalExecutionTime := Busy(schedule);
    var cpuUtilization := Quotient(100 * totalExecutionTime, totalTime);
    var numberOfProcesses := |set g | g in schedule :: g.pid|;
    var throughput := Quotient(numberOfProcesses, totalTime);
    // len(waiting_times) and len(turnaround_times) are both |order|
    var summary := Summary(Quotient(SumOver(order, waitingTimes), |order|),
                           Quotient(SumOver(order, turnaroundTimes), |order|), cpuUtilization, throughput);
    out := Computed(Report(summary, completionTimes, turnaroundTimes, waitingTimes, runningTimes));
  }

  /** The second loop stops at the first pid without a record. */
  lemma FirstMissingAt(order: seq<int>, d: map<int, Process>, j: nat)
    requires j < |order| && order[j] !in d
    requires forall k :: 0 <= k < j ==> order[k] in d
    ensures FirstMissing(order, d) == Some(order[j])
  {
    FirstMissingFromAt(order, d, j, 0);
  }

  lemma {:induction false} FirstMissingFromAt(order: seq<int>, d: map<int, Process>, j: nat, i: nat)
    requires i <= j < |order| && order[j] !in d
    requires forall k :: i <= k < j ==> order[k] in d
    ensures FirstMissingFrom(order, d, i) == Some(order[j])
    decreases j - i
  {
    if i < j {
      FirstMissingFromAt(order, d, j, i + 1);
    }
  }

  /** `running_times[pid]` is the CPU time the schedule gives `pid`. */
  lemma {:induction false} RunningIsService(r: seq<Segment>)
    ensures forall pid :: pid in RunningTimes(r) ==> RunningTimes(r)[pid] == Service(r, pid)
  {
    if r != [] {
      var init, g := r[..|r| - 1], r[|r| - 1];
      RunningIsService(init);
      FirstSeenKeys(init);
      assert r == init + [g];
      forall pid | pid in RunningTimes(r) ensures RunningTimes(r)[pid] == Service(r, pid) {
        ServiceConcat(init, [g], pid);
        assert [g][1..] == [];
        if pid !in RunningTimes(init) {
          ServiceAbsent(init, pid);
        }
      }
    }
  }

  /** `completion_times[pid]` is the latest end among the segments of `pid`,
      or 0 when that is larger: the dictionary lookup defaults to 0. */
  lemma {:induction false} CompletionIsLatestEnd(r: seq<Segment>)
    ensures forall k :: 0 <= k < |r| ==> r[k].pid in CompletionTimes(r) && r[k].end <= CompletionTimes(r)[r[k].pid]
    ensures forall pid :: pid in CompletionTimes(r) ==> 0 <= CompletionTimes(r)[pid]
    ensures forall pid :: pid in CompletionTimes(r) && CompletionTimes(r)[pid] != 0 ==>
      exists k :: 0 <= k < |r| && r[k].pid == pid && r[k].end == CompletionTimes(r)[pid]
  {
    if r != [] {
      var init, g := r[..|r| - 1], r[|r| - 1];
      CompletionIsLatestEnd(init);
      var m := CompletionTimes(r);
      forall pid | pid in m && m[pid] != 0
        ensures exists k :: 0 <= k < |r| && r[k].pid == pid && r[k].end == m[pid]
      {
        if pid == g.pid && m[pid] == g.end {
          assert r[|r| - 1].pid == pid;
        } else {
          var k :| 0 <= k < |init| && init[k].pid == pid && init[k].end == CompletionTimes(init)[pid];
          assert r[k] == init[k];
        }
      }
    }
  }

  /** `max(...)` over the segment ends is one of them and bounds all. */
  lemma {:induction false} MaxEndIsMaximum(r: seq<Segment>)
    requires r != []
    ensures forall k :: 0 <= k < |r| ==> r[k].end <= MaxEnd(r)
    ensures exists k :: 0 <= k < |r| && r[k].end == MaxEnd(r)
  {
    if |r| > 1 {
      var init := r[..|r| - 1];
      MaxEndIsMaximum(init);
      var k :| 0 <= k < |init| && init[k].end == MaxEnd(init);
      assert r[k] == init[k];
      if MaxEnd(r) != MaxEnd(init) {
        assert r[|r| - 1].end == MaxEnd(r);
      }
    } else {
      assert r[0].end == MaxEnd(r);
    }
  }

  /** `min(...)` over the arrivals is one of them and bounds all. */
  lemma {:induction false} MinArrivalIsMinimum(ps: seq<Process>)
    requires ps != []
    ensures forall k :: 0 <= k < |ps| ==> MinArrival(ps) <= ps[k].arrival
    ensures exists k :: 0 <= k < |ps| && ps[k].arrival == MinArrival(ps)
  {
    if |ps| > 1 {
      var init := ps[..|ps| - 1];
      MinArrivalIsMinimum(init);
      var k :| 0 <= k < |init| && init[k].arrival == MinArrival(init);
      assert ps[k] == init[k];
      if MinArrival(ps) != MinArrival(init) {
        assert ps[|ps| - 1].arrival == MinArrival(ps);
      }
    } else {
      assert ps[0].arrival == MinArrival(ps);
    }
  }

  /** The record `process_dict[pid]` is the last one in `ps` with that pid. */
  predicate LastWith(ps: seq<Process>, k: int, pid: int)
  {
    0 <= k < |ps| && ps[k].pid == pid && forall l :: k < l < |ps| ==> ps[l].pid != pid
  }

  /** `process_dict` has a key for each pid of the list, and its entry is
      the last record with that pid. */
  lemma {:induction false} ProcessDictLast(ps: seq<Process>)
    ensures forall pid :: pid in ProcessDict(ps) <==> pid in PidSet(ps)
    ensures forall pid :: pid in ProcessDict(ps) ==> exists k :: LastWith(ps, k, pid) && ps[k] == ProcessDict(ps)[pid]
  {
    if ps != [] {
      var init, p := ps[..|ps| - 1], ps[|ps| - 1];
      ProcessDictLast(init);
      assert ps == init + [p];
      assert PidSet(ps) == PidSet(init) + {p.pid};
      var d := ProcessDict(ps);
      forall pid | pid in d ensures exists k :: LastWith(ps, k, pid) && ps[k] == d[pid] {
        if pid == p.pid {
          assert LastWith(ps, |ps| - 1, pid);
        } else {
          var k :| LastWith(init, k, pid) && init[k] == ProcessDict(init)[pid];
          assert LastWith(ps, k, pid);
        }
      }
    }
  }

  /** With unique pids, `process_dict[p['pid']]` is `p`. */
  lemma ProcessDictUnique(ps: seq<Process>)
    requires UniquePids(ps)
    ensures forall p :: p in ps ==> p.pid in ProcessDict(ps) && ProcessDict(ps)[p.pid] == p
  {
    ProcessDictLast(ps);
    forall p | p in ps ensures p.pid in ProcessDict(ps) && ProcessDict(ps)[p.pid] == p {
      var i :| 0 <= i < |ps| && ps[i] == p;
      assert p.pid in PidSet(ps);
      var k :| LastWith(ps, k, p.pid) && ps[k] == ProcessDict(ps)[p.pid];
      assert k == i;
    }
  }

  /** `len(set(task[0] for task in schedule))` equals the number of pids
      in insertion order. */
  lemma {:induction false} DistinctCount(r: seq<Segment>)
    ensures |SegmentPids(r)| == |FirstSeen(r)|
  {
    if r != [] {
      var init, g := r[..|r| - 1], r[|r| - 1];
      DistinctCount(init);
      FirstSeenKeys(init);
      assert r == init + [g];
      assert SegmentPids(r) == SegmentPids(init) + {g.pid};
      if g.pid in FirstSeen(init) {
        assert SegmentPids(r) == SegmentPids(init);
      } else {
        assert g.pid !in SegmentPids(init);
        assert |SegmentPids(r)| == |SegmentPids(init)| + 1;
      }
    }
  }

  lemma {:induction false} TurnaroundsAt(order: seq<int>, completion: map<int, int>, d: map<int, Process>)
    requires forall pid :: pid in order ==> pid in completion && pid in d
    ensures forall pid :: pid in order ==>
      Turnarounds(order, completion, d)[pid] == completion[pid] - d[pid].arrival
      && Waitings(order, completion, d)[pid] == (completion[pid] - d[pid].arrival) - d[pid].burst
  {
    if order != [] {
      TurnaroundsAt(order[..|order| - 1], completion, d);
      assert order == order[..|order| - 1] + [order[|order| - 1]];
    }
  }

  /** Which of the three outcomes the calculation reaches. */
  lemma MetricsOutcome(schedule: seq<Segment>, processes: seq<Process>)
    ensures MetricsOf(schedule, processes).NoSchedule? <==> schedule == []
    ensures MetricsOf(schedule, processes).MissingPid? <==>
      schedule != [] && exists k :: 0 <= k < |schedule| && schedule[k].pid !in PidSet(processes)
    ensures MetricsOf(schedule, processes).MissingPid? ==>
      MetricsOf(schedule, processes).pid in SegmentPids(schedule) - PidSet(processes)
  {
    if schedule != [] {
      var d, order := ProcessDict(processes), FirstSeen(schedule);
      FirstSeenKeys(schedule);
      FirstMissingNone(order, d);
      ProcessDictLast(processes);
      if exists k :: 0 <= k < |schedule| && schedule[k].pid !in PidSet(processes) {
        var k :| 0 <= k < |schedule| && schedule[k].pid !in PidSet(processes);
        assert schedule[k].pid in SegmentPids(schedule);
      } else {
        forall pid | pid in order ensures pid in d {
          var g :| g in schedule && g.pid == pid;
          var k :| 0 <= k < |schedule| && schedule[k] == g;
        }
      }
    }
  }

  /** The four dictionaries of a computed report: keyed by the scheduled
      pids, with `running = service`, `turnaround = completion - arrival`
      and `waiting = turnaround - burst`, the record being `process_dict[pid]`. */
  lemma MetricsReport(schedule: seq<Segment>, processes: seq<Process>)
    requires MetricsOf(schedule, processes).Computed?
    ensures var rep, d := MetricsOf(schedule, processes).report, ProcessDict(processes);
      (forall pid :: pid in SegmentPids(schedule) <==> pid in rep.completion)
      && (forall pid :: pid in rep.completion <==> pid in rep.running)
      && (forall pid :: pid in rep.completion <==> pid in rep.turnaround)
      && (forall pid :: pid in rep.completion <==> pid in rep.waiting)
      && forall pid :: pid in rep.completion ==>
           pid in d
           && rep.running[pid] == Service(schedule, pid)
           && rep.turnaround[pid] == rep.completion[pid] - d[pid].arrival
           && rep.waiting[pid] == rep.turnaround[pid] - d[pid].burst
  {
    var order, d := FirstSeen(schedule), ProcessDict(processes);
    FirstSeenKeys(schedule);
    FirstMissingNone(order, d);
    RunningIsService(schedule);
    TurnaroundsAt(order, CompletionTimes(schedule), d);
  }

  /** The summary of a computed report is taken over the distinct scheduled
      pids, in insertion order, and the span from the first arrival to the
      last end; `SummaryFigures` says what that summary is. */
  lemma MetricsSummary(schedule: seq<Segment>, processes: seq<Process>)
    requires MetricsOf(schedule, processes).Computed?
    ensures processes != []
    ensures |FirstSeen(schedule)| == |SegmentPids(schedule)| > 0
    ensures var rep := MetricsOf(schedule, processes).report;
      (forall pid :: pid in FirstSeen(schedule) <==> pid in rep.waiting)
      && (forall pid :: pid in FirstSeen(schedule) <==> pid in rep.turnaround)
      && rep.summary == SummaryOf(Busy(schedule), MaxEnd(schedule) - MinArrival(processes),
                                  |FirstSeen(schedule)|, |SegmentPids(schedule)|,
                                  SumOver(FirstSeen(schedule), rep.waiting), SumOver(FirstSeen(schedule), rep.turnaround))
  {
    var order, d := FirstSeen(schedule), ProcessDict(processes);
    FirstSeenKeys(schedule);
    FirstMissingNone(order, d);
    DistinctCount(schedule);
    assert schedule[0].pid in SegmentPids(schedule);
  }

  /** The summary figures in terms of the sums they divide. */
  lemma SummaryFigures(busy: int, totalTime: int, count: nat, processCount: nat,
                       waitingSum: int, turnaroundSum: int)
    ensures var sm := SummaryOf(busy, totalTime, count, processCount, waitingSum, turnaroundSum);
      (count > 0 ==>
         Value(sm.avgWaiting) * count as real == waitingSum as real
         && Value(sm.avgTurnaround) * count as real == turnaroundSum as real)
      && (count == 0 ==> Value(sm.avgWaiting) == 0.0 && Value(sm.avgTurnaround) == 0.0)
      && (totalTime <= 0 ==> Value(sm.utilization) == 0.0 && Value(sm.throughput) == 0.0)
      && (totalTime > 0 ==>
            Value(sm.utilization) * totalTime as real == 100.0 * busy as real
            && Value(sm.throughput) * totalTime as real == processCount as real)
  {
    QuotientValue(waitingSum, count);
    QuotientValue(turnaroundSum, count);
    QuotientValue(100 * busy, totalTime);
    QuotientValue(processCount, totalTime);
  }

  /** A guarded quotient times its divisor gives back the dividend; with a
      non-positive divisor it is 0. */
  lemma QuotientValue(x: int, y: int)
    ensures y > 0 ==> Value(Quotient(x, y)) * y as real == x as real
    ensures y <= 0 ==> Value(Quotient(x, y)) == 0.0
  {
  }

  /** Within `[a, b]`, ordered non-overlapping segments of `pid` total at
      most `b - a`. */
  lemma {:induction false} ServiceBound(r: seq<Segment>, pid: int, a: int, b: int)
    requires Ordered(r) && NonEmptySegments(r) && a <= b
    requires forall k :: 0 <= k < |r| && r[k].pid == pid ==> a <= r[k].start && r[k].end <= b
    ensures 0 <= Service(r, pid) <= b - a
  {
    if r != [] {
      var t := r[1..];
      assert Ordered(t) && NonEmptySegments(t) by {
        forall k | 0 < k < |t| ensures t[k - 1].end <= t[k].start {
          assert t[k - 1] == r[k] && t[k] == r[k + 1];
        }
      }
      if r[0].pid == pid {
        forall k | 0 <= k < |t| && t[k].pid == pid ensures r[0].end <= t[k].start && t[k].end <= b {
          OrderedDisjoint(r, 0, k + 1);
          assert t[k] == r[k + 1];
        }
        ServiceBound(t, pid, r[0].end, b);
      } else {
        forall k | 0 <= k < |t| && t[k].pid == pid ensures a <= t[k].start && t[k].end <= b {
          assert t[k] == r[k + 1];
        }
        ServiceBound(t, pid, a, b);
      }
    }
  }

  /** Within `[a, b]`, ordered non-overlapping segments total at most
      `b - a`, and more than 0 when there is one. */
  lemma {:induction false} BusyBound(r: seq<Segment>, a: int, b: int)
    requires Ordered(r) && NonEmptySegments(r) && a <= b
    requires forall k :: 0 <= k < |r| ==> a <= r[k].start && r[k].end <= b
    ensures 0 <= Busy(r) <= b - a
    ensures r != [] ==> 0 < Busy(r)
  {
    if r != [] {
      var init, g := r[..|r| - 1], r[|r| - 1];
      if init != [] {
        forall k | 0 <= k < |init| ensures a <= init[k].start && init[k].end <= g.start {
          OrderedDisjoint(r, k, |r| - 1);
        }
        BusyBound(init, a, g.start);
      }
    }
  }

  lemma {:induction false} SumOverNonNegative(order: seq<int>, m: map<int, int>)
    requires forall i :: 0 <= i < |order| ==> order[i] in m && 0 <= m[order[i]]
    ensures 0 <= SumOver(order, m)
  {
    if order != [] {
      SumOverNonNegative(order[..|order| - 1], m);
    }
  }

  /** Signs and a bound of a fraction with a positive denominator carry
      over to its value. */
  lemma FractionRange(q: Fraction, bound: int)
    requires q.den > 0
    ensures 0 <= q.num ==> 0.0 <= Value(q)
    ensures 0 < q.num ==> 0.0 < Value(q)
    ensures q.num <= bound * q.den ==> Value(q) <= bound as real
  {
    var v := Value(q);
    assert v * q.den as real == q.num as real;
    if v < 0.0 {
      assert v * q.den as real < 0.0;
    }
    if v == 0.0 {
      assert v * q.den as real == 0.0;
    }
    if v > bound as real {
      assert (v - bound as real) * q.den as real > 0.0;
    }
  }

  /** On a valid schedule the calculation always reaches the figures. */
  lemma ValidComputed(r: seq<Segment>, ps: seq<Process>)
    requires ValidSchedule(r, ps) && r != []
    ensures MetricsOf(r, ps).Computed?
  {
    MetricsOutcome(r, ps);
    assert !exists k :: 0 <= k < |r| && r[k].pid !in PidSet(ps);
  }

  /** On a valid schedule of records with unique pids, each scheduled
      process ran exactly its burst, turned around in at least its burst and
      waited a non-negative time. */
  lemma ValidProcessTimes(r: seq<Segment>, ps: seq<Process>)
    requires ValidSchedule(r, ps) && UniquePids(ps) && r != []
    ensures MetricsOf(r, ps).Computed?
    ensures var rep := MetricsOf(r, ps).report;
      forall p :: p in ps && p.pid in rep.completion ==>
        p.pid in rep.running && p.pid in rep.turnaround && p.pid in rep.waiting
        && rep.running[p.pid] == p.burst
        && rep.turnaround[p.pid] == rep.completion[p.pid] - p.arrival
        && rep.waiting[p.pid] == rep.turnaround[p.pid] - p.burst
        && p.burst <= rep.turnaround[p.pid]
        && 0 <= rep.waiting[p.pid]
  {
    ValidComputed(r, ps);
    MetricsReport(r, ps);
    ProcessDictUnique(ps);
    CompletionIsLatestEnd(r);
    var rep := MetricsOf(r, ps).report;
    forall p | p in ps && p.pid in rep.completion
      ensures rep.running[p.pid] == p.burst && p.burst <= rep.completion[p.pid] - p.arrival
    {
      var g :| g in r && g.pid == p.pid;
      var k :| 0 <= k < |r| && r[k] == g;
      ServiceBound(r, p.pid, p.arrival, rep.completion[p.pid]);
    }
  }

  /** On a valid schedule of records with unique pids, the average waiting
      time is non-negative, utilisation lies in (0, 100] and throughput is
      positive. */
  lemma ValidSummary(r: seq<Segment>, ps: seq<Process>)
    requires ValidSchedule(r, ps) && UniquePids(ps) && r != []
    ensures MetricsOf(r, ps).Computed?
    ensures var sm := MetricsOf(r, ps).report.summary;
      0.0 <= Value(sm.avgWaiting) && 0.0 < Value(sm.utilization) <= 100.0 && 0.0 < Value(sm.throughput)
  {
    WaitingNonNegative(r, ps);
    BusyWithinSpan(r, ps);
    var sm := MetricsOf(r, ps).report.summary;
    ComputedSummaryBounds(r, ps, MetricsOf(r, ps).report);
    FractionRange(sm.avgWaiting, 0);
    FractionRange(sm.utilization, 100);
    FractionRange(sm.throughput, 0);
  }

  /** A computed report whose waiting times are non-negative and whose busy
      time lies in `(0, total_time]` has the bounds of `ValidSummary`. */
  lemma ComputedSummaryBounds(schedule: seq<Segment>, processes: seq<Process>, rep: Report)
    requires MetricsOf(schedule, processes) == Computed(rep)
    requires forall i :: 0 <= i < |FirstSeen(schedule)| ==>
      FirstSeen(schedule)[i] in rep.waiting && 0 <= rep.waiting[FirstSeen(schedule)[i]]
    requires processes != [] && 0 < Busy(schedule) <= MaxEnd(schedule) - MinArrival(processes)
    ensures SummaryInRange(rep.summary)
  {
    MetricsSummary(schedule, processes);
    var order := FirstSeen(schedule);
    SummaryBounds(rep.summary, Busy(schedule), MaxEnd(schedule) - MinArrival(processes), |order|,
                  |SegmentPids(schedule)|, order, rep.waiting, SumOver(order, rep.turnaround));
  }

  /** Every waiting time of a valid schedule of unique-pid records is
      non-negative. */
  lemma WaitingNonNegative(r: seq<Segment>, ps: seq<Process>)
    requires ValidSchedule(r, ps) && UniquePids(ps) && r != []
    ensures MetricsOf(r, ps).Computed?
    ensures var rep, order := MetricsOf(r, ps).report, FirstSeen(r);
      forall i :: 0 <= i < |order| ==> order[i] in rep.waiting && order[i] in rep.turnaround && 0 <= rep.waiting[order[i]]
  {
    ValidProcessTimes(r, ps);
    MetricsReport(r, ps);
    FirstSeenKeys(r);
    ScheduledHaveRecords(r, ps);
    var rep, order := MetricsOf(r, ps).report, FirstSeen(r);
    forall i | 0 <= i < |order|
      ensures order[i] in rep.waiting && order[i] in rep.turnaround && 0 <= rep.waiting[order[i]]
    {
      var p := RecordOf(ps, order[i]);
    }
  }

  lemma ScheduledHaveRecords(r: seq<Segment>, ps: seq<Process>)
    requires BelongsTo(r, ps)
    ensures SegmentPids(r) <= PidSet(ps)
  {
    forall pid | pid in SegmentPids(r) ensures pid in PidSet(ps) {
      var g :| g in r && g.pid == pid;
      var k :| 0 <= k < |r| && r[k] == g;
    }
  }

  /** A record with the given pid. */
  lemma RecordOf(ps: seq<Process>, pid: int) returns (p: Process)
    requires pid in PidSet(ps)
    ensures p in ps && p.pid == pid
  {
    p :| p in ps && p.pid == pid;
  }

  /** The summary bounds, from non-negative waiting times and a busy time in
      `(0, total_time]`. */
  lemma SummaryBounds(sm: Summary, busy: int, totalTime: int, count: nat, processCount: nat,
                      order: seq<int>, waiting: map<int, int>, turnaroundSum: int)
    requires sm == SummaryOf(busy, totalTime, count, processCount, SumOver(order, waiting), turnaroundSum)
    requires forall i :: 0 <= i < |order| ==> order[i] in waiting && 0 <= waiting[order[i]]
    requires 0 < busy <= totalTime && 0 < processCount
    ensures SummaryInRange(sm)
  {
    SumOverNonNegative(order, waiting);
  }

  /** The bounds of `ValidSummary`, on numerators and denominators. */
  predicate SummaryInRange(sm: Summary)
  {
    && sm.avgWaiting.den > 0 && 0 <= sm.avgWaiting.num
    && sm.utilization.den > 0 && 0 < sm.utilization.num <= 100 * sm.utilization.den
    && sm.throughput.den > 0 && 0 < sm.throughput.num
  }

  /** A valid schedule keeps the CPU busy for a positive time no longer than
      the span from the first arrival to the last end. */
  lemma BusyWithinSpan(r: seq<Segment>, ps: seq<Process>)
    requires ValidSchedule(r, ps) && r != []
    ensures ps != [] && 0 < Busy(r) <= MaxEnd(r) - MinArrival(ps)
  {
    assert r[0].pid in PidSet(ps);
    MaxEndIsMaximum(r);
    MinArrivalIsMinimum(ps);
    var first := MinArrival(ps);
    forall k | 0 <= k < |r| ensures first <= r[k].start {
      assert r[k].pid in PidSet(ps);
      var p :| p in ps && p.pid == r[k].pid;
      var i :| 0 <= i < |ps| && ps[i] == p;
    }
    BusyBound(r, first, MaxEnd(r));
  }
}
