/** Non-preemptive priority scheduling: at every dispatch, among the processes that
    have arrived and are not completed, the one with the smallest `priority` value
    runs to completion; ties go to the one that comes first in arrival order. */
module PriorityScheduling {
  import opened Processes
  import opened ArrivalSort

  /** `p['arrival'] <= time and p['pid'] not in completed`: `p` is in `available`. */
  predicate Ready(p: Process, time: int, completed: set<int>)
  {
    p.arrival <= time && p.pid !in completed
  }

  /** `min(available, key=priority)` over the first `n` sorted records, as a position
      in the sorted list: the first ready record whose priority no earlier ready
      record beats; `None` when nothing is ready. */
  function Selected(s: seq<Process>, n: nat, time: int, completed: set<int>): (sel: Option<nat>)
    requires n <= |s|
    ensures sel.Some? ==> sel.value < n && Ready(s[sel.value], time, completed)
  {
    if n == 0 then None
    else
      var best := Selected(s, n - 1, time, completed);
      if Ready(s[n - 1], time, completed) && (best.None? || s[n - 1].priority < s[best.value].priority)
      then Some(n - 1)
      else best
  }

  /** `min([p['arrival'] for p in processes if p['pid'] not in completed])` over the
      first `n` records; `None` where Python's `min` of an empty list raises. */
  function NextArrival(s: seq<Process>, n: nat, completed: set<int>): (t: Option<int>)
    requires n <= |s|
  {
    if n == 0 then None
    else
      var t := NextArrival(s, n - 1, completed);
      if s[n - 1].pid in completed then t
      else if t.None? then Some(s[n - 1].arrival)
      else Some(Min(t.value, s[n - 1].arrival))
  }

  /** The selected record is ready, no ready record has a smaller priority, and a
      ready record with the same priority comes no earlier in the sorted list;
      `None` exactly when nothing is ready. */
  lemma {:induction false} SelectedMinimal(s: seq<Process>, n: nat, time: int, completed: set<int>)
    requires n <= |s|
    ensures Selected(s, n, time, completed).None? <==> forall i :: 0 <= i < n ==> !Ready(s[i], time, completed)
    ensures Selected(s, n, time, completed).Some? ==>
      var a := Selected(s, n, time, completed).value;
      forall i :: 0 <= i < n && Ready(s[i], time, completed) ==>
        s[a].priority < s[i].priority || (s[a].priority == s[i].priority && a <= i)
  {
    if n > 0 {
      SelectedMinimal(s, n - 1, time, completed);
    }
  }

  /** The jump target is the smallest arrival among the records not completed, and
      there is one exactly when some record is not completed. */
  lemma {:induction false} NextArrivalMinimal(s: seq<Process>, n: nat, completed: set<int>)
    requires n <= |s|
    ensures NextArrival(s, n, completed).None? <==> forall i :: 0 <= i < n ==> s[i].pid in completed
    ensures NextArrival(s, n, completed).Some? ==>
      (forall i :: 0 <= i < n && s[i].pid !in completed ==> NextArrival(s, n, completed).value <= s[i].arrival)
      && exists i :: 0 <= i < n && s[i].pid !in completed && s[i].arrival == NextArrival(s, n, completed).value
  {
    if n > 0 {
      NextArrivalMinimal(s, n - 1, completed);
    }
  }

  /** After the jump to the next arrival, something is ready. */
  lemma JumpReady(s: seq<Process>, completed: set<int>)
    requires NextArrival(s, |s|, completed).Some?
    ensures Selected(s, |s|, NextArrival(s, |s|, completed).value, completed).Some?
  {
    NextArrivalMinimal(s, |s|, completed);
    SelectedMinimal(s, |s|, NextArrival(s, |s|, completed).value, completed);
  }

  /** A schedule `r` that is the rest of an outcome: `None` stays `None` (the
      `ValueError`), otherwise `prefix` goes in front. */
  function Then(prefix: seq<Segment>, o: Option<seq<Segment>>): (r: Option<seq<Segment>>)
    ensures r.Some? <==> o.Some?
    ensures r.Some? ==> |r.value| == |prefix| + |o.value|
    ensures r.Some? ==> r.value[..|prefix|] == prefix && r.value[|prefix|..] == o.value
  {
    match o
    case None => None
    case Some(rest) => Some(prefix + rest)
  }

  /** The rest of the schedule from the head of one iteration of `while remaining > 0`,
      the clock reading `time`. With nothing ready, the clock jumps to the next
      arrival of a process not completed (or the `min` of an empty list raises);
      otherwise the selected process runs to completion. */
  function PrioRun(s: seq<Process>, time: int, remaining: nat, completed: set<int>): Option<seq<Segment>>
    decreases remaining, if Selected(s, |s|, time, completed).None? then 1 else 0
  {
    if remaining == 0 then Some([])
    else
      match Selected(s, |s|, time, completed)
      case Some(a) =>
        Then([Segment(s[a].pid, time, time + s[a].burst)],
          PrioRun(s, time + s[a].burst, remaining - 1, completed + {s[a].pid}))
      case None =>
        match NextArrival(s, |s|, completed)
        case None => None
        case Some(t) => JumpReady(s, completed); PrioRun(s, t, remaining, completed)
  }

  /** What `priority_scheduling` returns for `ps`: `None` where it raises. */
  function PrioritySchedule(ps: seq<Process>): Option<seq<Segment>>
  {
    if ps == [] then Some([])
    else
      var s := SortedByArrival(ps);
      PrioRun(s, s[0].arrival, |s|, {})
  }

  /** `priority_scheduling(processes)`: sorts a copy by arrival, then repeatedly runs
      the most urgent ready process, jumping over idle time. */
  method Priority(procs: seq<Process>) returns (result: Option<seq<Segment>>)
    ensures result == PrioritySchedule(procs)
    ensures procs == [] ==> result == Some([])
  {
    if |procs| == 0 {
      return Some([]);
    }
    var processes := SortedByArrival(procs);
    var schedule: seq<Segment> := [];
    var time := processes[0].arrival;
    var remaining: nat := |processes|;
    var completed: set<int> := {};
    while remaining > 0
      invariant Then(schedule, PrioRun(processes, time, remaining, completed)) == PrioritySchedule(procs)
      decreases remaining, if Selected(processes, |processes|, time, completed).None? then 1 else 0
    {
      var selected := Selected(processes, |processes|, time, completed);
      if selected.None? {
        var nextArrival := NextArrival(processes, |processes|, completed);
        if nextArrival.None? {
          return None;
        }
        JumpReady(processes, completed);
        time := nextArrival.value;
        continue;
      }
      var p := processes[selected.value];
      var segment := Segment(p.pid, time, time + p.burst);
      ghost var rest := PrioRun(processes, time + p.burst, remaining - 1, completed + {p.pid});
      assert Then(schedule, Then([segment], rest)) == Then(schedule + [segment], rest) by {
        if rest.Some? {
          assert schedule + ([segment] + rest.value) == (schedule + [segment]) + rest.value;
        }
      }
      schedule := schedule + [segment];
      time := time + p.burst;
      completed := completed + {p.pid};
      remaining := remaining - 1;
    }
    assert schedule + [] == schedule;
    return Some(schedule);
  }

  /** The number of records among the first `n` whose pid is not completed. */
  function Undone(s: seq<Process>, n: nat, completed: set<int>): nat
    requires n <= |s|
  {
    if n == 0 then 0 else Undone(s, n - 1, completed) + (if s[n - 1].pid in completed then 0 else 1)
  }

  /** Completing the pid of a record that is not completed lowers the count by one. */
  lemma {:induction false} UndoneComplete(s: seq<Process>, n: nat, completed: set<int>, a: nat)
    requires n <= |s| && a < |s| && UniquePids(s) && s[a].pid !in completed
    ensures Undone(s, n, completed + {s[a].pid}) == Undone(s, n, completed) - (if a < n then 1 else 0)
  {
    if n > 0 {
      UndoneComplete(s, n - 1, completed, a);
    }
  }

  lemma {:induction false} UndoneNone(s: seq<Process>, n: nat, completed: set<int>)
    requires n <= |s| && Undone(s, n, completed) == 0
    ensures forall i :: 0 <= i < n ==> s[i].pid in completed
  {
    if n > 0 {
      UndoneNone(s, n - 1, completed);
    }
  }

  lemma {:induction false} UndoneSome(s: seq<Process>, n: nat, completed: set<int>)
    requires n <= |s| && Undone(s, n, completed) > 0
    ensures exists i :: 0 <= i < n && s[i].pid !in completed
  {
    if n > 0 && s[n - 1].pid in completed {
      UndoneSome(s, n - 1, completed);
    }
  }

  /** What holds at the head of every iteration for valid input: `remaining` counts
      the records not completed. */
  ghost predicate PrioInv(s: seq<Process>, remaining: nat, completed: set<int>)
  {
    ValidProcesses(s) && remaining == Undone(s, |s|, completed)
  }

  /** Running the selected record keeps the invariant. */
  lemma PrioPop(s: seq<Process>, time: int, remaining: nat, completed: set<int>)
    requires PrioInv(s, remaining, completed) && Selected(s, |s|, time, completed).Some?
    ensures var a := Selected(s, |s|, time, completed).value;
      remaining > 0 && PrioInv(s, remaining - 1, completed + {s[a].pid})
  {
    UndoneComplete(s, |s|, completed, Selected(s, |s|, time, completed).value);
  }

  /** With processes remaining there is always a next arrival to jump to. */
  lemma PrioCanJump(s: seq<Process>, remaining: nat, completed: set<int>)
    requires PrioInv(s, remaining, completed) && remaining > 0
    ensures NextArrival(s, |s|, completed).Some?
  {
    UndoneSome(s, |s|, completed);
    NextArrivalMinimal(s, |s|, completed);
  }

  /** From any iteration head, the loop ends normally, and the rest of the schedule
      gives every process that is not completed exactly one segment, of its whole
      burst, and none to a completed one. */
  lemma {:induction false} PrioRunService(s: seq<Process>, time: int, remaining: nat, completed: set<int>)
    requires PrioInv(s, remaining, completed)
    ensures PrioRun(s, time, remaining, completed).Some?
    ensures BelongsTo(PrioRun(s, time, remaining, completed).value, s)
    ensures forall p :: p in s ==>
      Count(PrioRun(s, time, remaining, completed).value, p.pid) == (if p.pid in completed then 0 else 1)
      && Service(PrioRun(s, time, remaining, completed).value, p.pid) == (if p.pid in completed then 0 else p.burst)
    decreases remaining, if Selected(s, |s|, time, completed).None? then 1 else 0, 1
  {
    if remaining == 0 {
      PrioAllDone(s, completed);
    } else if Selected(s, |s|, time, completed).Some? {
      PrioDispatchService(s, time, remaining, completed);
    } else {
      PrioCanJump(s, remaining, completed);
      JumpReady(s, completed);
      PrioRunService(s, NextArrival(s, |s|, completed).value, remaining, completed);
    }
  }

  /** The dispatch case of `PrioRunService`. */
  lemma {:induction false} PrioDispatchService(s: seq<Process>, time: int, remaining: nat, completed: set<int>)
    requires PrioInv(s, remaining, completed) && remaining > 0 && Selected(s, |s|, time, completed).Some?
    ensures PrioRun(s, time, remaining, completed).Some?
    ensures BelongsTo(PrioRun(s, time, remaining, completed).value, s)
    ensures forall p :: p in s ==>
      Count(PrioRun(s, time, remaining, completed).value, p.pid) == (if p.pid in completed then 0 else 1)
      && Service(PrioRun(s, time, remaining, completed).value, p.pid) == (if p.pid in completed then 0 else p.burst)
    decreases remaining, 0, 0
  {
    var a := Selected(s, |s|, time, completed).value;
    PrioPop(s, time, remaining, completed);
    PrioRunService(s, time + s[a].burst, remaining - 1, completed + {s[a].pid});
    var tail := PrioRun(s, time + s[a].burst, remaining - 1, completed + {s[a].pid}).value;
    assert PrioRun(s, time, remaining, completed).value == [Segment(s[a].pid, time, time + s[a].burst)] + tail;
    assert s[a] in s;
    ServicePrepend(s, s[a], time, tail, completed);
  }

  /** With no process remaining, every pid is completed. */
  lemma PrioAllDone(s: seq<Process>, completed: set<int>)
    requires PrioInv(s, 0, completed)
    ensures forall p :: p in s ==> p.pid in completed
  {
    UndoneNone(s, |s|, completed);
    forall p | p in s ensures p.pid in completed {
      var i :| 0 <= i < |s| && s[i] == p;
    }
  }

  /** From any iteration head with processes remaining, the rest of the schedule is
      ordered, has no empty segment, never runs a process before it arrives and
      starts no earlier than `time`. */
  lemma {:induction false} PrioRunTimeline(s: seq<Process>, time: int, remaining: nat, completed: set<int>)
    requires PrioInv(s, remaining, completed)
    ensures PrioRun(s, time, remaining, completed).Some?
    ensures Ordered(PrioRun(s, time, remaining, completed).value)
    ensures NonEmptySegments(PrioRun(s, time, remaining, completed).value)
    ensures StartsAfterArrival(PrioRun(s, time, remaining, completed).value, s)
    ensures PrioRun(s, time, remaining, completed).value != [] ==> PrioRun(s, time, remaining, completed).value[0].start >= time
    decreases remaining, if Selected(s, |s|, time, completed).None? then 1 else 0
  {
    if remaining > 0 {
      match Selected(s, |s|, time, completed)
      case Some(a) =>
        PrioPop(s, time, remaining, completed);
        PrioRunTimeline(s, time + s[a].burst, remaining - 1, completed + {s[a].pid});
        var tail := PrioRun(s, time + s[a].burst, remaining - 1, completed + {s[a].pid}).value;
        assert s[a] in s;
        TimelinePrepend(s, s[a], time, s[a].burst, tail);
      case None =>
        PrioCanJump(s, remaining, completed);
        JumpReady(s, completed);
        NextArrivalMinimal(s, |s|, completed);
        SelectedMinimal(s, |s|, time, completed);
        PrioRunTimeline(s, NextArrival(s, |s|, completed).value, remaining, completed);
    }
  }

  /** The priority rule for segment `j`: every record that is ready at its start,
      counting as completed the pids already dispatched before it, has a larger
      priority value than the record it runs, or the same value and a later
      position in the sorted list. */
  ghost predicate MostUrgentAt(r: seq<Segment>, j: nat, s: seq<Process>, done: set<int>)
    requires j < |r|
  {
    forall a, b :: 0 <= a < |s| && 0 <= b < |s| && s[a].pid == r[j].pid
      && Ready(s[b], r[j].start, done + PidsBefore(r, j))
      ==> s[a].priority < s[b].priority || (s[a].priority == s[b].priority && a <= b)
  }

  ghost predicate MostUrgentFirst(r: seq<Segment>, s: seq<Process>, done: set<int>)
  {
    forall j :: 0 <= j < |r| ==> MostUrgentAt(r, j, s, done)
  }

  /** The idle-time rule for segment `j`: it starts at the later of the previous
      segment's end (`t0` for the first) and the earliest arrival among the records
      not yet dispatched, so the CPU idles only while nothing has arrived. */
  ghost predicate NoIdleAt(r: seq<Segment>, j: nat, s: seq<Process>, done: set<int>, t0: int)
    requires j < |r|
  {
    var next := NextArrival(s, |s|, done + PidsBefore(r, j));
    next.Some? && r[j].start == Max(if j == 0 then t0 else r[j - 1].end, next.value)
  }

  ghost predicate NoIdleFrom(r: seq<Segment>, s: seq<Process>, done: set<int>, t0: int)
  {
    forall j :: 0 <= j < |r| ==> NoIdleAt(r, j, s, done, t0)
  }

  /** The segment a dispatch step emits, in front of a tail that keeps the priority
      rule from the state after it, keeps the priority rule. */
  lemma PrioPrependUrgent(s: seq<Process>, time: int, completed: set<int>, tail: seq<Segment>)
    requires UniquePids(s) && Selected(s, |s|, time, completed).Some?
    requires var a := Selected(s, |s|, time, completed).value;
      MostUrgentFirst(tail, s, completed + {s[a].pid})
    ensures var a := Selected(s, |s|, time, completed).value;
      MostUrgentFirst([Segment(s[a].pid, time, time + s[a].burst)] + tail, s, completed)
  {
    var a := Selected(s, |s|, time, completed).value;
    var r := [Segment(s[a].pid, time, time + s[a].burst)] + tail;
    assert MostUrgentAt(r, 0, s, completed) by {
      assert completed + PidsBefore(r, 0) == completed;
      SelectedMinimal(s, |s|, time, completed);
      forall a', b | 0 <= a' < |s| && 0 <= b < |s| && s[a'].pid == r[0].pid && Ready(s[b], time, completed)
        ensures s[a'].priority < s[b].priority || (s[a'].priority == s[b].priority && a' <= b)
      {
        assert a' == a;
      }
    }
    forall j | 1 <= j < |r| ensures MostUrgentAt(r, j, s, completed) {
      assert r[1..] == tail;
      assert r[j] == tail[j - 1] && MostUrgentAt(tail, j - 1, s, completed + {s[a].pid});
      assert completed + PidsBefore(r, j) == completed + {s[a].pid} + PidsBefore(tail, j - 1);
    }
  }

  /** The same for the idle-time rule, `t0` being the clock at the iteration head
      from which the step was reached directly or by one jump to the next arrival. */
  lemma PrioPrependNoIdle(s: seq<Process>, time: int, completed: set<int>, tail: seq<Segment>, t0: int)
    requires Selected(s, |s|, time, completed).Some?
    requires t0 <= time
    requires time == t0 || NextArrival(s, |s|, completed) == Some(time)
    requires var a := Selected(s, |s|, time, completed).value;
      NoIdleFrom(tail, s, completed + {s[a].pid}, time + s[a].burst)
    ensures var a := Selected(s, |s|, time, completed).value;
      NoIdleFrom([Segment(s[a].pid, time, time + s[a].burst)] + tail, s, completed, t0)
  {
    var a := Selected(s, |s|, time, completed).value;
    var r := [Segment(s[a].pid, time, time + s[a].burst)] + tail;
    assert NoIdleAt(r, 0, s, completed, t0) by {
      assert completed + PidsBefore(r, 0) == completed;
      NextArrivalMinimal(s, |s|, completed);
    }
    forall j | 1 <= j < |r| ensures NoIdleAt(r, j, s, completed, t0) {
      assert r[1..] == tail;
      assert r[j] == tail[j - 1] && NoIdleAt(tail, j - 1, s, completed + {s[a].pid}, time + s[a].burst);
      assert completed + PidsBefore(r, j) == completed + {s[a].pid} + PidsBefore(tail, j - 1);
      if j > 1 {
        assert r[j - 1] == tail[j - 2];
      }
    }
  }

  /** From any iteration head, every dispatch of the rest of the schedule obeys the
      priority rule and the idle-time rule, `time` being the clock at that head. */
  lemma {:induction false} PrioRunRules(s: seq<Process>, time: int, remaining: nat, completed: set<int>)
    requires PrioInv(s, remaining, completed)
    ensures PrioRun(s, time, remaining, completed).Some?
    ensures MostUrgentFirst(PrioRun(s, time, remaining, completed).value, s, completed)
    ensures NoIdleFrom(PrioRun(s, time, remaining, completed).value, s, completed, time)
    decreases remaining, if Selected(s, |s|, time, completed).None? then 1 else 0, 1
  {
    if remaining > 0 {
      if Selected(s, |s|, time, completed).Some? {
        PrioDispatchRules(s, time, remaining, completed, time);
      } else {
        PrioCanJump(s, remaining, completed);
        JumpReady(s, completed);
        var t := NextArrival(s, |s|, completed).value;
        NextArrivalMinimal(s, |s|, completed);
        SelectedMinimal(s, |s|, time, completed);
        assert t > time;
        PrioDispatchRules(s, t, remaining, completed, time);
      }
    }
  }

  /** A dispatch step at `time`, reached from a head whose clock read `t0`, either
      directly or by one jump to the next arrival. */
  lemma {:induction false} PrioDispatchRules(s: seq<Process>, time: int, remaining: nat, completed: set<int>, t0: int)
    requires PrioInv(s, remaining, completed) && remaining > 0 && Selected(s, |s|, time, completed).Some?
    requires t0 <= time && (time == t0 || NextArrival(s, |s|, completed) == Some(time))
    ensures PrioRun(s, time, remaining, completed).Some?
    ensures MostUrgentFirst(PrioRun(s, time, remaining, completed).value, s, completed)
    ensures NoIdleFrom(PrioRun(s, time, remaining, completed).value, s, completed, t0)
    decreases remaining, 0, 0
  {
    var a := Selected(s, |s|, time, completed).value;
    PrioPop(s, time, remaining, completed);
    PrioRunRules(s, time + s[a].burst, remaining - 1, completed + {s[a].pid});
    var tail := PrioRun(s, time + s[a].burst, remaining - 1, completed + {s[a].pid}).value;
    assert PrioRun(s, time, remaining, completed).value == [Segment(s[a].pid, time, time + s[a].burst)] + tail;
    PrioPrependUrgent(s, time, completed, tail);
    PrioPrependNoIdle(s, time, completed, tail, t0);
  }

  /** The initial state satisfies the invariant. */
  lemma PrioStart(ps: seq<Process>)
    requires ValidProcesses(ps)
    ensures PrioInv(SortedByArrival(ps), |ps|, {})
  {
    SortedValid(ps);
    UndoneEmpty(SortedByArrival(ps), |ps|);
  }

  lemma {:induction false} UndoneEmpty(s: seq<Process>, n: nat)
    requires n <= |s|
    ensures Undone(s, n, {}) == n
  {
    if n > 0 {
      UndoneEmpty(s, n - 1);
    }
  }

  /** For valid input, priority scheduling never raises, runs every process exactly
      once for its whole burst, and yields an ordered schedule that never starts a
      process before it arrives. */
  lemma PriorityScheduleValid(ps: seq<Process>)
    requires ValidProcesses(ps)
    ensures PrioritySchedule(ps).Some?
    ensures ValidSchedule(PrioritySchedule(ps).value, ps)
    ensures forall p :: p in ps ==> Count(PrioritySchedule(ps).value, p.pid) == 1
  {
    if ps != [] {
      var s := SortedByArrival(ps);
      PrioStart(ps);
      PrioRunService(s, s[0].arrival, |s|, {});
      PrioRunTimeline(s, s[0].arrival, |s|, {});
      SortedByArrivalProperties(ps);
      SameRecords(PrioritySchedule(ps).value, s, ps);
      forall p | p in ps ensures p in s {
        assert p in multiset(ps);
      }
    }
  }

  /** For valid input, each dispatch runs, among the processes that have arrived and
      have not run yet, one with the smallest priority value, the earliest in
      arrival order among those that tie; and each segment starts at the later of
      the previous end and the earliest arrival of a process that has not run yet. */
  lemma PriorityRules(ps: seq<Process>)
    requires ValidProcesses(ps) && ps != []
    ensures PrioritySchedule(ps).Some?
    ensures MostUrgentFirst(PrioritySchedule(ps).value, SortedByArrival(ps), {})
    ensures NoIdleFrom(PrioritySchedule(ps).value, SortedByArrival(ps), {}, SortedByArrival(ps)[0].arrival)
  {
    var s := SortedByArrival(ps);
    PrioStart(ps);
    PrioRunRules(s, s[0].arrival, |s|, {});
  }
}
