/** `round_robin(processes, quantum)`: a FIFO ready queue served in slices of at
    most `quantum` time units; a preempted process goes back to the tail of the
    queue after the processes that arrived during its slice. */
module RoundRobin {
  import opened Processes
  import opened ArrivalSort

  /** The variables of the loop: the sorted records from `idx` (`next_arrival_idx`)
      on are not queued yet; `queue` is `ready_queue`; `held` is the process just
      preempted, waiting to go back to the tail once the arrivals during its slice
      are queued; `rem` is `remaining_burst`, `remaining` is `remaining_processes`
      and `time` the clock. */
  datatype RrState = RrState(idx: nat, queue: seq<Process>, held: Option<Process>, rem: map<int, int>,
                             remaining: nat, time: int)

  /** What one step of the loop does: finish, change the state, or run a slice. */
  datatype RrStep = Stop | Move(next: RrState) | Emit(segment: Segment, next: RrState)

  /** Every index and lookup the loop makes in this state is defined. */
  predicate Keyed(s: seq<Process>, st: RrState)
  {
    && st.idx <= |s|
    && (forall p :: p in s ==> p.pid in st.rem)
    && (forall p :: p in st.queue ==> p.pid in st.rem)
    && (st.held.Some? ==> st.held.value.pid in st.rem)
  }

  /** The state the loop starts in. */
  function Start(s: seq<Process>): (st: RrState)
    requires s != []
    ensures Keyed(s, st)
  {
    RrState(0, [], None, RemInit(s), |s|, s[0].arrival)
  }

  /** A bound on the loop steps still to come, used only for termination: one
      per queued record and two per record not yet queued, plus the time still
      owed to each of them. */
  function QueueWork(queue: seq<Process>, rem: map<int, int>): nat
  {
    QueueWorkFrom(queue, 0, rem)
  }

  function QueueWorkFrom(queue: seq<Process>, i: nat, rem: map<int, int>): nat
    requires i <= |queue|
    decreases |queue| - i
  {
    if i == |queue| then 0 else 1 + Left(rem, queue[i].pid) + QueueWorkFrom(queue, i + 1, rem)
  }

  function PendingWork(s: seq<Process>, idx: nat, rem: map<int, int>): nat
    decreases |s| - idx
  {
    if idx >= |s| then 0 else 2 + Left(rem, s[idx].pid) + PendingWork(s, idx + 1, rem)
  }

  function Work(s: seq<Process>, st: RrState): nat
  {
    QueueWork(st.queue, st.rem) + PendingWork(s, st.idx, st.rem)
      + (if st.held.Some? then 1 + Left(st.rem, st.held.value.pid) else 0)
  }

  /** Second termination component: putting the held process back and jumping
      the clock leave `Work` as it is. */
  function Phase(s: seq<Process>, st: RrState): nat
  {
    if st.held.Some? then 2 else if st.queue == [] && !CanAdmit(s, st.idx, st.time) then 1 else 0
  }

  /** `next` is closer to the end of the loop than `st`. */
  predicate Progress(s: seq<Process>, st: RrState, next: RrState)
  {
    Work(s, next) < Work(s, st) || (Work(s, next) == Work(s, st) && Phase(s, next) < Phase(s, st))
  }

  lemma {:induction false} QueueWorkSnocFrom(queue: seq<Process>, i: nat, x: Process, rem: map<int, int>)
    requires i <= |queue|
    ensures QueueWorkFrom(queue + [x], i, rem) == QueueWorkFrom(queue, i, rem) + 1 + Left(rem, x.pid)
    decreases |queue| - i
  {
    if i < |queue| {
      QueueWorkSnocFrom(queue, i + 1, x, rem);
      assert (queue + [x])[i] == queue[i];
    }
  }

  lemma QueueWorkSnoc(queue: seq<Process>, x: Process, rem: map<int, int>)
    ensures QueueWork(queue + [x], rem) == QueueWork(queue, rem) + 1 + Left(rem, x.pid)
  {
    QueueWorkSnocFrom(queue, 0, x, rem);
  }

  lemma {:induction false} QueueWorkShift(queue: seq<Process>, i: nat, rem: map<int, int>)
    requires 1 <= i <= |queue|
    ensures QueueWorkFrom(queue[1..], i - 1, rem) == QueueWorkFrom(queue, i, rem)
    decreases |queue| - i
  {
    if i < |queue| {
      QueueWorkShift(queue, i + 1, rem);
      assert queue[1..][i - 1] == queue[i];
    }
  }

  lemma {:induction false} QueueWorkMono(queue: seq<Process>, i: nat, rem: map<int, int>, rem': map<int, int>)
    requires i <= |queue|
    requires forall pid :: Left(rem', pid) <= Left(rem, pid)
    ensures QueueWorkFrom(queue, i, rem') <= QueueWorkFrom(queue, i, rem)
    decreases |queue| - i
  {
    if i < |queue| {
      QueueWorkMono(queue, i + 1, rem, rem');
    }
  }

  lemma {:induction false} PendingWorkMono(s: seq<Process>, idx: nat, rem: map<int, int>, rem': map<int, int>)
    requires forall pid :: Left(rem', pid) <= Left(rem, pid)
    ensures PendingWork(s, idx, rem') <= PendingWork(s, idx, rem)
    decreases |s| - idx
  {
    if idx < |s| {
      PendingWorkMono(s, idx + 1, rem, rem');
    }
  }

  /** `ready_queue.pop(0)`: the queue without its head. */
  function Dequeue(queue: seq<Process>): (rest: seq<Process>)
    requires queue != []
    ensures |rest| == |queue| - 1 && forall k :: 0 <= k < |rest| ==> rest[k] == queue[k + 1]
  {
    queue[1..]
  }

  /** The state after serving the head of the queue for `slice`: retired when
      nothing is owed to it any more, held back for the tail otherwise. */
  function Served(st: RrState, slice: int): RrState
    requires st.queue != [] && st.remaining > 0
  {
    var p := st.queue[0];
    var rem' := st.rem[p.pid := Get(st.rem, p.pid) - slice];
    if rem'[p.pid] == 0 then RrState(st.idx, Dequeue(st.queue), None, rem', st.remaining - 1, st.time + slice)
    else RrState(st.idx, Dequeue(st.queue), Some(p), rem', st.remaining, st.time + slice)
  }

  /** Serving the head of the queue for `min(quantum, remaining_burst[pid])` lowers
      the work bound. */
  lemma WorkDispatch(s: seq<Process>, quantum: int, st: RrState)
    requires quantum > 0 && st.queue != [] && st.remaining > 0
    ensures Work(s, Served(st, Min(quantum, Get(st.rem, st.queue[0].pid)))) < Work(s, st)
  {
    var p := st.queue[0];
    var rem' := st.rem[p.pid := Get(st.rem, p.pid) - Min(quantum, Get(st.rem, p.pid))];
    assert forall pid :: Left(rem', pid) <= Left(st.rem, pid);
    QueueWorkMono(st.queue[1..], 0, st.rem, rem');
    PendingWorkMono(s, st.idx, st.rem, rem');
    QueueWorkShift(st.queue, 1, st.rem);
  }

  /** The state after queueing the next arrival. */
  function Admitted(s: seq<Process>, st: RrState): RrState
    requires st.idx < |s|
  {
    st.(idx := st.idx + 1, queue := st.queue + [s[st.idx]])
  }

  /** One step of the outer loop, with its two inner loops unrolled: queue the
      next arrival (`ready_queue.append`); put the held process back at the tail
      once no more arrivals are due; jump an empty queue's clock to the next
      arrival (or `break` when there is none); or pop the head of the queue and
      run it for `min(quantum, remaining_burst[pid])`. */
  function Step(s: seq<Process>, quantum: int, st: RrState): RrStep
  {
    if st.held.Some? then
      if CanAdmit(s, st.idx, st.time) then Move(Admitted(s, st))
      else Move(st.(queue := st.queue + [st.held.value], held := None))
    else if st.remaining == 0 then Stop
    else if CanAdmit(s, st.idx, st.time) then Move(Admitted(s, st))
    else if st.queue == [] then
      if st.idx < |s| then Move(st.(time := s[st.idx].arrival)) else Stop
    else
      var slice := Min(quantum, Get(st.rem, st.queue[0].pid));
      Emit(Segment(st.queue[0].pid, st.time, st.time + slice), Served(st, slice))
  }

  /** Each step brings the loop closer to its end. */
  lemma StepProgress(s: seq<Process>, quantum: int, st: RrState)
    requires quantum > 0
    ensures var r := Step(s, quantum, st); !r.Stop? ==> Progress(s, st, r.next)
  {
    if st.held.Some? {
      if CanAdmit(s, st.idx, st.time) {
        QueueWorkSnoc(st.queue, s[st.idx], st.rem);
      } else {
        QueueWorkSnoc(st.queue, st.held.value, st.rem);
      }
    } else if st.remaining > 0 {
      if CanAdmit(s, st.idx, st.time) {
        QueueWorkSnoc(st.queue, s[st.idx], st.rem);
      } else if st.queue != [] {
        WorkDispatch(s, quantum, st);
      }
    }
  }

  /** The rest of the schedule from a state of the loop. */
  function Run(s: seq<Process>, quantum: int, st: RrState): seq<Segment>
    requires quantum > 0
    decreases Work(s, st), Phase(s, st)
  {
    StepProgress(s, quantum, st);
    match Step(s, quantum, st)
    case Stop => []
    case Move(next) => Run(s, quantum, next)
    case Emit(g, next) => [g] + Run(s, quantum, next)
  }

  /** The schedule `round_robin` returns; `[(0, 0, 0)]` stands in for an empty one. */
  function RrSchedule(ps: seq<Process>, quantum: int): seq<Segment>
    requires quantum > 0
  {
    if ps == [] then []
    else
      var s := SortedByArrival(ps);
      var r := Run(s, quantum, Start(s));
      if r == [] then [Segment(0, 0, 0)] else r
  }

  /** Appending a step's segment to the emitted prefix keeps the loop's invariant. */
  lemma Shift(done: seq<Segment>, emitted: seq<Segment>, run: seq<Segment>, tail: seq<Segment>, total: seq<Segment>)
    requires done + run == total && run == emitted + tail
    ensures (done + emitted) + tail == total
  {
    assert done + (emitted + tail) == (done + emitted) + tail;
  }

  /** Serving the head of the queue emits its slice and goes on from the served state. */
  lemma RunDispatch(s: seq<Process>, quantum: int, st: RrState)
    requires quantum > 0 && st.held.None? && st.remaining > 0
    requires !CanAdmit(s, st.idx, st.time) && st.queue != []
    ensures var slice := Min(quantum, Get(st.rem, st.queue[0].pid));
      Run(s, quantum, st) == [Segment(st.queue[0].pid, st.time, st.time + slice)] + Run(s, quantum, Served(st, slice))
  {
  }

  /** Putting the held process back once no more arrivals are due changes nothing else. */
  lemma RunRelease(s: seq<Process>, quantum: int, st: RrState)
    requires quantum > 0 && st.held.Some? && !CanAdmit(s, st.idx, st.time)
    ensures Run(s, quantum, st) == Run(s, quantum, st.(queue := st.queue + [st.held.value], held := None))
  {
  }

  /** A record that has arrived by the current time joins the tail of the queue. */
  lemma RunAdmit(s: seq<Process>, quantum: int, st: RrState)
    requires quantum > 0 && (st.held.Some? || st.remaining > 0) && CanAdmit(s, st.idx, st.time)
    ensures Run(s, quantum, st) == Run(s, quantum, Admitted(s, st))
  {
  }

  /** An empty queue with arrivals still to come moves the clock to the next arrival. */
  lemma RunJump(s: seq<Process>, quantum: int, st: RrState)
    requires quantum > 0 && st.held.None? && st.remaining > 0 && st.queue == []
    requires !CanAdmit(s, st.idx, st.time) && st.idx < |s|
    ensures Run(s, quantum, st) == Run(s, quantum, st.(time := s[st.idx].arrival))
  {
  }

  /** An empty queue with no arrivals to come ends the schedule. */
  lemma RunIdle(s: seq<Process>, quantum: int, st: RrState)
    requires quantum > 0 && st.held.None? && st.queue == [] && st.idx >= |s|
    ensures Run(s, quantum, st) == []
  {
  }

  /** One admission loop: moves every record that has arrived by `time` from the
      sorted list into the list it returns, in order. */
  method AdmitArrivals(s: seq<Process>, quantum: int, idx: nat, queue: seq<Process>, held: Option<Process>,
                       rem: map<int, int>, remaining: nat, time: int) returns (next: nat, arrived: seq<Process>)
    requires quantum > 0 && Keyed(s, RrState(idx, queue, held, rem, remaining, time))
    requires held.Some? || remaining > 0
    ensures idx <= next <= |s| && !CanAdmit(s, next, time)
    ensures |arrived| == next - idx && (forall k :: 0 <= k < |arrived| ==> arrived[k] == s[idx + k])
    ensures Keyed(s, RrState(next, queue + arrived, held, rem, remaining, time))
    ensures Run(s, quantum, RrState(next, queue + arrived, held, rem, remaining, time))
      == Run(s, quantum, RrState(idx, queue, held, rem, remaining, time))
  {
    next, arrived := idx, [];
    assert queue + arrived == queue;
    while next < |s| && s[next].arrival <= time
      invariant idx <= next <= |s| && |arrived| == next - idx
      invariant forall k :: 0 <= k < |arrived| ==> arrived[k] == s[idx + k]
      invariant Keyed(s, RrState(next, queue + arrived, held, rem, remaining, time))
      invariant Run(s, quantum, RrState(next, queue + arrived, held, rem, remaining, time))
        == Run(s, quantum, RrState(idx, queue, held, rem, remaining, time))
    {
      ghost var st := RrState(next, queue + arrived, held, rem, remaining, time);
      assert queue + (arrived + [s[next]]) == queue + arrived + [s[next]];
      RunAdmit(s, quantum, st);
      arrived := arrived + [s[next]];
      next := next + 1;
    }
  }

  /** One dispatch of the loop: pops the head of the ready queue, runs it for
      `min(quantum, remaining_burst[pid])`, and either retires it or, after queueing
      the processes that arrived meanwhile, puts it back at the tail. */
  method ServeHead(s: seq<Process>, quantum: int, idx: nat, queue: seq<Process>, rem: map<int, int>,
                   remaining: nat, time: int)
    returns (segment: Segment, idx': nat, queue': seq<Process>, rem': map<int, int>, remaining': nat, time': int)
    requires quantum > 0 && Keyed(s, RrState(idx, queue, None, rem, remaining, time))
    requires remaining > 0 && !CanAdmit(s, idx, time) && queue != []
    ensures segment == Segment(queue[0].pid, time, time + Min(quantum, rem[queue[0].pid]))
    ensures rem' == rem[queue[0].pid := rem[queue[0].pid] - Min(quantum, rem[queue[0].pid])] && time' == segment.end
    ensures rem'[queue[0].pid] == 0 ==> idx' == idx && queue' == Dequeue(queue) && remaining' == remaining - 1
    ensures rem'[queue[0].pid] != 0 ==>
      && idx <= idx' <= |s| && !CanAdmit(s, idx', time') && remaining' == remaining
      && queue' == Dequeue(queue) + s[idx..idx'] + [queue[0]]
    ensures Keyed(s, RrState(idx', queue', None, rem', remaining', time'))
    ensures Run(s, quantum, RrState(idx, queue, None, rem, remaining, time))
      == [segment] + Run(s, quantum, RrState(idx', queue', None, rem', remaining', time'))
  {
    ghost var st := RrState(idx, queue, None, rem, remaining, time);
    var current := queue[0];
    var pid := current.pid;
    var execTime := Min(quantum, rem[pid]);
    RunDispatch(s, quantum, st);
    segment := Segment(pid, time, time + execTime);
    queue' := Dequeue(queue);
    time' := time + execTime;
    rem' := rem[pid := rem[pid] - execTime];
    idx' := idx;
    remaining' := remaining;
    if rem'[pid] == 0 {
      remaining' := remaining - 1;
    } else {
      idx', queue' := Requeue(s, quantum, idx, queue', current, rem', remaining, time');
    }
  }

  /** The unfinished process goes back to the tail of the queue, behind the
      processes that arrived while it ran. */
  method Requeue(s: seq<Process>, quantum: int, idx: nat, queue: seq<Process>, current: Process,
                 rem: map<int, int>, remaining: nat, time: int) returns (idx': nat, queue': seq<Process>)
    requires quantum > 0 && Keyed(s, RrState(idx, queue, Some(current), rem, remaining, time))
    ensures idx <= idx' <= |s| && !CanAdmit(s, idx', time)
    ensures queue' == queue + s[idx..idx'] + [current]
    ensures Keyed(s, RrState(idx', queue', None, rem, remaining, time))
    ensures Run(s, quantum, RrState(idx, queue, Some(current), rem, remaining, time))
      == Run(s, quantum, RrState(idx', queue', None, rem, remaining, time))
  {
    var arrivedDuringExecution;
    idx', arrivedDuringExecution := AdmitArrivals(s, quantum, idx, queue, Some(current), rem, remaining, time);
    assert arrivedDuringExecution == s[idx..idx'];
    ghost var held := RrState(idx', queue + arrivedDuringExecution, Some(current), rem, remaining, time);
    RunRelease(s, quantum, held);
    queue' := queue + arrivedDuringExecution;
    queue' := queue' + [current];
  }

  /** One pass of the outer loop's body: queue the arrivals, then `break` when
      the queue is empty and nothing is left to arrive, jump the clock to the
      next arrival when it is empty otherwise (`continue`), and serve the head
      of the queue when it is not. */
  method Round(s: seq<Process>, quantum: int, idx: nat, queue: seq<Process>, rem: map<int, int>,
               remaining: nat, time: int)
    returns (stop: bool, emitted: seq<Segment>, idx': nat, queue': seq<Process>, rem': map<int, int>,
             remaining': nat, time': int)
    requires quantum > 0 && remaining > 0 && Keyed(s, RrState(idx, queue, None, rem, remaining, time))
    ensures Keyed(s, RrState(idx', queue', None, rem', remaining', time'))
    ensures stop ==> Run(s, quantum, RrState(idx, queue, None, rem, remaining, time)) == emitted
    ensures !stop ==>
      Run(s, quantum, RrState(idx, queue, None, rem, remaining, time))
      == emitted + Run(s, quantum, RrState(idx', queue', None, rem', remaining', time'))
    ensures |emitted| == 1 || (emitted == [] && (stop || (!CanAdmit(s, idx, time) && CanAdmit(s, idx', time'))))
  {
    var arrived;
    idx', arrived := AdmitArrivals(s, quantum, idx, queue, None, rem, remaining, time);
    queue', rem', remaining', time' := queue + arrived, rem, remaining, time;
    ghost var st := RrState(idx', queue', None, rem, remaining, time);
    if queue' == [] {
      emitted := [];
      if idx' < |s| {
        RunJump(s, quantum, st);
        time' := s[idx'].arrival;
        stop := false;
      } else {
        RunIdle(s, quantum, st);
        stop := true;
      }
      return;
    }
    var segment;
    segment, idx', queue', rem', remaining', time' := ServeHead(s, quantum, idx', queue', rem, remaining, time);
    emitted, stop := [segment], false;
  }

  /** `round_robin(processes, quantum)` on a sorted copy of the list. */
  method RoundRobin(procs: seq<Process>, quantum: int) returns (result: seq<Segment>)
    requires quantum > 0
    ensures result == RrSchedule(procs, quantum)
    ensures procs == [] <==> result == []
  {
    if |procs| == 0 {
      return [];
    }
    var processes := SortedByArrival(procs);
    var schedule := ServeAll(processes, quantum);
    if schedule == [] {
      return [Segment(0, 0, 0)];
    }
    return schedule;
  }

  /** The outer loop of `round_robin` over the sorted list: runs until every
      process is done or nothing is left to arrive. */
  method ServeAll(processes: seq<Process>, quantum: int) returns (schedule: seq<Segment>)
    requires quantum > 0 && processes != []
    ensures schedule == Run(processes, quantum, Start(processes))
  {
    schedule := [];
    var readyQueue: seq<Process> := [];
    var time := processes[0].arrival;
    var remainingBurst := RemInit(processes);
    var remainingProcesses: nat := |processes|;
    var nextArrivalIdx: nat := 0;
    ghost var total := Run(processes, quantum, Start(processes));
    while remainingProcesses > 0
      invariant Keyed(processes, RrState(nextArrivalIdx, readyQueue, None, remainingBurst, remainingProcesses, time))
      invariant schedule
        + Run(processes, quantum, RrState(nextArrivalIdx, readyQueue, None, remainingBurst, remainingProcesses, time))
        == total
      decreases |total| - |schedule|, if CanAdmit(processes, nextArrivalIdx, time) then 0 else 1
    {
      ghost var run0 := Run(processes, quantum,
        RrState(nextArrivalIdx, readyQueue, None, remainingBurst, remainingProcesses, time));
      var stop, emitted;
      stop, emitted, nextArrivalIdx, readyQueue, remainingBurst, remainingProcesses, time :=
        Round(processes, quantum, nextArrivalIdx, readyQueue, remainingBurst, remainingProcesses, time);
      if stop {
        assert schedule + emitted == total;
        schedule := schedule + emitted;
        return;
      }
      Shift(schedule, emitted, run0, Run(processes, quantum,
        RrState(nextArrivalIdx, readyQueue, None, remainingBurst, remainingProcesses, time)), total);
      schedule := schedule + emitted;
    }
    assert schedule + [] == schedule;
  }

  /** The sorted records from `idx` on, `s[idx..]`. */
  function NotQueued(s: seq<Process>, idx: nat): (r: seq<Process>)
    requires idx <= |s|
    ensures |r| == |s| - idx
    decreases |s| - idx
  {
    if idx == |s| then [] else [s[idx]] + NotQueued(s, idx + 1)
  }

  lemma {:induction false} NotQueuedAll(s: seq<Process>, idx: nat)
    requires idx <= |s|
    ensures NotQueued(s, idx) == s[idx..]
    decreases |s| - idx
  {
    if idx < |s| {
      NotQueuedAll(s, idx + 1);
      assert s[idx..] == [s[idx]] + s[idx + 1..];
    }
  }

  /** The records that still have work to do, in the order the loop will meet
      them: the ready queue, then the held process, then those not queued yet. */
  function Active(s: seq<Process>, st: RrState): seq<Process>
    requires st.idx <= |s|
  {
    st.queue + (if st.held.Some? then [st.held.value] else []) + NotQueued(s, st.idx)
  }

  /** Number of records of `a` with pid `pid`. */
  function Occ(a: seq<Process>, pid: int): nat
  {
    if a == [] then 0 else (if a[0].pid == pid then 1 else 0) + Occ(a[1..], pid)
  }

  lemma {:induction false} OccConcat(a: seq<Process>, b: seq<Process>, pid: int)
    ensures Occ(a + b, pid) == Occ(a, pid) + Occ(b, pid)
  {
    if a != [] {
      assert (a + b)[1..] == a[1..] + b;
      OccConcat(a[1..], b, pid);
    } else {
      assert a + b == b;
    }
  }

  /** In a pid-unique list each pid of a record occurs once. */
  lemma {:induction false} OccUnique(s: seq<Process>, x: Process)
    requires UniquePids(s) && x in s
    ensures Occ(s, x.pid) == 1
  {
    if s[0] == x {
      OccAbsent(s[1..], x.pid);
      forall q | q in s[1..] ensures q.pid != x.pid {
        var m :| 0 <= m < |s[1..]| && s[1..][m] == q;
        assert s[m + 1] == q;
      }
    } else {
      assert x in s[1..];
      var m :| 0 <= m < |s[1..]| && s[1..][m] == x;
      assert s[m + 1] == x;
      OccUnique(s[1..], x);
    }
  }

  lemma {:induction false} OccAbsent(a: seq<Process>, pid: int)
    requires forall q :: q in a ==> q.pid != pid
    ensures Occ(a, pid) == 0
  {
    if a != [] {
      assert a[0] in a;
      forall q | q in a[1..] ensures q in a { }
      OccAbsent(a[1..], pid);
    }
  }

  /** The invariant of the loop for a valid process list: every active record is
      a record of the list and has arrived if it is queued or held; a record of
      the list is owed time exactly when its pid is active, and then once; and
      `remaining_processes` counts the active records. */
  ghost predicate RrInv(s: seq<Process>, quantum: int, st: RrState)
  {
    && quantum > 0 && st.idx <= |s|
    && (forall p :: p in st.queue ==> p.arrival <= st.time)
    && (st.held.Some? ==> st.held.value.arrival <= st.time)
    && (forall q :: q in Active(s, st) ==> q in s)
    && (forall p :: p in s ==> Occ(Active(s, st), p.pid) == if Left(st.rem, p.pid) > 0 then 1 else 0)
    && st.remaining == |Active(s, st)|
  }

  /** The loop starts in a state satisfying the invariant, owing each record its burst. */
  lemma RrStart(ps: seq<Process>, quantum: int)
    requires ValidProcesses(ps) && ps != [] && quantum > 0
    ensures var s := SortedByArrival(ps);
      RrInv(s, quantum, Start(s)) && forall p :: p in s ==> Left(RemInit(s), p.pid) == p.burst
  {
    var s := SortedByArrival(ps);
    SortedValid(ps);
    RemInitValue(s);
    NotQueuedAll(s, 0);
    assert Active(s, Start(s)) == s;
    forall p | p in s ensures Occ(s, p.pid) == 1 && Left(RemInit(s), p.pid) == p.burst {
      OccUnique(s, p);
      PositiveIn(s, p);
    }
  }

  /** Queueing the next arrival only moves it within the active records. */
  lemma ActiveAdmit(s: seq<Process>, st: RrState)
    requires st.idx < |s|
    ensures var a, a' := Active(s, st), Active(s, Admitted(s, st));
      |a'| == |a| && (forall q :: q in a' <==> q in a) && forall pid :: Occ(a', pid) == Occ(a, pid)
  {
    var h := if st.held.Some? then [st.held.value] else [];
    var x, tail := s[st.idx], NotQueued(s, st.idx + 1);
    assert Active(s, st) == st.queue + h + ([x] + tail);
    assert Active(s, Admitted(s, st)) == st.queue + [x] + h + tail;
    forall pid ensures Occ(Active(s, Admitted(s, st)), pid) == Occ(Active(s, st), pid) {
      OccConcat(st.queue + [x] + h, tail, pid);
      OccConcat(st.queue + [x], h, pid);
      OccConcat(st.queue, [x], pid);
      OccConcat(st.queue + h, [x] + tail, pid);
      OccConcat(st.queue, h, pid);
      OccConcat([x], tail, pid);
    }
  }

  /** Queueing the next arrival, with or without a held process, keeps the invariant. */
  lemma RrInvAdmit(s: seq<Process>, quantum: int, st: RrState)
    requires RrInv(s, quantum, st) && CanAdmit(s, st.idx, st.time)
    ensures RrInv(s, quantum, Admitted(s, st))
  {
    ActiveAdmit(s, st);
  }

  /** Putting the held process back keeps the invariant. */
  lemma RrInvRelease(s: seq<Process>, quantum: int, st: RrState)
    requires RrInv(s, quantum, st) && st.held.Some?
    ensures RrInv(s, quantum, st.(queue := st.queue + [st.held.value], held := None))
  {
    assert Active(s, st.(queue := st.queue + [st.held.value], held := None)) == Active(s, st);
  }

  /** Serving the head of the queue takes it off the front of the active records;
      holding it back moves it after the rest of the queue. */
  lemma ActiveServe(s: seq<Process>, st: RrState)
    requires st.idx <= |s| && st.held.None? && st.queue != []
    ensures var c, a := st.queue[0], Active(s, st);
      var retired, held := Active(s, st.(queue := Dequeue(st.queue))), Active(s, st.(queue := Dequeue(st.queue), held := Some(c)));
      && a == [c] + retired
      && |held| == |a| && (forall q :: q in held <==> q in a) && (forall pid :: Occ(held, pid) == Occ(a, pid))
  {
    var c, rest, tail := st.queue[0], Dequeue(st.queue), NotQueued(s, st.idx);
    assert st.queue == [c] + rest;
    assert Active(s, st) == [c] + (rest + tail);
    assert Active(s, st.(queue := rest, held := Some(c))) == rest + [c] + tail;
    forall pid ensures Occ(rest + [c] + tail, pid) == Occ([c] + (rest + tail), pid) {
      OccConcat(rest + [c], tail, pid);
      OccConcat(rest, [c], pid);
      OccConcat([c], rest + tail, pid);
      OccConcat(rest, tail, pid);
    }
  }

  /** The head of the queue is a record of the list that has arrived and is owed time. */
  lemma RrHead(s: seq<Process>, quantum: int, st: RrState)
    requires RrInv(s, quantum, st) && st.held.None? && st.queue != []
    ensures st.queue[0] in s && st.queue[0].arrival <= st.time && Left(st.rem, st.queue[0].pid) > 0
    ensures Occ(Active(s, st.(queue := Dequeue(st.queue))), st.queue[0].pid) == 0
  {
    var c := st.queue[0];
    ActiveServe(s, st);
    assert c in Active(s, st);
    OccConcat([c], Active(s, st.(queue := Dequeue(st.queue))), c.pid);
  }

  /** Serving the head of the queue for the rest of its burst retires it and keeps the invariant. */
  lemma RrInvRetire(s: seq<Process>, quantum: int, st: RrState, slice: int)
    requires RrInv(s, quantum, st) && st.held.None? && st.queue != []
    requires slice == Min(quantum, Get(st.rem, st.queue[0].pid)) && Get(st.rem, st.queue[0].pid) <= quantum
    ensures st.remaining > 0 && RrInv(s, quantum, Served(st, slice))
  {
    var c, rest := st.queue[0], Dequeue(st.queue);
    var rem' := st.rem[c.pid := Get(st.rem, c.pid) - slice];
    ActiveServe(s, st);
    RrHead(s, quantum, st);
    var next := Served(st, slice);
    assert next == RrState(st.idx, rest, None, rem', st.remaining - 1, st.time + slice);
    var a' := Active(s, next);
    forall p | p in rest ensures p.arrival <= st.time + slice {
      assert p in st.queue;
    }
    forall p | p in s ensures Occ(a', p.pid) == if Left(rem', p.pid) > 0 then 1 else 0 {
      OccConcat([c], a', p.pid);
    }
  }

  /** Serving the head of the queue for a full quantum holds it back and keeps the invariant. */
  lemma RrInvHold(s: seq<Process>, quantum: int, st: RrState, slice: int)
    requires RrInv(s, quantum, st) && st.held.None? && st.queue != []
    requires slice == Min(quantum, Get(st.rem, st.queue[0].pid)) && Get(st.rem, st.queue[0].pid) > quantum
    ensures st.remaining > 0 && RrInv(s, quantum, Served(st, slice))
  {
    var c, rest := st.queue[0], Dequeue(st.queue);
    var rem' := st.rem[c.pid := Get(st.rem, c.pid) - slice];
    ActiveServe(s, st);
    RrHead(s, quantum, st);
    var next := Served(st, slice);
    assert next == RrState(st.idx, rest, Some(c), rem', st.remaining, st.time + slice);
    forall p | p in rest ensures p.arrival <= st.time + slice {
      assert p in st.queue;
    }
  }

  /** A loop step that emits segment `g` and moves from `st` to `next`: the
      segment runs from the current time for `min(quantum, remaining_burst[pid])`,
      a positive time, until the new time; it belongs to a process that has
      arrived; and its length is taken off what that process is owed. */
  predicate SliceOf(s: seq<Process>, quantum: int, st: RrState, g: Segment, next: RrState)
  {
    var slice := Min(quantum, Get(st.rem, g.pid));
    && g.start == st.time && g.end == st.time + slice && next.time == g.end && 0 < slice
    && Arrived(s, g.pid, st.time)
    && next.rem == st.rem[g.pid := Get(st.rem, g.pid) - slice]
  }

  /** Serving the head of the queue keeps the invariant. */
  lemma RrInvServe(s: seq<Process>, quantum: int, st: RrState)
    requires RrInv(s, quantum, st) && st.held.None? && st.queue != [] && st.remaining > 0
    ensures RrInv(s, quantum, Served(st, Min(quantum, Get(st.rem, st.queue[0].pid))))
  {
    var slice := Min(quantum, Get(st.rem, st.queue[0].pid));
    if Get(st.rem, st.queue[0].pid) <= quantum {
      RrInvRetire(s, quantum, st, slice);
    } else {
      RrInvHold(s, quantum, st, slice);
    }
  }

  /** Serving an arrived head of the queue that is owed time emits a slice. */
  lemma ServeSlice(s: seq<Process>, quantum: int, st: RrState)
    requires quantum > 0 && st.queue != [] && st.remaining > 0
    requires st.queue[0] in s && st.queue[0].arrival <= st.time && Left(st.rem, st.queue[0].pid) > 0
    ensures var c := st.queue[0]; var slice := Min(quantum, Get(st.rem, c.pid));
      SliceOf(s, quantum, st, Segment(c.pid, st.time, st.time + slice), Served(st, slice))
  {
    var c := st.queue[0];
    assert Arrived(s, c.pid, st.time) by {
      assert c in s && c.pid == c.pid && c.arrival <= st.time;
    }
  }

  /** One step from a state satisfying the invariant: it stops only when nothing
      is owed any more, a move keeps what is owed and never turns the clock back,
      and an emitted segment is a slice of the schedule; the invariant holds after it. */
  lemma RrStepInv(s: seq<Process>, quantum: int, st: RrState)
    requires RrInv(s, quantum, st)
    ensures var r := Step(s, quantum, st);
      && (r.Stop? ==> forall p :: p in s ==> Left(st.rem, p.pid) == 0)
      && (r.Move? ==> RrInv(s, quantum, r.next) && r.next.rem == st.rem && st.time <= r.next.time)
      && (r.Emit? ==> RrInv(s, quantum, r.next) && SliceOf(s, quantum, st, r.segment, r.next))
  {
    if st.held.Some? {
      if CanAdmit(s, st.idx, st.time) {
        RrInvAdmit(s, quantum, st);
      } else {
        RrInvRelease(s, quantum, st);
      }
    } else if st.remaining == 0 {
    } else if CanAdmit(s, st.idx, st.time) {
      RrInvAdmit(s, quantum, st);
    } else if st.queue == [] {
      if st.idx >= |s| {
        assert false;
      }
    } else {
      RrHead(s, quantum, st);
      RrInvServe(s, quantum, st);
      ServeSlice(s, quantum, st);
    }
  }

  /** Every segment lasts at most one quantum. */
  predicate SlicesWithin(r: seq<Segment>, quantum: int)
  {
    forall k :: 0 <= k < |r| ==> r[k].end - r[k].start <= quantum
  }

  /** From a state satisfying the invariant, the rest of the schedule gives the
      record `x` of the list exactly the time still owed to it. */
  lemma RrRunService(s: seq<Process>, quantum: int, st: RrState, x: Process)
    requires RrInv(s, quantum, st) && x in s
    ensures Service(Run(s, quantum, st), x.pid) == Left(st.rem, x.pid)
    decreases Work(s, st), Phase(s, st)
  {
    StepProgress(s, quantum, st);
    RrStepInv(s, quantum, st);
    match Step(s, quantum, st)
    case Stop =>
    case Move(next) =>
      RrRunService(s, quantum, next, x);
    case Emit(g, next) =>
      RrRunService(s, quantum, next, x);
      ServiceConcat([g], Run(s, quantum, next), x.pid);
  }

  /** Segment `k` of `r` starts no earlier than `time` and after the previous
      segment ends, lasts between one time unit and one quantum, and belongs to
      a process that has arrived by its start. */
  predicate SegmentFits(r: seq<Segment>, k: nat, s: seq<Process>, quantum: int, time: int)
    requires k < |r|
  {
    && time <= r[k].start < r[k].end && r[k].end - r[k].start <= quantum
    && Arrived(s, r[k].pid, r[k].start)
    && (k > 0 ==> r[k - 1].end <= r[k].start)
  }

  /** From a state satisfying the invariant, every segment of the rest of the
      schedule fits. */
  lemma RrRunTimeline(s: seq<Process>, quantum: int, st: RrState, k: nat)
    requires RrInv(s, quantum, st) && k < |Run(s, quantum, st)|
    ensures SegmentFits(Run(s, quantum, st), k, s, quantum, st.time)
    decreases Work(s, st), Phase(s, st)
  {
    StepProgress(s, quantum, st);
    RrStepInv(s, quantum, st);
    match Step(s, quantum, st)
    case Stop =>
      assert false;
    case Move(next) =>
      RrRunTimeline(s, quantum, next, k);
    case Emit(g, next) =>
      if k > 0 {
        RrRunTimeline(s, quantum, next, k - 1);
      }
      SegmentPrepend(s, quantum, st, g, next, Run(s, quantum, next), k);
  }

  /** A slice in front of a schedule whose segments fit from the slice's end on:
      segment `k` of the whole fits. */
  lemma SegmentPrepend(s: seq<Process>, quantum: int, st: RrState, g: Segment, next: RrState,
                       tail: seq<Segment>, k: nat)
    requires quantum > 0 && SliceOf(s, quantum, st, g, next) && k < |[g] + tail|
    requires k > 0 ==> SegmentFits(tail, k - 1, s, quantum, next.time)
    ensures SegmentFits([g] + tail, k, s, quantum, st.time)
  {
    var r := [g] + tail;
    if k > 0 {
      assert r[k] == tail[k - 1];
      if k > 1 {
        assert r[k - 1] == tail[k - 2];
      }
    }
  }

  /** The timeline of the whole schedule, segment by segment. */
  lemma RrTimeline(s: seq<Process>, quantum: int, st: RrState)
    requires RrInv(s, quantum, st)
    ensures var r := Run(s, quantum, st);
      && Ordered(r) && NonEmptySegments(r) && SlicesWithin(r, quantum)
      && forall k :: 0 <= k < |r| ==> Arrived(s, r[k].pid, r[k].start)
  {
    var r := Run(s, quantum, st);
    forall k | 0 <= k < |r|
      ensures r[k].start < r[k].end && r[k].end - r[k].start <= quantum && Arrived(s, r[k].pid, r[k].start)
      ensures k > 0 ==> r[k - 1].end <= r[k].start
    {
      RrRunTimeline(s, quantum, st, k);
    }
  }

  /** For a valid process list and a positive quantum, `round_robin` returns an
      ordered schedule of non-empty slices of at most one quantum that serves
      each process exactly its burst, never before it arrives. */
  lemma RoundRobinValid(ps: seq<Process>, quantum: int)
    requires ValidProcesses(ps) && quantum > 0
    ensures ValidSchedule(RrSchedule(ps, quantum), ps) && SlicesWithin(RrSchedule(ps, quantum), quantum)
    ensures ps != [] ==> RrSchedule(ps, quantum) != [Segment(0, 0, 0)]
  {
    if ps != [] {
      var s := SortedByArrival(ps);
      var st := Start(s);
      var r := Run(s, quantum, st);
      RrStart(ps, quantum);
      SortedValid(ps);
      SortedByArrivalProperties(ps);
      forall p | p in s ensures Service(r, p.pid) == p.burst {
        RrRunService(s, quantum, st, p);
      }
      assert s[0] in s;
      assert r != [];
      RrTimeline(s, quantum, st);
      ArrivedSegments(r, s);
      SameRecords(r, s, ps);
    }
  }
}
