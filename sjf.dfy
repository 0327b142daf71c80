/** Shortest-Job-First, non-preemptive: at every dispatch, the arrived job with the
    smallest burst runs to completion; ties go to the earlier arrival, then to the
    smaller pid, which is the order of the `(burst, arrival, pid)` tuples kept in the
    ready queue. */
module Sjf {
  import opened Processes
  import opened ArrivalSort

  /** `a` leaves the ready queue before `b`: its `(burst, arrival, pid)` tuple is smaller. */
  predicate ShorterJob(a: Process, b: Process)
  {
    a.burst < b.burst
    || (a.burst == b.burst && (a.arrival < b.arrival || (a.arrival == b.arrival && a.pid < b.pid)))
  }

  /** The position among the first `n` queued jobs of one no other of them precedes. */
  function ShortestAmong(pool: seq<Process>, n: nat): (k: nat)
    requires 0 < n <= |pool|
    ensures k < n
  {
    if n == 1 then 0
    else
      var k := ShortestAmong(pool, n - 1);
      if ShorterJob(pool[n - 1], pool[k]) then n - 1 else k
  }

  /** The position of the job `pq.get()` hands out. */
  function ShortestJob(pool: seq<Process>): (k: nat)
    requires pool != []
    ensures k < |pool|
  {
    ShortestAmong(pool, |pool|)
  }

  lemma {:induction false} ShortestAmongMinimal(pool: seq<Process>, n: nat)
    requires 0 < n <= |pool|
    ensures forall j :: 0 <= j < n ==> !ShorterJob(pool[j], pool[ShortestAmong(pool, n)])
  {
    if n > 1 {
      ShortestAmongMinimal(pool, n - 1);
    }
  }

  /** No queued job leaves the queue before the one `ShortestJob` picks. */
  lemma ShortestJobMinimal(pool: seq<Process>)
    requires pool != []
    ensures forall j :: 0 <= j < |pool| ==> !ShorterJob(pool[j], pool[ShortestJob(pool)])
  {
    ShortestAmongMinimal(pool, |pool|);
  }

  /** The queue once the job at position `k` has been taken out. */
  function RemoveAt(pool: seq<Process>, k: nat): (r: seq<Process>)
    requires k < |pool|
    ensures |r| == |pool| - 1
  {
    pool[..k] + pool[k + 1..]
  }

  /** The rest of the schedule from a state of the loop: the sorted processes from
      `idx` on have not been queued yet, `pool` is the ready queue and the clock
      reads `time`. Each call takes one step of the loop: it queues the next
      arrived process; or, with nothing left to queue, jumps an empty queue's clock
      to the next arrival; or dispatches the shortest queued job. */
  function SjfRun(s: seq<Process>, idx: nat, pool: seq<Process>, time: int): seq<Segment>
    requires idx <= |s|
    decreases 2 * (|s| - idx) + |pool|, if CanAdmit(s, idx, time) then 0 else 1
  {
    if CanAdmit(s, idx, time) then SjfRun(s, idx + 1, pool + [s[idx]], time)
    else if |pool| == 0 then
      if idx < |s| then SjfRun(s, idx, [], s[idx].arrival) else []
    else
      var k := ShortestJob(pool);
      [Segment(pool[k].pid, time, time + pool[k].burst)]
        + SjfRun(s, idx, RemoveAt(pool, k), time + pool[k].burst)
  }

  /** The schedule `sjf` returns for the process list `ps`. */
  function SjfSchedule(ps: seq<Process>): seq<Segment>
  {
    if ps == [] then []
    else
      var s := SortedByArrival(ps);
      SjfRun(s, 0, [], s[0].arrival)
  }

  /** `sjf(processes)`: sorts a copy of the list by arrival (the caller's list is
      left as it is), then alternates between admitting arrivals into the ready
      queue and dispatching its shortest job. */
  method Sjf(procs: seq<Process>) returns (result: seq<Segment>)
    ensures result == SjfSchedule(procs)
    ensures procs == [] ==> result == []
  {
    if |procs| == 0 {
      return [];
    }
    var processes := SortedByArrival(procs);
    result := [];
    var time := processes[0].arrival;
    var pq: seq<Process> := [];
    var nextIdx := 0;
    while nextIdx < |processes| || pq != []
      invariant 0 <= nextIdx <= |processes|
      invariant result + SjfRun(processes, nextIdx, pq, time) == SjfSchedule(procs)
      decreases 2 * (|processes| - nextIdx) + |pq|, if CanAdmit(processes, nextIdx, time) then 0 else 1
    {
      ghost var idx0, pool0 := nextIdx, pq;
      while nextIdx < |processes| && processes[nextIdx].arrival <= time
        invariant idx0 <= nextIdx <= |processes| && |pq| == |pool0| + nextIdx - idx0
        invariant result + SjfRun(processes, nextIdx, pq, time) == SjfSchedule(procs)
      {
        pq := pq + [processes[nextIdx]];
        nextIdx := nextIdx + 1;
      }
      if pq == [] {
        if nextIdx < |processes| {
          time := processes[nextIdx].arrival;
          continue;
        } else {
          break;
        }
      }
      var k := ShortestJob(pq);
      var job := pq[k];
      var segment := Segment(job.pid, time, time + job.burst);
      ghost var rest := SjfRun(processes, nextIdx, RemoveAt(pq, k), time + job.burst);
      assert result + ([segment] + rest) == (result + [segment]) + rest;
      pq := RemoveAt(pq, k);
      result := result + [segment];
      time := time + job.burst;
    }
  }

  /** The records among the first `n` sorted ones whose pid is not done, in order:
      what the ready queue holds once they have all been admitted. */
  function Pending(s: seq<Process>, n: nat, done: set<int>): seq<Process>
    requires n <= |s|
  {
    if n == 0 then []
    else Pending(s, n - 1, done) + (if s[n - 1].pid in done then [] else [s[n - 1]])
  }

  lemma {:induction false} PendingMember(s: seq<Process>, n: nat, done: set<int>, p: Process)
    requires n <= |s| && p in Pending(s, n, done)
    ensures p.pid !in done && exists m :: 0 <= m < n && s[m] == p
  {
    if n > 0 && p in Pending(s, n - 1, done) {
      PendingMember(s, n - 1, done, p);
    }
  }

  lemma {:induction false} PendingComplete(s: seq<Process>, n: nat, done: set<int>, i: nat)
    requires i < n <= |s| && s[i].pid !in done
    ensures s[i] in Pending(s, n, done)
  {
    var last := if s[n - 1].pid in done then [] else [s[n - 1]];
    assert Pending(s, n, done) == Pending(s, n - 1, done) + last;
    if i < n - 1 {
      PendingComplete(s, n - 1, done, i);
    } else {
      assert last == [s[i]];
    }
  }

  /** Marking done a pid none of the first `n` records carries changes nothing. */
  lemma {:induction false} PendingIgnores(s: seq<Process>, n: nat, done: set<int>, pid: int)
    requires n <= |s| && forall i :: 0 <= i < n ==> s[i].pid != pid
    ensures Pending(s, n, done + {pid}) == Pending(s, n, done)
  {
    if n > 0 {
      PendingIgnores(s, n - 1, done, pid);
    }
  }

  /** Taking the job at position `k` out of the pending records leaves the pending
      records with that job's pid done. */
  lemma {:induction false} PendingRemove(s: seq<Process>, n: nat, done: set<int>, k: nat)
    requires n <= |s| && UniquePids(s) && k < |Pending(s, n, done)|
    ensures RemoveAt(Pending(s, n, done), k) == Pending(s, n, done + {Pending(s, n, done)[k].pid})
  {
    var prefix := Pending(s, n - 1, done);
    var last := if s[n - 1].pid in done then [] else [s[n - 1]];
    var y := Pending(s, n, done)[k];
    assert Pending(s, n, done) == prefix + last;
    if k < |prefix| {
      assert y == prefix[k];
      PendingRemove(s, n - 1, done, k);
      PendingMember(s, n - 1, done, y);
      var m :| 0 <= m < n - 1 && s[m] == y;
      assert s[n - 1].pid != y.pid;
      assert RemoveAt(prefix + last, k) == RemoveAt(prefix, k) + last;
      assert Pending(s, n, done + {y.pid}) == Pending(s, n - 1, done + {y.pid}) + last;
    } else {
      assert last == [s[n - 1]] && y == s[n - 1];
      assert RemoveAt(prefix + last, k) == prefix;
      PendingIgnores(s, n - 1, done, y.pid);
      assert Pending(s, n, done + {y.pid}) == Pending(s, n - 1, done + {y.pid}) + [];
    }
  }

  /** What holds in every state of the loop, `done` being the pids dispatched so
      far: the records before `idx` have all arrived by `time`, none from `idx` on
      is done, and the ready queue holds exactly the records before `idx` that are
      not done, in arrival order. */
  ghost predicate SjfInv(s: seq<Process>, idx: nat, pool: seq<Process>, time: int, done: set<int>)
  {
    && idx <= |s| && ValidProcesses(s) && ArrivalOrdered(s)
    && (forall i :: 0 <= i < idx ==> s[i].arrival <= time)
    && (forall i :: idx <= i < |s| ==> s[i].pid !in done)
    && pool == Pending(s, idx, done)
  }

  /** Queuing the next arrived record keeps the invariant. */
  lemma SjfAdmit(s: seq<Process>, idx: nat, pool: seq<Process>, time: int, done: set<int>)
    requires SjfInv(s, idx, pool, time, done) && CanAdmit(s, idx, time)
    ensures SjfInv(s, idx + 1, pool + [s[idx]], time, done)
  {
    assert Pending(s, idx + 1, done) == Pending(s, idx, done) + [s[idx]];
  }

  /** When an empty queue's clock jumps to the next arrival, the invariant still holds. */
  lemma SjfJump(s: seq<Process>, idx: nat, time: int, done: set<int>)
    requires SjfInv(s, idx, [], time, done) && idx < |s| && s[idx].arrival > time
    ensures SjfInv(s, idx, [], s[idx].arrival, done)
  {
  }

  /** Once nothing more can be queued, every record that has arrived by `time` and
      is not done is in the queue. */
  lemma SjfWaiting(s: seq<Process>, idx: nat, pool: seq<Process>, time: int, done: set<int>, b: nat)
    requires SjfInv(s, idx, pool, time, done) && !CanAdmit(s, idx, time)
    requires b < |s| && s[b].arrival <= time && s[b].pid !in done
    ensures s[b] in pool
  {
    if b >= idx {
      assert false;
    }
    PendingComplete(s, idx, done, b);
  }

  /** With every record queued and the queue empty, every pid is done. */
  lemma SjfAllDone(s: seq<Process>, pool: seq<Process>, time: int, done: set<int>)
    requires SjfInv(s, |s|, pool, time, done) && |pool| == 0
    ensures forall p :: p in s ==> p.pid in done
  {
    forall p | p in s ensures p.pid in done {
      var i :| 0 <= i < |s| && s[i] == p;
      if p.pid !in done {
        PendingComplete(s, |s|, done, i);
        assert false;
      }
    }
  }

  /** Dispatching the job at position `k` keeps the invariant, with that job's pid now done. */
  lemma SjfPop(s: seq<Process>, idx: nat, pool: seq<Process>, time: int, done: set<int>, k: nat)
    requires SjfInv(s, idx, pool, time, done) && k < |pool|
    ensures pool[k] in s && pool[k].burst > 0 && pool[k].pid !in done && pool[k].arrival <= time
    ensures exists m :: 0 <= m < idx && s[m] == pool[k]
    ensures SjfInv(s, idx, RemoveAt(pool, k), time + pool[k].burst, done + {pool[k].pid})
  {
    var x := pool[k];
    PendingMember(s, idx, done, x);
    var m :| 0 <= m < idx && s[m] == x;
    PendingRemove(s, idx, done, k);
    assert forall i :: idx <= i < |s| ==> s[i].pid != x.pid;
  }

  /** The dispatch step's segment followed by the rest. */
  lemma SjfDispatch(s: seq<Process>, idx: nat, pool: seq<Process>, time: int)
    requires idx <= |s| && !CanAdmit(s, idx, time) && |pool| > 0
    ensures SjfRun(s, idx, pool, time)
      == [Segment(pool[ShortestJob(pool)].pid, time, time + pool[ShortestJob(pool)].burst)]
        + SjfRun(s, idx, RemoveAt(pool, ShortestJob(pool)), time + pool[ShortestJob(pool)].burst)
  {
  }

  /** From any state of the loop, the rest of the schedule gives every process that
      is not done exactly one segment, of its whole burst, and none to a done one. */
  lemma {:induction false} SjfRunService(s: seq<Process>, idx: nat, pool: seq<Process>, time: int, done: set<int>)
    requires SjfInv(s, idx, pool, time, done)
    ensures BelongsTo(SjfRun(s, idx, pool, time), s)
    ensures forall p :: p in s ==>
      Count(SjfRun(s, idx, pool, time), p.pid) == (if p.pid in done then 0 else 1)
      && Service(SjfRun(s, idx, pool, time), p.pid) == (if p.pid in done then 0 else p.burst)
    decreases 2 * (|s| - idx) + |pool|, if CanAdmit(s, idx, time) then 0 else 1, 1
  {
    if CanAdmit(s, idx, time) {
      SjfAdmit(s, idx, pool, time, done);
      SjfRunService(s, idx + 1, pool + [s[idx]], time, done);
    } else if |pool| == 0 {
      if idx < |s| {
        SjfJump(s, idx, time, done);
        SjfRunService(s, idx, [], s[idx].arrival, done);
      } else {
        SjfAllDone(s, pool, time, done);
      }
    } else {
      SjfDispatchService(s, idx, pool, time, done);
    }
  }

  /** The dispatch case of `SjfRunService`. */
  lemma {:induction false} SjfDispatchService(s: seq<Process>, idx: nat, pool: seq<Process>, time: int, done: set<int>)
    requires SjfInv(s, idx, pool, time, done) && !CanAdmit(s, idx, time) && |pool| > 0
    ensures BelongsTo(SjfRun(s, idx, pool, time), s)
    ensures forall p :: p in s ==>
      Count(SjfRun(s, idx, pool, time), p.pid) == (if p.pid in done then 0 else 1)
      && Service(SjfRun(s, idx, pool, time), p.pid) == (if p.pid in done then 0 else p.burst)
    decreases 2 * (|s| - idx) + |pool|, 1, 0
  {
    var k := ShortestJob(pool);
    var x := pool[k];
    SjfPop(s, idx, pool, time, done, k);
    SjfDispatch(s, idx, pool, time);
    var tail := SjfRun(s, idx, RemoveAt(pool, k), time + x.burst);
    SjfRunService(s, idx, RemoveAt(pool, k), time + x.burst, done + {x.pid});
    ServicePrepend(s, x, time, tail, done);
  }

  /** What the timeline needs of a state of the loop: every queued record is one
      of the inputs, with a positive burst, that has arrived by `time`. */
  ghost predicate TimelineInv(s: seq<Process>, idx: nat, pool: seq<Process>, time: int)
  {
    idx <= |s| && ValidProcesses(s)
    && forall i :: 0 <= i < |pool| ==> pool[i] in s && pool[i].burst > 0 && pool[i].arrival <= time
  }

  /** From any state of the loop, the rest of the schedule is ordered, starts no
      earlier than `time`, has no empty segment and never runs a process before it
      arrives. */
  lemma {:induction false} SjfRunTimeline(s: seq<Process>, idx: nat, pool: seq<Process>, time: int)
    requires TimelineInv(s, idx, pool, time)
    ensures Timeline(SjfRun(s, idx, pool, time), s, time)
    decreases 2 * (|s| - idx) + |pool|, if CanAdmit(s, idx, time) then 0 else 1, 1
  {
    if CanAdmit(s, idx, time) {
      assert (pool + [s[idx]])[|pool|] == s[idx];
      SjfRunTimeline(s, idx + 1, pool + [s[idx]], time);
    } else if |pool| == 0 {
      if idx < |s| {
        SjfRunTimeline(s, idx, [], s[idx].arrival);
      }
    } else {
      SjfDispatchTimeline(s, idx, pool, time);
    }
  }

  /** The dispatch case of `SjfRunTimeline`. */
  lemma {:induction false} SjfDispatchTimeline(s: seq<Process>, idx: nat, pool: seq<Process>, time: int)
    requires TimelineInv(s, idx, pool, time)
    requires !CanAdmit(s, idx, time) && |pool| > 0
    ensures Timeline(SjfRun(s, idx, pool, time), s, time)
    decreases 2 * (|s| - idx) + |pool|, 1, 0
  {
    var k := ShortestJob(pool);
    TimelineInvRemove(s, idx, pool, time, k);
    SjfRunTimeline(s, idx, RemoveAt(pool, k), time + pool[k].burst);
    SjfDispatch(s, idx, pool, time);
    TimelineCons(s, pool[k], time, SjfRun(s, idx, RemoveAt(pool, k), time + pool[k].burst), SjfRun(s, idx, pool, time));
  }

  /** Taking job `k` off the queue and running it keeps what the timeline needs. */
  lemma TimelineInvRemove(s: seq<Process>, idx: nat, pool: seq<Process>, time: int, k: nat)
    requires TimelineInv(s, idx, pool, time) && k < |pool|
    ensures pool[k] in s && pool[k].burst > 0 && pool[k].arrival <= time
    ensures TimelineInv(s, idx, RemoveAt(pool, k), time + pool[k].burst)
  {
    forall i | 0 <= i < |RemoveAt(pool, k)|
      ensures RemoveAt(pool, k)[i] in s && RemoveAt(pool, k)[i].burst > 0
      ensures RemoveAt(pool, k)[i].arrival <= time + pool[k].burst
    {
      assert RemoveAt(pool, k)[i] == if i < k then pool[i] else pool[i + 1];
    }
  }

  /** Running `x` at `time` in front of a timeline that starts when it ends. */
  lemma TimelineCons(s: seq<Process>, x: Process, time: int, tail: seq<Segment>, r: seq<Segment>)
    requires UniquePids(s) && x in s && x.burst > 0 && x.arrival <= time
    requires Timeline(tail, s, time + x.burst) && r == [Segment(x.pid, time, time + x.burst)] + tail
    ensures Timeline(r, s, time)
  {
    forall p | p in s && p.pid == x.pid
      ensures p.arrival <= time
    {
      SamePid(s, p, x);
    }
    assert r[1..] == tail;
  }

  /** The rest of the schedule from clock `time`: each segment is non-empty,
      starts no earlier than the previous one ended (the first no earlier than
      `time`) and no earlier than the arrival of the process it runs. */
  ghost predicate Timeline(r: seq<Segment>, s: seq<Process>, time: int)
    decreases |r|
  {
    r == []
    || (&& time <= r[0].start < r[0].end
        && (forall p :: p in s && p.pid == r[0].pid ==> p.arrival <= r[0].start)
        && Timeline(r[1..], s, r[0].end))
  }

  /** A timeline is an ordered schedule of non-empty segments that never runs a
      process before it arrives. */
  lemma {:induction false} TimelineMeans(r: seq<Segment>, s: seq<Process>, time: int)
    requires Timeline(r, s, time)
    ensures Ordered(r) && NonEmptySegments(r) && StartsAfterArrival(r, s)
    decreases |r|
  {
    if r != [] {
      var rest := r[1..];
      TimelineMeans(rest, s, r[0].end);
      forall k | 0 < k < |r|
        ensures r[k] == rest[k - 1]
      {
      }
      assert rest != [] ==> r[0].end <= rest[0].start;
    }
  }

  /** The shortest-job rule: when segment `j` is dispatched, no process that has
      arrived by its start and has not been dispatched before it (nor is done) has
      a smaller `(burst, arrival, pid)` tuple than the process it runs. */
  ghost predicate ShortestFirstFrom(r: seq<Segment>, s: seq<Process>, done: set<int>)
  {
    forall j :: 0 <= j < |r| ==> ShortestAt(r, j, s, done)
  }

  /** The shortest-job rule for segment `j` alone. */
  ghost predicate ShortestAt(r: seq<Segment>, j: nat, s: seq<Process>, done: set<int>)
    requires j < |r|
  {
    forall a, b :: 0 <= a < |s| && 0 <= b < |s|
      && s[a].pid == r[j].pid && s[b].arrival <= r[j].start
      && s[b].pid !in done && s[b].pid !in PidsBefore(r, j)
      ==> !ShorterJob(s[b], s[a])
  }

  lemma {:induction false} SjfRunShortest(s: seq<Process>, idx: nat, pool: seq<Process>, time: int, done: set<int>)
    requires SjfInv(s, idx, pool, time, done)
    ensures ShortestFirstFrom(SjfRun(s, idx, pool, time), s, done)
    decreases 2 * (|s| - idx) + |pool|, if CanAdmit(s, idx, time) then 0 else 1, 1
  {
    if CanAdmit(s, idx, time) {
      SjfAdmit(s, idx, pool, time, done);
      SjfRunShortest(s, idx + 1, pool + [s[idx]], time, done);
    } else if |pool| == 0 {
      if idx < |s| {
        SjfJump(s, idx, time, done);
        SjfRunShortest(s, idx, [], s[idx].arrival, done);
      }
    } else {
      SjfDispatchShortest(s, idx, pool, time, done);
    }
  }

  /** The dispatch case of `SjfRunShortest`. */
  lemma {:induction false} SjfDispatchShortest(s: seq<Process>, idx: nat, pool: seq<Process>, time: int, done: set<int>)
    requires SjfInv(s, idx, pool, time, done)
    requires !CanAdmit(s, idx, time) && |pool| > 0
    ensures ShortestFirstFrom(SjfRun(s, idx, pool, time), s, done)
    decreases 2 * (|s| - idx) + |pool|, 1, 0
  {
    var k := ShortestJob(pool);
    var x := pool[k];
    SjfPop(s, idx, pool, time, done, k);
    SjfDispatch(s, idx, pool, time);
    var tail := SjfRun(s, idx, RemoveAt(pool, k), time + x.burst);
    SjfRunShortest(s, idx, RemoveAt(pool, k), time + x.burst, done + {x.pid});
    ShortestPrepend(s, idx, pool, time, done, tail);
  }

  /** The dispatch step picks a job no waiting process precedes, so the shortest-job
      rule holds for its segment in front of a tail that keeps the rule. */
  lemma ShortestPrepend(s: seq<Process>, idx: nat, pool: seq<Process>, time: int, done: set<int>, tail: seq<Segment>)
    requires SjfInv(s, idx, pool, time, done) && !CanAdmit(s, idx, time) && |pool| > 0
    requires ShortestFirstFrom(tail, s, done + {pool[ShortestJob(pool)].pid})
    ensures ShortestFirstFrom([Segment(pool[ShortestJob(pool)].pid, time, time + pool[ShortestJob(pool)].burst)] + tail, s, done)
  {
    var k := ShortestJob(pool);
    var x := pool[k];
    var r := [Segment(x.pid, time, time + x.burst)] + tail;
    assert r[1..] == tail;
    forall j | 0 <= j < |r| ensures ShortestAt(r, j, s, done) {
      if j == 0 {
        ShortestHead(s, idx, pool, time, done, r);
      } else {
        assert r[j] == tail[j - 1] && ShortestAt(tail, j - 1, s, done + {x.pid});
      }
    }
  }

  /** The segment the dispatch step emits obeys the shortest-job rule. */
  lemma ShortestHead(s: seq<Process>, idx: nat, pool: seq<Process>, time: int, done: set<int>, r: seq<Segment>)
    requires SjfInv(s, idx, pool, time, done) && !CanAdmit(s, idx, time) && |pool| > 0
    requires r != [] && r[0] == Segment(pool[ShortestJob(pool)].pid, time, time + pool[ShortestJob(pool)].burst)
    ensures ShortestAt(r, 0, s, done)
  {
    var k := ShortestJob(pool);
    var x := pool[k];
    SjfPop(s, idx, pool, time, done, k);
    ShortestJobMinimal(pool);
    forall a, b | 0 <= a < |s| && 0 <= b < |s|
      && s[a].pid == r[0].pid && s[b].arrival <= r[0].start && s[b].pid !in done
      ensures !ShorterJob(s[b], s[a])
    {
      SamePid(s, s[a], x);
      SjfWaiting(s, idx, pool, time, done, b);
      var m :| 0 <= m < |pool| && pool[m] == s[b];
      assert !ShorterJob(pool[m], pool[k]);
    }
  }

  /** The initial state satisfies the invariant. */
  lemma SjfStart(ps: seq<Process>)
    requires ValidProcesses(ps) && ps != []
    ensures SjfInv(SortedByArrival(ps), 0, [], SortedByArrival(ps)[0].arrival, {})
  {
    SortedByArrivalProperties(ps);
    SortedValid(ps);
  }

  /** For valid input, SJF runs every process exactly once, for its whole burst, in
      an ordered schedule that never starts a process before it arrives. */
  lemma SjfScheduleValid(ps: seq<Process>)
    requires ValidProcesses(ps)
    ensures ValidSchedule(SjfSchedule(ps), ps)
    ensures forall p :: p in ps ==> Count(SjfSchedule(ps), p.pid) == 1
  {
    if ps != [] {
      var s := SortedByArrival(ps);
      SjfStart(ps);
      SjfRunService(s, 0, [], s[0].arrival, {});
      SjfRunTimeline(s, 0, [], s[0].arrival);
      TimelineMeans(SjfSchedule(ps), s, s[0].arrival);
      SortedByArrivalProperties(ps);
      SameRecords(SjfSchedule(ps), s, ps);
      forall p | p in ps ensures p in s {
        assert p in multiset(ps);
      }
    }
  }

  /** For valid input, every dispatch picks, among the processes that have arrived and
      not yet run, one with the shortest burst; ties go to the earlier arrival, then
      to the smaller pid. */
  lemma SjfShortestFirst(ps: seq<Process>)
    requires ValidProcesses(ps)
    ensures forall j, p, q :: (0 <= j < |SjfSchedule(ps)| && p in ps && q in ps
      && p.pid == SjfSchedule(ps)[j].pid && q.arrival <= SjfSchedule(ps)[j].start
      && q.pid !in PidsBefore(SjfSchedule(ps), j)
      ==> !ShorterJob(q, p))
  {
    if ps != [] {
      var s := SortedByArrival(ps);
      var r := SjfSchedule(ps);
      SjfStart(ps);
      SjfRunShortest(s, 0, [], s[0].arrival, {});
      SortedByArrivalProperties(ps);
      forall j, p, q | 0 <= j < |r| && p in ps && q in ps
        && p.pid == r[j].pid && q.arrival <= r[j].start && q.pid !in PidsBefore(r, j)
        ensures !ShorterJob(q, p)
      {
        assert p in multiset(s) && q in multiset(s);
        var a :| 0 <= a < |s| && s[a] == p;
        var b :| 0 <= b < |s| && s[b] == q;
        assert ShortestAt(r, j, s, {});
      }
    }
  }

  /** The idle-time rule for segment `j`: it starts no earlier than the previous
      segment ends (`t0` for the first one), and when the CPU idles before it, no
      process that is not done and has not run before it arrives before it starts. */
  ghost predicate NoIdleAt(r: seq<Segment>, j: nat, s: seq<Process>, done: set<int>, t0: int)
    requires j < |r|
  {
    var prev := if j == 0 then t0 else r[j - 1].end;
    && prev <= r[j].start
    && (prev < r[j].start ==>
          forall b :: 0 <= b < |s| && s[b].pid !in done && s[b].pid !in PidsBefore(r, j) ==> r[j].start <= s[b].arrival)
  }

  ghost predicate NoIdleFrom(r: seq<Segment>, s: seq<Process>, done: set<int>, t0: int)
  {
    forall j :: 0 <= j < |r| ==> NoIdleAt(r, j, s, done, t0)
  }

  /** With the ready queue empty, every process not done is still to be queued,
      so none arrives before the next record does. */
  lemma EmptyQueueWaits(s: seq<Process>, idx: nat, time: int, done: set<int>, b: nat)
    requires SjfInv(s, idx, [], time, done) && idx < |s| && b < |s| && s[b].pid !in done
    ensures s[idx].arrival <= s[b].arrival
  {
    if b < idx {
      PendingComplete(s, idx, done, b);
      assert false;
    }
  }

  /** From any loop state whose clock `time` is either `t0`, the end of the last
      segment, or a time before which no process that is not done arrives, the
      rest of the schedule obeys the idle-time rule. */
  lemma {:induction false} SjfRunNoIdle(s: seq<Process>, idx: nat, pool: seq<Process>, time: int, done: set<int>, t0: int)
    requires SjfInv(s, idx, pool, time, done) && t0 <= time
    requires t0 < time ==> forall b :: 0 <= b < |s| && s[b].pid !in done ==> time <= s[b].arrival
    ensures NoIdleFrom(SjfRun(s, idx, pool, time), s, done, t0)
    decreases 2 * (|s| - idx) + |pool|, if CanAdmit(s, idx, time) then 0 else 1, 1
  {
    if CanAdmit(s, idx, time) {
      SjfAdmit(s, idx, pool, time, done);
      SjfRunNoIdle(s, idx + 1, pool + [s[idx]], time, done, t0);
    } else if |pool| == 0 {
      if idx < |s| {
        SjfJump(s, idx, time, done);
        forall b | 0 <= b < |s| && s[b].pid !in done
          ensures s[idx].arrival <= s[b].arrival
        {
          EmptyQueueWaits(s, idx, time, done, b);
        }
        SjfRunNoIdle(s, idx, [], s[idx].arrival, done, t0);
      }
    } else {
      SjfDispatchNoIdle(s, idx, pool, time, done, t0);
    }
  }

  /** The dispatch case of `SjfRunNoIdle`. */
  lemma {:induction false} SjfDispatchNoIdle(s: seq<Process>, idx: nat, pool: seq<Process>, time: int, done: set<int>, t0: int)
    requires SjfInv(s, idx, pool, time, done) && t0 <= time
    requires t0 < time ==> forall b :: 0 <= b < |s| && s[b].pid !in done ==> time <= s[b].arrival
    requires !CanAdmit(s, idx, time) && |pool| > 0
    ensures NoIdleFrom(SjfRun(s, idx, pool, time), s, done, t0)
    decreases 2 * (|s| - idx) + |pool|, 1, 0
  {
    var k := ShortestJob(pool);
    var x := pool[k];
    SjfPop(s, idx, pool, time, done, k);
    SjfDispatch(s, idx, pool, time);
    SjfRunNoIdle(s, idx, RemoveAt(pool, k), time + x.burst, done + {x.pid}, time + x.burst);
    NoIdlePrepend(s, x, time, done, t0, SjfRun(s, idx, RemoveAt(pool, k), time + x.burst), SjfRun(s, idx, pool, time));
  }

  /** A segment of `x` run from `time` in front of a tail that keeps the idle-time
      rule from its end keeps the rule. */
  lemma NoIdlePrepend(s: seq<Process>, x: Process, time: int, done: set<int>, t0: int, tail: seq<Segment>, r: seq<Segment>)
    requires t0 <= time
    requires t0 < time ==> forall b :: 0 <= b < |s| && s[b].pid !in done ==> time <= s[b].arrival
    requires NoIdleFrom(tail, s, done + {x.pid}, time + x.burst)
    requires r == [Segment(x.pid, time, time + x.burst)] + tail
    ensures NoIdleFrom(r, s, done, t0)
  {
    assert r[1..] == tail;
    forall j | 0 < j < |r| ensures NoIdleAt(r, j, s, done, t0) {
      assert r[j] == tail[j - 1] && NoIdleAt(tail, j - 1, s, done + {x.pid}, time + x.burst);
      assert PidsBefore(r, j) == {x.pid} + PidsBefore(tail, j - 1);
    }
  }

  /** For valid input, SJF idles only while nothing has arrived: each segment
      starts at the end of the previous one (the first at the earliest arrival),
      unless every process that has not run yet arrives no earlier than its start. */
  lemma SjfNoIdle(ps: seq<Process>)
    requires ValidProcesses(ps) && ps != []
    ensures NoIdleFrom(SjfSchedule(ps), SortedByArrival(ps), {}, SortedByArrival(ps)[0].arrival)
  {
    var s := SortedByArrival(ps);
    SjfStart(ps);
    SjfRunNoIdle(s, 0, [], s[0].arrival, {}, s[0].arrival);
  }
}
