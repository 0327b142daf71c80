/** `srtf(processes)`: preemptive shortest-remaining-time-first. At every
    decision point the arrived process with the least remaining time runs, until
    it finishes or the next process arrives; an open entry of the result is
    closed when its process stops running, and contiguous entries of one
    process are merged at the end. */
module Srtf {
  import opened Processes
  import opened ArrivalSort

  /** An entry of `result`: `(pid, start, end)`, where an end of `None` is to be
      filled in later. */
  datatype Entry = Entry(pid: int, start: int, end: Option<int>)

  /** The variables of the main loop: `current_time`, `completed`,
      `remaining_time`, `last_scheduled` and `result`. */
  datatype SrtfState = SrtfState(time: int, completed: nat, rem: map<int, int>, last: Option<int>,
                                 result: seq<Entry>)

  /** What one pass of the main loop does: `break`, or move to a new state. */
  datatype SrtfStep = Stop | Next(next: SrtfState)

  /** Every record's pid is a key of `remaining_time`. */
  predicate HasKeys(s: seq<Process>, rem: map<int, int>)
  {
    forall k :: 0 <= k < |s| ==> s[k].pid in rem
  }

  /** Record `k` is a candidate of the selection loop: arrived and unfinished. */
  predicate Ready(s: seq<Process>, rem: map<int, int>, time: int, k: nat)
    requires k < |s|
  {
    s[k].arrival <= time && Get(rem, s[k].pid) > 0
  }

  /** What the selection loop has chosen after the first `n` sorted records: the
      position of the first candidate whose remaining time is strictly below
      every earlier candidate's, `None` while there is none. */
  function Pick(s: seq<Process>, rem: map<int, int>, time: int, n: nat): (r: Option<nat>)
    requires n <= |s|
    ensures r.Some? ==> r.value < n && Ready(s, rem, time, r.value)
  {
    if n == 0 then None
    else
      var b := Pick(s, rem, time, n - 1);
      if Ready(s, rem, time, n - 1) && (b.None? || Get(rem, s[n - 1].pid) < Get(rem, s[b.value].pid))
      then Some(n - 1)
      else b
  }

  /** `min(acc, a)` where an `acc` of `None` stands for `float('inf')`. */
  function Earliest(acc: Option<int>, a: int): int
  {
    if acc.None? then a else Min(acc.value, a)
  }

  /** Record `k` is still to arrive and unfinished. */
  predicate Pending(s: seq<Process>, rem: map<int, int>, time: int, k: nat)
    requires k < |s|
  {
    s[k].arrival > time && Get(rem, s[k].pid) > 0
  }

  /** The `next_arrival` loop over the first `n` sorted records. */
  function NextArrival(s: seq<Process>, rem: map<int, int>, time: int, n: nat): Option<int>
    requires n <= |s|
  {
    if n == 0 then None
    else
      var acc := NextArrival(s, rem, time, n - 1);
      if Pending(s, rem, time, n - 1) then Some(Earliest(acc, s[n - 1].arrival)) else acc
  }

  /** Record `k` arrives strictly inside the time window `(time, time + len)`. */
  predicate InWindow(s: seq<Process>, time: int, len: int, k: nat)
    requires k < |s|
  {
    time < s[k].arrival < time + len
  }

  /** The `next_event_time` loop over the first `n` sorted records, for a
      process with `len` time units left. */
  function NextEvent(s: seq<Process>, time: int, len: int, n: nat): Option<int>
    requires n <= |s|
  {
    if n == 0 then None
    else
      var acc := NextEvent(s, time, len, n - 1);
      if InWindow(s, time, len, n - 1) then Some(Earliest(acc, s[n - 1].arrival)) else acc
  }

  /** `result[-1] = (result[-1][0], result[-1][1], t)`. The loop never does this
      to an empty list (`Tracked`); the empty case only makes the function total. */
  function Close(r: seq<Entry>, t: int): seq<Entry>
  {
    if r == [] then [] else r[|r| - 1 := Entry(r[|r| - 1].pid, r[|r| - 1].start, Some(t))]
  }

  /** The rest of a pass of the main loop once `pid` is selected: close the
      previous process's entry on a context switch, open an entry if `pid` was
      not the last one to run, run it for `min(remaining, next_event_time -
      current_time)`, and close its entry when it finishes or a process arrives. */
  function Dispatched(s: seq<Process>, st: SrtfState, pid: int): SrtfState
  {
    var r := st.result;
    var switched :=
      if st.last.Some? && st.last.value != pid && r != [] && r[|r| - 1].pid == st.last.value
      then Close(r, st.time) else r;
    var extended := if st.last != Some(pid) then switched + [Entry(pid, st.time, None)] else switched;
    var left := Get(st.rem, pid);
    var event := NextEvent(s, st.time, left, |s|);
    var exec := Min(left, if event.Some? then event.value - st.time else left);
    var time := st.time + exec;
    var rem := st.rem[pid := left - exec];
    if rem[pid] == 0 then SrtfState(time, st.completed + 1, rem, None, Close(extended, time))
    else SrtfState(time, st.completed, rem, Some(pid), if event.Some? then Close(extended, time) else extended)
  }

  /** One pass of the main loop, its three scans folded into `Pick`,
      `NextArrival` and `NextEvent`: stop once `completed` reaches `n`; with no
      candidate, jump to the next arrival or `break` when there is none;
      otherwise run the selected process. */
  function Step(s: seq<Process>, st: SrtfState): SrtfStep
  {
    if st.completed >= |s| then Stop
    else
      match Pick(s, st.rem, st.time, |s|)
      case None =>
        (match NextArrival(s, st.rem, st.time, |s|)
         case None => Stop
         case Some(t) => Next(st.(time := t)))
      case Some(i) => Next(Dispatched(s, st, s[i].pid))
  }

  /** A bound on the passes still to come, used only for termination: the time
      still owed to the records. */
  function Work(s: seq<Process>, rem: map<int, int>): nat
  {
    if s == [] then 0 else Left(rem, s[0].pid) + Work(s[1..], rem)
  }

  /** Second termination component: a jump to the next arrival leaves `Work`
      as it is but makes a candidate available. */
  function Phase(s: seq<Process>, st: SrtfState): nat
  {
    if Pick(s, st.rem, st.time, |s|).None? then 1 else 0
  }

  /** `next` is closer to the end of the loop than `st`. */
  predicate Progress(s: seq<Process>, st: SrtfState, next: SrtfState)
  {
    Work(s, next.rem) < Work(s, st.rem) || (Work(s, next.rem) == Work(s, st.rem) && Phase(s, next) < Phase(s, st))
  }

  lemma {:induction false} WorkMono(s: seq<Process>, rem: map<int, int>, rem': map<int, int>)
    requires forall pid :: Left(rem', pid) <= Left(rem, pid)
    ensures Work(s, rem') <= Work(s, rem)
  {
    if s != [] {
      WorkMono(s[1..], rem, rem');
    }
  }

  lemma {:induction false} WorkDrop(s: seq<Process>, rem: map<int, int>, rem': map<int, int>, k: nat)
    requires forall pid :: Left(rem', pid) <= Left(rem, pid)
    requires k < |s| && Left(rem', s[k].pid) < Left(rem, s[k].pid)
    ensures Work(s, rem') < Work(s, rem)
  {
    if k == 0 {
      WorkMono(s[1..], rem, rem');
    } else {
      WorkDrop(s[1..], rem, rem', k - 1);
    }
  }

  /** The selection loop picks the first record, in sorted order, whose
      remaining time is the least among the candidates; it picks nothing
      exactly when there is no candidate. */
  lemma {:induction false} PickMin(s: seq<Process>, rem: map<int, int>, time: int, n: nat)
    requires n <= |s|
    ensures Pick(s, rem, time, n).None? <==> forall k :: 0 <= k < n ==> !Ready(s, rem, time, k)
    ensures Pick(s, rem, time, n).Some? ==>
      var i := Pick(s, rem, time, n).value;
      forall k :: 0 <= k < n && Ready(s, rem, time, k) ==>
        Get(rem, s[i].pid) <= Get(rem, s[k].pid) && (k < i ==> Get(rem, s[i].pid) < Get(rem, s[k].pid))
  {
    if n > 0 {
      PickMin(s, rem, time, n - 1);
    }
  }

  /** The `next_arrival` loop finds the earliest arrival, after the current
      time, of an unfinished record, and nothing exactly when there is none. */
  lemma {:induction false} NextArrivalMin(s: seq<Process>, rem: map<int, int>, time: int, n: nat)
    requires n <= |s|
    ensures NextArrival(s, rem, time, n).None? <==> forall k :: 0 <= k < n ==> !Pending(s, rem, time, k)
    ensures NextArrival(s, rem, time, n).Some? ==>
      var t := NextArrival(s, rem, time, n).value;
      && (exists k :: 0 <= k < n && Pending(s, rem, time, k) && s[k].arrival == t)
      && forall k :: 0 <= k < n && Pending(s, rem, time, k) ==> t <= s[k].arrival
  {
    if n > 0 {
      NextArrivalMin(s, rem, time, n - 1);
      if Pending(s, rem, time, n - 1) && NextArrival(s, rem, time, n - 1).Some? {
        var k :| 0 <= k < n - 1 && Pending(s, rem, time, k) && s[k].arrival == NextArrival(s, rem, time, n - 1).value;
      }
    }
  }

  /** The `next_event_time` loop finds the earliest arrival strictly inside the
      window, and nothing exactly when no record arrives inside it. */
  lemma {:induction false} NextEventMin(s: seq<Process>, time: int, len: int, n: nat)
    requires n <= |s|
    ensures NextEvent(s, time, len, n).None? <==> forall k :: 0 <= k < n ==> !InWindow(s, time, len, k)
    ensures NextEvent(s, time, len, n).Some? ==>
      var t := NextEvent(s, time, len, n).value;
      && (exists k :: 0 <= k < n && InWindow(s, time, len, k) && s[k].arrival == t)
      && forall k :: 0 <= k < n && InWindow(s, time, len, k) ==> t <= s[k].arrival
  {
    if n > 0 {
      NextEventMin(s, time, len, n - 1);
      if InWindow(s, time, len, n - 1) && NextEvent(s, time, len, n - 1).Some? {
        var k :| 0 <= k < n - 1 && InWindow(s, time, len, k) && s[k].arrival == NextEvent(s, time, len, n - 1).value;
      }
    }
  }

  /** The selected process runs for a positive time, no longer than it is
      owed: until it finishes or until the first arrival strictly inside that
      window, whichever comes first; exactly that time is taken off what it is owed. */
  lemma RunLength(s: seq<Process>, st: SrtfState, pid: int)
    requires Get(st.rem, pid) > 0
    ensures var left, next := Get(st.rem, pid), Dispatched(s, st, pid);
      && st.time < next.time <= st.time + left
      && next.rem == st.rem[pid := left - (next.time - st.time)]
      && (forall k :: 0 <= k < |s| && InWindow(s, st.time, left, k) ==> next.time <= s[k].arrival)
      && (next.time < st.time + left ==>
            exists k :: 0 <= k < |s| && InWindow(s, st.time, left, k) && s[k].arrival == next.time)
  {
    NextEventMin(s, st.time, Get(st.rem, pid), |s|);
  }

  /** Each pass of the loop brings it closer to its end. */
  lemma StepProgress(s: seq<Process>, st: SrtfState)
    ensures var r := Step(s, st); r.Next? ==> Progress(s, st, r.next)
  {
    if st.completed < |s| {
      PickMin(s, st.rem, st.time, |s|);
      match Pick(s, st.rem, st.time, |s|)
      case None =>
        NextArrivalMin(s, st.rem, st.time, |s|);
        if NextArrival(s, st.rem, st.time, |s|).Some? {
          var t := NextArrival(s, st.rem, st.time, |s|).value;
          var k :| 0 <= k < |s| && Pending(s, st.rem, st.time, k) && s[k].arrival == t;
          PickMin(s, st.rem, t, |s|);
          assert Ready(s, st.rem, t, k);
        }
      case Some(i) =>
        var pid := s[i].pid;
        var next := Dispatched(s, st, pid);
        RunLength(s, st, pid);
        assert forall q :: Left(next.rem, q) <= Left(st.rem, q);
        WorkDrop(s, st.rem, next.rem, i);
    }
  }

  /** The final state of the main loop from `st`. */
  function Run(s: seq<Process>, st: SrtfState): SrtfState
    decreases Work(s, st.rem), Phase(s, st)
  {
    StepProgress(s, st);
    match Step(s, st)
    case Stop => st
    case Next(next) => Run(s, next)
  }

  /** The state the main loop starts in. */
  function Start(s: seq<Process>): SrtfState
    requires s != []
  {
    SrtfState(s[0].arrival, 0, RemInit(s), None, [])
  }

  /** The fix-up loop: an entry still open at the end is closed at the final time. */
  function FillEnds(r: seq<Entry>, t: int): seq<Segment>
  {
    seq(|r|, k requires 0 <= k < |r| => Segment(r[k].pid, r[k].start, if r[k].end.Some? then r[k].end.value else t))
  }

  /** Two adjacent segments the merge loop joins: same pid, the second starting
      where the first ends. */
  predicate Mergeable(a: Segment, b: Segment)
  {
    a.pid == b.pid && a.end == b.start
  }

  /** One pass of the merge loop: extend the last merged segment or append. */
  function MergeInto(acc: seq<Segment>, g: Segment): seq<Segment>
  {
    if acc != [] && Mergeable(acc[|acc| - 1], g)
    then acc[|acc| - 1 := Segment(g.pid, acc[|acc| - 1].start, g.end)]
    else acc + [g]
  }

  /** `merged_result` after the merge loop has gone over `r`. */
  function Merged(r: seq<Segment>): seq<Segment>
  {
    if r == [] then [] else MergeInto(Merged(r[..|r| - 1]), r[|r| - 1])
  }

  /** The schedule `srtf` returns. */
  function SrtfSchedule(ps: seq<Process>): seq<Segment>
  {
    if ps == [] then []
    else
      var s := SortedByArrival(ps);
      var fin := Run(s, Start(s));
      Merged(FillEnds(fin.result, fin.time))
  }

  /** The lookups of the loop are defined, and `result[-1]` exists whenever a
      process is running. */
  predicate Tracked(s: seq<Process>, st: SrtfState)
  {
    HasKeys(s, st.rem) && (st.last.Some? ==> st.result != [])
  }

  /** The selection loop of one pass. */
  method SelectProcess(s: seq<Process>, rem: map<int, int>, time: int) returns (selected: Option<nat>)
    requires HasKeys(s, rem)
    ensures selected == Pick(s, rem, time, |s|)
  {
    var minRemaining: Option<int> := None;
    selected := None;
    for k := 0 to |s|
      invariant selected == Pick(s, rem, time, k)
      invariant minRemaining == if selected.None? then None else Some(Get(rem, s[selected.value].pid))
    {
      var process := s[k];
      if process.arrival <= time && rem[process.pid] > 0 {
        if minRemaining.None? || rem[process.pid] < minRemaining.value {
          minRemaining := Some(rem[process.pid]);
          selected := Some(k);
        }
      }
    }
  }

  /** The `next_arrival` loop; `None` is `float('inf')`. */
  method NextArrivalScan(s: seq<Process>, rem: map<int, int>, time: int) returns (nextArrival: Option<int>)
    requires HasKeys(s, rem)
    ensures nextArrival == NextArrival(s, rem, time, |s|)
  {
    nextArrival := None;
    for k := 0 to |s|
      invariant nextArrival == NextArrival(s, rem, time, k)
    {
      var process := s[k];
      if process.arrival > time && rem[process.pid] > 0 {
        nextArrival := Some(Earliest(nextArrival, process.arrival));
      }
    }
  }

  /** The `next_event_time` loop; `None` is `float('inf')`. */
  method NextEventScan(s: seq<Process>, time: int, len: int) returns (nextEvent: Option<int>)
    ensures nextEvent == NextEvent(s, time, len, |s|)
  {
    nextEvent := None;
    for k := 0 to |s|
      invariant nextEvent == NextEvent(s, time, len, k)
    {
      var process := s[k];
      if process.arrival > time && process.arrival < time + len {
        nextEvent := Some(Earliest(nextEvent, process.arrival));
      }
    }
  }

  /** The part of a pass after `pid` is selected. */
  method RunSelected(s: seq<Process>, pid: int, time: int, completed: nat, rem: map<int, int>,
                     last: Option<int>, result: seq<Entry>)
    returns (time': int, completed': nat, rem': map<int, int>, last': Option<int>, result': seq<Entry>)
    requires pid in rem && Tracked(s, SrtfState(time, completed, rem, last, result))
    ensures SrtfState(time', completed', rem', last', result')
      == Dispatched(s, SrtfState(time, completed, rem, last, result), pid)
    ensures Tracked(s, SrtfState(time', completed', rem', last', result'))
  {
    result' := result;
    if last.Some? && last.value != pid && |result'| > 0 && result'[|result'| - 1].pid == last.value {
      result' := result'[|result'| - 1 := Entry(result'[|result'| - 1].pid, result'[|result'| - 1].start, Some(time))];
    }
    if last != Some(pid) {
      result' := result' + [Entry(pid, time, None)];
    }
    var nextEvent := NextEventScan(s, time, rem[pid]);
    var executionTime := Min(rem[pid], if nextEvent.Some? then nextEvent.value - time else rem[pid]);
    time' := time + executionTime;
    rem' := rem[pid := rem[pid] - executionTime];
    completed', last' := completed, last;
    if rem'[pid] == 0 {
      completed' := completed + 1;
      result' := result'[|result'| - 1 := Entry(result'[|result'| - 1].pid, result'[|result'| - 1].start, Some(time'))];
      last' := None;
    } else {
      last' := Some(pid);
      if nextEvent.Some? {
        result' := result'[|result'| - 1 := Entry(result'[|result'| - 1].pid, result'[|result'| - 1].start, Some(time'))];
      }
    }
  }

  /** One pass of the main loop. */
  method Iterate(s: seq<Process>, time: int, completed: nat, rem: map<int, int>, last: Option<int>,
                 result: seq<Entry>)
    returns (stop: bool, time': int, completed': nat, rem': map<int, int>, last': Option<int>, result': seq<Entry>)
    requires completed < |s| && Tracked(s, SrtfState(time, completed, rem, last, result))
    ensures Tracked(s, SrtfState(time', completed', rem', last', result'))
    ensures stop ==>
      && Step(s, SrtfState(time, completed, rem, last, result)) == Stop
      && SrtfState(time', completed', rem', last', result') == SrtfState(time, completed, rem, last, result)
    ensures !stop ==>
      Step(s, SrtfState(time, completed, rem, last, result)) == Next(SrtfState(time', completed', rem', last', result'))
  {
    stop, time', completed', rem', last', result' := false, time, completed, rem, last, result;
    var selected := SelectProcess(s, rem, time);
    if selected.None? {
      var nextArrival := NextArrivalScan(s, rem, time);
      if nextArrival.None? {
        stop := true;
        return;
      }
      time' := nextArrival.value;
      return;
    }
    time', completed', rem', last', result' := RunSelected(s, s[selected.value].pid, time, completed, rem, last, result);
  }

  /** The main loop of `srtf` over the sorted list; returns the final
      `current_time` and `result`. */
  method Simulate(processes: seq<Process>) returns (currentTime: int, result: seq<Entry>)
    requires processes != []
    ensures currentTime == Run(processes, Start(processes)).time && result == Run(processes, Start(processes)).result
  {
    var n := |processes|;
    currentTime := processes[0].arrival;
    var completed: nat := 0;
    var remainingTime := RemInit(processes);
    var lastScheduled: Option<int> := None;
    result := [];
    ghost var fin := Run(processes, Start(processes));
    while completed < n
      invariant Tracked(processes, SrtfState(currentTime, completed, remainingTime, lastScheduled, result))
      invariant Run(processes, SrtfState(currentTime, completed, remainingTime, lastScheduled, result)) == fin
      decreases Work(processes, remainingTime), Phase(processes, SrtfState(currentTime, completed, remainingTime, lastScheduled, result))
    {
      ghost var st := SrtfState(currentTime, completed, remainingTime, lastScheduled, result);
      StepProgress(processes, st);
      var stop;
      stop, currentTime, completed, remainingTime, lastScheduled, result :=
        Iterate(processes, currentTime, completed, remainingTime, lastScheduled, result);
      if stop {
        return;
      }
    }
  }

  /** The fix-up loop: closes every entry still open at the final time. */
  method FillMissingEnds(result: seq<Entry>, currentTime: int) returns (filled: seq<Segment>)
    ensures filled == FillEnds(result, currentTime)
  {
    filled := [];
    for i := 0 to |result|
      invariant filled == FillEnds(result[..i], currentTime)
    {
      if result[i].end.None? {
        filled := filled + [Segment(result[i].pid, result[i].start, currentTime)];
      } else {
        filled := filled + [Segment(result[i].pid, result[i].start, result[i].end.value)];
      }
    }
    assert result[..|result|] == result;
  }

  /** The merge loop: joins each segment to the previous one when they are
      contiguous segments of the same process. */
  method MergeSegments(result: seq<Segment>) returns (merged: seq<Segment>)
    ensures merged == Merged(result)
  {
    merged := [];
    for i := 0 to |result|
      invariant merged == Merged(result[..i])
    {
      var segment := result[i];
      assert result[..i + 1][..i] == result[..i];
      if |merged| > 0 && merged[|merged| - 1].pid == segment.pid && merged[|merged| - 1].end == segment.start {
        merged := merged[|merged| - 1 := Segment(segment.pid, merged[|merged| - 1].start, segment.end)];
      } else {
        merged := merged + [segment];
      }
    }
    assert result[..|result|] == result;
  }

  /** `srtf(processes)` on a sorted copy of the list. */
  method Srtf(procs: seq<Process>) returns (mergedResult: seq<Segment>)
    ensures mergedResult == SrtfSchedule(procs)
    ensures procs == [] ==> mergedResult == []
  {
    if |procs| == 0 {
      return [];
    }
    var processes := SortedByArrival(procs);
    var currentTime, result := Simulate(processes);
    var filled := FillMissingEnds(result, currentTime);
    mergedResult := MergeSegments(filled);
  }

  /** The merge loop keeps each process's total CPU time. */
  lemma {:induction false} MergedService(r: seq<Segment>, pid: int)
    ensures Service(Merged(r), pid) == Service(r, pid)
  {
    if r != [] {
      var init, g := r[..|r| - 1], r[|r| - 1];
      assert r == init + [g];
      MergedService(init, pid);
      ServiceConcat(init, [g], pid);
      var acc := Merged(init);
      if acc != [] && Mergeable(acc[|acc| - 1], g) {
        var front, h := acc[..|acc| - 1], acc[|acc| - 1];
        assert acc == front + [h];
        assert MergeInto(acc, g) == front + [Segment(g.pid, h.start, g.end)];
        ServiceConcat(front, [h], pid);
        ServiceConcat(front, [Segment(g.pid, h.start, g.end)], pid);
      } else {
        ServiceConcat(acc, [g], pid);
      }
    }
  }

  /** No two adjacent segments of `g` would be joined by the merge loop. */
  predicate NoMergeable(g: seq<Segment>)
  {
    forall k :: 0 < k < |g| ==> !Mergeable(g[k - 1], g[k])
  }

  /** After the merge loop no two adjacent segments are contiguous segments of
      one process. */
  lemma {:induction false} MergedNoMergeable(r: seq<Segment>)
    ensures NoMergeable(Merged(r))
  {
    if r != [] {
      var init, g := r[..|r| - 1], r[|r| - 1];
      MergedNoMergeable(init);
      var acc := Merged(init);
      var m := MergeInto(acc, g);
      if acc != [] && Mergeable(acc[|acc| - 1], g) {
        forall k | 0 < k < |m| ensures !Mergeable(m[k - 1], m[k]) {
          assert m[k - 1] == acc[k - 1];
          if k < |m| - 1 {
            assert m[k] == acc[k];
          }
        }
      } else {
        forall k | 0 < k < |m| ensures !Mergeable(m[k - 1], m[k]) {
          if k < |acc| {
            assert m[k - 1] == acc[k - 1] && m[k] == acc[k];
          }
        }
      }
    }
  }

  /** The merge loop leaves a list without contiguous same-process neighbours as it is. */
  lemma {:induction false} MergedIdentity(r: seq<Segment>)
    requires NoMergeable(r)
    ensures Merged(r) == r
  {
    if r != [] {
      var init, g := r[..|r| - 1], r[|r| - 1];
      assert NoMergeable(init) by {
        forall k | 0 < k < |init| ensures !Mergeable(init[k - 1], init[k]) {
          assert init[k - 1] == r[k - 1] && init[k] == r[k];
        }
      }
      MergedIdentity(init);
      if init != [] {
        assert !Mergeable(r[|r| - 2], r[|r| - 1]);
      }
      assert init + [g] == r;
    }
  }

  /** Every entry of `result` has its end set. */
  predicate AllClosed(r: seq<Entry>)
  {
    forall k :: 0 <= k < |r| ==> r[k].end.Some?
  }

  /** Adjacent segments belong to different processes. */
  predicate Alternating(g: seq<Segment>)
  {
    forall k :: 0 < k < |g| ==> g[k - 1].pid != g[k].pid
  }

  /** Number of records owed no more time; `completed` counts them under unique pids. */
  function Done(s: seq<Process>, rem: map<int, int>): nat
  {
    if s == [] then 0 else (if Get(rem, s[0].pid) <= 0 then 1 else 0) + Done(s[1..], rem)
  }

  lemma {:induction false} DoneOther(s: seq<Process>, rem: map<int, int>, pid: int, v: int)
    requires forall k :: 0 <= k < |s| ==> s[k].pid != pid
    ensures Done(s, rem[pid := v]) == Done(s, rem)
  {
    if s != [] {
      assert forall k :: 0 <= k < |s[1..]| ==> s[1..][k] == s[k + 1];
      DoneOther(s[1..], rem, pid, v);
    }
  }

  /** Finishing an unfinished record adds one to the count, anything else keeps it. */
  lemma {:induction false} DoneUpdate(s: seq<Process>, rem: map<int, int>, i: nat, v: int)
    requires UniquePids(s) && i < |s| && Get(rem, s[i].pid) > 0
    ensures Done(s, rem[s[i].pid := v]) == Done(s, rem) + (if v <= 0 then 1 else 0)
  {
    assert forall k :: 0 <= k < |s[1..]| ==> s[1..][k] == s[k + 1];
    if i == 0 {
      DoneOther(s[1..], rem, s[0].pid, v);
    } else {
      assert s[0].pid != s[i].pid;
      DoneUpdate(s[1..], rem, i - 1, v);
    }
  }

  /** The count is at most the number of records, and reaches it only when every
      record is finished. */
  lemma {:induction false} DoneFull(s: seq<Process>, rem: map<int, int>)
    ensures Done(s, rem) <= |s|
    ensures Done(s, rem) == |s| ==> forall k :: 0 <= k < |s| ==> Get(rem, s[k].pid) <= 0
  {
    if s != [] {
      DoneFull(s[1..], rem);
      assert forall k :: 0 < k < |s| ==> s[k] == s[1..][k - 1];
    }
  }

  lemma {:induction false} DoneNone(s: seq<Process>, rem: map<int, int>)
    requires forall k :: 0 <= k < |s| ==> Get(rem, s[k].pid) > 0
    ensures Done(s, rem) == 0
  {
    if s != [] {
      assert forall k :: 0 <= k < |s[1..]| ==> s[1..][k] == s[k + 1];
      DoneNone(s[1..], rem);
    }
  }

  /** The segments so far: non-empty, in time order, not past the clock, of
      processes that had arrived by their start, and alternating between
      processes. */
  predicate Timeline(s: seq<Process>, g: seq<Segment>, time: int)
  {
    && Ordered(g) && NonEmptySegments(g) && Alternating(g)
    && (g != [] ==> g[|g| - 1].end <= time)
    && forall k :: 0 <= k < |g| ==> Arrived(s, g[k].pid, g[k].start)
  }

  /** Each record has received its burst less what it is still owed. */
  predicate Owed(s: seq<Process>, g: seq<Segment>, rem: map<int, int>)
  {
    forall p :: p in s ==> 0 <= Get(rem, p.pid) && Service(g, p.pid) + Get(rem, p.pid) == p.burst
  }

  /** The entry of a running process is the last one and ends now, and its
      process has arrived and is owed time; after a completion, the last
      entry's process is finished. */
  predicate Running(s: seq<Process>, st: SrtfState)
  {
    var r := st.result;
    && (st.last.Some? ==>
          && r != [] && r[|r| - 1].pid == st.last.value && r[|r| - 1].end == Some(st.time)
          && Arrived(s, st.last.value, st.time) && Get(st.rem, st.last.value) > 0)
    && (st.last.None? && r != [] ==> Get(st.rem, r[|r| - 1].pid) <= 0)
  }

  /** The invariant of the main loop, for a pid-unique list, with the entries
      so far read as the fix-up loop would close them: every entry is closed,
      they form a `Timeline`, the running process is tracked, each record is
      `Owed` the rest of its burst, and `completed` counts the finished records. */
  ghost predicate SrtfInv(s: seq<Process>, st: SrtfState)
  {
    && UniquePids(s)
    && AllClosed(st.result)
    && Timeline(s, FillEnds(st.result, st.time), st.time)
    && Running(s, st)
    && Owed(s, FillEnds(st.result, st.time), st.rem)
    && st.completed == Done(s, st.rem)
  }

  /** Running the last segment's process on keeps the timeline. */
  lemma TimelineExtend(s: seq<Process>, init: seq<Segment>, pid: int, a: int, time: int, time': int)
    requires Timeline(s, init + [Segment(pid, a, time)], time) && time < time'
    ensures Timeline(s, init + [Segment(pid, a, time')], time')
  {
    var g, g' := init + [Segment(pid, a, time)], init + [Segment(pid, a, time')];
    forall k | 0 <= k < |g'| ensures g'[k].pid == g[k].pid && g'[k].start == g[k].start && g'[k].start < g'[k].end {
      if k < |init| {
        assert g'[k] == g[k];
      }
    }
    forall k | 0 < k < |g'| ensures g'[k - 1].end <= g'[k].start {
      assert g'[k - 1] == g[k - 1];
    }
  }

  /** Running a process other than the last segment's from now on keeps the timeline. */
  lemma TimelineAppend(s: seq<Process>, g: seq<Segment>, pid: int, time: int, time': int)
    requires Timeline(s, g, time) && time < time' && Arrived(s, pid, time)
    requires g != [] ==> g[|g| - 1].pid != pid
    ensures Timeline(s, g + [Segment(pid, time, time')], time')
  {
    var g' := g + [Segment(pid, time, time')];
    forall k | 0 <= k < |g'| ensures g'[k].start < g'[k].end && Arrived(s, g'[k].pid, g'[k].start) {
      if k < |g| {
        assert g'[k] == g[k];
      }
    }
    forall k | 0 < k < |g'| ensures g'[k - 1].end <= g'[k].start && g'[k - 1].pid != g'[k].pid {
      if k < |g| {
        assert g'[k - 1] == g[k - 1] && g'[k] == g[k];
      }
    }
  }

  /** Extending the last segment of `pid` to `time'` takes the extra time off
      what it is owed. */
  lemma OwedExtend(s: seq<Process>, init: seq<Segment>, pid: int, a: int, time: int, time': int,
                   rem: map<int, int>)
    requires Owed(s, init + [Segment(pid, a, time)], rem) && 0 <= Get(rem, pid) - (time' - time)
    ensures Owed(s, init + [Segment(pid, a, time')], rem[pid := Get(rem, pid) - (time' - time)])
  {
    forall p | p in s
      ensures Service(init + [Segment(pid, a, time')], p.pid)
        == Service(init + [Segment(pid, a, time)], p.pid) + (if p.pid == pid then time' - time else 0)
    {
      ServiceConcat(init, [Segment(pid, a, time)], p.pid);
      ServiceConcat(init, [Segment(pid, a, time')], p.pid);
    }
  }

  /** Appending a segment of `pid` from `time` to `time'` takes its length off
      what it is owed. */
  lemma OwedAppend(s: seq<Process>, g: seq<Segment>, pid: int, time: int, time': int, rem: map<int, int>)
    requires Owed(s, g, rem) && 0 <= Get(rem, pid) - (time' - time)
    ensures Owed(s, g + [Segment(pid, time, time')], rem[pid := Get(rem, pid) - (time' - time)])
  {
    forall p | p in s
      ensures Service(g + [Segment(pid, time, time')], p.pid) == Service(g, p.pid) + (if p.pid == pid then time' - time else 0)
    {
      ServiceConcat(g, [Segment(pid, time, time')], p.pid);
    }
  }

  /** The loop starts in a state satisfying the invariant. */
  lemma InvStart(ps: seq<Process>)
    requires ValidProcesses(ps) && ps != []
    ensures SrtfInv(SortedByArrival(ps), Start(SortedByArrival(ps)))
  {
    var s := SortedByArrival(ps);
    SortedValid(ps);
    RemInitValue(s);
    forall k | 0 <= k < |s| ensures Get(RemInit(s), s[k].pid) > 0 {
      assert s[k] in s;
      PositiveIn(s, s[k]);
    }
    DoneNone(s, RemInit(s));
    forall p | p in s ensures 0 <= Get(RemInit(s), p.pid) == p.burst {
      PositiveIn(s, p);
    }
  }

  /** Closed entries ignore the time the fix-up loop would use. */
  lemma FillEndsSame(r: seq<Entry>, t: int, t': int)
    requires AllClosed(r)
    ensures FillEnds(r, t) == FillEnds(r, t')
  {
  }

  /** Closing the last entry at `t'` sets the end of the last segment the
      fix-up loop would produce. */
  lemma FillEndsClose(r: seq<Entry>, t: int, t': int)
    requires AllClosed(r) && r != []
    ensures var g, n := FillEnds(r, t), |r| - 1;
      && g == g[..n] + [Segment(r[n].pid, r[n].start, r[n].end.value)]
      && FillEnds(Close(r, t'), t') == g[..n] + [Segment(r[n].pid, r[n].start, t')]
  {
  }

  /** Appending a closed entry appends its segment. */
  lemma FillEndsSnoc(r: seq<Entry>, e: Entry, t: int, t': int)
    requires AllClosed(r) && e.end.Some?
    ensures FillEnds(r + [e], t') == FillEnds(r, t) + [Segment(e.pid, e.start, e.end.value)]
  {
  }

  /** A running process has a candidate record, so the loop never jumps while
      a process runs. */
  lemma LastReady(s: seq<Process>, st: SrtfState)
    requires SrtfInv(s, st)
    ensures st.last.Some? ==> Pick(s, st.rem, st.time, |s|).Some?
  {
    if st.last.Some? {
      assert Arrived(s, st.last.value, st.time);
      var p :| p in s && p.pid == st.last.value && p.arrival <= st.time;
      var k :| 0 <= k < |s| && s[k] == p;
      assert Ready(s, st.rem, st.time, k);
      PickMin(s, st.rem, st.time, |s|);
    }
  }

  /** A jump to the next arrival keeps the invariant. */
  lemma InvJump(s: seq<Process>, st: SrtfState, t: int)
    requires SrtfInv(s, st) && Pick(s, st.rem, st.time, |s|).None?
    requires NextArrival(s, st.rem, st.time, |s|) == Some(t)
    ensures SrtfInv(s, st.(time := t))
  {
    LastReady(s, st);
    NextArrivalMin(s, st.rem, st.time, |s|);
    var k :| 0 <= k < |s| && Pending(s, st.rem, st.time, k) && s[k].arrival == t;
    FillEndsSame(st.result, st.time, t);
  }

  /** A pass that runs `pid` from `st` and ends in `next`: it runs for a
      positive time no longer than it is owed and finishes or stays the running
      process; its entry is extended when it was already running and appended
      otherwise. */
  predicate Ran(st: SrtfState, pid: int, next: SrtfState)
  {
    var rest := Get(st.rem, pid) - (next.time - st.time);
    && st.time < next.time && 0 <= rest
    && next.rem == st.rem[pid := rest]
    && next.completed == st.completed + (if rest == 0 then 1 else 0)
    && next.last == (if rest == 0 then None else Some(pid))
    && (st.last == Some(pid) ==> next.result == Close(st.result, next.time))
    && (st.last != Some(pid) ==> next.result == st.result + [Entry(pid, st.time, Some(next.time))])
  }

  /** Running an owed process is such a pass; closing the previous entry on a
      context switch changes nothing, as that entry already ends now. */
  lemma DispatchShape(s: seq<Process>, st: SrtfState, pid: int)
    requires Get(st.rem, pid) > 0
    requires st.last.Some? ==>
      && st.result != [] && st.result[|st.result| - 1].pid == st.last.value
      && st.result[|st.result| - 1].end == Some(st.time)
    ensures Ran(st, pid, Dispatched(s, st, pid))
  {
    RunLength(s, st, pid);
    var r := st.result;
    if st.last.Some? && st.last.value != pid && r[|r| - 1].pid == st.last.value {
      assert Close(r, st.time) == r;
    }
  }

  /** After a pass that runs an arrived record, its process is tracked as the
      running one, or as finished. */
  lemma RunningAfter(s: seq<Process>, st: SrtfState, i: nat, next: SrtfState)
    requires i < |s| && s[i].arrival <= st.time && Running(s, st) && Ran(st, s[i].pid, next)
    ensures Running(s, next)
  {
    assert Arrived(s, s[i].pid, next.time) by {
      assert s[i] in s;
    }
  }

  /** Running the process that was already running keeps the invariant. */
  lemma InvContinue(s: seq<Process>, st: SrtfState, i: nat, next: SrtfState)
    requires SrtfInv(s, st) && i < |s| && Ready(s, st.rem, st.time, i) && st.last == Some(s[i].pid)
    requires Ran(st, s[i].pid, next)
    ensures SrtfInv(s, next)
  {
    var pid := s[i].pid;
    var r, n := st.result, |st.result|;
    var g := FillEnds(r, st.time);
    var init, a := g[..n - 1], r[n - 1].start;
    FillEndsClose(r, st.time, next.time);
    TimelineExtend(s, init, pid, a, st.time, next.time);
    OwedExtend(s, init, pid, a, st.time, next.time, st.rem);
    DoneUpdate(s, st.rem, i, Get(st.rem, pid) - (next.time - st.time));
    RunningAfter(s, st, i, next);
  }

  /** Running a process other than the last one to run keeps the invariant. */
  lemma InvSwitch(s: seq<Process>, st: SrtfState, i: nat, next: SrtfState)
    requires SrtfInv(s, st) && i < |s| && Ready(s, st.rem, st.time, i) && st.last != Some(s[i].pid)
    requires Ran(st, s[i].pid, next)
    ensures SrtfInv(s, next)
  {
    var pid := s[i].pid;
    var r := st.result;
    var g := FillEnds(r, st.time);
    FillEndsSnoc(r, Entry(pid, st.time, Some(next.time)), st.time, next.time);
    assert Arrived(s, pid, st.time) by {
      assert s[i] in s;
    }
    if g != [] {
      assert g[|g| - 1].pid != pid;
    }
    TimelineAppend(s, g, pid, st.time, next.time);
    OwedAppend(s, g, pid, st.time, next.time, st.rem);
    DoneUpdate(s, st.rem, i, Get(st.rem, pid) - (next.time - st.time));
    RunningAfter(s, st, i, next);
  }

  /** One pass from a state satisfying the invariant: the loop stops only when
      every record is finished, and otherwise keeps the invariant. */
  lemma SrtfStepInv(s: seq<Process>, st: SrtfState)
    requires SrtfInv(s, st)
    ensures var r := Step(s, st);
      && (r.Stop? ==> forall p :: p in s ==> Get(st.rem, p.pid) == 0)
      && (r.Next? ==> SrtfInv(s, r.next))
  {
    if st.completed >= |s| {
      DoneFull(s, st.rem);
      forall p | p in s ensures Get(st.rem, p.pid) == 0 {
        var k :| 0 <= k < |s| && s[k] == p;
      }
    } else {
      PickMin(s, st.rem, st.time, |s|);
      match Pick(s, st.rem, st.time, |s|)
      case None =>
        NextArrivalMin(s, st.rem, st.time, |s|);
        match NextArrival(s, st.rem, st.time, |s|) {
          case None =>
            forall p | p in s ensures Get(st.rem, p.pid) == 0 {
              var k :| 0 <= k < |s| && s[k] == p;
              assert !Ready(s, st.rem, st.time, k) && !Pending(s, st.rem, st.time, k);
            }
          case Some(t) =>
            InvJump(s, st, t);
        }
      case Some(i) =>
        DispatchShape(s, st, s[i].pid);
        if st.last == Some(s[i].pid) {
          InvContinue(s, st, i, Dispatched(s, st, s[i].pid));
        } else {
          InvSwitch(s, st, i, Dispatched(s, st, s[i].pid));
        }
    }
  }

  /** From a state satisfying the invariant, the loop ends in a state that
      satisfies it with every record finished. */
  lemma SrtfRunInv(s: seq<Process>, st: SrtfState)
    requires SrtfInv(s, st)
    ensures SrtfInv(s, Run(s, st)) && forall p :: p in s ==> Get(Run(s, st).rem, p.pid) == 0
    decreases Work(s, st.rem), Phase(s, st)
  {
    StepProgress(s, st);
    SrtfStepInv(s, st);
    match Step(s, st)
    case Stop =>
    case Next(next) =>
      SrtfRunInv(s, next);
  }

  /** For a valid process list, the main loop leaves no entry open, and its
      entries form an ordered schedule of non-empty segments alternating
      between processes that serves each process exactly its burst, never
      before it arrives. */
  lemma SrtfFinal(ps: seq<Process>)
    requires ValidProcesses(ps) && ps != []
    ensures var s := SortedByArrival(ps); var fin := Run(s, Start(s)); var g := FillEnds(fin.result, fin.time);
      AllClosed(fin.result) && ValidSchedule(g, ps) && Alternating(g)
  {
    var s := SortedByArrival(ps);
    var fin := Run(s, Start(s));
    InvStart(ps);
    SrtfRunInv(s, Start(s));
    FinalSchedule(s, fin);
    SortedByArrivalProperties(ps);
    SameRecords(FillEnds(fin.result, fin.time), s, ps);
  }

  /** A final state satisfying the invariant with every record finished holds a
      valid schedule. */
  lemma FinalSchedule(s: seq<Process>, fin: SrtfState)
    requires SrtfInv(s, fin) && forall p :: p in s ==> Get(fin.rem, p.pid) == 0
    ensures ValidSchedule(FillEnds(fin.result, fin.time), s)
  {
    ArrivedSegments(FillEnds(fin.result, fin.time), s);
  }

  /** For a valid process list, the fix-up loop finds every entry closed and the
      merge loop finds nothing to merge: `srtf` returns the entries of the main
      loop as they are. */
  lemma SrtfCleanupNoop(ps: seq<Process>)
    requires ValidProcesses(ps) && ps != []
    ensures var s := SortedByArrival(ps); var fin := Run(s, Start(s));
      AllClosed(fin.result) && SrtfSchedule(ps) == FillEnds(fin.result, fin.time)
  {
    SrtfFinal(ps);
    var s := SortedByArrival(ps);
    var fin := Run(s, Start(s));
    MergedIdentity(FillEnds(fin.result, fin.time));
  }

  /** For a valid process list, `srtf` returns an ordered schedule of non-empty
      segments that serves each process exactly its burst, never before it
      arrives, with no two adjacent segments that the merge loop could join. */
  lemma SrtfValid(ps: seq<Process>)
    requires ValidProcesses(ps)
    ensures ValidSchedule(SrtfSchedule(ps), ps) && NoMergeable(SrtfSchedule(ps))
  {
    if ps != [] {
      SrtfFinal(ps);
      SrtfCleanupNoop(ps);
    }
  }
}
