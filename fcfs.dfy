/** First-Come-First-Served: sort the processes by arrival and run each one to
    completion in that order. */
module Fcfs {
  import opened Processes
  import opened ArrivalSort

  /** Runs the records of `s` in their order, the CPU free from time `t` on:
      each starts at `max(t, arrival)` and runs its whole burst. */
  function FcfsFrom(s: seq<Process>, t: int): seq<Segment>
  {
    if s == [] then []
    else
      var start := Max(t, s[0].arrival);
      [Segment(s[0].pid, start, start + s[0].burst)] + FcfsFrom(s[1..], start + s[0].burst)
  }

  /** The schedule `fcfs` returns for the process list `ps`. */
  function FcfsSchedule(ps: seq<Process>): seq<Segment>
  {
    FcfsFrom(SortedByArrival(ps), 0)
  }

  /** `fcfs(processes)`: sorts the caller's list in place, then dispatches it in order. */
  method Fcfs(procs: array<Process>) returns (result: seq<Segment>)
    modifies procs
    ensures procs[..] == SortedByArrival(old(procs[..]))
    ensures result == FcfsSchedule(old(procs[..]))
  {
    SortByArrival(procs);
    result := Dispatch(procs);
  }

  /** The loop of `fcfs` over the sorted list: each process starts once the CPU is
      free and it has arrived, and runs its whole burst. */
  method Dispatch(procs: array<Process>) returns (result: seq<Segment>)
    ensures result == FcfsFrom(procs[..], 0)
  {
    var startTime := 0;
    result := [];
    for i := 0 to procs.Length
      invariant result + FcfsFrom(procs[i..], startTime) == FcfsFrom(procs[..], 0)
    {
      var p := procs[i];
      assert procs[i..] == [p] + procs[i + 1..];
      startTime := Max(startTime, p.arrival);
      result := result + [Segment(p.pid, startTime, startTime + p.burst)];
      startTime := startTime + p.burst;
    }
    assert procs[procs.Length..] == [];
  }

  /** One segment per record, in the order of `s`, each lasting exactly its burst;
      segment `i` starts at `max(end of segment i - 1, arrival)`, the first one at
      `max(t, arrival)`. */
  lemma {:induction false} FcfsFromShape(s: seq<Process>, t: int)
    ensures |FcfsFrom(s, t)| == |s|
    ensures forall i :: 0 <= i < |s| ==> FcfsFrom(s, t)[i].pid == s[i].pid
    ensures forall i :: 0 <= i < |s| ==> FcfsFrom(s, t)[i].end - FcfsFrom(s, t)[i].start == s[i].burst
    ensures s != [] ==> FcfsFrom(s, t)[0].start == Max(t, s[0].arrival)
    ensures forall i :: 0 < i < |s| ==> FcfsFrom(s, t)[i].start == Max(FcfsFrom(s, t)[i - 1].end, s[i].arrival)
  {
    if s != [] {
      var start := Max(t, s[0].arrival);
      var rest := FcfsFrom(s[1..], start + s[0].burst);
      FcfsFromShape(s[1..], start + s[0].burst);
      var r := FcfsFrom(s, t);
      assert r == [Segment(s[0].pid, start, start + s[0].burst)] + rest;
      forall i | 0 < i < |s|
        ensures r[i] == rest[i - 1] && s[i] == s[1..][i - 1]
      {
      }
    }
  }

  /** A schedule that lists the records of `s` one segment each, in order,
      gives every process exactly its burst. */
  lemma {:induction false} AlignedService(r: seq<Segment>, s: seq<Process>)
    requires |r| == |s| && UniquePids(s)
    requires forall i :: 0 <= i < |s| ==> r[i].pid == s[i].pid && r[i].end - r[i].start == s[i].burst
    ensures forall i :: 0 <= i < |s| ==> Service(r, s[i].pid) == s[i].burst && Count(r, s[i].pid) == 1
  {
    if s != [] {
      AlignedService(r[1..], s[1..]);
      forall i | 0 <= i < |s| ensures Service(r, s[i].pid) == s[i].burst && Count(r, s[i].pid) == 1 {
        if i == 0 {
          assert r[1..] == r[1..];
          assert s[0].pid !in SegmentPids(r[1..]) by {
            forall g | g in r[1..] ensures g.pid != s[0].pid {
              var k :| 0 <= k < |r[1..]| && r[1..][k] == g;
              assert s[k + 1].pid == g.pid;
            }
          }
          ServiceAbsent(r[1..], s[0].pid);
        } else {
          assert s[1..][i - 1] == s[i];
        }
      }
    }
  }

  /** For valid input, FCFS emits exactly one segment per process, in arrival order,
      and the schedule is ordered, non-overlapping, never early, and serves each burst. */
  lemma FcfsScheduleValid(ps: seq<Process>)
    requires ValidProcesses(ps)
    ensures ValidSchedule(FcfsSchedule(ps), ps)
    ensures |FcfsSchedule(ps)| == |ps|
    ensures forall i :: 0 <= i < |ps| ==> FcfsSchedule(ps)[i].pid == SortedByArrival(ps)[i].pid
    ensures forall p :: p in ps ==> Count(FcfsSchedule(ps), p.pid) == 1
  {
    var s := SortedByArrival(ps);
    SortedByArrivalProperties(ps);
    SortedValid(ps);
    FcfsValidSorted(s);
    SameRecords(FcfsSchedule(ps), s, ps);
    forall p | p in ps ensures p in s {
      assert p in multiset(ps);
    }
  }

  lemma FcfsValidSorted(s: seq<Process>)
    requires ValidProcesses(s)
    ensures ValidSchedule(FcfsFrom(s, 0), s)
    ensures |FcfsFrom(s, 0)| == |s|
    ensures forall i :: 0 <= i < |s| ==> FcfsFrom(s, 0)[i].pid == s[i].pid
    ensures forall p :: p in s ==> Count(FcfsFrom(s, 0), p.pid) == 1
  {
    var r := FcfsFrom(s, 0);
    FcfsFromShape(s, 0);
    AlignedService(r, s);
    forall k | 0 <= k < |r| ensures r[k].start >= s[k].arrival {
      if k > 0 {
        assert r[k].start == Max(r[k - 1].end, s[k].arrival);
      }
    }
    forall k, p | 0 <= k < |r| && p in s && p.pid == r[k].pid ensures p.arrival <= r[k].start {
      var i :| 0 <= i < |s| && s[i] == p;
      assert i == k;
    }
    forall k | 0 <= k < |r| ensures r[k].pid in PidSet(s) {
      assert s[k] in s;
    }
  }
}
