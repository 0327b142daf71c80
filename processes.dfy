/** The data model shared by the five schedulers and the metrics calculator:
    process records, execution segments, and the properties every schedule
    is expected to have. */
module Processes {

  datatype Option<T> = None | Some(value: T)

  /** One row of the process table: `{'pid', 'arrival', 'burst', 'priority'}`.
      A lower `priority` value means a more urgent process. */
  datatype Process = Process(pid: int, arrival: int, burst: int, priority: int)

  /** One execution segment `(pid, start, end)` of a schedule. */
  datatype Segment = Segment(pid: int, start: int, end: int)

  function Max(a: int, b: int): int { if a >= b then a else b }

  function Min(a: int, b: int): int { if a <= b then a else b }

  /** No two records share a pid; every dictionary the schedulers build is keyed by pid. */
  predicate UniquePids(ps: seq<Process>)
  {
    forall i, j :: 0 <= i < j < |ps| ==> ps[i].pid != ps[j].pid
  }

  predicate PositiveBursts(ps: seq<Process>)
  {
    forall i :: 0 <= i < |ps| ==> ps[i].burst > 0
  }

  /** The inputs the schedulers are meant for. */
  predicate ValidProcesses(ps: seq<Process>)
  {
    UniquePids(ps) && PositiveBursts(ps)
  }

  /** Sorted by arrival time, as `sort(key=lambda x: x['arrival'])` leaves a list. */
  predicate ArrivalOrdered(s: seq<Process>)
  {
    forall i, j :: 0 <= i < j < |s| ==> s[i].arrival <= s[j].arrival
  }

  function PidSet(ps: seq<Process>): set<int>
  {
    set p | p in ps :: p.pid
  }

  /** The pids that occur in a schedule. */
  function SegmentPids(r: seq<Segment>): set<int>
  {
    set g | g in r :: g.pid
  }

  /** Total CPU time that schedule `r` gives to `pid`. */
  function Service(r: seq<Segment>, pid: int): int
  {
    if r == [] then 0
    else (if r[0].pid == pid then r[0].end - r[0].start else 0) + Service(r[1..], pid)
  }

  /** Number of segments of `r` that belong to `pid`. */
  function Count(r: seq<Segment>, pid: int): nat
  {
    if r == [] then 0
    else (if r[0].pid == pid then 1 else 0) + Count(r[1..], pid)
  }

  /** Each segment ends no later than the next one starts. */
  predicate Ordered(r: seq<Segment>)
  {
    forall k :: 0 < k < |r| ==> r[k - 1].end <= r[k].start
  }

  /** Every segment has `end > start`. */
  predicate NonEmptySegments(r: seq<Segment>)
  {
    forall k :: 0 <= k < |r| ==> r[k].start < r[k].end
  }

  /** Every segment belongs to one of the processes. */
  predicate BelongsTo(r: seq<Segment>, ps: seq<Process>)
  {
    forall k :: 0 <= k < |r| ==> r[k].pid in PidSet(ps)
  }

  /** No segment starts before its process has arrived. */
  predicate StartsAfterArrival(r: seq<Segment>, ps: seq<Process>)
  {
    forall k, p :: 0 <= k < |r| && p in ps && p.pid == r[k].pid ==> p.arrival <= r[k].start
  }

  /** Each process receives exactly its burst of CPU time. */
  predicate ServesBursts(r: seq<Segment>, ps: seq<Process>)
  {
    forall p :: p in ps ==> Service(r, p.pid) == p.burst
  }

  /** What every scheduler promises of its output for a valid process set. */
  predicate ValidSchedule(r: seq<Segment>, ps: seq<Process>)
  {
    Ordered(r) && NonEmptySegments(r) && BelongsTo(r, ps) && StartsAfterArrival(r, ps) && ServesBursts(r, ps)
  }

  lemma {:induction false} ServiceConcat(a: seq<Segment>, b: seq<Segment>, pid: int)
    ensures Service(a + b, pid) == Service(a, pid) + Service(b, pid)
  {
    if a != [] {
      assert (a + b)[1..] == a[1..] + b;
      ServiceConcat(a[1..], b, pid);
    } else {
      assert a + b == b;
    }
  }

  lemma {:induction false} CountConcat(a: seq<Segment>, b: seq<Segment>, pid: int)
    ensures Count(a + b, pid) == Count(a, pid) + Count(b, pid)
  {
    if a != [] {
      assert (a + b)[1..] == a[1..] + b;
      CountConcat(a[1..], b, pid);
    } else {
      assert a + b == b;
    }
  }

  /** A pid that no segment carries gets no CPU time. */
  lemma {:induction false} ServiceAbsent(r: seq<Segment>, pid: int)
    requires pid !in SegmentPids(r)
    ensures Service(r, pid) == 0 && Count(r, pid) == 0
  {
    if r != [] {
      assert r[0] in r;
      assert SegmentPids(r[1..]) <= SegmentPids(r) by {
        forall g | g in r[1..] ensures g in r { }
      }
      ServiceAbsent(r[1..], pid);
    }
  }

  /** In an ordered schedule of non-empty segments, any earlier segment ends
      before any later one starts: the CPU runs one process at a time. */
  lemma {:induction false} OrderedDisjoint(r: seq<Segment>, k: int, l: int)
    requires Ordered(r) && NonEmptySegments(r)
    requires 0 <= k < l < |r|
    ensures r[k].end <= r[l].start
  {
    if k < l - 1 {
      OrderedDisjoint(r, k, l - 1);
    }
  }

  /** Two records of a pid-unique list with the same pid are the same record. */
  lemma SamePid(s: seq<Process>, p: Process, q: Process)
    requires UniquePids(s) && p in s && q in s && p.pid == q.pid
    ensures p == q
  {
  }

  /** The schedule properties depend only on which records are present, not on their order. */
  lemma SameRecords(r: seq<Segment>, ps: seq<Process>, qs: seq<Process>)
    requires multiset(ps) == multiset(qs)
    ensures ValidSchedule(r, ps) <==> ValidSchedule(r, qs)
  {
    forall p ensures p in ps <==> p in qs {
      assert p in ps <==> p in multiset(ps);
      assert p in qs <==> p in multiset(qs);
    }
    assert PidSet(ps) == PidSet(qs);
  }

  /** The admission loop `while next_idx < n and s[next_idx].arrival <= time` takes
      another step: the next record of the sorted list has arrived by `time`. */
  predicate CanAdmit(s: seq<Process>, idx: nat, time: int)
  {
    idx < |s| && s[idx].arrival <= time
  }

  /** The pids of the first `j` segments of `r`: the processes dispatched before segment `j`. */
  function PidsBefore(r: seq<Segment>, j: nat): (pids: set<int>)
    requires j <= |r|
    ensures forall i :: 0 <= i < j ==> r[i].pid in pids
  {
    if j == 0 then {} else {r[0].pid} + PidsBefore(r[1..], j - 1)
  }

  /** Putting the segment of a not-yet-done job `x` in front of a schedule that
      serves every other not-done process once adds the service of `x`. */
  lemma ServicePrepend(s: seq<Process>, x: Process, time: int, tail: seq<Segment>, done: set<int>)
    requires UniquePids(s) && x in s && x.pid !in done
    requires BelongsTo(tail, s)
    requires forall p :: p in s ==>
      Count(tail, p.pid) == (if p.pid in done + {x.pid} then 0 else 1)
      && Service(tail, p.pid) == (if p.pid in done + {x.pid} then 0 else p.burst)
    ensures BelongsTo([Segment(x.pid, time, time + x.burst)] + tail, s)
    ensures forall p :: p in s ==>
      Count([Segment(x.pid, time, time + x.burst)] + tail, p.pid) == (if p.pid in done then 0 else 1)
      && Service([Segment(x.pid, time, time + x.burst)] + tail, p.pid) == (if p.pid in done then 0 else p.burst)
  {
    var head := [Segment(x.pid, time, time + x.burst)];
    forall p | p in s
      ensures Count(head + tail, p.pid) == (if p.pid in done then 0 else 1)
      ensures Service(head + tail, p.pid) == (if p.pid in done then 0 else p.burst)
    {
      CountConcat(head, tail, p.pid);
      ServiceConcat(head, tail, p.pid);
      if p.pid == x.pid {
        SamePid(s, p, x);
      }
    }
    forall j | 0 <= j < |head + tail| ensures (head + tail)[j].pid in PidSet(s) {
      if j > 0 {
        assert (head + tail)[j] == tail[j - 1];
      }
    }
  }

  /** Putting a segment of `len > 0` time units of an arrived job `x`, run from
      `time`, in front of an ordered schedule that starts once it ends keeps the
      timeline properties. */
  lemma TimelinePrepend(s: seq<Process>, x: Process, time: int, len: int, tail: seq<Segment>)
    requires UniquePids(s) && x in s && len > 0 && x.arrival <= time
    requires Ordered(tail) && NonEmptySegments(tail) && StartsAfterArrival(tail, s)
    requires tail != [] ==> tail[0].start >= time + len
    ensures Ordered([Segment(x.pid, time, time + len)] + tail)
    ensures NonEmptySegments([Segment(x.pid, time, time + len)] + tail)
    ensures StartsAfterArrival([Segment(x.pid, time, time + len)] + tail, s)
  {
    var r := [Segment(x.pid, time, time + len)] + tail;
    forall j, p | 0 <= j < |r| && p in s && p.pid == r[j].pid ensures p.arrival <= r[j].start {
      if j == 0 {
        SamePid(s, p, x);
      } else {
        assert r[j] == tail[j - 1];
      }
    }
    forall j | 0 < j < |r| ensures r[j - 1].end <= r[j].start {
      if j > 1 {
        assert r[j - 1] == tail[j - 2] && r[j] == tail[j - 1];
      }
    }
  }

  /** The remaining-time dictionary `{p['pid']: p['burst'] for p in processes}`
      of SRTF and Round Robin: the last record with a given pid sets its entry. */
  function RemInit(s: seq<Process>): (rem: map<int, int>)
    ensures forall p :: p in s ==> p.pid in rem
  {
    if s == [] then map[] else RemInit(s[..|s| - 1])[s[|s| - 1].pid := s[|s| - 1].burst]
  }

  /** The CPU time still owed to `pid`, counting a missing or non-positive entry as none. */
  function Left(rem: map<int, int>, pid: int): nat
  {
    if pid in rem && rem[pid] > 0 then rem[pid] else 0
  }

  /** A lookup in a remaining-time dictionary; the schedulers look up only pids
      of the list, which are always keys, so the default is never used. */
  function Get(rem: map<int, int>, pid: int): int
  {
    if pid in rem then rem[pid] else 0
  }

  /** Under unique pids, the remaining-time dictionary starts at each process's burst. */
  lemma {:induction false} RemInitValue(s: seq<Process>)
    requires UniquePids(s)
    ensures forall p :: p in s ==> RemInit(s)[p.pid] == p.burst
  {
    if s != [] {
      var init, last := s[..|s| - 1], s[|s| - 1];
      assert s == init + [last];
      RemInitValue(init);
      forall p | p in s ensures RemInit(s)[p.pid] == p.burst {
        if p != last {
          assert p in init;
          var m :| 0 <= m < |init| && init[m] == p;
          assert s[m] == p;
        }
      }
    }
  }

  /** A record of a list with positive bursts has a positive burst. */
  lemma PositiveIn(s: seq<Process>, p: Process)
    requires PositiveBursts(s) && p in s
    ensures p.burst > 0
  {
    var m :| 0 <= m < |s| && s[m] == p;
  }

  /** Some record with this pid has arrived by time `t`. */
  predicate Arrived(s: seq<Process>, pid: int, t: int)
  {
    exists p :: p in s && p.pid == pid && p.arrival <= t
  }

  /** Segments whose processes had arrived by their start, under unique pids,
      belong to the list and never start before their process arrives. */
  lemma ArrivedSegments(r: seq<Segment>, s: seq<Process>)
    requires UniquePids(s) && forall k :: 0 <= k < |r| ==> Arrived(s, r[k].pid, r[k].start)
    ensures BelongsTo(r, s) && StartsAfterArrival(r, s)
  {
    forall k | 0 <= k < |r| ensures r[k].pid in PidSet(s) {
      assert Arrived(s, r[k].pid, r[k].start);
      var q :| q in s && q.pid == r[k].pid && q.arrival <= r[k].start;
    }
    forall k, p | 0 <= k < |r| && p in s && p.pid == r[k].pid ensures p.arrival <= r[k].start {
      assert Arrived(s, r[k].pid, r[k].start);
      var q :| q in s && q.pid == r[k].pid && q.arrival <= r[k].start;
      SamePid(s, p, q);
    }
  }
}
