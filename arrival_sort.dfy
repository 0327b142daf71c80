/** `processes.sort(key=lambda x: x['arrival'])`: a stable sort by arrival time,
    done in place on the list. Every scheduler sorts this way before it starts;
    FCFS sorts the caller's own list, the others sort a copy. */
module ArrivalSort {
  import opened Processes

  /** Places `x` after every element of `s` whose arrival is not later than its own. */
  function Insert(x: Process, s: seq<Process>): (r: seq<Process>)
    ensures |r| == |s| + 1
  {
    if s == [] || s[|s| - 1].arrival <= x.arrival then s + [x]
    else Insert(x, s[..|s| - 1]) + [s[|s| - 1]]
  }

  /** The list a stable sort by arrival produces (insertion sort, left to right). */
  function SortedByArrival(s: seq<Process>): (r: seq<Process>)
    ensures |r| == |s|
  {
    if s == [] then [] else Insert(s[|s| - 1], SortedByArrival(s[..|s| - 1]))
  }

  /** The records of `s` that arrive at time `t`, in their order in `s`. */
  function ArrivingAt(s: seq<Process>, t: int): seq<Process>
  {
    if s == [] then []
    else ArrivingAt(s[..|s| - 1], t) + (if s[|s| - 1].arrival == t then [s[|s| - 1]] else [])
  }

  lemma {:induction false} ArrivingAtConcat(a: seq<Process>, b: seq<Process>, t: int)
    ensures ArrivingAt(a + b, t) == ArrivingAt(a, t) + ArrivingAt(b, t)
  {
    if b == [] {
      assert a + b == a;
    } else {
      assert (a + b)[..|a + b| - 1] == a + b[..|b| - 1];
      ArrivingAtConcat(a, b[..|b| - 1], t);
    }
  }

  lemma {:induction false} InsertPermutes(x: Process, s: seq<Process>)
    ensures multiset(Insert(x, s)) == multiset(s) + multiset{x}
  {
    if !(s == [] || s[|s| - 1].arrival <= x.arrival) {
      var init := s[..|s| - 1];
      assert s == init + [s[|s| - 1]];
      InsertPermutes(x, init);
    }
  }

  lemma {:induction false} InsertOrdered(x: Process, s: seq<Process>)
    requires ArrivalOrdered(s)
    ensures ArrivalOrdered(Insert(x, s))
  {
    if !(s == [] || s[|s| - 1].arrival <= x.arrival) {
      var init, last := s[..|s| - 1], s[|s| - 1];
      assert s == init + [last];
      InsertOrdered(x, init);
      InsertPermutes(x, init);
      var r := Insert(x, init);
      forall i | 0 <= i < |r| ensures r[i].arrival <= last.arrival {
        assert r[i] in multiset(r);
        if r[i] != x {
          assert r[i] in multiset(init);
          var m :| 0 <= m < |init| && init[m] == r[i];
          assert s[m] == r[i];
        }
      }
    }
  }

  lemma {:induction false} InsertStable(x: Process, s: seq<Process>, t: int)
    ensures ArrivingAt(Insert(x, s), t) == ArrivingAt(s, t) + ArrivingAt([x], t)
  {
    assert [x][..0] == [];
    if s == [] || s[|s| - 1].arrival <= x.arrival {
      ArrivingAtConcat(s, [x], t);
    } else {
      var init, last := s[..|s| - 1], s[|s| - 1];
      assert s == init + [last];
      InsertStable(x, init, t);
      ArrivingAtConcat(Insert(x, init), [last], t);
      ArrivingAtConcat(init, [last], t);
      assert [last][..0] == [];
    }
  }

  /** The sort permutes its input, leaves it ordered by arrival, and is stable:
      the records with any one arrival time stay in their input order. */
  lemma {:induction false} SortedByArrivalProperties(s: seq<Process>)
    ensures multiset(SortedByArrival(s)) == multiset(s)
    ensures |SortedByArrival(s)| == |s|
    ensures ArrivalOrdered(SortedByArrival(s))
    ensures forall t :: ArrivingAt(SortedByArrival(s), t) == ArrivingAt(s, t)
  {
    if s != [] {
      var init, last := s[..|s| - 1], s[|s| - 1];
      assert s == init + [last];
      SortedByArrivalProperties(init);
      InsertPermutes(last, SortedByArrival(init));
      InsertOrdered(last, SortedByArrival(init));
      forall t ensures ArrivingAt(SortedByArrival(s), t) == ArrivingAt(s, t) {
        InsertStable(last, SortedByArrival(init), t);
        ArrivingAtConcat(init, [last], t);
      }
      assert |SortedByArrival(s)| == |multiset(SortedByArrival(s))|;
    }
  }

  lemma PidSetOfMultiset(a: seq<Process>, b: seq<Process>)
    requires multiset(a) == multiset(b)
    ensures PidSet(a) == PidSet(b)
  {
    forall p ensures p in a <==> p in b {
      assert p in a <==> p in multiset(a);
      assert p in b <==> p in multiset(b);
    }
  }

  lemma {:induction false} InsertUnique(x: Process, s: seq<Process>)
    requires UniquePids(s) && x.pid !in PidSet(s)
    ensures UniquePids(Insert(x, s))
  {
    if s == [] || s[|s| - 1].arrival <= x.arrival {
      forall i | 0 <= i < |s| ensures s[i].pid != x.pid {
        assert s[i] in s;
      }
    } else {
      var init, last := s[..|s| - 1], s[|s| - 1];
      assert s == init + [last];
      assert PidSet(init) <= PidSet(s) by {
        forall p | p in init ensures p in s { }
      }
      InsertUnique(x, init);
      var r := Insert(x, init);
      InsertPermutes(x, init);
      forall i | 0 <= i < |r| ensures r[i].pid != last.pid {
        assert r[i] in multiset(r);
        if r[i] == x {
          assert last in s;
        } else {
          assert r[i] in multiset(init);
          var m :| 0 <= m < |init| && init[m] == r[i];
          assert s[m] == r[i];
        }
      }
    }
  }

  /** A sorted copy keeps the pid uniqueness and positive bursts of the original. */
  lemma SortedValid(s: seq<Process>)
    requires ValidProcesses(s)
    ensures ValidProcesses(SortedByArrival(s))
  {
    SortedByArrivalProperties(s);
    var r := SortedByArrival(s);
    forall i | 0 <= i < |r| ensures r[i].burst > 0 {
      assert r[i] in multiset(s);
    }
    SortedUnique(s);
  }

  lemma {:induction false} SortedUnique(s: seq<Process>)
    requires UniquePids(s)
    ensures UniquePids(SortedByArrival(s))
  {
    if s != [] {
      var init, last := s[..|s| - 1], s[|s| - 1];
      assert s == init + [last];
      SortedUnique(init);
      SortedByArrivalProperties(init);
      PidSetOfMultiset(init, SortedByArrival(init));
      assert last.pid !in PidSet(init) by {
        forall p | p in init ensures p.pid != last.pid {
          var m :| 0 <= m < |init| && init[m] == p;
          assert s[m] == p;
        }
      }
      InsertUnique(last, SortedByArrival(init));
    }
  }

  /** `Insert` puts `x` just after the last record that arrives no later than `x`. */
  lemma {:induction false} InsertAt(x: Process, sorted: seq<Process>, j: int)
    requires 0 <= j <= |sorted|
    requires j == 0 || sorted[j - 1].arrival <= x.arrival
    requires forall k :: j <= k < |sorted| ==> sorted[k].arrival > x.arrival
    ensures Insert(x, sorted) == sorted[..j] + [x] + sorted[j..]
    decreases |sorted|
  {
    if j == |sorted| {
      assert sorted[..j] == sorted && sorted[j..] == [];
    } else {
      var init := sorted[..|sorted| - 1];
      assert init[..j] == sorted[..j];
      InsertAt(x, init, j);
      assert sorted[j..] == init[j..] + [sorted[|sorted| - 1]];
    }
  }

  /** Moves `a[i]` down into the sorted prefix `a[..i]`, swapping it past every
      record that arrives strictly later. */
  method InsertIntoPrefix(a: array<Process>, i: int)
    requires 0 <= i < a.Length
    modifies a
    ensures a[..i + 1] == Insert(old(a[i]), old(a[..i]))
    ensures forall k :: i < k < a.Length ==> a[k] == old(a[k])
  {
    ghost var sorted := a[..i];
    var x := a[i];
    var j := i;
    while j > 0 && a[j - 1].arrival > a[j].arrival
      invariant 0 <= j <= i
      invariant forall k {:trigger a[k]} :: 0 <= k < j ==> a[k] == sorted[k]
      invariant a[j] == x
      invariant forall k {:trigger a[k]} :: j < k <= i ==> a[k] == sorted[k - 1]
      invariant forall k :: i < k < a.Length ==> a[k] == old(a[k])
      invariant forall k :: j <= k < i ==> sorted[k].arrival > x.arrival
    {
      var earlier := a[j - 1];
      a[j - 1] := x;
      a[j] := earlier;
      j := j - 1;
    }
    InsertAt(x, sorted, j);
    ghost var r := sorted[..j] + [x] + sorted[j..];
    assert |r| == i + 1;
    forall k | 0 <= k <= i ensures a[k] == r[k] {
      if k < j {
        assert r[k] == sorted[k];
      } else if k > j {
        assert r[k] == sorted[k - 1];
      }
    }
    assert a[..i + 1] == r;
  }

  lemma SortedSnoc(s: seq<Process>, i: int)
    requires 0 <= i < |s|
    ensures SortedByArrival(s[..i + 1]) == Insert(s[i], SortedByArrival(s[..i]))
  {
    assert s[..i + 1][..i] == s[..i];
  }

  /** The in-place insertion sort: `a` ends up holding the stable sort of what it held. */
  method SortByArrival(a: array<Process>)
    modifies a
    ensures a[..] == SortedByArrival(old(a[..]))
  {
    ghost var orig := a[..];
    var i := 0;
    while i < a.Length
      invariant 0 <= i <= a.Length
      invariant a[..i] == SortedByArrival(orig[..i])
      invariant forall k :: i <= k < a.Length ==> a[k] == orig[k]
    {
      InsertIntoPrefix(a, i);
      SortedSnoc(orig, i);
      i := i + 1;
    }
    assert orig[..a.Length] == orig;
    assert a[..a.Length] == a[..];
  }
}
