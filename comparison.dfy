/** The best-algorithm selector of the comparison window: for each of the
    four summary metrics, the algorithm with the lowest waiting or
    turnaround time, or the highest CPU utilisation or throughput. */
module Comparison {
  import opened Processes

  /** One entry of `comparison_results`, in the dictionary's iteration
      order: the algorithm's name and its `summary`, which may be `None`. */
  datatype Entry = Entry(algo: string, summary: Option<map<string, real>>)

  /** The metrics, in the order the selector visits them. */
  const Metrics: seq<string> := ["avg_waiting_time", "avg_turnaround_time", "cpu_utilization", "throughput"]

  /** The metrics for which a lower value is better. */
  const LowerIsBetter: seq<string> := ["avg_waiting_time", "avg_turnaround_time"]

  /** `if data["summary"]`: a summary is falsy when it is `None` or empty. */
  predicate Truthy(summary: Option<map<string, real>>)
  {
    summary.Some? && summary.value != map[]
  }

  /** The entry takes part in the choice for `metric`. */
  predicate Qualifies(e: Entry, metric: string)
  {
    Truthy(e.summary) && metric in e.summary.value
  }

  function ValueOf(e: Entry, metric: string): real
    requires Qualifies(e, metric)
  {
    e.summary.value[metric]
  }

  /** `is_better` once a best value exists: strictly lower for the two
      times, strictly higher otherwise. */
  predicate Better(metric: string, value: real, bestValue: real)
  {
    if metric in LowerIsBetter then value < bestValue else value > bestValue
  }

  /** The index of the entry the inner loop ends on after `results`: the
      last entry that was better than the best so far. */
  function Pick(results: seq<Entry>, metric: string): (i: Option<nat>)
    ensures i.Some? ==> i.value < |results| && Qualifies(results[i.value], metric)
  {
    if results == [] then None
    else
      var n := |results| - 1;
      var prev := Pick(results[..n], metric);
      if Qualifies(results[n], metric)
         && (prev.None? || Better(metric, ValueOf(results[n], metric), ValueOf(results[prev.value], metric)))
      then Some(n)
      else prev
  }

  /** `best[metric]`: the chosen algorithm's name, or `None`. */
  function BestAlgo(results: seq<Entry>, metric: string): Option<string>
  {
    match Pick(results, metric)
    case None => None
    case Some(i) => Some(results[i].algo)
  }

  /** The inner loop, for one metric. */
  method BestFor(results: seq<Entry>, metric: string) returns (bestAlgo: Option<string>)
    ensures bestAlgo == BestAlgo(results, metric)
  {
    var bestValue: Option<real> := None;
    bestAlgo := None;
    for j := 0 to |results|
      invariant Pick(results[..j], metric).None? ==> bestValue.None? && bestAlgo.None?
      invariant Pick(results[..j], metric).Some? ==>
        var i := Pick(results[..j], metric).value;
        bestValue == Some(ValueOf(results[i], metric)) && bestAlgo == Some(results[i].algo)
    {
      assert results[..j + 1][..j] == results[..j];
      var data := results[j];
      if Truthy(data.summary) && metric in data.summary.value {
        var value := data.summary.value[metric];
        var isBetter := false;
        if bestValue.None? {
          isBetter := true;
        } else if metric in LowerIsBetter {
          isBetter := value < bestValue.value;
        } else {
          isBetter := value > bestValue.value;
        }
        if isBetter {
          bestValue := Some(value);
          bestAlgo := Some(data.algo);
        }
      }
    }
    assert results[..|results|] == results;
  }

  /** `find_best_algorithms`: one entry per metric. */
  method FindBestAlgorithms(results: seq<Entry>) returns (best: map<string, Option<string>>)
    ensures forall metric :: metric in best <==> metric in Metrics
    ensures forall metric :: metric in Metrics ==> best[metric] == BestAlgo(results, metric)
  {
    best := map[];
    for m := 0 to |Metrics|
      invariant forall metric :: metric in best <==> metric in Metrics[..m]
      invariant forall k :: 0 <= k < m ==> best[Metrics[k]] == BestAlgo(results, Metrics[k])
    {
      var metric := Metrics[m];
      var bestAlgo := BestFor(results, metric);
      best := best[metric := bestAlgo];
    }
  }

  /** A metric maps to `None` exactly when no entry qualifies for it. */
  lemma {:induction false} PickNone(results: seq<Entry>, metric: string)
    ensures Pick(results, metric).None? <==> forall k :: 0 <= k < |results| ==> !Qualifies(results[k], metric)
  {
    if results != [] {
      var n := |results| - 1;
      PickNone(results[..n], metric);
      if !Qualifies(results[n], metric) && Pick(results[..n], metric).None? {
        forall k | 0 <= k < |results|
          ensures !Qualifies(results[k], metric)
        {
          if k < n {
            assert results[..n][k] == results[k];
          }
        }
      }
    }
  }

  /** The chosen entry is a minimum for the two times and a maximum for the
      other two metrics, and every earlier qualifying entry has a different
      value: among equal values the first one wins. */
  lemma {:induction false} PickExtremal(results: seq<Entry>, metric: string)
    requires Pick(results, metric).Some?
    ensures var i := Pick(results, metric).value;
      (metric in LowerIsBetter ==>
         forall k :: 0 <= k < |results| && Qualifies(results[k], metric) ==>
           ValueOf(results[i], metric) <= ValueOf(results[k], metric))
      && (metric !in LowerIsBetter ==>
            forall k :: 0 <= k < |results| && Qualifies(results[k], metric) ==>
              ValueOf(results[i], metric) >= ValueOf(results[k], metric))
      && forall k :: 0 <= k < i && Qualifies(results[k], metric) ==>
           ValueOf(results[k], metric) != ValueOf(results[i], metric)
  {
    var n := |results| - 1;
    var init := results[..n];
    var prev := Pick(init, metric);
    if prev.Some? {
      PickExtremal(init, metric);
    } else {
      PickNone(init, metric);
    }
    forall k | 0 <= k < n
      ensures init[k] == results[k]
    {
    }
  }

  /** The reference definition: the first entry with the best value. */
  predicate FirstBest(results: seq<Entry>, metric: string, j: nat)
  {
    && j < |results| && Qualifies(results[j], metric)
    && (forall k :: 0 <= k < |results| && Qualifies(results[k], metric) ==>
          !Better(metric, ValueOf(results[k], metric), ValueOf(results[j], metric)))
    && (forall k :: 0 <= k < j && Qualifies(results[k], metric) ==>
          Better(metric, ValueOf(results[j], metric), ValueOf(results[k], metric)))
  }

  /** The selector picks exactly the first entry with the best value. */
  lemma PickIsFirstBest(results: seq<Entry>, metric: string, j: nat)
    ensures FirstBest(results, metric, j) <==> Pick(results, metric) == Some(j)
  {
    if Pick(results, metric).Some? {
      PickExtremal(results, metric);
      var i := Pick(results, metric).value;
      assert FirstBest(results, metric, i);
    } else {
      PickNone(results, metric);
    }
  }

  /** Every name the selector reports belongs to an entry that qualifies. */
  lemma BestAlgoIsInput(results: seq<Entry>, metric: string)
    ensures BestAlgo(results, metric).Some? <==>
      exists k :: 0 <= k < |results| && Qualifies(results[k], metric)
    ensures BestAlgo(results, metric).Some? ==>
      exists k :: 0 <= k < |results| && Qualifies(results[k], metric) && results[k].algo == BestAlgo(results, metric).value
  {
    PickNone(results, metric);
    if Pick(results, metric).Some? {
      var i := Pick(results, metric).value;
      assert Qualifies(results[i], metric) && results[i].algo == BestAlgo(results, metric).value;
    }
  }
}
