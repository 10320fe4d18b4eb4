// Latency histograms: src/analytics.rs (quantile and bounds), src/metrics_rpc.rs (HistogramAggregate,
// the webhook percentile) and src/store/analytics_store.rs (recording one latency).

module Histogram {
  import opened Numbers

  const INTERACTIVE_BOUNDS: seq<nat> := [5, 10, 25, 50, 100, 250, 500, 1_000, 2_500, 5_000, 10_000]
  const DELIVERY_BOUNDS: seq<nat> := [10, 25, 50, 100, 250, 500, 1_000, 2_500, 5_000, 10_000, 30_000]

  predicate Increasing(bounds: seq<nat>) {
    forall i, j :: 0 <= i < j < |bounds| ==> bounds[i] < bounds[j]
  }

  // ------------------------------------------------------------ what a cumulative histogram means

  function AtMost(latencies: seq<nat>, v: nat): (n: nat)
    ensures n <= |latencies|
  {
    if latencies == [] then 0 else
    AtMost(latencies[..|latencies| - 1], v) + Bit(latencies[|latencies| - 1] <= v)
  }

  // One count per boundary and the +Inf count at the end.
  function Cumulative(bounds: seq<nat>, latencies: seq<nat>): (counts: seq<nat>)
    ensures |counts| == |bounds| + 1
  {
    seq(|bounds| + 1, i requires 0 <= i <= |bounds| =>
      if i < |bounds| then AtMost(latencies, bounds[i]) else |latencies|)
  }

  // Recording one latency, in place.
  method Observe(counts: array<u64>, bounds: seq<nat>, value: nat, ghost latencies: seq<nat>)
    requires |latencies| < U64_MAX
    requires counts[..] == Cumulative(bounds, latencies)
    modifies counts
    ensures counts[..] == Cumulative(bounds, latencies + [value])
  {
    ghost var was := counts[..];
    for i := 0 to |bounds|
      invariant counts.Length == |bounds| + 1
      invariant forall j :: 0 <= j < i ==> counts[j] == was[j] + Bit(value <= bounds[j])
      invariant forall j :: i <= j <= |bounds| ==> counts[j] == was[j]
    {
      if value <= bounds[i] {
        counts[i] := SaturatingAdd(counts[i], 1);
      }
    }
    counts[counts.Length - 1] := SaturatingAdd(counts[counts.Length - 1], 1);
    assert (latencies + [value])[..|latencies|] == latencies;
  }

  function AddColumns(a: seq<nat>, b: seq<nat>): (c: seq<nat>)
    requires |a| == |b|
    ensures |c| == |a|
  {
    seq(|a|, i requires 0 <= i < |a| => a[i] + b[i])
  }

  lemma {:induction false} AtMostOfUnion(a: seq<nat>, b: seq<nat>, v: nat)
    ensures AtMost(a + b, v) == AtMost(a, v) + AtMost(b, v)
  {
    if b == [] {
      assert a + b == a;
    } else {
      assert (a + b)[..|a + b| - 1] == a + b[..|b| - 1];
      AtMostOfUnion(a, b[..|b| - 1], v);
    }
  }

  // Merging histograms is the histogram of all the latencies together.
  lemma MergeIsUnion(bounds: seq<nat>, a: seq<nat>, b: seq<nat>)
    ensures AddColumns(Cumulative(bounds, a), Cumulative(bounds, b)) == Cumulative(bounds, a + b)
  {
    forall i | 0 <= i < |bounds|
      ensures AtMost(a + b, bounds[i]) == AtMost(a, bounds[i]) + AtMost(b, bounds[i])
    {
      AtMostOfUnion(a, b, bounds[i]);
    }
  }

  // ------------------------------------------------------------ the nearest-rank percentile

  function Insert(x: nat, sorted: seq<nat>): seq<nat> {
    if sorted == [] || x <= sorted[0] then [x] + sorted else [sorted[0]] + Insert(x, sorted[1..])
  }

  function Sorted(xs: seq<nat>): seq<nat> {
    if xs == [] then [] else Insert(xs[|xs| - 1], Sorted(xs[..|xs| - 1]))
  }

  predicate Ascending(xs: seq<nat>) {
    forall i, j :: 0 <= i < j < |xs| ==> xs[i] <= xs[j]
  }

  lemma {:induction false} InsertAbove(x: nat, s: seq<nat>, low: nat)
    requires low <= x && forall i :: 0 <= i < |s| ==> low <= s[i]
    ensures forall i :: 0 <= i < |Insert(x, s)| ==> low <= Insert(x, s)[i]
  {
    if s != [] && x > s[0] {
      InsertAbove(x, s[1..], low);
    }
  }

  lemma {:induction false} InsertSorts(x: nat, s: seq<nat>)
    requires Ascending(s)
    ensures Ascending(Insert(x, s)) && |Insert(x, s)| == |s| + 1
  {
    if s != [] && x > s[0] {
      InsertSorts(x, s[1..]);
      InsertAbove(x, s[1..], s[0]);
    }
  }

  lemma {:induction false} InsertKeeps(x: nat, s: seq<nat>)
    ensures multiset(Insert(x, s)) == multiset(s) + multiset{x}
  {
    if s != [] && x > s[0] {
      InsertKeeps(x, s[1..]);
      assert s == [s[0]] + s[1..];
    }
  }

  lemma {:induction false} SortedSorts(xs: seq<nat>)
    ensures Ascending(Sorted(xs)) && multiset(Sorted(xs)) == multiset(xs) && |Sorted(xs)| == |xs|
  {
    if xs != [] {
      var front := xs[..|xs| - 1];
      SortedSorts(front);
      InsertSorts(xs[|xs| - 1], Sorted(front));
      InsertKeeps(xs[|xs| - 1], Sorted(front));
      assert xs == front + [xs[|xs| - 1]];
    }
  }

  // ceil(n * numerator / denominator)
  function Rank(n: nat, numerator: nat, denominator: nat): nat
    requires denominator > 0
  {
    (n * numerator + denominator - 1) / denominator
  }

  lemma RankInRange(n: nat, numerator: nat, denominator: nat)
    requires 0 < numerator <= denominator && n > 0
    ensures 1 <= Rank(n, numerator, denominator) <= n
  {
    var x := n * numerator + denominator - 1;
    assert n * numerator >= 1 by {
      assert n * numerator >= 1 * numerator;
    }
    assert n * numerator <= n * denominator;
    assert denominator <= x < (n + 1) * denominator;
    DivBounds(x, denominator, n);
  }

  lemma DivBounds(x: nat, d: nat, n: nat)
    requires 0 < d <= x < (n + 1) * d
    ensures 1 <= x / d <= n
  {
    var q := x / d;
    assert x == q * d + x % d;
    assert q > n ==> q * d >= (n + 1) * d;
    assert q < 1 ==> q * d == 0;
  }

  // The value that a fraction of the sample does not exceed.
  function Percentile(latencies: seq<nat>, numerator: nat, denominator: nat): nat
    requires 0 < numerator <= denominator && latencies != []
  {
    RankInRange(|latencies|, numerator, denominator);
    SortedSorts(latencies);
    Sorted(latencies)[Rank(|latencies|, numerator, denominator) - 1]
  }

  lemma {:induction false} AtMostIgnoresOrder(a: seq<nat>, b: seq<nat>, v: nat)
    requires multiset(a) == multiset(b)
    ensures AtMost(a, v) == AtMost(b, v)
  {
    if a == [] {
      assert |multiset(b)| == 0;
    } else {
      var x := a[|a| - 1];
      RemoveAt(a, |a| - 1);
      assert a[..|a| - 1] + a[|a|..] == a[..|a| - 1];
      assert x in multiset(b);
      var i :| 0 <= i < |b| && b[i] == x;
      var left, right := b[..i], b[i + 1..];
      assert b == left + [x] + right;
      RemoveAt(b, i);
      AtMostIgnoresOrder(a[..|a| - 1], left + right, v);
      AtMostOfUnion(left, right, v);
      AtMostOfUnion(left + [x], right, v);
      AtMostOfUnion(left, [x], v);
    }
  }

  lemma {:induction false} AtMostOfPrefix(s: seq<nat>, v: nat, r: nat)
    requires Ascending(s) && 1 <= r <= |s|
    ensures s[r - 1] <= v <==> AtMost(s, v) >= r
  {
    var front := s[..|s| - 1];
    if r < |s| {
      AtMostOfPrefix(front, v, r);
    } else if s[r - 1] <= v {
      AllAtMost(s, v);
    }
  }

  lemma {:induction false} AllAtMost(s: seq<nat>, v: nat)
    requires forall i :: 0 <= i < |s| ==> s[i] <= v
    ensures AtMost(s, v) == |s|
  {
    if s != [] {
      AllAtMost(s[..|s| - 1], v);
    }
  }

  // A bound holds the percentile exactly when enough of the sample lies at or below it.
  lemma PercentileAgainstBound(latencies: seq<nat>, numerator: nat, denominator: nat, v: nat)
    requires 0 < numerator <= denominator && latencies != []
    ensures Percentile(latencies, numerator, denominator) <= v
       <==> AtMost(latencies, v) >= Rank(|latencies|, numerator, denominator)
  {
    RankInRange(|latencies|, numerator, denominator);
    SortedSorts(latencies);
    AtMostOfPrefix(Sorted(latencies), v, Rank(|latencies|, numerator, denominator));
    AtMostIgnoresOrder(Sorted(latencies), latencies, v);
  }

  // ------------------------------------------------------------ the quantile bound of src/analytics.rs

  function Position(counts: seq<nat>, rank: nat): (r: Option<nat>)
    ensures r.None? ==> forall j :: 0 <= j < |counts| ==> counts[j] < rank
    ensures r.Some? ==> r.value < |counts| && counts[r.value] >= rank
                        && forall j :: 0 <= j < r.value ==> counts[j] < rank
  {
    if counts == [] then None
    else if counts[0] >= rank then Some(0)
    else match Position(counts[1..], rank)
      case None => None
      case Some(i) => Some(i + 1)
  }

  function QuantileUpperBound(bounds: seq<nat>, counts: seq<nat>, numerator: nat, denominator: nat): Option<nat> {
    if counts == [] then None
    else
      var count := counts[|counts| - 1];
      if count == 0 || denominator == 0 || numerator == 0 || numerator > denominator then None
      else
        var rank := SaturatingAdd(SaturatingMul(count, numerator), denominator - 1) / denominator;
        match Position(counts, rank)
        case None => None
        case Some(i) => if i < |bounds| then Some(bounds[i]) else None
  }

  // `r` is the bucket edge of `v`: the edge at or above it, with the previous edge below it.
  ghost predicate IsEdgeOf(bounds: seq<nat>, r: Option<nat>, v: nat) {
    match r
    case None => forall i :: 0 <= i < |bounds| ==> bounds[i] < v
    case Some(edge) => exists i :: 0 <= i < |bounds| && bounds[i] == edge && v <= edge
                                   && (i > 0 ==> bounds[i - 1] < v)
  }

  lemma EdgeIsUnique(bounds: seq<nat>, r: Option<nat>, s: Option<nat>, v: nat)
    requires Increasing(bounds) && IsEdgeOf(bounds, r, v) && IsEdgeOf(bounds, s, v)
    ensures r == s
  {
    if r.Some? && s.Some? {
      var i :| 0 <= i < |bounds| && bounds[i] == r.value && v <= r.value && (i > 0 ==> bounds[i - 1] < v);
      var j :| 0 <= j < |bounds| && bounds[j] == s.value && v <= s.value && (j > 0 ==> bounds[j - 1] < v);
    }
  }

  lemma QuantileIsThePercentilesEdge(bounds: seq<nat>, latencies: seq<nat>, numerator: nat, denominator: nat)
    requires Increasing(bounds) && 0 < numerator <= denominator
    requires |latencies| * numerator + denominator - 1 <= U64_MAX
    ensures var r := QuantileUpperBound(bounds, Cumulative(bounds, latencies), numerator, denominator);
            if latencies == [] then r == None else IsEdgeOf(bounds, r, Percentile(latencies, numerator, denominator))
  {
    if latencies != [] {
      var rank := Rank(|latencies|, numerator, denominator);
      var counts := Cumulative(bounds, latencies);
      RankInRange(|latencies|, numerator, denominator);
      forall i | 0 <= i < |bounds|
        ensures Percentile(latencies, numerator, denominator) <= bounds[i] <==> counts[i] >= rank
      {
        PercentileAgainstBound(latencies, numerator, denominator, bounds[i]);
      }
      PositionIsTheEdge(bounds, counts, rank, Percentile(latencies, numerator, denominator));
    }
  }

  lemma PositionIsTheEdge(bounds: seq<nat>, counts: seq<nat>, rank: nat, v: nat)
    requires |counts| == |bounds| + 1 && counts[|bounds|] >= rank
    requires forall i :: 0 <= i < |bounds| ==> (v <= bounds[i] <==> counts[i] >= rank)
    ensures Position(counts, rank).Some?
    ensures var i := Position(counts, rank).value;
            IsEdgeOf(bounds, if i < |bounds| then Some(bounds[i]) else None, v)
  {
    var i := Position(counts, rank).value;
    assert i > 0 ==> counts[i - 1] < rank;
  }

  // ------------------------------------------------------------ HistogramAggregate of src/metrics_rpc.rs

  function LocalP95(count: nat, counts: seq<nat>): Option<nat> {
    if count == 0 then None
    else
      var rank := (SaturatingMul(count, 95) + 99) / 100;
      var visible := counts[..Min(|counts|, |INTERACTIVE_BOUNDS|)];
      match Position(visible, rank)
      case None => None
      case Some(i) => Some(INTERACTIVE_BOUNDS[i])
  }

  class HistogramAggregate {
    var count: u64
    var cumulative: seq<u64>

    ghost predicate Holds(latencies: seq<nat>)
      reads this
    {
      && count == |latencies|
      && (cumulative == Cumulative(INTERACTIVE_BOUNDS, latencies) || (cumulative == [] && latencies == []))
    }

    constructor ()
      ensures Holds([])
    {
      count, cumulative := 0, [];
    }

    // A bucket that carries the histogram of its own latencies.
    method AddBucket(bucketCount: u64, bucketCounts: seq<u64>, ghost mine: seq<nat>, ghost theirs: seq<nat>)
      requires Holds(mine)
      requires bucketCount == |theirs| && bucketCounts == Cumulative(INTERACTIVE_BOUNDS, theirs)
      requires |mine| + |theirs| <= U64_MAX
      modifies this
      ensures Holds(mine + theirs)
    {
      count := SaturatingAdd(count, bucketCount);
      if cumulative == [] {
        cumulative := seq(|INTERACTIVE_BOUNDS| + 1, _ => 0);
      }
      assert cumulative == Cumulative(INTERACTIVE_BOUNDS, mine);
      MergeIsUnion(INTERACTIVE_BOUNDS, mine, theirs);
      ghost var goal := Cumulative(INTERACTIVE_BOUNDS, mine + theirs);
      var i := 0;
      while i < |cumulative|
        invariant 0 <= i <= |cumulative| == |goal| && count == |mine| + |theirs|
        invariant forall j :: 0 <= j < i ==> cumulative[j] == goal[j]
        invariant forall j :: i <= j < |cumulative| ==> cumulative[j] == Cumulative(INTERACTIVE_BOUNDS, mine)[j]
      {
        assert goal[i] == cumulative[i] + bucketCounts[i];
        cumulative := cumulative[i := SaturatingAdd(cumulative[i], bucketCounts[i])];
        i := i + 1;
      }
      assert cumulative == goal;
    }

    function P95(): Option<nat>
      reads this
    {
      LocalP95(count, cumulative)
    }
  }

  lemma InteractiveIncreasing()
    ensures Increasing(INTERACTIVE_BOUNDS) && Increasing(DELIVERY_BOUNDS)
  {
  }

  // Both services give the same edge for the same latencies.
  lemma LocalP95Agrees(latencies: seq<nat>)
    requires |latencies| * 95 + 99 <= U64_MAX
    ensures var counts := Cumulative(INTERACTIVE_BOUNDS, latencies);
            LocalP95(|latencies|, counts) == QuantileUpperBound(INTERACTIVE_BOUNDS, counts, 95, 100)
    ensures latencies != [] ==>
              IsEdgeOf(INTERACTIVE_BOUNDS, LocalP95(|latencies|, Cumulative(INTERACTIVE_BOUNDS, latencies)),
                       Percentile(latencies, 95, 100))
  {
    InteractiveIncreasing();
    QuantileIsThePercentilesEdge(INTERACTIVE_BOUNDS, latencies, 95, 100);
    if latencies != [] {
      var counts := Cumulative(INTERACTIVE_BOUNDS, latencies);
      var rank := Rank(|latencies|, 95, 100);
      RankInRange(|latencies|, 95, 100);
      PositionOfPrefix(counts, |INTERACTIVE_BOUNDS|, rank);
    }
  }

  lemma {:induction false} PositionOfPrefix(counts: seq<nat>, n: nat, rank: nat)
    requires n <= |counts|
    ensures Position(counts[..n], rank)
         == match Position(counts, rank)
            case None => None
            case Some(i) => if i < n then Some(i) else None
  {
    if n > 0 && counts[0] < rank {
      assert counts[..n][1..] == counts[1..][..n - 1];
      PositionOfPrefix(counts[1..], n - 1, rank);
    }
  }

  // The webhook percentile sorts its sample and takes the nearest rank.
  method WebhookP95(latencies: seq<nat>) returns (value: nat)
    requires |latencies| * 95 <= U64_MAX
    ensures latencies == [] ==> value == 0
    ensures latencies != [] ==> value == Percentile(latencies, 95, 100)
  {
    if latencies == [] {
      return 0;
    }
    SortedSorts(latencies);
    RankInRange(|latencies|, 95, 100);
    var rank := (SaturatingMul(|latencies|, 95) + 99) / 100;
    value := Sorted(latencies)[rank - 1];
  }
}
