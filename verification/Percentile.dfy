/**
 Round-trip statistics of a workstation's targets: the nearest-rank percentile
 and the summary of the answering samples.  Numbers are exact or not finite;
 rounding is not part of this model.
 */
module Percentile {
  import opened Sorting
  import opened Values

  function FiniteValues(values: seq<Number>): (r: seq<real>)
    ensures |r| <= |values|
  {
    if values == [] then []
    else
      var last := values[|values| - 1];
      FiniteValues(values[..|values| - 1]) + (if last.Finite? then [last.value] else [])
  }

  predicate AtMost(a: real, b: real) { a <= b }

  function Ceil(x: real): (n: int)
    ensures n as real >= x > n as real - 1.0
  {
    -((-x).Floor)
  }

  function Min(a: int, b: int): int { if a <= b then a else b }

  function Max(a: int, b: int): int { if a >= b then a else b }

  function Times(a: real, b: real): real { a * b }

  function CeilRank(fraction: real, n: nat): int { Ceil(Times(fraction, n as real)) }

  // The 1-based rank that a fraction asks for, among `n` values.
  function RankOf(fraction: real, n: nat): (k: nat)
    requires n > 0
    ensures 1 <= k <= n
  {
    Min(n, Max(1, CeilRank(fraction, n)))
  }

  function AtFraction(sorted: seq<real>, fraction: real): real
    requires sorted != []
  {
    if |sorted| == 1 then sorted[0]
    else
      var rank := CeilRank(fraction, |sorted|) - 1;
      sorted[Min(|sorted| - 1, Max(0, rank))]
  }

  function Percentile(values: seq<Number>, fraction: real): Option<real> {
    var sorted := Sort(FiniteValues(values), AtMost);
    if |sorted| == 0 then None else Some(AtFraction(sorted, fraction))
  }

  // ----- Counting -----

  function CountAtMost(values: seq<real>, x: real): nat {
    if values == [] then 0 else CountAtMost(values[1..], x) + (if values[0] <= x then 1 else 0)
  }

  function CountBelow(values: seq<real>, x: real): nat {
    if values == [] then 0 else CountBelow(values[1..], x) + (if values[0] < x then 1 else 0)
  }

  lemma {:induction false} InsertCounts(v: real, values: seq<real>, x: real)
    ensures CountAtMost(Insert(v, values, AtMost), x) == CountAtMost([v] + values, x)
    ensures CountBelow(Insert(v, values, AtMost), x) == CountBelow([v] + values, x)
  {
    assert ([v] + values)[1..] == values;
    if values != [] && !AtMost(v, values[0]) {
      InsertCounts(v, values[1..], x);
      var r := Insert(v, values[1..], AtMost);
      assert ([values[0]] + r)[1..] == r && ([v] + values[1..])[1..] == values[1..];
    }
  }

  lemma {:induction false} SortCounts(values: seq<real>, x: real)
    ensures CountAtMost(Sort(values, AtMost), x) == CountAtMost(values, x)
    ensures CountBelow(Sort(values, AtMost), x) == CountBelow(values, x)
  {
    if values != [] {
      SortCounts(values[1..], x);
      var r := Sort(values[1..], AtMost);
      InsertCounts(values[0], r, x);
      assert ([values[0]] + r)[1..] == r;
    }
  }

  lemma {:induction false} CountsOfSorted(s: seq<real>, i: nat, x: real)
    requires Sorted(s, AtMost) && i < |s|
    ensures x >= s[i] ==> CountAtMost(s, x) >= i + 1
    ensures x <= s[i] ==> CountBelow(s, x) <= i
    decreases |s|
  {
    if i == 0 {
      if x <= s[0] { NoneBelow(s, x); }
    } else {
      CountsOfSorted(s[1..], i - 1, x);
      assert AtMost(s[0], s[i]);
    }
  }

  lemma {:induction false} NoneBelow(s: seq<real>, x: real)
    requires forall k :: 0 <= k < |s| ==> x <= s[k]
    ensures CountBelow(s, x) == 0
  {
    if s != [] { NoneBelow(s[1..], x); }
  }

  // ----- Nearest rank -----

  // The definition: `x` is a sample value of 1-based rank `k`.
  ghost predicate HasRank(values: seq<real>, x: real, k: nat) {
    x in values && CountAtMost(values, x) >= k && CountBelow(values, x) < k
  }

  lemma AtFractionIsRank(sorted: seq<real>, fraction: real)
    requires sorted != []
    ensures AtFraction(sorted, fraction) == sorted[RankOf(fraction, |sorted|) - 1]
  {
  }

  lemma AtMostIsOrder()
    ensures IsTotalPreorder(AtMost)
  {
  }

  lemma SortedByAtMost(values: seq<real>)
    ensures Sorted(Sort(values, AtMost), AtMost)
  {
    AtMostIsOrder();
    SortSorts(values, AtMost);
  }

  lemma {:induction false} CountsAreOrdered(values: seq<real>, x: real, y: real)
    requires x < y
    ensures CountAtMost(values, x) <= CountBelow(values, y)
  {
    if values != [] { CountsAreOrdered(values[1..], x, y); }
  }

  lemma RankInSorted(sorted: seq<real>, k: nat)
    requires Sorted(sorted, AtMost) && 1 <= k <= |sorted|
    ensures HasRank(sorted, sorted[k - 1], k)
  {
    CountsOfSorted(sorted, k - 1, sorted[k - 1]);
  }

  lemma SortKeepsRanks(values: seq<real>, x: real, k: nat)
    ensures HasRank(Sort(values, AtMost), x, k) <==> HasRank(values, x, k)
  {
    SortedMembers(values, AtMost);
    SortCounts(values, x);
  }

  lemma SortedAtHasRank(values: seq<real>, k: nat)
    requires 1 <= k <= |values|
    ensures HasRank(values, Sort(values, AtMost)[k - 1], k)
  {
    SortedByAtMost(values);
    RankInSorted(Sort(values, AtMost), k);
    SortKeepsRanks(values, Sort(values, AtMost)[k - 1], k);
  }

  lemma RankIsUnique(values: seq<real>, x: real, y: real, k: nat)
    requires HasRank(values, x, k) && HasRank(values, y, k)
    ensures x == y
  {
    if x < y { CountsAreOrdered(values, x, y); }
    if y < x { CountsAreOrdered(values, y, x); }
  }

  /**
   The percentile is the value of the rank that the fraction asks for: the one
   sample value with at least `k` values at most it and fewer than `k` below it.
   */
  lemma PercentileIsNearestRank(values: seq<Number>, fraction: real, x: real)
    ensures FiniteValues(values) == [] <==> Percentile(values, fraction) == None
    ensures FiniteValues(values) != [] ==>
              (Percentile(values, fraction) == Some(x)
               <==> HasRank(FiniteValues(values), x, RankOf(fraction, |FiniteValues(values)|)))
  {
    var finite := FiniteValues(values);
    if finite != [] {
      var k := RankOf(fraction, |finite|);
      var p := Sort(finite, AtMost)[k - 1];
      AtFractionIsRank(Sort(finite, AtMost), fraction);
      SortedAtHasRank(finite, k);
      if HasRank(finite, x, k) { RankIsUnique(finite, x, p, k); }
    }
  }

  /** For a fraction in (0, 1] that rank is ⌈fraction · n⌉, unclamped. */
  lemma RankIsCeiling(fraction: real, n: nat)
    requires n > 0
    ensures var rank := RankOf(fraction, n);
      0.0 < fraction <= 1.0 ==> rank as real - 1.0 < fraction * n as real <= rank as real
    ensures fraction <= 0.0 ==> RankOf(fraction, n) == 1
    ensures fraction >= 1.0 ==> RankOf(fraction, n) == n
  {
    var x := Times(fraction, n as real);
    if fraction <= 0.0 {
      ScaleKeepsOrder(fraction, 0.0, n as real);
    } else if fraction <= 1.0 {
      ScaleKeepsOrder(fraction, 1.0, n as real);
      ProductIsPositive(fraction, n as real);
    }
    if fraction >= 1.0 { ScaleKeepsOrder(1.0, fraction, n as real); }
    CeilBetween(x, n);
  }

  lemma ProductIsPositive(a: real, b: real)
    requires a > 0.0 && b > 0.0
    ensures Times(a, b) > 0.0
  {
  }

  lemma CeilBetween(x: real, n: nat)
    ensures x <= 0.0 ==> Ceil(x) <= 0
    ensures 0.0 < x <= n as real ==> 1 <= Ceil(x) <= n
    ensures x >= n as real ==> Ceil(x) >= n
  {
  }

  lemma CeilKeepsOrder(x: real, y: real)
    requires x <= y
    ensures Ceil(x) <= Ceil(y)
  {
  }

  lemma ScaleKeepsOrder(a: real, b: real, x: real)
    requires a <= b && x >= 0.0
    ensures Times(a, x) <= Times(b, x)
  {
    assert (b - a) * x >= 0.0;
  }

  lemma RankIsMonotone(f: real, g: real, n: nat)
    requires n > 0 && f <= g
    ensures RankOf(f, n) <= RankOf(g, n)
  {
    ScaleKeepsOrder(f, g, n as real);
    CeilKeepsOrder(Times(f, n as real), Times(g, n as real));
  }

  /** A larger fraction never gives a smaller percentile. */
  lemma PercentileIsMonotone(values: seq<Number>, f: real, g: real)
    requires f <= g && FiniteValues(values) != []
    ensures Percentile(values, f).Some? && Percentile(values, g).Some?
    ensures Percentile(values, f).value <= Percentile(values, g).value
  {
    var finite := FiniteValues(values);
    var sorted := Sort(finite, AtMost);
    SortedByAtMost(finite);
    RankIsMonotone(f, g, |finite|);
    AtFractionIsRank(sorted, f);
    AtFractionIsRank(sorted, g);
    var i, j := RankOf(f, |finite|) - 1, RankOf(g, |finite|) - 1;
    assert i < j ==> AtMost(sorted[i], sorted[j]);
  }

  ghost predicate Increasing(at: seq<nat>) {
    forall j, k :: 0 <= j < k < |at| ==> at[j] < at[k]
  }

  // `at` lists exactly the positions of the finite values, and `finite` what stands there.
  ghost predicate Selects(values: seq<Number>, at: seq<nat>, finite: seq<real>) {
    && |at| == |finite| && Increasing(at)
    && (forall k :: 0 <= k < |at| ==> at[k] < |values| && values[at[k]] == Finite(finite[k]))
    && forall i :: 0 <= i < |values| && values[i].Finite? ==> i in at
  }

  /** Only the finite values are kept, all of them and in their order. */
  lemma {:induction false} FiniteValuesMeaning(values: seq<Number>) returns (at: seq<nat>)
    ensures Selects(values, at, FiniteValues(values))
  {
    at := [];
    if values != [] {
      var last := |values| - 1;
      var before := FiniteValuesMeaning(values[..last]);
      if values[last].Finite? {
        SelectsLast(values, before, FiniteValues(values[..last]));
        at := before + [last];
      } else {
        SkipsLast(values, before, FiniteValues(values[..last]));
        at := before;
      }
    }
  }

  lemma SkipsLast(values: seq<Number>, at: seq<nat>, finite: seq<real>)
    requires values != [] && values[|values| - 1].NonFinite? && Selects(values[..|values| - 1], at, finite)
    ensures Selects(values, at, finite + [])
  {
    var last := |values| - 1;
    assert finite + [] == finite;
    forall i | 0 <= i < |values| && values[i].Finite? ensures i in at {
      assert values[..last][i].Finite?;
    }
  }

  lemma SelectsLast(values: seq<Number>, at: seq<nat>, finite: seq<real>)
    requires values != [] && values[|values| - 1].Finite? && Selects(values[..|values| - 1], at, finite)
    ensures Selects(values, at + [|values| - 1], finite + [values[|values| - 1].value])
  {
    var last := |values| - 1;
    forall i | 0 <= i < |values| && values[i].Finite? ensures i in at + [last] {
      assert i < last ==> values[..last][i].Finite?;
    }
  }

  // ----- rttStats -----

  datatype Point = Point(rttAvgMs: Option<Number>, receivedAt: real)

  datatype RttStats = RttStats(
    last: Option<Number>, avg: Option<real>, min: Option<real>, max: Option<real>,
    p50: Option<real>, p95: Option<real>, samples: nat, answering: nat)

  const EMPTY_STATS := RttStats(None, None, None, None, None, None, 0, 0)

  // The finite round-trip times, in order.
  function Answers(points: seq<Point>): (r: seq<real>)
    ensures |r| <= |points|
  {
    if points == [] then []
    else
      var rtt := points[|points| - 1].rttAvgMs;
      Answers(points[..|points| - 1]) + (if rtt.Some? && rtt.value.Finite? then [rtt.value.value] else [])
  }

  // The round-trip times, a missing one being no finite number.
  function Rtts(points: seq<Point>): (r: seq<Number>)
    ensures |r| == |points|
    ensures forall k :: 0 <= k < |r| ==> r[k] == GetOr(points[k].rttAvgMs, NonFinite)
  {
    seq(|points|, k requires 0 <= k < |points| => GetOr(points[k].rttAvgMs, NonFinite))
  }

  /** The answers are exactly the finite round-trip times, in their order. */
  lemma {:induction false} AnswersMeaning(points: seq<Point>) returns (at: seq<nat>)
    ensures Selects(Rtts(points), at, Answers(points))
  {
    AnswersAreFiniteValues(points);
    at := FiniteValuesMeaning(Rtts(points));
  }

  lemma {:induction false} AnswersAreFiniteValues(points: seq<Point>)
    ensures Answers(points) == FiniteValues(Rtts(points))
  {
    if points != [] {
      var last := |points| - 1;
      AnswersAreFiniteValues(points[..last]);
      assert Rtts(points)[..last] == Rtts(points[..last]);
    }
  }

  /** The total adds up: of one value it is the value, and of two lists the sum of their totals. */
  lemma {:induction false} TotalAdds(a: seq<real>, b: seq<real>, x: real)
    ensures Total([x]) == x && Total(a + b) == Total(a) + Total(b)
  {
    assert [x][..0] == [];
    if b == [] {
      assert a + b == a;
    } else {
      TotalAdds(a, b[..|b| - 1], x);
      assert (a + b)[..|a + b| - 1] == a + b[..|b| - 1];
    }
  }

  function Numbers(values: seq<real>): (r: seq<Number>)
    ensures |r| == |values|
  {
    seq(|values|, k requires 0 <= k < |values| => Finite(values[k]))
  }

  function Total(values: seq<real>): real {
    if values == [] then 0.0 else Total(values[..|values| - 1]) + values[|values| - 1]
  }

  // `Math.min(...values)`
  function Smallest(values: seq<real>): (m: real)
    requires values != []
    ensures m in values && forall k :: 0 <= k < |values| ==> m <= values[k]
  {
    var last := values[|values| - 1];
    if |values| == 1 then last
    else
      var m := Smallest(values[..|values| - 1]);
      if last < m then last else m
  }

  // `Math.max(...values)`
  function Largest(values: seq<real>): (m: real)
    requires values != []
    ensures m in values && forall k :: 0 <= k < |values| ==> m >= values[k]
  {
    var last := values[|values| - 1];
    if |values| == 1 then last
    else
      var m := Largest(values[..|values| - 1]);
      if last > m then last else m
  }

  lemma {:induction false} NumbersAreFinite(values: seq<real>)
    ensures FiniteValues(Numbers(values)) == values
  {
    if values != [] {
      var last := |values| - 1;
      NumbersAreFinite(values[..last]);
      assert Numbers(values)[..last] == Numbers(values[..last]);
      assert values == values[..last] + [values[last]];
    }
  }

  lemma TimesNext(n: real, x: real)
    ensures Times(n + 1.0, x) == Times(n, x) + x
  {
  }

  lemma {:induction false} TotalIsBetween(values: seq<real>, low: real, high: real)
    requires forall k :: 0 <= k < |values| ==> low <= values[k] <= high
    ensures Times(|values| as real, low) <= Total(values) <= Times(|values| as real, high)
  {
    if values != [] {
      var rest := values[..|values| - 1];
      TotalIsBetween(rest, low, high);
      assert |values| as real == |rest| as real + 1.0;
      TimesNext(|rest| as real, low);
      TimesNext(|rest| as real, high);
    }
  }

  lemma MeanIsBetween(total: real, n: real, low: real, high: real)
    requires n > 0.0 && Times(n, low) <= total <= Times(n, high)
    ensures low <= total / n <= high
  {
    var mean := total / n;
    assert mean * n == total;
    assert (mean - low) * n >= 0.0 && (high - mean) * n >= 0.0;
  }

  // The latest answered point at index `i`; of equally late ones the last.
  ghost predicate IsLatest(points: seq<Point>, i: nat) {
    && i < |points| && points[i].rttAvgMs.Some?
    && forall j :: 0 <= j < |points| && points[j].rttAvgMs.Some? ==>
         points[j].receivedAt < points[i].receivedAt || (points[j].receivedAt == points[i].receivedAt && j <= i)
  }

  method LatestRtt(points: seq<Point>) returns (last: Option<Number>)
    ensures last.None? <==> forall i :: 0 <= i < |points| ==> points[i].rttAvgMs.None?
    ensures last.Some? ==> exists i: nat :: IsLatest(points, i) && points[i].rttAvgMs == last
  {
    var latest: Option<real> := None;  // None stands for -Infinity
    last := None;
    ghost var at: nat := 0;
    for i := 0 to |points|
      invariant latest.None? <==> last.None?
      invariant last.None? <==> forall k :: 0 <= k < i ==> points[k].rttAvgMs.None?
      invariant last.Some? ==>
        && at < i && IsLatest(points[..i], at)
        && points[at].rttAvgMs == last && latest == Some(points[at].receivedAt)
    {
      if points[i].rttAvgMs.Some? && (latest.None? || points[i].receivedAt >= latest.value) {
        latest := Some(points[i].receivedAt);
        last := points[i].rttAvgMs;
        at := i;
      }
    }
    assert points[..|points|] == points;
  }

  /** The summary, its order min ≤ p50 ≤ p95 ≤ max, and where each number comes from. */
  method ComputeRttStats(points: seq<Point>) returns (r: RttStats)
    ensures r.samples == |points| && r.answering == |Answers(points)|
    ensures Answers(points) == [] ==> r == RttStats(None, None, None, None, None, None, |points|, 0)
    ensures Answers(points) != [] ==>
      && r.min.Some? && r.p50.Some? && r.p95.Some? && r.max.Some? && r.avg.Some?
      && r.min.value <= r.p50.value <= r.p95.value <= r.max.value
      && r.min.value <= r.avg.value <= r.max.value
    ensures Answers(points) != [] ==>
      && r.min == Some(Smallest(Answers(points))) && r.max == Some(Largest(Answers(points)))
      && r.avg == Some(Total(Answers(points)) / |Answers(points)| as real)
      && HasRank(Answers(points), r.p50.value, RankOf(0.5, |Answers(points)|))
      && HasRank(Answers(points), r.p95.value, RankOf(0.95, |Answers(points)|))
    ensures Answers(points) != [] ==> exists i: nat :: IsLatest(points, i) && points[i].rttAvgMs == r.last
    ensures Answers(points) != [] ==>
      && r.last.Some?
      && (r.last.value.Finite? <==> exists i: nat :: IsLatest(points, i) && points[i].rttAvgMs.value.Finite?)
  {
    if |points| == 0 {
      return EMPTY_STATS;
    }
    var values := Answers(points);
    if |values| == 0 {
      return EMPTY_STATS.(samples := |points|);
    }
    var total := Total(values);
    var last := LatestRtt(points);
    var p50, p95 := Percentile(Numbers(values), 0.5), Percentile(Numbers(values), 0.95);
    r := RttStats(last, Some(total / |values| as real), Some(Smallest(values)), Some(Largest(values)), p50, p95,
                  |points|, |values|);
    PercentilesInOrder(values, 0.5, 0.95);
    MeanInOrder(values);
    SomeAnswered(points);
    forall i: nat, j: nat | IsLatest(points, i) && IsLatest(points, j) ensures i == j {
      OneLatest(points, i, j);
    }
  }

  lemma OneLatest(points: seq<Point>, i: nat, j: nat)
    requires IsLatest(points, i) && IsLatest(points, j)
    ensures i == j
  {
  }

  /** Points whose last sample is not finite although they have an answer. */
  lemma LastMayBeNonFinite(points: seq<Point>)
    requires points == [Point(Some(Finite(1.0)), 0.0), Point(Some(NonFinite), 1.0)]
    ensures Answers(points) == [1.0]
    ensures IsLatest(points, 1) && points[1].rttAvgMs == Some(NonFinite)
  {
    assert points[..1] == [points[0]] && points[..1][..0] == [];
    assert Answers(points[..1]) == [1.0];
  }

  lemma PercentilesInOrder(values: seq<real>, f: real, g: real)
    requires values != [] && f <= g
    ensures var p, q := Percentile(Numbers(values), f), Percentile(Numbers(values), g);
      && p.Some? && q.Some?
      && Smallest(values) <= p.value <= q.value <= Largest(values)
      && HasRank(values, p.value, RankOf(f, |values|)) && HasRank(values, q.value, RankOf(g, |values|))
  {
    NumbersAreFinite(values);
    PercentileIsMonotone(Numbers(values), f, g);
    PercentileIsNearestRank(Numbers(values), f, Percentile(Numbers(values), f).value);
    PercentileIsNearestRank(Numbers(values), g, Percentile(Numbers(values), g).value);
  }

  lemma MeanInOrder(values: seq<real>)
    requires values != []
    ensures Smallest(values) <= Total(values) / |values| as real <= Largest(values)
  {
    TotalIsBetween(values, Smallest(values), Largest(values));
    MeanIsBetween(Total(values), |values| as real, Smallest(values), Largest(values));
  }

  lemma {:induction false} SomeAnswered(points: seq<Point>)
    requires Answers(points) != []
    ensures exists i :: 0 <= i < |points| && points[i].rttAvgMs.Some?
  {
    var last := |points| - 1;
    if points[last].rttAvgMs.None? {
      SomeAnswered(points[..last]);
      var i :| 0 <= i < last && points[..last][i].rttAvgMs.Some?;
      assert points[i].rttAvgMs.Some?;
    }
  }
}
