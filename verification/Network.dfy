/**
 Network metrics of the probe: deltas and rates of 64-bit counters that wrap,
 one entry per interface that two consecutive samples have in common.

 Rates are exact numbers; rounding is not part of this model.
 */
module Network {
  import opened Sorting
  import opened Values

  // ----- rate.rs -----

  const MODULUS: int := 0x1_0000_0000_0000_0000

  type U64 = n: int | 0 <= n < MODULUS

  function WrappingSub(a: U64, b: U64): U64 {
    if a >= b then a - b else a - b + MODULUS
  }

  function ComputeDelta(prev: U64, curr: U64): U64 {
    if curr >= prev then curr - prev else WrappingSub(curr, prev)
  }

  function ComputeRate(prev: U64, curr: U64, secs: real): real {
    if secs <= 0.0 then 0.0 else ComputeDelta(prev, curr) as real / secs
  }

  function Wrapped(n: int): U64 { n % MODULUS }

  /** The delta of two readings is the true advance, up to whole wraps. */
  lemma DeltaIsAdvance(before: int, after: int)
    requires before <= after
    ensures ComputeDelta(Wrapped(before), Wrapped(after)) == (after - before) % MODULUS
    ensures ComputeDelta(Wrapped(before), Wrapped(after)) <= after - before
    ensures ComputeDelta(Wrapped(before), Wrapped(after)) == after - before <==> after - before < MODULUS
  {
    var p, q := before / MODULUS, after / MODULUS;
    var d := ComputeDelta(Wrapped(before), Wrapped(after));
    var laps := if Wrapped(after) >= Wrapped(before) then q - p else q - p - 1;
    assert after - before == laps * MODULUS + d;
  }

  // ----- Metrics of one interface -----

  datatype NetCounters = NetCounters(
    rxBytes: U64, txBytes: U64, rxErrors: U64, txErrors: U64,
    rxPackets: U64, txPackets: U64, rxDropped: U64, txDropped: U64)

  datatype NetInfo = NetInfo(
    iface: string, rxBytesRate: real, txBytesRate: real, rxErrors: U64, txErrors: U64,
    rxPacketsRate: real, txPacketsRate: real, rxDroppedDelta: U64, txDroppedDelta: U64)

  type Counters = map<string, NetCounters>

  function Info(iface: string, prev: NetCounters, curr: NetCounters, secs: real): NetInfo {
    NetInfo(
      iface,
      ComputeRate(prev.rxBytes, curr.rxBytes, secs),
      ComputeRate(prev.txBytes, curr.txBytes, secs),
      ComputeDelta(prev.rxErrors, curr.rxErrors),
      ComputeDelta(prev.txErrors, curr.txErrors),
      ComputeRate(prev.rxPackets, curr.rxPackets, secs),
      ComputeRate(prev.txPackets, curr.txPackets, secs),
      ComputeDelta(prev.rxDropped, curr.rxDropped),
      ComputeDelta(prev.txDropped, curr.txDropped))
  }

  // ----- One sample -----

  // Exactly one entry per common interface, in the order of the names.
  ghost predicate IsMetrics(prev: Counters, curr: Counters, secs: real, results: seq<NetInfo>) {
    && (forall i, j :: 0 <= i < j < |results| ==>
          StringLeq(results[i].iface, results[j].iface) && results[i].iface != results[j].iface)
    && (forall info :: info in results ==>
          info.iface in prev && info.iface in curr
              && info == Info(info.iface, prev[info.iface], curr[info.iface], secs))
    && (forall iface :: iface in prev && iface in curr ==> Info(iface, prev[iface], curr[iface], secs) in results)
  }

  predicate ByName(a: NetInfo, b: NetInfo) { StringLeq(a.iface, b.iface) }

  lemma ByNameIsOrder()
    ensures IsTotalPreorder(ByName)
  {
    StringLeqIsOrder();
  }

  // The hash map is iterated in an arbitrary order.
  method ComputeNetMetrics(prev: Counters, curr: Counters, secs: real) returns (results: seq<NetInfo>)
    ensures IsMetrics(prev, curr, secs, results)
  {
    results := [];
    var todo := curr.Keys;
    while todo != {}
      invariant todo <= curr.Keys
      invariant forall i, j :: 0 <= i < j < |results| ==> results[i].iface != results[j].iface
      invariant forall info :: info in results ==>
        info.iface in prev && info.iface in curr.Keys - todo
            && info == Info(info.iface, prev[info.iface], curr[info.iface], secs)
      invariant forall iface :: iface in prev && iface in curr.Keys - todo ==>
        Info(iface, prev[iface], curr[iface], secs) in results
    {
      var iface :| iface in todo;
      todo := todo - {iface};
      if iface in prev {
        results := results + [Info(iface, prev[iface], curr[iface], secs)];
      }
    }
    SortedByName(results);
    results := Sort(results, ByName);
  }

  lemma SortedByName(results: seq<NetInfo>)
    requires forall i, j :: 0 <= i < j < |results| ==> results[i].iface != results[j].iface
    ensures var r := Sort(results, ByName);
      && (forall info :: info in r <==> info in results)
      && (forall i, j :: 0 <= i < j < |r| ==> StringLeq(r[i].iface, r[j].iface) && r[i].iface != r[j].iface)
  {
    ByNameIsOrder();
    SortSorts(results, ByName);
    SortedMembers(results, ByName);
    SortKeepsDistinct(results, ByName);
    var r := Sort(results, ByName);
    forall i, j | 0 <= i < j < |r| ensures r[i].iface != r[j].iface {
      assert r[i] in results && r[j] in results;
      var a :| 0 <= a < |results| && results[a] == r[i];
      var b :| 0 <= b < |results| && results[b] == r[j];
    }
  }

  /** Without time between the samples every rate is zero; the deltas do not depend on it. */
  lemma RatesWithoutTime(prev: Counters, curr: Counters, secs: real, results: seq<NetInfo>, info: NetInfo)
    requires IsMetrics(prev, curr, secs, results) && info in results && secs <= 0.0
    ensures info.rxBytesRate == info.txBytesRate == info.rxPacketsRate == info.txPacketsRate == 0.0
  {
  }

  /** The result does not depend on the order of the iteration. */
  lemma MetricsAreDetermined(prev: Counters, curr: Counters, secs: real, r: seq<NetInfo>, t: seq<NetInfo>)
    requires IsMetrics(prev, curr, secs, r) && IsMetrics(prev, curr, secs, t)
    ensures r == t
  {
    StringLeqIsOrder();
    forall info ensures multiset(r)[info] == multiset(t)[info] {
      DistinctCounts(r, info);
      DistinctCounts(t, info);
      assert info in r <==> info in t;
    }
    forall a, b | a in r && b in r && ByName(a, b) && ByName(b, a) ensures a == b {}
    assert multiset(r) == multiset(t);
    SortedIsUnique(r, t, ByName);
  }

  // ----- Samples of a run -----

  datatype Sample = Sample(counters: Option<Counters>, secs: real)

  // What a cycle reports, given what the sample before it and its own could read.
  ghost predicate IsReport(prev: Option<Counters>, curr: Sample, report: seq<NetInfo>) {
    if prev.Some? && curr.counters.Some?
    then IsMetrics(prev.value, curr.counters.value, curr.secs, report)
    else report == []
  }

  class NetCollector {
    var prevNetCounters: Option<Counters>

    constructor (initial: Option<Counters>)
      ensures prevNetCounters == initial
    {
      prevNetCounters := initial;
    }

    /** One cycle: reports against the previous sample, which is replaced even when this one could not be read. */
    method CollectMetrics(curr: Sample) returns (net: seq<NetInfo>)
      modifies this
      ensures IsReport(old(prevNetCounters), curr, net)
      ensures prevNetCounters == curr.counters
    {
      net := [];
      if prevNetCounters.Some? && curr.counters.Some? {
        net := ComputeNetMetrics(prevNetCounters.value, curr.counters.value, curr.secs);
      }
      prevNetCounters := curr.counters;
    }
  }

  // Report `k` is about samples `k` and `k + 1`; sample 0 is read before the loop.
  ghost predicate IsRun(samples: seq<Sample>, reports: seq<seq<NetInfo>>) {
    && |samples| == |reports| + 1
    && forall k :: 0 <= k < |reports| ==> ReportsAt(samples, reports, k)
  }

  ghost predicate ReportsAt(samples: seq<Sample>, reports: seq<seq<NetInfo>>, k: nat)
    requires k < |reports| && |samples| == |reports| + 1
  {
    IsReport(samples[k].counters, samples[k + 1], reports[k])
  }

  datatype Counter = RxBytes | TxBytes | RxErrors | TxErrors | RxPackets | TxPackets | RxDropped | TxDropped

  function Reading(c: NetCounters, which: Counter): U64 {
    match which
    case RxBytes => c.rxBytes
    case TxBytes => c.txBytes
    case RxErrors => c.rxErrors
    case TxErrors => c.txErrors
    case RxPackets => c.rxPackets
    case TxPackets => c.txPackets
    case RxDropped => c.rxDropped
    case TxDropped => c.txDropped
  }

  predicate IsRate(which: Counter) { which in {RxBytes, TxBytes, RxPackets, TxPackets} }

  function Field(info: NetInfo, which: Counter): real {
    match which
    case RxBytes => info.rxBytesRate
    case TxBytes => info.txBytesRate
    case RxErrors => info.rxErrors as real
    case TxErrors => info.txErrors as real
    case RxPackets => info.rxPacketsRate
    case TxPackets => info.txPacketsRate
    case RxDropped => info.rxDroppedDelta as real
    case TxDropped => info.txDroppedDelta as real
  }

  function Times(rate: real, secs: real): real { rate * secs }

  // The advance that an entry reports: a delta, or a rate times the elapsed time.
  function Reported(info: NetInfo, which: Counter, secs: real): real {
    if IsRate(which) then Times(Field(info, which), secs) else Field(info, which)
  }

  // The sum over the entries that one report has for an interface.
  function ReportedBy(report: seq<NetInfo>, iface: string, which: Counter, secs: real): real {
    if report == [] then 0.0
    else
      var last := report[|report| - 1];
      ReportedBy(report[..|report| - 1], iface, which, secs)
          + (if last.iface == iface then Reported(last, which, secs) else 0.0)
  }

  // The same for each of `n` consecutive reports of a run.
  function Amounts(samples: seq<Sample>, reports: seq<seq<NetInfo>>, first: nat, n: nat, iface: string,
                   which: Counter): (r: seq<real>)
    requires first + n <= |reports| && |samples| == |reports| + 1
    ensures |r| == n
  {
    seq(n, k requires 0 <= k < n => ReportedBy(reports[first + k], iface, which, samples[first + k + 1].secs))
  }

  function Sum(amounts: seq<real>): real {
    if amounts == [] then 0.0 else Sum(amounts[..|amounts| - 1]) + amounts[|amounts| - 1]
  }

  lemma {:induction false} NotReported(report: seq<NetInfo>, iface: string, which: Counter, secs: real)
    requires forall k :: 0 <= k < |report| ==> report[k].iface != iface
    ensures ReportedBy(report, iface, which, secs) == 0.0
  {
    if report != [] {
      NotReported(report[..|report| - 1], iface, which, secs);
    }
  }

  lemma {:induction false} ReportedOnce(report: seq<NetInfo>, iface: string, which: Counter, secs: real, at: nat)
    requires at < |report| && report[at].iface == iface
    requires forall i, j :: 0 <= i < j < |report| ==> report[i].iface != report[j].iface
    ensures ReportedBy(report, iface, which, secs) == Reported(report[at], which, secs)
  {
    var last := |report| - 1;
    if at == last {
      NotReported(report[..last], iface, which, secs);
    } else {
      ReportedOnce(report[..last], iface, which, secs, at);
    }
  }

  lemma RateTimesTime(prev: U64, curr: U64, secs: real)
    requires secs > 0.0
    ensures Times(ComputeRate(prev, curr, secs), secs) == ComputeDelta(prev, curr) as real
  {
  }

  lemma FieldOfInfo(iface: string, prev: NetCounters, curr: NetCounters, secs: real, which: Counter)
    ensures Field(Info(iface, prev, curr, secs), which) ==
            if IsRate(which) then ComputeRate(Reading(prev, which), Reading(curr, which), secs)
            else ComputeDelta(Reading(prev, which), Reading(curr, which)) as real
  {
  }

  lemma InfoReports(info: NetInfo, prev: NetCounters, curr: NetCounters, secs: real, which: Counter)
    requires (IsRate(which) ==> secs > 0.0) && info == Info(info.iface, prev, curr, secs)
    ensures Reported(info, which, secs) == ComputeDelta(Reading(prev, which), Reading(curr, which)) as real
  {
    FieldOfInfo(info.iface, prev, curr, secs, which);
    if IsRate(which) { RateTimesTime(Reading(prev, which), Reading(curr, which), secs); }
  }

  // A stretch of samples that all show an interface, whose counter truly stood at `truth[k]`.
  ghost predicate Shows(samples: seq<Sample>, first: nat, iface: string, which: Counter, truth: seq<int>) {
    && first + |truth| <= |samples|
    && (forall k :: 0 <= k < |truth| ==> ShowsAt(samples, first, iface, which, truth, k))
  }

  ghost predicate ShowsAt(samples: seq<Sample>, first: nat, iface: string, which: Counter, truth: seq<int>, k: nat)
    requires first + |truth| <= |samples| && k < |truth|
  {
    && SampleShows(samples[first + k], iface, which, truth[k])
    && (k > 0 && IsRate(which) ==> samples[first + k].secs > 0.0)
  }

  ghost predicate SampleShows(s: Sample, iface: string, which: Counter, truth: int) {
    && s.counters.Some? && iface in s.counters.value
    && Reading(s.counters.value[iface], which) == Wrapped(truth)
  }

  ghost predicate Grows(truth: seq<int>) {
    forall j, k :: 0 <= j < k < |truth| ==> truth[j] <= truth[k]
  }

  // No sample is missed by a whole lap of the counter.
  ghost predicate NoLapMissed(truth: seq<int>) {
    forall k, next :: 0 <= k && next == k + 1 < |truth| ==> truth[next] - truth[k] < MODULUS
  }

  lemma OneReport(s: Sample, t: Sample, report: seq<NetInfo>, iface: string, which: Counter, before: int, after: int)
    requires SampleShows(s, iface, which, before) && SampleShows(t, iface, which, after) && before <= after
    requires IsReport(s.counters, t, report) && (IsRate(which) ==> t.secs > 0.0)
    ensures ReportedBy(report, iface, which, t.secs) <= (after - before) as real
    ensures ReportedBy(report, iface, which, t.secs) == (after - before) as real <==> after - before < MODULUS
  {
    var prev, curr := s.counters.value[iface], t.counters.value[iface];
    var info := Info(iface, prev, curr, t.secs);
    assert info in report;
    var at :| 0 <= at < |report| && report[at] == info;
    ReportedOnce(report, iface, which, t.secs, at);
    InfoReports(info, prev, curr, t.secs, which);
    DeltaIsAdvance(before, after);
  }

  // Nothing is invented, and nothing is lost exactly when `exact` holds.
  ghost predicate Conserves(reported: real, advance: int, exact: bool) {
    reported <= advance as real && (reported == advance as real <==> exact)
  }

  lemma ConservesBoth(r: real, a: int, exact: bool, r': real, a': int, exact': bool)
    requires Conserves(r, a, exact) && Conserves(r', a', exact')
    ensures Conserves(r + r', a + a', exact && exact')
  {
    assert (a + a') as real == a as real + a' as real;
  }

  lemma EachReportConserves(
    samples: seq<Sample>, reports: seq<seq<NetInfo>>, first: nat, iface: string, which: Counter, truth: seq<int>,
        k: nat)
    requires IsRun(samples, reports) && k + 1 < |truth|
    requires Shows(samples, first, iface, which, truth) && Grows(truth)
    ensures Conserves(ReportedBy(reports[first + k], iface, which, samples[first + k + 1].secs),
                      truth[k + 1] - truth[k], truth[k + 1] - truth[k] < MODULUS)
  {
    assert ReportsAt(samples, reports, first + k);
    assert ShowsAt(samples, first, iface, which, truth, k) && ShowsAt(samples, first, iface, which, truth, k + 1);
    OneReport(samples[first + k], samples[first + k + 1], reports[first + k], iface, which, truth[k], truth[k + 1]);
  }

  lemma AmountAt(
    samples: seq<Sample>, reports: seq<seq<NetInfo>>, first: nat, n: nat, iface: string, which: Counter, k: nat)
    requires first + n <= |reports| && |samples| == |reports| + 1 && k < n
    ensures Amounts(samples, reports, first, n, iface, which)[k] ==
            ReportedBy(reports[first + k], iface, which, samples[first + k + 1].secs)
  {
  }

  lemma OneMoreLap(truth: seq<int>)
    requires |truth| > 1
    ensures var last := |truth| - 1;
      NoLapMissed(truth) <==> NoLapMissed(truth[..last]) && truth[last] - truth[last - 1] < MODULUS
  {
    var last := |truth| - 1;
    if NoLapMissed(truth) {
      assert 0 <= last - 1 && last == (last - 1) + 1 < |truth|;
    }
  }

  lemma {:induction false} SumConserves(amounts: seq<real>, truth: seq<int>)
    requires |truth| == |amounts| + 1
    requires forall k, next :: 0 <= k < |amounts| && next == k + 1 ==>
      Conserves(amounts[k], truth[next] - truth[k], truth[next] - truth[k] < MODULUS)
    ensures Conserves(Sum(amounts), truth[|truth| - 1] - truth[0], NoLapMissed(truth))
  {
    var n := |amounts|;
    if n > 0 {
      SumConserves(amounts[..n - 1], truth[..n]);
      OneMoreLap(truth);
      assert Conserves(amounts[n - 1], truth[n] - truth[n - 1], truth[n] - truth[n - 1] < MODULUS);
      ConservesBoth(Sum(amounts[..n - 1]), truth[n - 1] - truth[0], NoLapMissed(truth[..n]),
                    amounts[n - 1], truth[n] - truth[n - 1], truth[n] - truth[n - 1] < MODULUS);
    }
  }

  /**
   Conservation: over any consecutive stretch of samples that show an interface,
   what is reported of a counter never exceeds its true advance, and adds up to
   it exactly when no two samples are a whole lap of 2^64 apart.
   */
  lemma TrafficIsConserved(
    samples: seq<Sample>, reports: seq<seq<NetInfo>>, first: nat, iface: string, which: Counter, truth: seq<int>)
    requires IsRun(samples, reports) && truth != []
    requires Shows(samples, first, iface, which, truth) && Grows(truth)
    ensures Conserves(Sum(Amounts(samples, reports, first, |truth| - 1, iface, which)),
                      truth[|truth| - 1] - truth[0], NoLapMissed(truth))
  {
    var amounts := Amounts(samples, reports, first, |truth| - 1, iface, which);
    forall k, next | 0 <= k < |amounts| && next == k + 1
      ensures Conserves(amounts[k], truth[next] - truth[k], truth[next] - truth[k] < MODULUS)
    {
      AmountAt(samples, reports, first, |truth| - 1, iface, which, k);
      EachReportConserves(samples, reports, first, iface, which, truth, k);
    }
    SumConserves(amounts, truth);
  }
}
