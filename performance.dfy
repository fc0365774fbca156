/** `core/performance.py`: a collector keeping the latest metric records
    in a bounded deque with running counters, the statistics over them, and
    the monitor's registry of collectors by name. Clock readings are
    parameters; record metadata and the lock are not modelled. */
module Performance {
  import opened Wrappers
  import opened PyText
  import opened RealSeq

  const DefaultMaxRecords := 1000
  const P95Minimum := 20
  const P99Minimum := 100

  /** `MetricRecord` without its metadata. */
  datatype MetricRecord = MetricRecord(name: string, duration: real, success: bool, timestamp: real)

  /** `get_stats`: the totals are present only when there are records. */
  datatype Stats = Stats(name: string, count: nat, successRate: real, avg: real, min: real, max: real,
                         p50: real, p95: real, p99: real, totals: Option<(nat, nat)>)

  /** `deque(maxlen=max).append(r)`: the oldest record falls out of a full deque. */
  function Appended(records: seq<MetricRecord>, r: MetricRecord, max: nat): (s: seq<MetricRecord>)
    ensures |s| <= max
    ensures |s| == if |records| + 1 <= max then |records| + 1 else max
    ensures s == (records + [r])[|records| + 1 - |s|..]
  {
    TakeLast(records + [r], max)
  }

  /** `records[-last_n:]` when `last_n` is truthy, else every record. */
  function Window(records: seq<MetricRecord>, lastN: Option<int>): (w: seq<MetricRecord>)
    ensures lastN.Some? && lastN.value > 0 ==> w == TakeLast(records, lastN.value)
    ensures lastN.None? || lastN.value == 0 ==> w == records
  {
    if lastN.None? || lastN.value == 0 then records
    else
      SliceLast(records, lastN.value);
      Slice(records, -lastN.value, |records|)
  }

  function Durations(rs: seq<MetricRecord>): (ds: seq<real>)
    ensures |ds| == |rs| && forall i :: 0 <= i < |rs| ==> ds[i] == rs[i].duration
  {
    if rs == [] then [] else [rs[0].duration] + Durations(rs[1..])
  }

  function Successes(rs: seq<MetricRecord>): (k: nat)
    ensures k <= |rs|
  {
    if rs == [] then 0 else (if rs[0].success then 1 else 0) + Successes(rs[1..])
  }

  /** `int(n * f)` for a non-negative `n`. */
  function Index(n: nat, f: real): int {
    (n as real * f).Floor
  }

  /** A percentile index `int(n * p)` of `StatsOrdered` lies inside the sorted durations. */
  lemma IndexBelow(n: nat, f: real)
    requires n >= 1 && 0.0 <= f < 1.0
    ensures 0 <= Index(n, f) < n
  {
    assert n as real * f < n as real;
  }

  /** A larger fraction picks a later percentile index, which orders p50, p95 and p99 in `StatsOrdered`. */
  lemma FloorMonotone(x: real, y: real)
    requires x <= y
    ensures x.Floor <= y.Floor
  {
  }

  /** `durations_sorted[n // 2]`. */
  function P50(sorted: seq<real>): real
    requires sorted != []
  {
    sorted[|sorted| / 2]
  }

  /** `durations_sorted[int(n * 0.95)]` once there are 20 values, else the last. */
  function P95(sorted: seq<real>): real
    requires sorted != []
  {
    var n := |sorted|;
    IndexBelow(n, 0.95);
    if n >= P95Minimum then sorted[Index(n, 0.95)] else sorted[n - 1]
  }

  /** `durations_sorted[int(n * 0.99)]` once there are 100 values, else the last. */
  function P99(sorted: seq<real>): real
    requires sorted != []
  {
    var n := |sorted|;
    IndexBelow(n, 0.99);
    if n >= P99Minimum then sorted[Index(n, 0.99)] else sorted[n - 1]
  }

  /** On ascending values the percentiles run from the first value to the last. */
  lemma PercentilesOrdered(sorted: seq<real>)
    requires sorted != [] && Ascending(sorted)
    ensures sorted[0] <= P50(sorted) <= P95(sorted) <= P99(sorted) <= sorted[|sorted| - 1]
  {
    var n := |sorted|;
    IndexBelow(n, 0.95);
    IndexBelow(n, 0.99);
    FloorMonotone((n / 2) as real, n as real * 0.95);
    FloorMonotone(n as real * 0.95, n as real * 0.99);
    assert ((n / 2) as real).Floor == n / 2;
  }

  /** The statistics `get_stats` returns over the chosen records. */
  function StatsOf(name: string, rs: seq<MetricRecord>, totalCount: nat, successCount: nat): Stats {
    if rs == [] then Stats(name, 0, 0.0, 0.0, 0.0, 0.0, 0.0, 0.0, 0.0, None)
    else
      var ds := Durations(rs);
      var sorted := SortAsc(ds);
      Stats(name, |rs|, Successes(rs) as real / |rs| as real, Average(ds), MinOf(ds), MaxOf(ds),
            P50(sorted), P95(sorted), P99(sorted), Some((totalCount, successCount)))
  }

  /** The success rate of `StatsOrdered`, successes over calls, lies in [0, 1]. */
  lemma RateBounded(k: nat, n: nat)
    requires 0 < n && k <= n
    ensures 0.0 <= k as real / n as real <= 1.0
  {
  }

  /** With no records every statistic is 0 and the totals are absent;
      otherwise the success rate is a fraction and the durations are ordered
      min <= p50 <= p95 <= p99 <= max, with the average between min and max. */
  lemma StatsOrdered(name: string, rs: seq<MetricRecord>, totalCount: nat, successCount: nat)
    ensures var s := StatsOf(name, rs, totalCount, successCount);
            && s.count == |rs|
            && (rs == [] ==> s == Stats(name, 0, 0.0, 0.0, 0.0, 0.0, 0.0, 0.0, 0.0, None))
            && (rs != [] ==> && 0.0 <= s.successRate <= 1.0
                             && s.min <= s.p50 <= s.p95 <= s.p99 <= s.max
                             && s.min <= s.avg <= s.max
                             && s.totals == Some((totalCount, successCount)))
  {
    if rs != [] {
      var ds := Durations(rs);
      SortedEnds(ds);
      PercentilesOrdered(SortAsc(ds));
      AverageBounds(ds, MinOf(ds), MaxOf(ds));
      RateBounded(Successes(rs), |rs|);
    }
  }

  /** `MetricCollector`. */
  class MetricCollector {
    const name: string
    const maxRecords: nat
    var records: seq<MetricRecord>
    var totalCount: nat
    var successCount: nat
    var totalDuration: real

    /** The deque never exceeds its bound and successes never exceed calls. */
    predicate Valid()
      reads this
    {
      |records| <= maxRecords && successCount <= totalCount
    }

    constructor (name: string, maxRecords: nat)
      ensures this.name == name && this.maxRecords == maxRecords
      ensures records == [] && totalCount == 0 && successCount == 0 && totalDuration == 0.0
      ensures Valid()
    {
      this.name, this.maxRecords := name, maxRecords;
      records, totalCount, successCount, totalDuration := [], 0, 0, 0.0;
    }

    /** `record(duration, success)` at time `now`. */
    method Record(duration: real, success: bool, now: real)
      requires Valid()
      modifies this
      ensures Valid()
      ensures records == Appended(old(records), MetricRecord(name, duration, success, now), maxRecords)
      ensures totalCount == old(totalCount) + 1
      ensures successCount == old(successCount) + (if success then 1 else 0)
      ensures totalDuration == old(totalDuration) + duration
    {
      records := Appended(records, MetricRecord(name, duration, success, now), maxRecords);
      totalCount := totalCount + 1;
      if success {
        successCount := successCount + 1;
      }
      totalDuration := totalDuration + duration;
    }

    /** `get_stats(last_n)`. */
    function GetStats(lastN: Option<int>): Stats
      reads this
    {
      StatsOf(name, Window(records, lastN), totalCount, successCount)
    }

    /** `clear`. */
    method Clear()
      modifies this
      ensures Valid()
      ensures records == [] && totalCount == 0 && successCount == 0 && totalDuration == 0.0
    {
      records, totalCount, successCount, totalDuration := [], 0, 0, 0.0;
    }
  }

  /** The collectors `PerformanceMonitor` starts with. */
  const DefaultCollectors := ["chat_api", "embedding_api", "vector_search", "keyword_search", "knowledge_add",
                              "knowledge_update"]

  /** `PerformanceMonitor`: the collectors by name. */
  class PerformanceMonitor {
    var collectors: map<string, MetricCollector>
    var startTime: real

    predicate Valid()
      reads this, collectors.Values
    {
      forall k :: k in collectors ==> collectors[k].name == k && collectors[k].Valid()
    }

    /** `__init__` at time `now`. */
    constructor (now: real)
      ensures Valid() && startTime == now
      ensures collectors.Keys == set k | k in DefaultCollectors
      ensures forall k :: k in collectors ==> fresh(collectors[k]) && collectors[k].records == []
    {
      var m: map<string, MetricCollector> := map[];
      var i := 0;
      while i < |DefaultCollectors|
        invariant 0 <= i <= |DefaultCollectors|
        invariant m.Keys == set k | k in DefaultCollectors[..i]
        invariant forall k :: k in m ==> fresh(m[k]) && m[k].name == k && m[k].Valid() && m[k].records == []
      {
        var c := new MetricCollector(DefaultCollectors[i], DefaultMaxRecords);
        m := m[DefaultCollectors[i] := c];
        i := i + 1;
      }
      collectors, startTime := m, now;
    }

    /** `get_collector(name)`: the same collector every time, created on
        first use. */
    method GetCollector(name: string) returns (c: MetricCollector)
      requires Valid()
      modifies this`collectors
      ensures Valid()
      ensures name in old(collectors) ==> c == old(collectors)[name] && collectors == old(collectors)
      ensures name !in old(collectors) ==>
                fresh(c) && collectors == old(collectors)[name := c] && c.records == []
                && c.maxRecords == DefaultMaxRecords && c.totalCount == 0 && c.successCount == 0
                && c.totalDuration == 0.0
      ensures c.name == name && collectors[name] == c
    {
      if name !in collectors {
        var n := new MetricCollector(name, DefaultMaxRecords);
        collectors := collectors[name := n];
      }
      c := collectors[name];
    }

    /** `record(metric_name, duration, success)` at time `now`. */
    method Record(metricName: string, duration: real, success: bool, now: real)
      requires Valid()
      modifies this`collectors, if metricName in collectors then {collectors[metricName]} else {}
      ensures Valid() && metricName in collectors
      ensures collectors.Keys == old(collectors.Keys) + {metricName}
      ensures var known := metricName in old(collectors);
              var c := collectors[metricName];
              && c.maxRecords == (if known then old(collectors[metricName].maxRecords) else DefaultMaxRecords)
              && c.records == Appended(if known then old(collectors[metricName].records) else [],
                                       MetricRecord(metricName, duration, success, now), c.maxRecords)
              && c.totalCount == (if known then old(collectors[metricName].totalCount) else 0) + 1
              && c.successCount == (if known then old(collectors[metricName].successCount) else 0)
                                   + (if success then 1 else 0)
              && c.totalDuration == (if known then old(collectors[metricName].totalDuration) else 0.0) + duration
      ensures forall k :: k in old(collectors) && k != metricName ==>
                collectors[k] == old(collectors)[k] && unchanged(collectors[k])
    {
      ghost var known := metricName in collectors;
      ghost var c0 := if known then collectors[metricName] else null;
      var c := GetCollector(metricName);
      assert known ==> c == c0;
      ghost var before := collectors;
      c.Record(duration, success, now);
      assert collectors == before;
    }
  }
}
