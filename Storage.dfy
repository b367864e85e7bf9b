/**
 * MemoryStorage: an in-memory map from metric fingerprint to series, with
 * append, instant query with lookback, inclusive range query and delete.
 * Operations run one at a time (the lock that serialises them is not
 * modelled).
 */
module Storage {
  import opened Wrappers
  import opened Primitives
  import opened Metrics
  import opened Samples

  datatype StorageError = NilMetric | NilSample | SeriesNotFound | TimeRange

  /** A metric and its samples in append order. */
  datatype Series = Series(metric: Metric, samples: seq<Sample>)

  /** Five minutes, in milliseconds. */
  const DefaultLookbackDelta: int64 := 5 * 60 * 1000

  predicate InWindow(x: Sample, lo: int, hi: int) {
    lo <= x.timestamp <= hi
  }

  /**
   * Index of the sample the lookback scan keeps: the latest in-window
   * timestamp, and among equal timestamps the earliest appended one.
   */
  function Latest(s: seq<Sample>, lo: int, hi: int): (r: Option<nat>)
    ensures r.Some? ==> r.value < |s| && InWindow(s[r.value], lo, hi)
    ensures r.Some? ==> forall k :: 0 <= k < |s| && InWindow(s[k], lo, hi) ==> s[k].timestamp <= s[r.value].timestamp
    ensures r.Some? ==> forall k :: 0 <= k < r.value && InWindow(s[k], lo, hi) ==> s[k].timestamp < s[r.value].timestamp
    ensures r.None? <==> forall k :: 0 <= k < |s| ==> !InWindow(s[k], lo, hi)
    decreases |s|
  {
    if s == [] then None
    else
      var prev := Latest(s[..|s| - 1], lo, hi);
      var x := s[|s| - 1];
      if InWindow(x, lo, hi) && (prev.None? || s[prev.value].timestamp < x.timestamp) then Some(|s| - 1)
      else prev
  }

  /** The samples a lookback query returns: the one Latest picks, or none. */
  function Lookback(s: seq<Sample>, t: int64, lookback: int64): (r: seq<Sample>)
    ensures |r| <= 1
    ensures r == [] <==> forall k :: 0 <= k < |s| ==> !InWindow(s[k], SubInt64(t, lookback), t)
    ensures r != [] ==> r[0] in s && InWindow(r[0], SubInt64(t, lookback), t)
    ensures r != [] ==> forall x :: x in s && InWindow(x, SubInt64(t, lookback), t) ==> x.timestamp <= r[0].timestamp
  {
    match Latest(s, SubInt64(t, lookback), t)
    case None => []
    case Some(i) => [s[i]]
  }

  /** The samples of s inside [start, end], in their stored order. */
  function Filter(s: seq<Sample>, start: int, end: int): (r: seq<Sample>)
    ensures |r| <= |s|
    ensures forall x :: x in r <==> x in s && InWindow(x, start, end)
    decreases |s|
  {
    if s == [] then []
    else
      var init := s[..|s| - 1];
      var x := s[|s| - 1];
      assert s == init + [x];
      Filter(init, start, end) + (if InWindow(x, start, end) then [x] else [])
  }

  /** Filtering distributes over concatenation: the stored order is kept. */
  lemma {:induction false} FilterConcat(a: seq<Sample>, b: seq<Sample>, start: int, end: int)
    ensures Filter(a + b, start, end) == Filter(a, start, end) + Filter(b, start, end)
    decreases |b|
  {
    if b == [] {
      assert a + b == a;
    } else {
      var init := b[..|b| - 1];
      assert (a + b)[..|a + b| - 1] == a + init;
      assert (a + b)[|a + b| - 1] == b[|b| - 1];
      FilterConcat(a, init, start, end);
    }
  }

  /** Filtering keeps every in-range sample as often as it occurs, and no other. */
  lemma {:induction false} FilterCounts(s: seq<Sample>, start: int, end: int, x: Sample)
    ensures multiset(Filter(s, start, end))[x] == if InWindow(x, start, end) then multiset(s)[x] else 0
    decreases |s|
  {
    if s != [] {
      var init := s[..|s| - 1];
      assert s == init + [s[|s| - 1]];
      FilterCounts(init, start, end, x);
    }
  }

  /**
   * The store after x is appended under key fp: the series there is
   * extended and keeps its metric, or a new series for m is created; no
   * other key changes.
   */
  function AppendAt(st: map<uint64, Series>, fp: uint64, m: Metric, x: Sample): (r: map<uint64, Series>)
    ensures r.Keys == st.Keys + {fp}
    ensures forall k :: k in st && k != fp ==> r[k] == st[k]
    ensures fp in st ==> r[fp].metric == st[fp].metric && r[fp].samples == st[fp].samples + [x]
    ensures fp !in st ==> r[fp] == Series(m, [x])
  {
    if fp in st then st[fp := Series(st[fp].metric, Samples.Append(st[fp].samples, x))]
    else st[fp := Series(m, [x])]
  }

  /**
   * The store after a successful Append of x for metric m: the series under
   * m's fingerprint ends with x, and every other series is kept.
   */
  function AppendTo(st: map<uint64, Series>, m: Metric, x: Sample): (r: map<uint64, Series>)
    ensures var fp := Fingerprint(m);
      && r.Keys == st.Keys + {fp}
      && r[fp].samples == (if fp in st then st[fp].samples else []) + [x]
      && r[fp].metric == (if fp in st then st[fp].metric else m)
      && forall k :: k in st && k != fp ==> r[k] == st[k]
  {
    AppendAt(st, Fingerprint(m), m, x)
  }

  /** The store after appending every sample of xs, in order, under key fp. */
  function AppendAll(st: map<uint64, Series>, fp: uint64, m: Metric, xs: seq<Sample>): map<uint64, Series>
    decreases |xs|
  {
    if xs == [] then st else AppendAt(AppendAll(st, fp, m, xs[..|xs| - 1]), fp, m, xs[|xs| - 1])
  }

  /**
   * k appends for one metric leave exactly those k samples, in order, after
   * the ones already stored, and leave every other series alone.
   */
  lemma {:induction false} AppendAllSamples(st: map<uint64, Series>, fp: uint64, m: Metric, xs: seq<Sample>)
    requires xs != []
    ensures AppendAll(st, fp, m, xs).Keys == st.Keys + {fp}
    ensures AppendAll(st, fp, m, xs)[fp].samples == (if fp in st then st[fp].samples else []) + xs
    ensures forall k :: k in st && k != fp ==> AppendAll(st, fp, m, xs)[k] == st[k]
    decreases |xs|
  {
    var init := xs[..|xs| - 1];
    if init == [] {
      assert xs == [xs[0]];
    } else {
      AppendAllSamples(st, fp, m, init);
      assert init + [xs[|xs| - 1]] == xs;
    }
  }

  /** Both ends of the default lookback window are inclusive. */
  lemma LookbackWindowInclusive(x: Sample, t: int64)
    requires t - DefaultLookbackDelta >= -TwoTo63
    ensures Lookback([x], t, DefaultLookbackDelta) == [x] <==> t - DefaultLookbackDelta <= x.timestamp <= t
  {
    assert [x][0] == x;
  }

  /**
   * Near the least int64 the window start `t - lookback` wraps around to a
   * large positive value, above t, and the query finds nothing.
   */
  lemma LookbackWrapsNearMinimum(s: seq<Sample>, t: int64, lookback: int64)
    requires lookback > 0 && t - lookback < -TwoTo63
    ensures Lookback(s, t, lookback) == []
  {
    assert SubInt64(t, lookback) > t;
  }

  /** A store that has just received a sample at time t answers a query at t with a sample at t. */
  lemma QueryAfterAppend(s: seq<Sample>, x: Sample)
    requires x.timestamp - DefaultLookbackDelta >= -TwoTo63
    ensures Lookback(s + [x], x.timestamp, DefaultLookbackDelta) != []
    ensures Lookback(s + [x], x.timestamp, DefaultLookbackDelta)[0].timestamp == x.timestamp
    ensures (forall y :: y in s ==> y.timestamp != x.timestamp) ==>
      Lookback(s + [x], x.timestamp, DefaultLookbackDelta) == [x]
  {
    var t := x.timestamp;
    var s' := s + [x];
    var lo := SubInt64(t, DefaultLookbackDelta);
    assert s'[|s|] == x;
    assert InWindow(x, lo, t);
  }

  /** Each key is the fingerprint of its series' metric, and no series is empty. */
  ghost predicate ValidStore(st: map<uint64, Series>) {
    forall fp :: fp in st ==> Fingerprint(st[fp].metric) == fp && st[fp].samples != []
  }

  /**
   * The scan of queryWithLookback: keeps the first sample in [lo, hi] whose
   * timestamp is above every earlier kept one.
   */
  method LatestIn(samples: seq<Sample>, lo: int64, hi: int64) returns (result: Option<nat>)
    ensures result == Latest(samples, lo, hi)
  {
    result := None;
    for i := 0 to |samples|
      invariant result == Latest(samples[..i], lo, hi)
    {
      assert samples[..i + 1][..i] == samples[..i];
      var s := samples[i];
      if s.timestamp >= lo && s.timestamp <= hi {
        if result.None? || samples[result.value].timestamp < s.timestamp {
          result := Some(i);
        }
      }
    }
    assert samples[..|samples|] == samples;
  }

  /** The scan of QueryRange: appends each sample in [start, end], in order. */
  method FilterIn(samples: seq<Sample>, start: int64, end: int64) returns (filtered: seq<Sample>)
    ensures filtered == Filter(samples, start, end)
  {
    filtered := [];
    for i := 0 to |samples|
      invariant filtered == Filter(samples[..i], start, end)
    {
      assert samples[..i + 1][..i] == samples[..i];
      var s := samples[i];
      if s.timestamp >= start && s.timestamp <= end {
        filtered := filtered + [s];
      }
    }
    assert samples[..|samples|] == samples;
  }

  /** A successful append keeps the store well formed. */
  lemma AppendToValid(st: map<uint64, Series>, m: Metric, x: Sample)
    requires ValidStore(st)
    ensures ValidStore(AppendTo(st, m, x))
  {
    var r := AppendTo(st, m, x);
    forall fp | fp in r
      ensures Fingerprint(r[fp].metric) == fp && r[fp].samples != []
    {
      if fp != Fingerprint(m) {
        assert r[fp] == st[fp];
      }
    }
  }

  class MemoryStorage {
    var series: map<uint64, Series>

    ghost predicate Valid()
      reads this
    {
      ValidStore(series)
    }

    /** NewMemoryStorage: an empty store. */
    constructor()
      ensures Valid() && series == map[]
    {
      series := map[];
    }

    /**
     * Append: a missing metric is reported before a missing sample; either
     * way nothing changes. Otherwise the sample is added at the end of the
     * metric's series, which is created when absent.
     */
    method Append(m: Option<Metric>, x: Option<Sample>) returns (err: Option<StorageError>)
      modifies this
      ensures m.None? ==> err == Some(NilMetric) && series == old(series)
      ensures m.Some? && x.None? ==> err == Some(NilSample) && series == old(series)
      ensures m.Some? && x.Some? ==> err == None && series == AppendTo(old(series), m.value, x.value)
      ensures old(Valid()) ==> Valid()
    {
      if m.None? {
        return Some(NilMetric);
      }
      if x.None? {
        return Some(NilSample);
      }
      var fp := Fingerprint(m.value);
      if fp in series {
        var stored := series[fp];
        series := series[fp := Series(stored.metric, Samples.Append(stored.samples, x.value))];
      } else {
        series := series[fp := Series(m.value, [x.value])];
      }
      err := None;
      if old(Valid()) {
        AppendToValid(old(series), m.value, x.value);
      }
    }

    /** Query: a lookback query with the default five-minute window. */
    method Query(m: Option<Metric>, t: int64) returns (r: Result<Series, StorageError>)
      ensures m.None? ==> r == Err(NilMetric)
      ensures m.Some? && Fingerprint(m.value) !in series ==> r == Err(SeriesNotFound)
      ensures m.Some? && Fingerprint(m.value) in series ==>
        r == Ok(Series(series[Fingerprint(m.value)].metric,
                       Lookback(series[Fingerprint(m.value)].samples, t, DefaultLookbackDelta)))
    {
      if m.None? {
        return Err(NilMetric);
      }
      r := QueryWithLookback(m.value, t, DefaultLookbackDelta);
    }

    /**
     * queryWithLookback: scans the series for the latest sample with a
     * timestamp in [t - lookback, t]; the subtraction wraps as int64.
     */
    method QueryWithLookback(m: Metric, t: int64, lookback: int64) returns (r: Result<Series, StorageError>)
      ensures Fingerprint(m) !in series ==> r == Err(SeriesNotFound)
      ensures Fingerprint(m) in series ==>
        r == Ok(Series(series[Fingerprint(m)].metric, Lookback(series[Fingerprint(m)].samples, t, lookback)))
    {
      var fp := Fingerprint(m);
      if fp !in series {
        return Err(SeriesNotFound);
      }
      var stored := series[fp];
      var result := LatestIn(stored.samples, SubInt64(t, lookback), t);
      if result.None? {
        return Ok(Series(stored.metric, []));
      }
      return Ok(Series(stored.metric, [stored.samples[result.value]]));
    }

    /**
     * QueryRange: a missing metric, then an empty range (start > end), then
     * an unknown series are errors; otherwise the samples with
     * start <= timestamp <= end, in stored order.
     */
    method QueryRange(m: Option<Metric>, start: int64, end: int64) returns (r: Result<Series, StorageError>)
      ensures m.None? ==> r == Err(NilMetric)
      ensures m.Some? && start > end ==> r == Err(TimeRange)
      ensures m.Some? && start <= end && Fingerprint(m.value) !in series ==> r == Err(SeriesNotFound)
      ensures m.Some? && start <= end && Fingerprint(m.value) in series ==>
        r == Ok(Series(series[Fingerprint(m.value)].metric, Filter(series[Fingerprint(m.value)].samples, start, end)))
    {
      if m.None? {
        return Err(NilMetric);
      }
      if start > end {
        return Err(TimeRange);
      }
      var fp := Fingerprint(m.value);
      if fp !in series {
        return Err(SeriesNotFound);
      }
      var stored := series[fp];
      var filtered := FilterIn(stored.samples, start, end);
      return Ok(Series(stored.metric, filtered));
    }

    /** Delete: removes the metric's series if present; absent is not an error. */
    method Delete(m: Option<Metric>) returns (err: Option<StorageError>)
      modifies this
      ensures m.None? ==> err == Some(NilMetric) && series == old(series)
      ensures m.Some? ==> err == None && series == old(series) - {Fingerprint(m.value)}
      ensures old(Valid()) ==> Valid()
    {
      if m.None? {
        return Some(NilMetric);
      }
      series := series - {Fingerprint(m.value)};
      err := None;
    }
  }
}
