/** One family of span metrics: a histogram per key, the cache of label maps for the keys, and the export of both. */
module SpanHistograms {
  import opened PData
  import opened DimensionsCache
  import opened MetricKeys

  /** The labels of a data point: copies of attribute values, with their types. */
  type Labels = map<string, Value>

  // ---------------------------------------------------------------- latency buckets

  /** The index that the binary search over the bucket bounds ends at. */
  function Search(bounds: seq<real>, x: real, lo: nat, hi: nat): (i: nat)
    requires lo <= hi <= |bounds|
    ensures lo <= i <= hi
    decreases hi - lo
  {
    if lo == hi then lo
    else
      var mid := lo + (hi - lo) / 2;
      if bounds[mid] >= x then Search(bounds, x, lo, mid) else Search(bounds, x, mid + 1, hi)
  }

  function BucketIndex(bounds: seq<real>, x: real): nat { Search(bounds, x, 0, |bounds|) }

  predicate Ascending(bounds: seq<real>) { forall i, j :: 0 <= i < j < |bounds| ==> bounds[i] <= bounds[j] }

  /** With ascending bounds the bucket of a latency is the first whose upper bound is not below it. */
  lemma {:induction false} SearchFindsBucket(bounds: seq<real>, x: real, lo: nat, hi: nat)
    requires lo <= hi <= |bounds| && Ascending(bounds)
    requires (forall j :: 0 <= j < lo ==> bounds[j] < x) && (forall j :: hi <= j < |bounds| ==> bounds[j] >= x)
    ensures var i := Search(bounds, x, lo, hi);
      (forall j :: 0 <= j < i ==> bounds[j] < x) && (forall j :: i <= j < |bounds| ==> bounds[j] >= x)
    decreases hi - lo
  {
    if lo < hi {
      var mid := lo + (hi - lo) / 2;
      if bounds[mid] >= x {
        assert forall j :: mid < j < |bounds| ==> bounds[j] >= bounds[mid];
        SearchFindsBucket(bounds, x, lo, mid);
      } else {
        assert forall j :: 0 <= j < mid ==> bounds[j] <= bounds[mid];
        SearchFindsBucket(bounds, x, mid + 1, hi);
      }
    }
  }

  /** `sort.SearchFloat64s`. */
  method SearchFloat64s(bounds: seq<real>, x: real) returns (index: nat)
    ensures index == BucketIndex(bounds, x) <= |bounds|
    ensures Ascending(bounds) ==> IsBucket(bounds, x, index)
  {
    var i, j := 0, |bounds|;
    while i < j
      invariant 0 <= i <= j <= |bounds|
      invariant Search(bounds, x, i, j) == BucketIndex(bounds, x)
    {
      var h := i + (j - i) / 2;
      if bounds[h] >= x { j := h; } else { i := h + 1; }
    }
    index := i;
    if Ascending(bounds) { SearchFindsBucket(bounds, x, 0, |bounds|); }
  }

  /** A latency is in bucket `i` when it is above all bounds before the bucket's own and not above that one. */
  predicate IsBucket(bounds: seq<real>, x: real, i: nat) {
    && i <= |bounds| && (forall j :: 0 <= j < i ==> bounds[j] < x) && (i < |bounds| ==> x <= bounds[i])
  }

  // ---------------------------------------------------------------- histograms

  datatype Histogram = Histogram(count: nat, sum: real, bucketCounts: seq<nat>)

  function EmptyHistogram(bounds: seq<real>): Histogram {
    Histogram(0, 0.0, seq(|bounds| + 1, _ => 0))
  }

  /** What a series of latencies amounts to. */
  function Summary(bounds: seq<real>, xs: seq<real>): (h: Histogram)
    ensures |h.bucketCounts| == |bounds| + 1 && h.count == |xs|
  {
    if xs == [] then EmptyHistogram(bounds)
    else
      var h, x := Summary(bounds, xs[..|xs| - 1]), xs[|xs| - 1];
      var i := BucketIndex(bounds, x);
      Histogram(h.count + 1, h.sum + x, h.bucketCounts[i := h.bucketCounts[i] + 1])
  }

  function SumNat(s: seq<nat>): nat { if s == [] then 0 else s[0] + SumNat(s[1..]) }

  function SumReal(xs: seq<real>): real { if xs == [] then 0.0 else SumReal(xs[..|xs| - 1]) + xs[|xs| - 1] }

  function InBucket(bounds: seq<real>, xs: seq<real>, i: nat): nat {
    if xs == [] then 0
    else InBucket(bounds, xs[..|xs| - 1], i) + if BucketIndex(bounds, xs[|xs| - 1]) == i then 1 else 0
  }

  lemma {:induction false} SumNatUpdate(s: seq<nat>, i: nat, v: nat)
    requires i < |s|
    ensures SumNat(s[i := v]) + s[i] == SumNat(s) + v
  {
    if i > 0 {
      assert s[i := v][1..] == s[1..][i - 1 := v];
      SumNatUpdate(s[1..], i - 1, v);
    } else {
      assert s[i := v][1..] == s[1..];
    }
  }

  lemma {:induction false} SumNatZero(s: seq<nat>)
    requires forall i :: 0 <= i < |s| ==> s[i] == 0
    ensures SumNat(s) == 0
  {
    if s != [] { SumNatZero(s[1..]); }
  }

  /** A histogram counts each latency in exactly one bucket, its own. */
  lemma {:induction false} SummaryMeaning(bounds: seq<real>, xs: seq<real>)
    ensures var h := Summary(bounds, xs);
      && h.count == |xs| == SumNat(h.bucketCounts) && h.sum == SumReal(xs)
      && forall i :: 0 <= i <= |bounds| ==> h.bucketCounts[i] == InBucket(bounds, xs, i)
  {
    if xs == [] {
      SumNatZero(EmptyHistogram(bounds).bucketCounts);
    } else {
      var front := xs[..|xs| - 1];
      SummaryMeaning(bounds, front);
      var h, i := Summary(bounds, front), BucketIndex(bounds, xs[|xs| - 1]);
      SumNatUpdate(h.bucketCounts, i, h.bucketCounts[i] + 1);
    }
  }

  function CountIn(bounds: seq<real>, xs: seq<real>, i: nat): nat {
    if xs == [] then 0
    else CountIn(bounds, xs[..|xs| - 1], i) + if IsBucket(bounds, xs[|xs| - 1], i) then 1 else 0
  }

  /** With ascending bounds, a bucket counts the latencies above the bound before it and not above its own. */
  lemma {:induction false} BucketsExactly(bounds: seq<real>, xs: seq<real>, i: nat)
    requires Ascending(bounds) && i <= |bounds|
    ensures Summary(bounds, xs).bucketCounts[i] == CountIn(bounds, xs, i)
  {
    if xs != [] {
      var x := xs[|xs| - 1];
      BucketsExactly(bounds, xs[..|xs| - 1], i);
      SearchFindsBucket(bounds, x, 0, |bounds|);
      OneBucket(bounds, x, i, BucketIndex(bounds, x));
    }
  }

  lemma OneBucket(bounds: seq<real>, x: real, i: nat, j: nat)
    requires i <= |bounds| && IsBucket(bounds, x, j)
    ensures IsBucket(bounds, x, i) <==> i == j
  {}

  // ---------------------------------------------------------------- the record of what was aggregated

  datatype Observation = Observation(key: string, latency: real)

  /** The latencies aggregated under `k`, in order. */
  ghost function ForKey(log: seq<Observation>, k: string): seq<real> {
    if log == [] then []
    else
      var rest, o := ForKey(log[..|log| - 1], k), log[|log| - 1];
      if o.key == k then rest + [o.latency] else rest
  }

  lemma ForKeySnoc(log: seq<Observation>, o: Observation, k: string)
    ensures ForKey(log + [o], k) == ForKey(log, k) + if o.key == k then [o.latency] else []
  {
    assert (log + [o])[..|log|] == log;
  }

  /** A data point of a family, with its times. */
  datatype Point = Point(start: int, end: int, histogram: Histogram, labels: Labels)

  /** One point for each histogram, with its key's labels and times. */
  ghost predicate Covers(points: map<string, Point>, hs: map<string, Histogram>, held: map<string, Labels>,
                         now: int, processorStart: int)
  {
    && points.Keys == hs.Keys <= held.Keys
    && forall k :: k in points ==>
         && points[k].histogram == hs[k] && points[k].labels == held[k]
         && (points[k].start, points[k].end) == ParseTimesFromKeyOrNow(k, now, processorStart)
  }

  /** What a family has been told, and the labels it can look up. */
  datatype View = View(log: seq<Observation>, held: map<string, Labels>)

  /** One observation more; a key that has labels keeps them. */
  function Observed(v: View, key: string, labels: Labels, latency: real): View {
    View(v.log + [Observation(key, latency)], if key in v.held then v.held else v.held[key := labels])
  }

  /** A family before or after an export. */
  datatype Snapshot = Snapshot(log: seq<Observation>, held: map<string, Labels>, histograms: map<string, Histogram>,
                               emitted: map<string, nat>)

  /** What an export leaves: nothing in delta mode, else the histograms whose labels are still held; and the counts of
      all the histograms there were are added to those of the data points built so far. */
  ghost predicate Cleared(delta: bool, before: Snapshot, after: Snapshot) {
    && after.log == before.log
    && (forall k :: At(after.emitted, k) == At(before.emitted, k) + CountOf(before.histograms, k))
    && after.histograms.Keys == before.histograms.Keys * after.held.Keys && after.held.Keys <= before.held.Keys
    && (forall k :: k in after.histograms ==> after.histograms[k] == before.histograms[k])
    && (forall k :: k in after.held ==> after.held[k] == before.held[k])
    && (delta ==> after.held == map[])
  }

  /** An export of a family: a data point for each histogram there was, and the family cleared. */
  ghost predicate Exported(delta: bool, points: map<string, Point>, before: Snapshot, after: Snapshot,
                           now: int, processorStart: int)
  {
    Covers(points, before.histograms, before.held, now, processorStart) && Cleared(delta, before, after)
  }

  function At(m: map<string, nat>, k: string): nat { if k in m then m[k] else 0 }

  function CountOf(hs: map<string, Histogram>, k: string): nat { if k in hs then hs[k].count else 0 }

  /** The latencies of `k` in the log from position `from`. */
  ghost function From(log: seq<Observation>, from: nat, k: string): seq<real> {
    if from <= |log| then ForKey(log[from..], k) else []
  }

  /** The bookkeeping for one key: what of the log has left memory, what has been emitted, what is in memory. */
  ghost predicate KeyOk(delta: bool, bounds: seq<real>, hs: map<string, Histogram>, log: seq<Observation>,
                        left: map<string, nat>, emitted: map<string, nat>, k: string)
  {
    var w := From(log, At(left, k), k);
    && At(left, k) <= |log|
    && (k in hs <==> w != [])
    && (k in hs ==> hs[k] == Summary(bounds, w))
    && (delta ==> |ForKey(log, k)| == At(emitted, k) + |w|)
  }

  ghost predicate Books(delta: bool, bounds: seq<real>, hs: map<string, Histogram>, log: seq<Observation>,
                        left: map<string, nat>, emitted: map<string, nat>)
  {
    forall k :: KeyOk(delta, bounds, hs, log, left, emitted, k)
  }

  /** A histogram with one more latency. */
  function Updated(bounds: seq<real>, h: Histogram, x: real): Histogram
    requires |h.bucketCounts| == |bounds| + 1
  {
    var i := BucketIndex(bounds, x);
    Histogram(h.count + 1, h.sum + x, h.bucketCounts[i := h.bucketCounts[i] + 1])
  }

  lemma SummarySnoc(bounds: seq<real>, xs: seq<real>, x: real)
    ensures Summary(bounds, xs + [x]) == Updated(bounds, Summary(bounds, xs), x)
  {
    assert (xs + [x])[..|xs|] == xs;
  }

  lemma FromSnoc(log: seq<Observation>, from: nat, o: Observation, k: string)
    requires from <= |log|
    ensures From(log + [o], from, k)
         == if o.key == k then From(log, from, k) + [o.latency] else From(log, from, k)
  {
    assert (log + [o])[from..] == log[from..] + [o];
    ForKeySnoc(log[from..], o, k);
    assert From(log, from, k) + [] == From(log, from, k);
  }

  /** The histogram stored for `k`, or the one a new key starts from. */
  function Current(bounds: seq<real>, hs: map<string, Histogram>, k: string): Histogram {
    if k in hs then hs[k] else EmptyHistogram(bounds)
  }

  lemma ObserveKeepsKey(delta: bool, bounds: seq<real>, hs: map<string, Histogram>, log: seq<Observation>,
                        left: map<string, nat>, emitted: map<string, nat>, o: Observation, hs': map<string, Histogram>,
                        k: string)
    requires KeyOk(delta, bounds, hs, log, left, emitted, k)
    requires KeyOk(delta, bounds, hs, log, left, emitted, o.key)
    requires |Current(bounds, hs, o.key).bucketCounts| == |bounds| + 1
    requires hs' == hs[o.key := Updated(bounds, Current(bounds, hs, o.key), o.latency)]
    ensures KeyOk(delta, bounds, hs', log + [o], left, emitted, k)
  {
    FromSnoc(log, At(left, k), o, k);
    ForKeySnoc(log, o, k);
    if o.key == k {
      var w := From(log, At(left, k), k);
      assert Current(bounds, hs, k) == Summary(bounds, w);
      SummarySnoc(bounds, w, o.latency);
    }
  }

  lemma ObserveKeepsAll(delta: bool, bounds: seq<real>, hs: map<string, Histogram>, log: seq<Observation>,
                        left: map<string, nat>, emitted: map<string, nat>, o: Observation, hs': map<string, Histogram>)
    requires Books(delta, bounds, hs, log, left, emitted)
    requires |Current(bounds, hs, o.key).bucketCounts| == |bounds| + 1
    requires hs' == hs[o.key := Updated(bounds, Current(bounds, hs, o.key), o.latency)]
    ensures Books(delta, bounds, hs', log + [o], left, emitted)
  {
    forall k ensures KeyOk(delta, bounds, hs', log + [o], left, emitted, k) {
      ObserveKeepsKey(delta, bounds, hs, log, left, emitted, o, hs', k);
    }
  }

  /** After an export: the keys in `gone` have left memory, and all keys with a histogram have been emitted. */
  lemma ExportKeepsKey(delta: bool, bounds: seq<real>, hs: map<string, Histogram>, log: seq<Observation>,
                       left: map<string, nat>, emitted: map<string, nat>, kept: map<string, Histogram>,
                       left': map<string, nat>, emitted': map<string, nat>, k: string)
    requires KeyOk(delta, bounds, hs, log, left, emitted, k)
    requires kept.Keys <= hs.Keys && (forall j :: j in kept ==> kept[j] == hs[j]) && (delta ==> kept == map[])
    requires At(left', k) == if k in hs && k !in kept then |log| else At(left, k)
    requires At(emitted', k) == At(emitted, k) + CountOf(hs, k)
    ensures KeyOk(delta, bounds, kept, log, left', emitted', k)
  {
    if k in hs && k !in kept { assert log[|log|..] == []; }
  }

  ghost function EmittedAfter(emitted: map<string, nat>, hs: map<string, Histogram>): (e: map<string, nat>)
    ensures forall k :: At(e, k) == At(emitted, k) + CountOf(hs, k)
  { map k | k in emitted.Keys + hs.Keys :: At(emitted, k) + CountOf(hs, k) }

  ghost function LeftAfter(left: map<string, nat>, gone: set<string>, n: nat): (l: map<string, nat>)
    ensures forall k :: At(l, k) == if k in gone then n else At(left, k)
  { map k | k in left.Keys + gone :: if k in gone then n else At(left, k) }

  class Family {
    const delta: bool
    const bounds: seq<real>
    const cache: Cache<Labels>
    var histograms: map<string, Histogram>

    ghost var log: seq<Observation>          // all observations, in order
    ghost var left: map<string, nat>         // per key: how much of the log has left memory
    ghost var emitted: map<string, nat>      // per key: the sum of the counts of its data points, in delta mode

    /** The latencies of `k` still in memory. */
    ghost function Window(k: string): seq<real>
      reads this
    { From(log, At(left, k), k) }

    /** Each histogram sums up the observations of its key that are in memory, and its label map can be looked up. */
    ghost predicate Valid()
      reads this, cache
    {
      && cache.Valid() && histograms.Keys <= cache.Held().Keys
      && Books(delta, bounds, histograms, log, left, emitted)
    }

    ghost function Snap(): Snapshot
      reads this, cache
    { Snapshot(log, cache.Held(), histograms, emitted) }

    ghost function Look(): View
      reads this, cache
    { View(log, cache.Held()) }

    constructor (delta: bool, bounds: seq<real>, cacheSize: nat)
      requires cacheSize >= 1
      ensures Valid() && fresh(cache) && Snap() == Snapshot([], map[], map[], map[])
      ensures this.delta == delta && this.bounds == bounds
    {
      this.delta, this.bounds := delta, bounds;
      cache := new Cache<Labels>(cacheSize);
      histograms := map[];
      log, left, emitted := [], map[], map[];
    }

    /** Aggregates one span under `key`; `labels` are kept if the key has none yet. */
    method Observe(key: string, labels: Labels, latency: real)
      requires Valid()
      modifies this`histograms, this`log, cache
      ensures Valid()
      ensures Look() == Observed(old(Look()), key, labels, latency)
    {
      var known := cache.Get(key);
      if known.None? {
        var _ := cache.Add(key, labels);
      }
      UpdateHistogram(key, latency);
    }

    method UpdateHistogram(key: string, latency: real)
      requires Valid() && key in cache.Held()
      modifies this`histograms, this`log
      ensures Valid() && log == old(log) + [Observation(key, latency)]
    {
      assert KeyOk(delta, bounds, histograms, log, left, emitted, key);
      ghost var hs, before := histograms, log;
      var histo := Current(bounds, histograms, key);
      assert |histo.bucketCounts| == |bounds| + 1;
      var index := SearchFloat64s(bounds, latency);
      histo := histo.(count := histo.count + 1, sum := histo.sum + latency,
                      bucketCounts := histo.bucketCounts[index := histo.bucketCounts[index] + 1]);
      histograms := histograms[key := histo];
      log := log + [Observation(key, latency)];
      ObserveKeepsAll(delta, bounds, hs, before, left, emitted, Observation(key, latency), histograms);
    }

    /** The data points of the family. Fails when a key has no label map. */
    method Collect(now: int, processorStart: int) returns (r: Option<map<string, Point>>)
      requires cache.Valid()
      modifies cache
      ensures cache.Valid() && Snap() == old(Snap())
      ensures r.Some? <==> histograms.Keys <= cache.Held().Keys
      ensures r.Some? ==> Covers(r.value, histograms, cache.Held(), now, processorStart)
    {
      var points: map<string, Point>, rest := map[], histograms.Keys;
      while rest != {}
        invariant rest <= histograms.Keys && points.Keys == histograms.Keys - rest
        invariant cache.Valid() && cache.Held() == old(cache.Held())
        invariant points.Keys <= cache.Held().Keys
        invariant forall k :: k in points ==>
          && points[k].histogram == histograms[k] && points[k].labels == cache.Held()[k]
          && (points[k].start, points[k].end) == ParseTimesFromKeyOrNow(k, now, processorStart)
      {
        var key :| key in rest;
        var times := ParseTimesFromKeyOrNow(key, now, processorStart);
        var dimensions := cache.Get(key);
        if dimensions.None? {
          return None;
        }
        points := points[key := Point(times.0, times.1, histograms[key], dimensions.value)];
        rest := rest - {key};
      }
      r := Some(points);
    }

    /** After the points were built: forgets what was evicted, and in delta mode everything. */
    method Finish()
      requires Valid()
      modifies this`histograms, this`left, this`emitted, cache
      ensures Valid() && cache.evictedItems == map[]
      ensures Cleared(delta, old(Snap()), Snap())
      ensures !delta ==> cache.Held() == old(cache.live)
    {
      ghost var live, held := cache.live, cache.Held();
      assert forall k :: k in live ==> k in held && held[k] == live[k];
      cache.RemoveEvictedItems();
      assert map[] + live == live;
      var kept := map k | k in histograms && cache.Contains(k) :: histograms[k];
      if delta {
        kept := map[];
        cache.Purge();
      }
      assert kept.Keys == histograms.Keys * cache.Held().Keys;
      Retire(kept);
    }

    /** Keeps the given histograms only; the data points of all have been built. */
    method Retire(kept: map<string, Histogram>)
      requires Books(delta, bounds, histograms, log, left, emitted)
      requires kept.Keys <= histograms.Keys && (forall k :: k in kept ==> kept[k] == histograms[k])
      requires delta ==> kept == map[]
      modifies this`histograms, this`left, this`emitted
      ensures Books(delta, bounds, histograms, log, left, emitted)
      ensures histograms == kept
      ensures forall k :: At(emitted, k) == old(At(emitted, k)) + CountOf(old(histograms), k)
    {
      ghost var hs := histograms;
      emitted := EmittedAfter(emitted, hs);
      left := LeftAfter(left, hs.Keys - kept.Keys, |log|);
      histograms := kept;
      forall k ensures KeyOk(delta, bounds, histograms, log, left, emitted, k) {
        ExportKeepsKey(delta, bounds, hs, log, old(left), old(emitted), kept, left, emitted, k);
      }
    }
  }
}
