/** The span metrics processor: aggregation of spans into the metric families, and the export. */
module SpanMetrics {
  import opened PData
  import opened Words
  import opened MetricKeys
  import opened SpanHistograms
  import opened SpanKeys

  function Latency(span: Span): real {
    if span.end > span.start then (span.end - span.start) as real / 1_000_000.0 else 0.0
  }

  /** A span that is too old or excluded is not aggregated. */
  predicate Skipped(c: Config, span: Span, now: int)
    requires 0 <= span.start < TWO64
  { Signed(span.start) < now - c.skipOlderThan || span.excluded }

  predicate External(span: Span) { span.kind.Client? && span.remoteAddr.Some? }

  predicate DbCall(span: Span) { !span.kind.Server? && "db.system" in span.attrs }

  predicate StartsOk(spans: seq<Span>) { forall i :: 0 <= i < |spans| ==> 0 <= spans[i].start < TWO64 }

  predicate ScopesOk(scopes: seq<seq<Span>>) { forall j :: 0 <= j < |scopes| ==> StartsOk(scopes[j]) }

  predicate TracesOk(traces: seq<ResourceSpans>) { forall i :: 0 <= i < |traces| ==> ScopesOk(traces[i].scopes) }

  // ---------------------------------------------------------------- what aggregation does

  /** What the processor has been told and can look up: the table of names and the four families. */
  datatype Views = Views(seen: Tracked, latency: View, calls: View, external: View, db: View)

  function Seen(c: Config, seen: Tracked, service: string, span: Span): Tracked {
    Track(seen, c.maxServices, c.maxOperations, service, span.name)
  }

  /** One span under the latency or call key: the key is made from the table as it was, the labels from the next one. */
  function Common(c: Config, v: View, seen: Tracked, service: string, span: Span, dims: seq<Dimension>,
                  resource: Attributes): View
    requires ConfigOk(c) && 0 <= span.start < TWO64
  {
    Observed(v, KeyOf(c, span.start, KeyValues(c, seen, service, span, dims, resource)),
             LabelsOf(c, Seen(c, seen, service, span), service, span, dims, resource), Latency(span))
  }

  function AfterExternal(c: Config, v: View, service: string, span: Span, resource: Attributes): View
    requires ConfigOk(c) && 0 <= span.start < TWO64
  {
    if External(span) then
      var addr, dims := span.remoteAddr.value, c.externalDimensions;
      Observed(v, KeyOf(c, span.start, CustomKeyValues(c, service, span, Some(addr), dims, resource)),
               CustomLabels(service, span, Some(addr), dims, resource), Latency(span))
    else v
  }

  function AfterDb(c: Config, v: View, service: string, span: Span, resource: Attributes): View
    requires ConfigOk(c) && 0 <= span.start < TWO64
  {
    if DbCall(span) then
      Observed(v, KeyOf(c, span.start, CustomKeyValues(c, service, span, None, c.dbDimensions, resource)),
               CustomLabels(service, span, None, c.dbDimensions, resource), Latency(span))
    else v
  }

  function AfterSpan(c: Config, v: Views, service: string, span: Span, resource: Attributes, now: int): Views
    requires ConfigOk(c) && 0 <= span.start < TWO64
  {
    if Skipped(c, span, now) then v
    else
      var seen := Seen(c, v.seen, service, span);
      Views(Seen(c, seen, service, span),
            Common(c, v.latency, v.seen, service, span, c.dimensions, resource),
            Common(c, v.calls, seen, service, span, c.callDimensions, resource),
            AfterExternal(c, v.external, service, span, resource),
            AfterDb(c, v.db, service, span, resource))
  }

  function AfterSpans(c: Config, v: Views, service: string, spans: seq<Span>, resource: Attributes, now: int): Views
    requires ConfigOk(c) && StartsOk(spans)
  {
    if spans == [] then v
    else
      var n := |spans| - 1;
      AfterSpan(c, AfterSpans(c, v, service, spans[..n], resource, now), service, spans[n], resource, now)
  }

  function AfterScopes(c: Config, v: Views, service: string, scopes: seq<seq<Span>>, resource: Attributes, now: int)
    : Views
    requires ConfigOk(c) && ScopesOk(scopes)
  {
    if scopes == [] then v
    else
      var n := |scopes| - 1;
      AfterSpans(c, AfterScopes(c, v, service, scopes[..n], resource, now), service, scopes[n], resource, now)
  }

  /** The service name as text; one that is no string counts as empty. */
  function ServiceName(resource: Attributes): string
    requires "service.name" in resource
  {
    match resource["service.name"]
    case Str(s) => s
    case _ => ""
  }

  /** Spans of a resource without a service name are passed over. */
  function AfterResource(c: Config, v: Views, rspans: ResourceSpans, now: int): Views
    requires ConfigOk(c) && ScopesOk(rspans.scopes)
  {
    if "service.name" in rspans.attrs then
      AfterScopes(c, v, ServiceName(rspans.attrs), rspans.scopes,
                  rspans.attrs["signoz.collector.id" := Str(c.instanceId)], now)
    else v
  }

  function AfterTraces(c: Config, v: Views, traces: seq<ResourceSpans>, now: int): Views
    requires ConfigOk(c) && TracesOk(traces)
  {
    if traces == [] then v
    else
      var n := |traces| - 1;
      AfterResource(c, AfterTraces(c, v, traces[..n], now), traces[n], now)
  }

  // One more of each, for the loops.

  lemma OneSpanMore(c: Config, v: Views, service: string, spans: seq<Span>, k: nat, resource: Attributes, now: int)
    requires ConfigOk(c) && StartsOk(spans) && k < |spans|
    ensures AfterSpans(c, v, service, spans[..k + 1], resource, now)
         == AfterSpan(c, AfterSpans(c, v, service, spans[..k], resource, now), service, spans[k], resource, now)
  {
    assert spans[..k + 1][..k] == spans[..k];
  }

  lemma OneScopeMore(c: Config, v: Views, service: string, scopes: seq<seq<Span>>, j: nat, resource: Attributes,
                     now: int)
    requires ConfigOk(c) && ScopesOk(scopes) && j < |scopes|
    ensures AfterScopes(c, v, service, scopes[..j + 1], resource, now)
         == AfterSpans(c, AfterScopes(c, v, service, scopes[..j], resource, now), service, scopes[j], resource, now)
  {
    assert scopes[..j + 1][..j] == scopes[..j];
  }

  lemma OneResourceMore(c: Config, v: Views, traces: seq<ResourceSpans>, i: nat, now: int)
    requires ConfigOk(c) && TracesOk(traces) && i < |traces|
    ensures AfterTraces(c, v, traces[..i + 1], now)
         == AfterResource(c, AfterTraces(c, v, traces[..i], now), traces[i], now)
  {
    assert traces[..i + 1][..i] == traces[..i];
  }

  // ---------------------------------------------------------------- laws of aggregation

  // The laws speak of the fields of spans and of what is in the logs, not of the functions above.

  /** Not excluded, and started no longer ago than the window; a start from 2^63 on is read as negative. */
  predicate InWindow(c: Config, span: Span, now: int) {
    !span.excluded && span.start + c.skipOlderThan >= now + (if span.start >= TWO63 then TWO64 else 0)
  }

  /** A latency in milliseconds: that of the span in nanoseconds, divided by a million, and none when the span ends
      before it starts. */
  predicate TellsLatency(x: real, span: Span) {
    x * 1_000_000.0 == (if span.end >= span.start then span.end - span.start else 0) as real
  }

  lemma SpanFacts(c: Config, span: Span, now: int)
    requires 0 <= span.start < TWO64
    ensures Skipped(c, span, now) <==> !InWindow(c, span, now)
    ensures TellsLatency(Latency(span), span)
    ensures External(span) <==> span.kind == Client && span.remoteAddr != None
    ensures DbCall(span) <==> span.kind != Server && "db.system" in span.attrs.Keys
  {}

  /** One observation more, under `key`, whose labels are `labels` unless it had some. */
  predicate Observes(v: View, w: View, key: string, labels: Labels) {
    && |w.log| == |v.log| + 1 && v.log <= w.log && w.log[|v.log|].key == key
    && w.held.Keys == v.held.Keys + {key}
    && (key !in v.held ==> w.held[key] == labels) && forall k :: k in v.held ==> w.held[k] == v.held[k]
  }

  lemma ObservedObserves(v: View, key: string, labels: Labels, x: real)
    ensures Observes(v, Observed(v, key, labels, x), key, labels)
  {}

  // Which keys and labels one span gets: of the latency dimensions and the table before it in the latency family, of
  // the call dimensions and the table after that in the call family, and of their own dimensions in the other two.

  lemma LatencyIsObserved(c: Config, v: Views, service: string, span: Span, r: Attributes, now: int)
    requires ConfigOk(c) && 0 <= span.start < TWO64 && InWindow(c, span, now)
    ensures Observes(v.latency, AfterSpan(c, v, service, span, r, now).latency,
                     KeyOf(c, span.start, KeyValues(c, v.seen, service, span, c.dimensions, r)),
                     LabelsOf(c, Seen(c, v.seen, service, span), service, span, c.dimensions, r))
  {
    SpanFacts(c, span, now);
    ObservedObserves(v.latency, KeyOf(c, span.start, KeyValues(c, v.seen, service, span, c.dimensions, r)),
                     LabelsOf(c, Seen(c, v.seen, service, span), service, span, c.dimensions, r), Latency(span));
  }

  lemma CallIsObserved(c: Config, v: Views, service: string, span: Span, r: Attributes, now: int)
    requires ConfigOk(c) && 0 <= span.start < TWO64 && InWindow(c, span, now)
    ensures var once := Seen(c, v.seen, service, span);
      var w := AfterSpan(c, v, service, span, r, now);
      && w.seen == Seen(c, once, service, span)
      && Observes(v.calls, w.calls, KeyOf(c, span.start, KeyValues(c, once, service, span, c.callDimensions, r)),
                  LabelsOf(c, w.seen, service, span, c.callDimensions, r))
  {
    SpanFacts(c, span, now);
    var once := Seen(c, v.seen, service, span);
    ObservedObserves(v.calls, KeyOf(c, span.start, KeyValues(c, once, service, span, c.callDimensions, r)),
                     LabelsOf(c, Seen(c, once, service, span), service, span, c.callDimensions, r), Latency(span));
  }

  lemma ExternalCallIsObserved(c: Config, v: Views, service: string, span: Span, r: Attributes, now: int)
    requires ConfigOk(c) && 0 <= span.start < TWO64 && InWindow(c, span, now)
    requires span.kind == Client && span.remoteAddr != None
    ensures Observes(v.external, AfterSpan(c, v, service, span, r, now).external,
                     KeyOf(c, span.start, CustomKeyValues(c, service, span, span.remoteAddr, c.externalDimensions, r)),
                     CustomLabels(service, span, span.remoteAddr, c.externalDimensions, r))
  {
    SpanFacts(c, span, now);
    ObservedObserves(v.external,
                     KeyOf(c, span.start, CustomKeyValues(c, service, span, span.remoteAddr, c.externalDimensions, r)),
                     CustomLabels(service, span, span.remoteAddr, c.externalDimensions, r), Latency(span));
  }

  lemma DbCallIsObserved(c: Config, v: Views, service: string, span: Span, r: Attributes, now: int)
    requires ConfigOk(c) && 0 <= span.start < TWO64 && InWindow(c, span, now)
    requires span.kind != Server && "db.system" in span.attrs.Keys
    ensures Observes(v.db, AfterSpan(c, v, service, span, r, now).db,
                     KeyOf(c, span.start, CustomKeyValues(c, service, span, None, c.dbDimensions, r)),
                     CustomLabels(service, span, None, c.dbDimensions, r))
  {
    SpanFacts(c, span, now);
    ObservedObserves(v.db, KeyOf(c, span.start, CustomKeyValues(c, service, span, None, c.dbDimensions, r)),
                     CustomLabels(service, span, None, c.dbDimensions, r), Latency(span));
  }

  /** The spans of a resource are aggregated under the text of its service name, empty for one that is no string, and
      with its attributes and the collector id; without a service name they are passed over. */
  lemma ResourceIsRead(c: Config, v: Views, rspans: ResourceSpans, now: int, service: string, r: Attributes)
    requires ConfigOk(c) && ScopesOk(rspans.scopes)
    requires "service.name" in rspans.attrs ==>
      var name := rspans.attrs["service.name"];
      (name.Str? ==> service == name.s) && (!name.Str? ==> service == "")
    requires "signoz.collector.id" in r && r["signoz.collector.id"] == Str(c.instanceId)
    requires r.Keys == rspans.attrs.Keys + {"signoz.collector.id"}
    requires forall n :: n in rspans.attrs && n != "signoz.collector.id" ==> r[n] == rspans.attrs[n]
    ensures AfterResource(c, v, rspans, now) ==
      if "service.name" in rspans.attrs then AfterScopes(c, v, service, rspans.scopes, r, now) else v
  {
    if "service.name" in rspans.attrs {
      var name := rspans.attrs["service.name"];
      assert service == ServiceName(rspans.attrs);
      assert r == rspans.attrs["signoz.collector.id" := Str(c.instanceId)];
    }
  }

  /** `done` with the spans of a scope that are aggregated, in order. */
  function Aggregated(c: Config, done: seq<Span>, spans: seq<Span>, now: int): seq<Span> {
    if spans == [] then done
    else
      var n := |spans| - 1;
      var front := Aggregated(c, done, spans[..n], now);
      if InWindow(c, spans[n], now) then front + [spans[n]] else front
  }

  function AggregatedScopes(c: Config, done: seq<Span>, scopes: seq<seq<Span>>, now: int): seq<Span> {
    if scopes == [] then done
    else
      var n := |scopes| - 1;
      Aggregated(c, AggregatedScopes(c, done, scopes[..n], now), scopes[n], now)
  }

  /** The spans of a batch that are aggregated, in order: those of resources with a service name. */
  function AggregatedTraces(c: Config, traces: seq<ResourceSpans>, now: int): seq<Span> {
    if traces == [] then []
    else
      var n := |traces| - 1;
      var front := AggregatedTraces(c, traces[..n], now);
      if "service.name" in traces[n].attrs then AggregatedScopes(c, front, traces[n].scopes, now) else front
  }

  /** The calls of clients to a remote address. */
  function ExternalCalls(spans: seq<Span>): seq<Span> {
    if spans == [] then []
    else
      var n := |spans| - 1;
      ExternalCalls(spans[..n]) + if spans[n].kind == Client && spans[n].remoteAddr != None then [spans[n]] else []
  }

  /** The spans that name a database system, but for those of servers. */
  function DbCalls(spans: seq<Span>): seq<Span> {
    if spans == [] then []
    else
      var n := |spans| - 1;
      DbCalls(spans[..n]) + if spans[n].kind != Server && "db.system" in spans[n].attrs.Keys then [spans[n]] else []
  }

  /** `w` is `v` after an observation of each of the spans, in order, and without a change to the labels there were. */
  ghost predicate Grown(v: View, w: View, spans: seq<Span>) {
    && |w.log| == |v.log| + |spans| && v.log <= w.log
    && (forall i :: 0 <= i < |spans| ==> TellsLatency(w.log[|v.log| + i].latency, spans[i]))
    && v.held.Keys <= w.held.Keys && forall k :: k in v.held ==> w.held[k] == v.held[k]
  }

  ghost predicate GrownBy(v: Views, w: Views, spans: seq<Span>) {
    && Grown(v.latency, w.latency, spans) && Grown(v.calls, w.calls, spans)
    && Grown(v.external, w.external, ExternalCalls(spans)) && Grown(v.db, w.db, DbCalls(spans))
  }

  lemma ObservedGrows(v: View, w: View, spans: seq<Span>, key: string, labels: Labels, x: real, span: Span)
    requires Grown(v, w, spans) && TellsLatency(x, span)
    ensures Grown(v, Observed(w, key, labels, x), spans + [span])
  {}

  lemma SpanGrows(c: Config, v: Views, w: Views, done: seq<Span>, service: string, span: Span, resource: Attributes,
                  now: int)
    requires ConfigOk(c) && 0 <= span.start < TWO64 && GrownBy(v, w, done) && InWindow(c, span, now)
    ensures GrownBy(v, AfterSpan(c, w, service, span, resource, now), done + [span])
  {
    SpanFacts(c, span, now);
    CommonGrows(c, v.latency, w.latency, done, w.seen, service, span, c.dimensions, resource);
    CommonGrows(c, v.calls, w.calls, done, Seen(c, w.seen, service, span), service, span, c.callDimensions, resource);
    ExternalGrows(c, v.external, w.external, done, service, span, resource);
    DbGrows(c, v.db, w.db, done, service, span, resource);
  }

  lemma CommonGrows(c: Config, v: View, w: View, spans: seq<Span>, seen: Tracked, service: string, span: Span,
                    dims: seq<Dimension>, resource: Attributes)
    requires ConfigOk(c) && 0 <= span.start < TWO64 && Grown(v, w, spans)
    ensures Grown(v, Common(c, w, seen, service, span, dims, resource), spans + [span])
  {
    SpanFacts(c, span, 0);
    ObservedGrows(v, w, spans, KeyOf(c, span.start, KeyValues(c, seen, service, span, dims, resource)),
                  LabelsOf(c, Seen(c, seen, service, span), service, span, dims, resource), Latency(span), span);
  }

  lemma ExternalGrows(c: Config, v: View, w: View, spans: seq<Span>, service: string, span: Span, resource: Attributes)
    requires ConfigOk(c) && 0 <= span.start < TWO64 && Grown(v, w, ExternalCalls(spans))
    ensures Grown(v, AfterExternal(c, w, service, span, resource), ExternalCalls(spans + [span]))
  {
    var calls := ExternalCalls(spans);
    SpanFacts(c, span, 0);
    assert (spans + [span])[..|spans|] == spans && calls + [] == calls;
    if External(span) {
      var addr, dims := span.remoteAddr.value, c.externalDimensions;
      ObservedGrows(v, w, calls, KeyOf(c, span.start, CustomKeyValues(c, service, span, Some(addr), dims, resource)),
                    CustomLabels(service, span, Some(addr), dims, resource), Latency(span), span);
    }
  }

  lemma DbGrows(c: Config, v: View, w: View, spans: seq<Span>, service: string, span: Span, resource: Attributes)
    requires ConfigOk(c) && 0 <= span.start < TWO64 && Grown(v, w, DbCalls(spans))
    ensures Grown(v, AfterDb(c, w, service, span, resource), DbCalls(spans + [span]))
  {
    var calls := DbCalls(spans);
    SpanFacts(c, span, 0);
    assert (spans + [span])[..|spans|] == spans && calls + [] == calls;
    if DbCall(span) {
      ObservedGrows(v, w, calls,
                    KeyOf(c, span.start, CustomKeyValues(c, service, span, None, c.dbDimensions, resource)),
                    CustomLabels(service, span, None, c.dbDimensions, resource), Latency(span), span);
    }
  }

  lemma {:induction false} SpansGrow(c: Config, v: Views, w: Views, done: seq<Span>, service: string, spans: seq<Span>,
                                     resource: Attributes, now: int)
    requires ConfigOk(c) && StartsOk(spans) && GrownBy(v, w, done)
    ensures GrownBy(v, AfterSpans(c, w, service, spans, resource, now), Aggregated(c, done, spans, now))
  {
    if spans != [] {
      var n := |spans| - 1;
      SpansGrow(c, v, w, done, service, spans[..n], resource, now);
      SpanFacts(c, spans[n], now);
      if InWindow(c, spans[n], now) {
        SpanGrows(c, v, AfterSpans(c, w, service, spans[..n], resource, now), Aggregated(c, done, spans[..n], now),
                  service, spans[n], resource, now);
      }
    }
  }

  lemma {:induction false} ScopesGrow(c: Config, v: Views, w: Views, done: seq<Span>, service: string,
                                      scopes: seq<seq<Span>>, resource: Attributes, now: int)
    requires ConfigOk(c) && ScopesOk(scopes) && GrownBy(v, w, done)
    ensures GrownBy(v, AfterScopes(c, w, service, scopes, resource, now), AggregatedScopes(c, done, scopes, now))
  {
    if scopes != [] {
      var n := |scopes| - 1;
      ScopesGrow(c, v, w, done, service, scopes[..n], resource, now);
      SpansGrow(c, v, AfterScopes(c, w, service, scopes[..n], resource, now),
                AggregatedScopes(c, done, scopes[..n], now), service, scopes[n], resource, now);
    }
  }

  /** A batch adds to the latency and call families one observation for each span in the window of a resource with a
      service name, to the external family one for each such call of a client with a remote address, and to the db
      family one for each that names a database system and is not of a server: in order, with the latency of the span.
      It never changes the labels of a key that has some. */
  lemma {:induction false} BatchGrows(c: Config, v: Views, traces: seq<ResourceSpans>, now: int)
    requires ConfigOk(c) && TracesOk(traces)
    ensures GrownBy(v, AfterTraces(c, v, traces, now), AggregatedTraces(c, traces, now))
  {
    if traces != [] {
      var n := |traces| - 1;
      BatchGrows(c, v, traces[..n], now);
      if "service.name" in traces[n].attrs {
        ScopesGrow(c, v, AfterTraces(c, v, traces[..n], now), AggregatedTraces(c, traces[..n], now),
                   ServiceName(traces[n].attrs), traces[n].scopes,
                   traces[n].attrs["signoz.collector.id" := Str(c.instanceId)], now);
      }
    }
  }

  // ---------------------------------------------------------------- the processor

  datatype Export = Export(calls: map<string, Point>, latency: map<string, Point>,
                           external: map<string, Point>, db: map<string, Point>)

  class Processor {
    const config: Config
    const latency: Family
    const calls: Family
    const external: Family
    const db: Family
    var serviceToOperations: Tracked

    ghost predicate Apart()
    {
      && latency != calls && latency != external && latency != db && calls != external && calls != db && external != db
      && latency.cache != calls.cache && latency.cache != external.cache && latency.cache != db.cache
      && calls.cache != external.cache && calls.cache != db.cache && external.cache != db.cache
      && latency.delta == calls.delta == external.delta == db.delta == config.delta
    }

    ghost predicate Valid()
      reads this, latency, latency.cache, calls, calls.cache, external, external.cache, db, db.cache
    {
      && Apart() && ConfigOk(config)
      && latency.Valid() && calls.Valid() && external.Valid() && db.Valid()
      && Bounded(serviceToOperations, config.maxServices, config.maxOperations)
    }

    ghost function Look(): Views
      reads this, latency, latency.cache, calls, calls.cache, external, external.cache, db, db.cache
    { Views(serviceToOperations, latency.Look(), calls.Look(), external.Look(), db.Look()) }

    constructor (config: Config, bounds: seq<real>, cacheSize: nat)
      requires ConfigOk(config) && cacheSize >= 1
      ensures Valid() && this.config == config
      ensures Look() == Views(map[], View([], map[]), View([], map[]), View([], map[]), View([], map[]))
    {
      this.config := config;
      latency := new Family(config.delta, bounds, cacheSize);
      calls := new Family(config.delta, bounds, cacheSize);
      external := new Family(config.delta, bounds, cacheSize);
      db := new Family(config.delta, bounds, cacheSize);
      serviceToOperations := map[];
    }

    /** Builds the key of a span and enters its names in the bounded table. */
    method BuildMetricKey(service: string, span: Span, dims: seq<Dimension>, resource: Attributes) returns (key: string)
      requires ConfigOk(config) && 0 <= span.start < TWO64
      requires Bounded(serviceToOperations, config.maxServices, config.maxOperations)
      modifies this`serviceToOperations
      ensures key == KeyOf(config, span.start,
                           KeyValues(config, old(serviceToOperations), service, span, dims, resource))
      ensures serviceToOperations == Seen(config, old(serviceToOperations), service, span)
      ensures Bounded(serviceToOperations, config.maxServices, config.maxOperations)
    {
      TrackBounded(serviceToOperations, config.maxServices, config.maxOperations, service, span.name);
      key := KeyOf(config, span.start, KeyValues(config, serviceToOperations, service, span, dims, resource));
      serviceToOperations := Track(serviceToOperations, config.maxServices, config.maxOperations, service, span.name);
    }

    /** Aggregates one span: in the latency and call families always, in the others when it is such a call. */
    method AggregateMetricsForSpan(service: string, span: Span, resource: Attributes, now: int)
      requires Valid() && 0 <= span.start < TWO64
      modifies this`serviceToOperations, latency, latency.cache, calls, calls.cache
      modifies external, external.cache, db, db.cache
      ensures Valid()
      ensures Look() == AfterSpan(config, old(Look()), service, span, resource, now)
    {
      if Skipped(config, span, now) { return; }
      AggregateCommon(service, span, resource);
      label Remote:
      AggregateRemote(service, span, resource);
      assert unchanged@Remote(latency, latency.cache, calls, calls.cache);
    }

    method AggregateCommon(service: string, span: Span, resource: Attributes)
      requires Apart() && ConfigOk(config) && latency.Valid() && calls.Valid() && 0 <= span.start < TWO64
      requires Bounded(serviceToOperations, config.maxServices, config.maxOperations)
      modifies this`serviceToOperations, latency`histograms, latency`log, latency.cache
      modifies calls`histograms, calls`log, calls.cache
      ensures latency.Valid() && calls.Valid()
      ensures Bounded(serviceToOperations, config.maxServices, config.maxOperations)
      ensures var seen := Seen(config, old(serviceToOperations), service, span);
        && serviceToOperations == Seen(config, seen, service, span)
        && latency.Look() == Common(config, old(latency.Look()), old(serviceToOperations), service, span,
                                    config.dimensions, resource)
        && calls.Look() == Common(config, old(calls.Look()), seen, service, span, config.callDimensions, resource)
    {
      AggregateIn(latency, service, span, config.dimensions, resource);
      label Calls:
      AggregateIn(calls, service, span, config.callDimensions, resource);
      assert unchanged@Calls(latency, latency.cache);
    }

    method AggregateRemote(service: string, span: Span, resource: Attributes)
      requires Apart() && ConfigOk(config) && external.Valid() && db.Valid() && 0 <= span.start < TWO64
      modifies external`histograms, external`log, external.cache, db`histograms, db`log, db.cache
      ensures external.Valid() && db.Valid()
      ensures external.Look() == AfterExternal(config, old(external.Look()), service, span, resource)
      ensures db.Look() == AfterDb(config, old(db.Look()), service, span, resource)
    {
      AggregateExternal(service, span, resource);
      AggregateDb(service, span, resource);
    }

    /** Aggregates a span in one of the first two families. */
    method AggregateIn(f: Family, service: string, span: Span, dims: seq<Dimension>, resource: Attributes)
      requires ConfigOk(config) && f.Valid() && 0 <= span.start < TWO64
      requires Bounded(serviceToOperations, config.maxServices, config.maxOperations)
      modifies this`serviceToOperations, f`histograms, f`log, f.cache
      ensures f.Valid() && Bounded(serviceToOperations, config.maxServices, config.maxOperations)
      ensures serviceToOperations == Seen(config, old(serviceToOperations), service, span)
      ensures f.Look() == Common(config, old(f.Look()), old(serviceToOperations), service, span, dims, resource)
    {
      var key := BuildMetricKey(service, span, dims, resource);
      f.Observe(key, LabelsOf(config, serviceToOperations, service, span, dims, resource), Latency(span));
    }

    method AggregateExternal(service: string, span: Span, resource: Attributes)
      requires ConfigOk(config) && external.Valid() && 0 <= span.start < TWO64
      modifies external`histograms, external`log, external.cache
      ensures external.Valid()
      ensures external.Look() == AfterExternal(config, old(external.Look()), service, span, resource)
    {
      if External(span) {
        var addr := span.remoteAddr.value;
        var dims := config.externalDimensions;
        var key := KeyOf(config, span.start, CustomKeyValues(config, service, span, Some(addr), dims, resource));
        external.Observe(key, CustomLabels(service, span, Some(addr), dims, resource), Latency(span));
      }
    }

    method AggregateDb(service: string, span: Span, resource: Attributes)
      requires ConfigOk(config) && db.Valid() && 0 <= span.start < TWO64
      modifies db`histograms, db`log, db.cache
      ensures db.Valid()
      ensures db.Look() == AfterDb(config, old(db.Look()), service, span, resource)
    {
      if DbCall(span) {
        var key :=
          KeyOf(config, span.start, CustomKeyValues(config, service, span, None, config.dbDimensions, resource));
        db.Observe(key, CustomLabels(service, span, None, config.dbDimensions, resource), Latency(span));
      }
    }

    method AggregateScope(service: string, spans: seq<Span>, resource: Attributes, now: int)
      requires Valid() && StartsOk(spans)
      modifies this`serviceToOperations, latency, latency.cache, calls, calls.cache
      modifies external, external.cache, db, db.cache
      ensures Valid() && Look() == AfterSpans(config, old(Look()), service, spans, resource, now)
    {
      var k := 0;
      while k < |spans|
        invariant 0 <= k <= |spans| && Valid()
        invariant Look() == AfterSpans(config, old(Look()), service, spans[..k], resource, now)
      {
        OneSpanMore(config, old(Look()), service, spans, k, resource, now);
        AggregateMetricsForSpan(service, spans[k], resource, now);
        k := k + 1;
      }
      assert spans[..k] == spans;
    }

    method AggregateScopes(service: string, scopes: seq<seq<Span>>, resource: Attributes, now: int)
      requires Valid() && ScopesOk(scopes)
      modifies this`serviceToOperations, latency, latency.cache, calls, calls.cache
      modifies external, external.cache, db, db.cache
      ensures Valid() && Look() == AfterScopes(config, old(Look()), service, scopes, resource, now)
    {
      var j := 0;
      while j < |scopes|
        invariant 0 <= j <= |scopes| && Valid()
        invariant Look() == AfterScopes(config, old(Look()), service, scopes[..j], resource, now)
      {
        OneScopeMore(config, old(Look()), service, scopes, j, resource, now);
        AggregateScope(service, scopes[j], resource, now);
        j := j + 1;
      }
      assert scopes[..j] == scopes;
    }

    /** Spans of a resource without a service name are passed over. */
    method AggregateResource(rspans: ResourceSpans, now: int)
      requires Valid() && ScopesOk(rspans.scopes)
      modifies this`serviceToOperations, latency, latency.cache, calls, calls.cache
      modifies external, external.cache, db, db.cache
      ensures Valid() && Look() == AfterResource(config, old(Look()), rspans, now)
    {
      if "service.name" in rspans.attrs {
        var resource := rspans.attrs["signoz.collector.id" := Str(config.instanceId)];
        AggregateScopes(ServiceName(rspans.attrs), rspans.scopes, resource, now);
      }
    }

    method AggregateMetrics(traces: seq<ResourceSpans>, now: int)
      requires Valid() && TracesOk(traces)
      modifies this`serviceToOperations, latency, latency.cache, calls, calls.cache
      modifies external, external.cache, db, db.cache
      ensures Valid() && Look() == AfterTraces(config, old(Look()), traces, now)
    {
      var i := 0;
      while i < |traces|
        invariant 0 <= i <= |traces| && Valid()
        invariant Look() == AfterTraces(config, old(Look()), traces[..i], now)
      {
        OneResourceMore(config, old(Look()), traces, i, now);
        AggregateResource(traces[i], now);
        i := i + 1;
      }
      assert traces[..i] == traces;
    }

    /** The data points of all families, or nothing if a label map is missing somewhere. */
    method CollectAll(now: int, start: int) returns (m: Option<Export>)
      requires Apart()
      requires latency.cache.Valid() && calls.cache.Valid() && external.cache.Valid() && db.cache.Valid()
      modifies latency.cache, calls.cache, external.cache, db.cache
      ensures latency.cache.Valid() && calls.cache.Valid() && external.cache.Valid() && db.cache.Valid()
      ensures latency.Snap() == old(latency.Snap()) && calls.Snap() == old(calls.Snap())
      ensures external.Snap() == old(external.Snap()) && db.Snap() == old(db.Snap())
      ensures m.Some? <==>
        && calls.histograms.Keys <= calls.cache.Held().Keys && latency.histograms.Keys <= latency.cache.Held().Keys
        && external.histograms.Keys <= external.cache.Held().Keys && db.histograms.Keys <= db.cache.Held().Keys
      ensures m.Some? ==>
        && Covers(m.value.calls, calls.histograms, calls.cache.Held(), now, start)
        && Covers(m.value.latency, latency.histograms, latency.cache.Held(), now, start)
        && Covers(m.value.external, external.histograms, external.cache.Held(), now, start)
        && Covers(m.value.db, db.histograms, db.cache.Held(), now, start)
    {
      var c := calls.Collect(now, start);
      if c.None? { return None; }
      var l := latency.Collect(now, start);
      if l.None? { return None; }
      var e := external.Collect(now, start);
      if e.None? { return None; }
      var d := db.Collect(now, start);
      if d.None? { return None; }
      m := Some(Export(c.value, l.value, e.value, d.value));
    }

    method FinishCommon()
      requires Apart() && latency.Valid() && calls.Valid()
      modifies latency, latency.cache, calls, calls.cache
      ensures latency.Valid() && calls.Valid()
      ensures Cleared(config.delta, old(latency.Snap()), latency.Snap())
      ensures Cleared(config.delta, old(calls.Snap()), calls.Snap())
    {
      latency.Finish();
      calls.Finish();
    }

    method FinishRemote()
      requires Apart() && external.Valid() && db.Valid()
      modifies external, external.cache, db, db.cache
      ensures external.Valid() && db.Valid()
      ensures Cleared(config.delta, old(external.Snap()), external.Snap())
      ensures Cleared(config.delta, old(db.Snap()), db.Snap())
    {
      external.Finish();
      db.Finish();
    }

    /** Builds the metrics and clears what they cover. It never fails, whatever the caches have evicted: every
        histogram in memory is exported as it stands, with the labels and the times of its key. */
    method BuildMetrics(now: int, start: int) returns (m: Option<Export>)
      requires Valid()
      modifies latency, latency.cache, calls, calls.cache, external, external.cache, db, db.cache
      ensures Valid() && m.Some?
      ensures Exported(config.delta, m.value.calls, old(calls.Snap()), calls.Snap(), now, start)
      ensures Exported(config.delta, m.value.latency, old(latency.Snap()), latency.Snap(), now, start)
      ensures Exported(config.delta, m.value.external, old(external.Snap()), external.Snap(), now, start)
      ensures Exported(config.delta, m.value.db, old(db.Snap()), db.Snap(), now, start)
    {
      m := CollectAll(now, start);
      if m.Some? {
        FinishCommon();
        label Remote:
        FinishRemote();
        assert unchanged@Remote(latency, latency.cache, calls, calls.cache);
      }
    }
  }

  /** Delta conservation: at any time the spans aggregated under a key are those in the data points built so far and
      those still in memory, and the latter are counted once each over the buckets. */
  lemma DeltaConservation(f: Family, k: string)
    requires f.Valid() && f.delta
    ensures |ForKey(f.log, k)| == At(f.emitted, k) + CountOf(f.histograms, k)
    ensures k in f.histograms ==> SumNat(f.histograms[k].bucketCounts) == f.histograms[k].count
  {
    assert KeyOk(f.delta, f.bounds, f.histograms, f.log, f.left, f.emitted, k);
    SummaryMeaning(f.bounds, f.Window(k));
  }
}
