/** Keys and labels of a span: what goes into the key under which it is aggregated, what into the labels of its data
    points, and exactly when spans that share a key have the same labels. */
module SpanKeys {
  import opened PData
  import opened Words
  import opened MetricKeys
  import opened SpanHistograms

  const OVERFLOW_SERVICE: string := "overflow_service"
  const OVERFLOW_OPERATION: string := "overflow_operation"
  const HTTP_STATUS: string := "http.status_code"
  const HTTP_STATUS_STABLE: string := "http.response.status_code"

  /** Attributes are values with a type. */
  type Attributes = map<string, Value>

  /** What Double, Bytes, Slice and Map values print as. */
  type Printer = Value -> string

  /** The text of a value, `AsString`. */
  function AsString(show: Printer, v: Value): string {
    match v
    case Empty => ""
    case Str(s) => s
    case Bool(b) => if b then "true" else "false"
    case Int(i) => FormatInt(i)
    case _ => show(v)
  }

  datatype Kind = Unspecified | Internal | Server | Client | Producer | Consumer

  datatype Status = Unset | Ok | Error

  /** `remoteAddr` is what `getRemoteAddress` finds; `excluded` whether an exclusion pattern matches. */
  datatype Span = Span(name: string, kind: Kind, status: Status, start: int, end: int,
                       attrs: Attributes, remoteAddr: Option<string>, excluded: bool)

  datatype ResourceSpans = ResourceSpans(attrs: Attributes, scopes: seq<seq<Span>>)

  datatype Dimension = Dimension(name: string, default: Option<string>)

  function KindStr(k: Kind): string {
    match k
    case Unspecified => "SPAN_KIND_UNSPECIFIED"
    case Internal => "SPAN_KIND_INTERNAL"
    case Server => "SPAN_KIND_SERVER"
    case Client => "SPAN_KIND_CLIENT"
    case Producer => "SPAN_KIND_PRODUCER"
    case Consumer => "SPAN_KIND_CONSUMER"
  }

  function StatusStr(s: Status): string {
    match s
    case Unset => "STATUS_CODE_UNSET"
    case Ok => "STATUS_CODE_OK"
    case Error => "STATUS_CODE_ERROR"
  }

  // ---------------------------------------------------------------- dimensions

  /** The span's own attribute first, then the resource's, then the configured default. */
  function DimensionValue(d: Dimension, span: Attributes, resource: Attributes): Option<Value> {
    if d.name in span then Some(span[d.name])
    else if d.name == HTTP_STATUS && HTTP_STATUS_STABLE in span then Some(span[HTTP_STATUS_STABLE])
    else if d.name in resource then Some(resource[d.name])
    else if d.default.Some? then Some(Str(d.default.value))
    else None
  }

  /** Whether the resource has the attribute too, unless the stable HTTP status attribute of the span stood in. */
  predicate FoundInResource(d: Dimension, span: Attributes, resource: Attributes) {
    d.name in resource && (d.name in span || !(d.name == HTTP_STATUS && HTTP_STATUS_STABLE in span))
  }

  /** The texts of the dimensions that have a value, in order. */
  function DimensionTexts(show: Printer, dims: seq<Dimension>, span: Attributes, resource: Attributes): seq<string> {
    if dims == [] then []
    else
      var rest := DimensionTexts(show, dims[1..], span, resource);
      match DimensionValue(dims[0], span, resource)
      case Some(v) => [AsString(show, v)] + rest
      case None => rest
  }

  /** The same with the marked text that a custom key gets for each dimension found in the resource. */
  function CustomTexts(show: Printer, dims: seq<Dimension>, span: Attributes, resource: Attributes): seq<string> {
    if dims == [] then []
    else
      var rest := CustomTexts(show, dims[1..], span, resource);
      match DimensionValue(dims[0], span, resource)
      case Some(v) =>
        var text := AsString(show, v);
        [text] + (if FoundInResource(dims[0], span, resource) then [Marked(text)] else []) + rest
      case None => rest
  }

  function Marked(text: string): string { "resource_" + text }

  function DimensionLabels(dims: seq<Dimension>, span: Attributes, resource: Attributes, base: Labels): Labels {
    if dims == [] then base
    else
      var d := dims[0];
      match DimensionValue(d, span, resource)
      case None => DimensionLabels(dims[1..], span, resource, base)
      case Some(v) =>
        var own := base[d.name := v];
        var both := if FoundInResource(d, span, resource) then own[Marked(d.name) := v] else own;
        DimensionLabels(dims[1..], span, resource, both)
  }

  // ---------------------------------------------------------------- bounded service and operation names

  type Tracked = map<string, set<string>>

  function EffectiveService(seen: Tracked, maxServices: nat, service: string): string {
    if |seen| > maxServices then OVERFLOW_SERVICE else service
  }

  function EffectiveOperation(seen: Tracked, maxOperations: nat, service: string, operation: string): string {
    if service in seen && |seen[service]| > maxOperations then OVERFLOW_OPERATION else operation
  }

  /** The table after a key for `service` and `operation` was built. */
  function Track(seen: Tracked, maxServices: nat, maxOperations: nat, service: string, operation: string): Tracked {
    var s := EffectiveService(seen, maxServices, service);
    var o := EffectiveOperation(seen, maxOperations, s, operation);
    seen[s := (if s in seen then seen[s] else {}) + {o}]
  }

  /** However many names the spans carry, the table holds at most two services, and per service two operations,
      more than configured; the last of them is the overflow name. */
  ghost predicate Bounded(seen: Tracked, maxServices: nat, maxOperations: nat) {
    && |seen| <= maxServices + 2 && (|seen| == maxServices + 2 ==> OVERFLOW_SERVICE in seen)
    && forall s :: s in seen ==>
         |seen[s]| <= maxOperations + 2 && (|seen[s]| == maxOperations + 2 ==> OVERFLOW_OPERATION in seen[s])
  }

  lemma OneMore(xs: set<string>, x: string)
    ensures |xs + {x}| == |xs| + if x in xs then 0 else 1
  {
    if x in xs { assert xs + {x} == xs; }
  }

  lemma TrackBounded(seen: Tracked, maxServices: nat, maxOperations: nat, service: string, operation: string)
    requires Bounded(seen, maxServices, maxOperations)
    ensures Bounded(Track(seen, maxServices, maxOperations, service, operation), maxServices, maxOperations)
  {
    var s := EffectiveService(seen, maxServices, service);
    var o := EffectiveOperation(seen, maxOperations, s, operation);
    var ops := if s in seen then seen[s] else {};
    OneMore(seen.Keys, s);
    OneMore(ops, o);
    assert Track(seen, maxServices, maxOperations, service, operation).Keys == seen.Keys + {s};
  }

  // ---------------------------------------------------------------- keys and labels of a span

  datatype Config = Config(delta: bool, interval: int, maxServices: nat, maxOperations: nat, skipOlderThan: int,
                           instanceId: string, dimensions: seq<Dimension>, callDimensions: seq<Dimension>,
                           externalDimensions: seq<Dimension>, dbDimensions: seq<Dimension>, show: Printer)

  predicate ConfigOk(c: Config) { 0 < c.interval < TWO63 }

  /** The values of the key of the latency and call metrics. */
  function KeyValues(c: Config, seen: Tracked, service: string, span: Span, dims: seq<Dimension>, resource: Attributes)
    : seq<string>
  {
    var s := EffectiveService(seen, c.maxServices, service);
    [s, EffectiveOperation(seen, c.maxOperations, s, span.name), KindStr(span.kind), StatusStr(span.status)]
    + DimensionTexts(c.show, dims, span.attrs, resource)
  }

  /** The values of the key of the external and database call metrics; only the former have an address. */
  function CustomKeyValues(c: Config, service: string, span: Span, addr: Option<string>, dims: seq<Dimension>,
                           resource: Attributes): seq<string>
  {
    [service, StatusStr(span.status)] + (if addr.Some? then [addr.value] else [])
    + CustomTexts(c.show, dims, span.attrs, resource)
  }

  /** The key with or without the time bucket of the span. */
  function KeyOf(c: Config, start: int, values: seq<string>): string
    requires ConfigOk(c) && 0 <= start < TWO64
  {
    if c.delta then BucketedKey(Signed(start), c.interval, values) else Joined(values)
  }

  function BaseLabels(c: Config, seen: Tracked, service: string, span: Span): Labels {
    var s := EffectiveService(seen, c.maxServices, service);
    map["service.name" := Str(s), "operation" := Str(EffectiveOperation(seen, c.maxOperations, s, span.name)),
        "span.kind" := Str(KindStr(span.kind)), "status.code" := Str(StatusStr(span.status))]
  }

  function LabelsOf(c: Config, seen: Tracked, service: string, span: Span, dims: seq<Dimension>, resource: Attributes)
    : Labels
  { DimensionLabels(dims, span.attrs, resource, BaseLabels(c, seen, service, span)) }

  function CustomBase(service: string, span: Span, addr: Option<string>): Labels {
    var own: Labels := map["service.name" := Str(service)];
    (if addr.Some? then own["address" := Str(addr.value)] else own)["status.code" := Str(StatusStr(span.status))]
  }

  function CustomLabels(service: string, span: Span, addr: Option<string>, dims: seq<Dimension>, resource: Attributes)
    : Labels
  { DimensionLabels(dims, span.attrs, resource, CustomBase(service, span, addr)) }

  // ---------------------------------------------------------------- labels, dimension by dimension

  /** No two of the labels that dimensions and `reserved` names stand for have the same name. */
  ghost predicate NamesApart(dims: seq<Dimension>, reserved: set<string>) {
    && (forall i :: 0 <= i < |dims| ==> dims[i].name !in reserved && Marked(dims[i].name) !in reserved)
    && (forall i, j :: 0 <= i < j < |dims| ==> dims[i].name != dims[j].name)
    && (forall i, j :: 0 <= i < |dims| && 0 <= j < |dims| ==> dims[i].name != Marked(dims[j].name))
  }

  /** Two spans with their resources agree on a dimension: on its value, type included, and on whether the resource has
      it. */
  predicate Agree(d: Dimension, a: Attributes, r: Attributes, a': Attributes, r': Attributes) {
    DimensionValue(d, a, r) == DimensionValue(d, a', r') && FoundInResource(d, a, r) == FoundInResource(d, a', r')
  }

  ghost predicate AgreeOnAll(dims: seq<Dimension>, a: Attributes, r: Attributes, a': Attributes, r': Attributes) {
    forall i :: 0 <= i < |dims| ==> Agree(dims[i], a, r, a', r')
  }

  /** The labels after the first dimension. */
  function WithLabel(d: Dimension, a: Attributes, r: Attributes, base: Labels): Labels {
    match DimensionValue(d, a, r)
    case None => base
    case Some(v) =>
      var own := base[d.name := v];
      if FoundInResource(d, a, r) then own[Marked(d.name) := v] else own
  }

  lemma LabelsUnfold(dims: seq<Dimension>, a: Attributes, r: Attributes, base: Labels)
    requires dims != []
    ensures DimensionLabels(dims, a, r, base) == DimensionLabels(dims[1..], a, r, WithLabel(dims[0], a, r, base))
  {}

  lemma MarkedDiffer(a: string, b: string)
    ensures Marked(a) == Marked(b) ==> a == b
    ensures Marked(a) != a
  {
    assert Marked(a)[9..] == a && Marked(b)[9..] == b;
    assert |Marked(a)| == |a| + 9;
  }

  lemma StillApart(dims: seq<Dimension>, a: Attributes, r: Attributes, base: Labels)
    requires dims != [] && NamesApart(dims, base.Keys)
    ensures NamesApart(dims[1..], WithLabel(dims[0], a, r, base).Keys)
  {
    forall i | 0 <= i < |dims[1..]|
      ensures dims[1..][i].name !in WithLabel(dims[0], a, r, base)
      ensures Marked(dims[1..][i].name) !in WithLabel(dims[0], a, r, base)
    {
      MarkedDiffer(dims[i + 1].name, dims[0].name);
      assert dims[1..][i] == dims[i + 1];
      assert dims[0].name != Marked(dims[i + 1].name) && dims[i + 1].name != Marked(dims[0].name);
    }
  }

  /** What is in the base stays, and nothing else comes in but the labels of the dimensions. */
  lemma {:induction false} BaseStays(dims: seq<Dimension>, a: Attributes, r: Attributes, base: Labels, n: string)
    requires NamesApart(dims, base.Keys)
    ensures var labels := DimensionLabels(dims, a, r, base);
      && (n in base ==> n in labels && labels[n] == base[n])
      && (n in labels ==> n in base || exists i :: 0 <= i < |dims| && (n == dims[i].name || n == Marked(dims[i].name)))
  {
    if dims != [] {
      LabelsUnfold(dims, a, r, base);
      StillApart(dims, a, r, base);
      BaseStays(dims[1..], a, r, WithLabel(dims[0], a, r, base), n);
      assert forall i :: 0 <= i < |dims[1..]| ==> dims[1..][i] == dims[i + 1];
    }
  }

  /** The labels of dimension `i` tell its value and whether the resource has it. */
  lemma {:induction false} LabelsTell(dims: seq<Dimension>, a: Attributes, r: Attributes, base: Labels, i: nat)
    requires i < |dims| && NamesApart(dims, base.Keys)
    ensures var labels, d := DimensionLabels(dims, a, r, base), dims[i];
      && DimensionValue(d, a, r) == (if d.name in labels then Some(labels[d.name]) else None)
      && (FoundInResource(d, a, r) <==> Marked(d.name) in labels)
  {
    LabelsUnfold(dims, a, r, base);
    StillApart(dims, a, r, base);
    var next := WithLabel(dims[0], a, r, base);
    if i > 0 {
      LabelsTell(dims[1..], a, r, next, i - 1);
    } else {
      MarkedDiffer(dims[0].name, dims[0].name);
      BaseStays(dims[1..], a, r, next, dims[0].name);
      BaseStays(dims[1..], a, r, next, Marked(dims[0].name));
      OthersDiffer(dims, base.Keys);
    }
  }

  lemma OthersDiffer(dims: seq<Dimension>, reserved: set<string>)
    requires dims != [] && NamesApart(dims, reserved)
    ensures forall i :: 0 <= i < |dims[1..]| ==>
      && dims[0].name != dims[1..][i].name && dims[0].name != Marked(dims[1..][i].name)
      && Marked(dims[0].name) != dims[1..][i].name && Marked(dims[0].name) != Marked(dims[1..][i].name)
  {
    forall i | 0 <= i < |dims[1..]|
      ensures Marked(dims[0].name) != Marked(dims[1..][i].name) && dims[0].name != Marked(dims[1..][i].name)
      ensures Marked(dims[0].name) != dims[1..][i].name
    {
      MarkedDiffer(dims[0].name, dims[i + 1].name);
      assert dims[1..][i] == dims[i + 1];
    }
  }

  lemma {:induction false} AgreeingLabels(dims: seq<Dimension>, a: Attributes, r: Attributes, a': Attributes,
                                          r': Attributes, base: Labels)
    requires AgreeOnAll(dims, a, r, a', r')
    ensures DimensionLabels(dims, a, r, base) == DimensionLabels(dims, a', r', base)
  {
    if dims != [] {
      LabelsUnfold(dims, a, r, base);
      LabelsUnfold(dims, a', r', base);
      assert Agree(dims[0], a, r, a', r');
      forall i | 0 <= i < |dims[1..]| ensures Agree(dims[1..][i], a, r, a', r') {
        assert Agree(dims[i + 1], a, r, a', r');
      }
      AgreeingLabels(dims[1..], a, r, a', r', WithLabel(dims[0], a, r, base));
    }
  }

  /** Labels are equal exactly when what they start from is, and the spans agree on every dimension. */
  lemma LabelsEqualExactly(dims: seq<Dimension>, a: Attributes, r: Attributes, base: Labels,
                           a': Attributes, r': Attributes, base': Labels)
    requires base.Keys == base'.Keys && NamesApart(dims, base.Keys)
    ensures DimensionLabels(dims, a, r, base) == DimensionLabels(dims, a', r', base') <==>
      base == base' && AgreeOnAll(dims, a, r, a', r')
  {
    var labels, labels' := DimensionLabels(dims, a, r, base), DimensionLabels(dims, a', r', base');
    if labels == labels' {
      forall n | n in base ensures base[n] == base'[n] {
        BaseStays(dims, a, r, base, n);
        BaseStays(dims, a', r', base', n);
      }
      forall i | 0 <= i < |dims| ensures Agree(dims[i], a, r, a', r') {
        LabelsTell(dims, a, r, base, i);
        LabelsTell(dims, a', r', base', i);
      }
    }
    if base == base' && AgreeOnAll(dims, a, r, a', r') { AgreeingLabels(dims, a, r, a', r', base); }
  }

  // ---------------------------------------------------------------- spans that share a key

  const RESERVED: set<string> := {"service.name", "operation", "span.kind", "status.code"}

  lemma BaseLabelsEqual(c: Config, seen: Tracked, service: string, span: Span, seen': Tracked, service': string,
                        span': Span)
    ensures BaseLabels(c, seen, service, span).Keys == RESERVED
    ensures BaseLabels(c, seen, service, span) == BaseLabels(c, seen', service', span') <==>
      var s, s' := EffectiveService(seen, c.maxServices, service), EffectiveService(seen', c.maxServices, service');
      && s == s'
      && EffectiveOperation(seen, c.maxOperations, s, span.name)
           == EffectiveOperation(seen', c.maxOperations, s', span'.name)
      && KindStr(span.kind) == KindStr(span'.kind) && StatusStr(span.status) == StatusStr(span'.status)
  {
    var b, b' := BaseLabels(c, seen, service, span), BaseLabels(c, seen', service', span');
    assert |"service.name"| == 12 && |"operation"| == 9 && |"span.kind"| == 9 && |"status.code"| == 11;
    assert "operation"[0] != "span.kind"[0];
    assert b.Keys == RESERVED && b'.Keys == RESERVED;
  }

  /** Equal keys come from equal values. */
  lemma SameKeySameValues(c: Config, start: int, values: seq<string>, start': int, values': seq<string>)
    requires ConfigOk(c) && 0 <= start < TWO64 && 0 <= start' < TWO64
    requires values != [] && values' != [] && NulFree(values) && NulFree(values')
    requires KeyOf(c, start, values) == KeyOf(c, start', values')
    ensures values == values'
  {
    if c.delta {
      DeltaKeysEqual(Signed(start), values, Signed(start'), values', c.interval);
    } else {
      JoinedInjective(values, values');
    }
  }

  /** Two spans with the same key of NUL-free values have the same labels exactly when, for the tables at the time the
      labels are made, their names are the same, and they agree on every dimension: on its value, of which the key has
      the text alone, and not even that for certain when dimensions may be absent, and on whether the resource has it,
      which the key never says. The tables at the time the keys were made, `seen` and `seen'`, do not matter. */
  lemma SharedKeyLabelsExactly(c: Config, dims: seq<Dimension>,
                               seen: Tracked, later: Tracked, service: string, x: Span, r: Attributes,
                               seen': Tracked, later': Tracked, service': string, y: Span, r': Attributes)
    requires ConfigOk(c) && 0 <= x.start < TWO64 && 0 <= y.start < TWO64 && NamesApart(dims, RESERVED)
    requires var vs, vs' := KeyValues(c, seen, service, x, dims, r), KeyValues(c, seen', service', y, dims, r');
      NulFree(vs) && NulFree(vs') && KeyOf(c, x.start, vs) == KeyOf(c, y.start, vs')
    ensures LabelsOf(c, later, service, x, dims, r) == LabelsOf(c, later', service', y, dims, r') <==>
      var s, s' := EffectiveService(later, c.maxServices, service), EffectiveService(later', c.maxServices, service');
      && s == s'
      && EffectiveOperation(later, c.maxOperations, s, x.name)
           == EffectiveOperation(later', c.maxOperations, s', y.name)
      && AgreeOnAll(dims, x.attrs, r, y.attrs, r')
  {
    var vs, vs' := KeyValues(c, seen, service, x, dims, r), KeyValues(c, seen', service', y, dims, r');
    SameKeySameValues(c, x.start, vs, y.start, vs');
    assert vs[2] == KindStr(x.kind) && vs'[2] == KindStr(y.kind);
    assert vs[3] == StatusStr(x.status) && vs'[3] == StatusStr(y.status);
    BaseLabelsEqual(c, later, service, x, later', service', y);
    BaseLabelsEqual(c, later', service', y, later, service, x);
    LabelsEqualExactly(dims, x.attrs, r, BaseLabels(c, later, service, x),
                       y.attrs, r', BaseLabels(c, later', service', y));
  }

  /** The same for custom keys, which say all of the names: labels are the same exactly when the spans agree on every
      dimension. */
  lemma SharedCustomKeyLabelsExactly(c: Config, dims: seq<Dimension>,
                                     service: string, x: Span, addr: Option<string>, r: Attributes,
                                     service': string, y: Span, addr': Option<string>, r': Attributes)
    requires ConfigOk(c) && 0 <= x.start < TWO64 && 0 <= y.start < TWO64
    requires (addr.Some? <==> addr'.Some?) && NamesApart(dims, CustomBase(service, x, addr).Keys)
    requires var vs := CustomKeyValues(c, service, x, addr, dims, r);
      var vs' := CustomKeyValues(c, service', y, addr', dims, r');
      NulFree(vs) && NulFree(vs') && KeyOf(c, x.start, vs) == KeyOf(c, y.start, vs')
    ensures CustomLabels(service, x, addr, dims, r) == CustomLabels(service', y, addr', dims, r') <==>
      AgreeOnAll(dims, x.attrs, r, y.attrs, r')
  {
    var vs, vs' := CustomKeyValues(c, service, x, addr, dims, r), CustomKeyValues(c, service', y, addr', dims, r');
    SameKeySameValues(c, x.start, vs, y.start, vs');
    assert vs[0] == service && vs'[0] == service';
    assert vs[1] == StatusStr(x.status) && vs'[1] == StatusStr(y.status);
    if addr.Some? { assert vs[2] == addr.value && vs'[2] == addr'.value; }
    LabelsEqualExactly(dims, x.attrs, r, CustomBase(service, x, addr), y.attrs, r', CustomBase(service', y, addr'));
  }
}
