/** What the labels and the keys of a span say, in terms of its fields, its attributes and those of its resource. */
module SpanLabels {
  import opened PData
  import opened Words
  import opened MetricKeys
  import opened SpanHistograms
  import opened SpanKeys

  // ---------------------------------------------------------------- names

  /** A service is tracked under its own name until the table has more services than configured, and an operation until
      its service has more operations; then they go under the overflow names. */
  lemma NamesAreKept(c: Config, seen: Tracked, service: string, operation: string)
    ensures EffectiveService(seen, c.maxServices, service) ==
      if |seen.Keys| <= c.maxServices then service else "overflow_service"
    ensures EffectiveOperation(seen, c.maxOperations, service, operation) ==
      if service !in seen || |seen[service]| <= c.maxOperations then operation else "overflow_operation"
  {
    assert |seen.Keys| == |seen|;
  }

  /** A key enters one operation under one service of the table and changes nothing else in it. */
  lemma TrackEntersNames(c: Config, seen: Tracked, service: string, operation: string)
    ensures var t := Track(seen, c.maxServices, c.maxOperations, service, operation);
      var s := EffectiveService(seen, c.maxServices, service);
      var o := EffectiveOperation(seen, c.maxOperations, s, operation);
      && t.Keys == seen.Keys + {s} && o in t[s]
      && (forall x :: x in t[s] ==> x == o || (s in seen && x in seen[s]))
      && (s in seen ==> seen[s] <= t[s]) && forall x :: x in seen && x != s ==> t[x] == seen[x]
  {}

  predicate KindReads(k: Kind, s: string) {
    && (k.Unspecified? ==> s == "SPAN_KIND_UNSPECIFIED") && (k.Internal? ==> s == "SPAN_KIND_INTERNAL")
    && (k.Server? ==> s == "SPAN_KIND_SERVER") && (k.Client? ==> s == "SPAN_KIND_CLIENT")
    && (k.Producer? ==> s == "SPAN_KIND_PRODUCER") && (k.Consumer? ==> s == "SPAN_KIND_CONSUMER")
  }

  predicate StatusReads(st: Status, s: string) {
    && (st.Unset? ==> s == "STATUS_CODE_UNSET") && (st.Ok? ==> s == "STATUS_CODE_OK")
    && (st.Error? ==> s == "STATUS_CODE_ERROR")
  }

  // ---------------------------------------------------------------- dimensions

  /** `labels` says of a dimension what the span and its resource have: the span's own attribute before anything else,
      the stable status attribute where the old one is asked for, then the resource's, then the default. The mark stands
      beside it when the resource has the attribute as well, unless the stable attribute stood in. */
  predicate SaysDimension(labels: Labels, d: Dimension, a: Attributes, r: Attributes) {
    var n, mark := d.name, "resource_" + d.name;
    var standsIn := n !in a && n == "http.status_code" && "http.response.status_code" in a;
    && (n in a ==> n in labels && labels[n] == a[n])
    && (standsIn ==> n in labels && labels[n] == a["http.response.status_code"])
    && (n !in a && !standsIn && n in r ==> n in labels && labels[n] == r[n])
    && (n !in a && !standsIn && n !in r && d.default.Some? ==> n in labels && labels[n] == Str(d.default.value))
    && (n !in a && !standsIn && n !in r && d.default.None? ==> n !in labels)
    && (mark in labels <==> n in r && !standsIn)
    && (mark in labels ==> n in labels && labels[mark] == labels[n])
  }

  lemma DimensionIsSaid(dims: seq<Dimension>, a: Attributes, r: Attributes, base: Labels, i: nat)
    requires i < |dims| && NamesApart(dims, base.Keys)
    ensures SaysDimension(DimensionLabels(dims, a, r, base), dims[i], a, r)
  {
    LabelsTell(dims, a, r, base, i);
    MarkIsCopy(dims, a, r, base, i);
  }

  /** The marked label has the value of the plain one. */
  lemma {:induction false} MarkIsCopy(dims: seq<Dimension>, a: Attributes, r: Attributes, base: Labels, i: nat)
    requires i < |dims| && NamesApart(dims, base.Keys)
    ensures var labels, n := DimensionLabels(dims, a, r, base), dims[i].name;
      Marked(n) in labels ==> n in labels && labels[Marked(n)] == labels[n]
  {
    LabelsUnfold(dims, a, r, base);
    StillApart(dims, a, r, base);
    var next := WithLabel(dims[0], a, r, base);
    if i > 0 {
      MarkIsCopy(dims[1..], a, r, next, i - 1);
    } else {
      var n := dims[0].name;
      MarkedDiffer(n, n);
      OthersDiffer(dims, base.Keys);
      BaseStays(dims[1..], a, r, next, n);
      BaseStays(dims[1..], a, r, next, Marked(n));
    }
  }

  /** Nothing but the base and the labels of the dimensions is there. */
  ghost predicate SaysNoMore(labels: Labels, dims: seq<Dimension>, base: set<string>) {
    forall n :: n in labels ==>
      n in base || exists i :: 0 <= i < |dims| && (n == dims[i].name || n == "resource_" + dims[i].name)
  }

  lemma NoMoreIsSaid(dims: seq<Dimension>, a: Attributes, r: Attributes, base: Labels)
    requires NamesApart(dims, base.Keys)
    ensures SaysNoMore(DimensionLabels(dims, a, r, base), dims, base.Keys)
  {
    forall n | n in DimensionLabels(dims, a, r, base)
      ensures n in base || exists i :: 0 <= i < |dims| && (n == dims[i].name || n == "resource_" + dims[i].name)
    {
      BaseStays(dims, a, r, base, n);
      if i :| 0 <= i < |dims| && (n == dims[i].name || n == Marked(dims[i].name)) {
        assert n == dims[i].name || n == "resource_" + dims[i].name;
      }
    }
  }

  // ---------------------------------------------------------------- labels

  predicate SaysString(labels: Labels, n: string, s: string) { n in labels && labels[n] == Str(s) }

  predicate SaysKind(labels: Labels, k: Kind) {
    "span.kind" in labels && labels["span.kind"].Str? && KindReads(k, labels["span.kind"].s)
  }

  predicate SaysStatus(labels: Labels, st: Status) {
    "status.code" in labels && labels["status.code"].Str? && StatusReads(st, labels["status.code"].s)
  }

  /** The labels of the latency and call metrics: service and operation under the names the table gives them, kind and
      status, every dimension, and nothing more. */
  lemma LabelsSay(c: Config, seen: Tracked, service: string, span: Span, dims: seq<Dimension>, r: Attributes)
    requires NamesApart(dims, RESERVED)
    ensures var labels := LabelsOf(c, seen, service, span, dims, r);
      var s := EffectiveService(seen, c.maxServices, service);
      && SaysString(labels, "service.name", s)
      && SaysString(labels, "operation", EffectiveOperation(seen, c.maxOperations, s, span.name))
      && SaysKind(labels, span.kind) && SaysStatus(labels, span.status)
      && (forall i :: 0 <= i < |dims| ==> SaysDimension(labels, dims[i], span.attrs, r))
      && SaysNoMore(labels, dims, {"service.name", "operation", "span.kind", "status.code"})
  {
    var base := BaseLabels(c, seen, service, span);
    BaseLabelsEqual(c, seen, service, span, seen, service, span);
    BaseSays(c, seen, service, span);
    BaseStays(dims, span.attrs, r, base, "service.name");
    BaseStays(dims, span.attrs, r, base, "operation");
    BaseStays(dims, span.attrs, r, base, "span.kind");
    BaseStays(dims, span.attrs, r, base, "status.code");
    forall i | 0 <= i < |dims|
      ensures SaysDimension(LabelsOf(c, seen, service, span, dims, r), dims[i], span.attrs, r)
    {
      DimensionIsSaid(dims, span.attrs, r, base, i);
    }
    NoMoreIsSaid(dims, span.attrs, r, base);
  }

  lemma BaseSays(c: Config, seen: Tracked, service: string, span: Span)
    ensures var base := BaseLabels(c, seen, service, span);
      var s := EffectiveService(seen, c.maxServices, service);
      && SaysString(base, "service.name", s)
      && SaysString(base, "operation", EffectiveOperation(seen, c.maxOperations, s, span.name))
      && SaysKind(base, span.kind) && SaysStatus(base, span.status)
  {
    assert |"service.name"| == 12 && |"operation"| == 9 && |"span.kind"| == 9 && |"status.code"| == 11;
    assert "operation"[0] != "span.kind"[0];
  }

  /** The labels of the external and database call metrics: the service under its own name, the address if there is one,
      the status, every dimension, and nothing more. */
  lemma CustomLabelsSay(service: string, span: Span, addr: Option<string>, dims: seq<Dimension>, r: Attributes)
    requires NamesApart(dims, CustomBase(service, span, addr).Keys)
    ensures var labels := CustomLabels(service, span, addr, dims, r);
      && SaysString(labels, "service.name", service) && SaysStatus(labels, span.status)
      && (addr.Some? ==> SaysString(labels, "address", addr.value))
      && (forall i :: 0 <= i < |dims| ==> SaysDimension(labels, dims[i], span.attrs, r))
      && SaysNoMore(labels, dims, {"service.name", "status.code"} + if addr.Some? then {"address"} else {})
  {
    var base := CustomBase(service, span, addr);
    assert |"service.name"| == 12 && |"address"| == 7 && |"status.code"| == 11;
    assert base.Keys == {"service.name", "status.code"} + if addr.Some? then {"address"} else {};
    BaseStays(dims, span.attrs, r, base, "service.name");
    BaseStays(dims, span.attrs, r, base, "address");
    BaseStays(dims, span.attrs, r, base, "status.code");
    forall i | 0 <= i < |dims|
      ensures SaysDimension(CustomLabels(service, span, addr, dims, r), dims[i], span.attrs, r)
    {
      DimensionIsSaid(dims, span.attrs, r, base, i);
    }
    NoMoreIsSaid(dims, span.attrs, r, base);
  }

  // ---------------------------------------------------------------- keys

  /** The text of a value: a string as it is, a truth value or a number written out, nothing for an empty value. */
  lemma TextsRead(show: Printer, v: Value)
    ensures var text := AsString(show, v);
      && (v.Empty? ==> text == "") && (v.Str? ==> text == v.s)
      && (v.Bool? ==> text == if v.b then ['t', 'r', 'u', 'e'] else ['f', 'a', 'l', 's', 'e'])
      && (v.Int? ==> text == FormatInt(v.i))
      && (v.Double? || v.Bytes? || v.Slice? || v.Map? ==> text == show(v))
  {}

  /** What one dimension adds to a key is what its label would say, printed; a dimension without a label adds nothing.
      */
  lemma KeyPartsRead(show: Printer, d: Dimension, a: Attributes, r: Attributes, labels: Labels)
    requires SaysDimension(labels, d, a, r)
    ensures DimensionTexts(show, [d], a, r) == if d.name in labels then [AsString(show, labels[d.name])] else []
    ensures CustomTexts(show, [d], a, r) ==
      if d.name !in labels then []
      else if "resource_" + d.name in labels
      then [AsString(show, labels[d.name]), "resource_" + AsString(show, labels[d.name])]
      else [AsString(show, labels[d.name])]
  {
    assert [d][1..] == [];
  }

  /** And dimensions add to it one after the other. */
  lemma {:induction false} TextsJoin(show: Printer, dims: seq<Dimension>, more: seq<Dimension>, a: Attributes,
                                     r: Attributes)
    ensures DimensionTexts(show, dims + more, a, r)
         == DimensionTexts(show, dims, a, r) + DimensionTexts(show, more, a, r)
  {
    if dims == [] {
      assert dims + more == more;
    } else {
      assert (dims + more)[0] == dims[0] && (dims + more)[1..] == dims[1..] + more;
      TextsJoin(show, dims[1..], more, a, r);
    }
  }

  lemma {:induction false} CustomTextsJoin(show: Printer, dims: seq<Dimension>, more: seq<Dimension>, a: Attributes,
                                           r: Attributes)
    ensures CustomTexts(show, dims + more, a, r) == CustomTexts(show, dims, a, r) + CustomTexts(show, more, a, r)
  {
    if dims == [] {
      assert dims + more == more;
    } else {
      assert (dims + more)[0] == dims[0] && (dims + more)[1..] == dims[1..] + more;
      CustomTextsJoin(show, dims[1..], more, a, r);
    }
  }

  // The values of a key: service, operation, kind, status and the texts of the dimensions; for custom keys service,
  // status, the address if there is one, and the texts.

  lemma KeysSay(c: Config, seen: Tracked, service: string, span: Span, dims: seq<Dimension>, r: Attributes)
    ensures var vs := KeyValues(c, seen, service, span, dims, r);
      var s := EffectiveService(seen, c.maxServices, service);
      && |vs| >= 4 && vs[0] == s && vs[1] == EffectiveOperation(seen, c.maxOperations, s, span.name)
      && KindReads(span.kind, vs[2]) && StatusReads(span.status, vs[3])
      && vs[4..] == DimensionTexts(c.show, dims, span.attrs, r)
  {}

  lemma CustomKeysSay(c: Config, service: string, span: Span, addr: Option<string>, dims: seq<Dimension>, r: Attributes)
    ensures var vs := CustomKeyValues(c, service, span, addr, dims, r);
      var n := if addr.Some? then 3 else 2;
      && |vs| >= n && vs[0] == service && StatusReads(span.status, vs[1]) && (addr.Some? ==> vs[2] == addr.value)
      && vs[n..] == CustomTexts(c.show, dims, span.attrs, r)
  {
    assert CustomKeyValues(c, service, span, addr, dims, r)[if addr.Some? then 3 else 2..]
        == CustomTexts(c.show, dims, span.attrs, r);
  }

  /** A key begins with the second in which the bucket of the span starts when aggregation is by buckets, and otherwise
      with its first value; a NUL follows. */
  lemma KeysBegin(c: Config, start: int, values: seq<string>)
    requires ConfigOk(c) && 0 <= start < TWO64 && |values| > 1 && NulFree(values)
    ensures var k := KeyOf(c, start, values);
      var first := if c.delta then FormatInt(UnixSeconds(Truncate(Signed(start), c.interval))) else values[0];
      |first| < |k| && k[..|first|] == first && k[|first|] == '\0'
  {
    if c.delta {
      KeyPrefix(Signed(start), c.interval, values);
    } else {
      FirstValue(values[0], Joined(values[1..]));
    }
  }
}
