/** Which configured dimensions are safe: when spans that share a key always agree on every dimension, so that the
    labels of a data point are those of all the spans in it. */
module SpanKeyLaws {
  import opened PData
  import opened MetricKeys
  import opened Sums
  import opened SpanKeys

  /** Every attribute is a string. */
  ghost predicate Strings(m: Attributes) { forall k :: k in m ==> m[k].Str? }

  /** None of the dimensions is an attribute of the resource. */
  predicate NoDimensionIn(dims: seq<Dimension>, r: Attributes) { forall i :: 0 <= i < |dims| ==> dims[i].name !in r }

  ghost predicate DistinctNames(dims: seq<Dimension>) {
    forall i, j :: 0 <= i < j < |dims| ==> dims[i].name != dims[j].name
  }

  /** Spans whose keys have the same texts for the dimensions agree on all dimensions, whatever their attributes. */
  ghost predicate KeysTell(show: Printer, dims: seq<Dimension>) {
    forall a, r, a', r' ::
      DimensionTexts(show, dims, a, r) == DimensionTexts(show, dims, a', r') ==> AgreeOnAll(dims, a, r, a', r')
  }

  /** The same for attributes that are all strings. */
  ghost predicate KeysTellForStrings(show: Printer, dims: seq<Dimension>) {
    forall a, r, a', r' ::
      (Strings(a) && Strings(r) && Strings(a') && Strings(r')
       && DimensionTexts(show, dims, a, r) == DimensionTexts(show, dims, a', r'))
      ==> AgreeOnAll(dims, a, r, a', r')
  }

  /** The same for attributes of any type and resources without the dimensions. */
  ghost predicate KeysTellBareResources(show: Printer, dims: seq<Dimension>) {
    forall a, r, a', r' ::
      (NoDimensionIn(dims, r) && NoDimensionIn(dims, r')
       && DimensionTexts(show, dims, a, r) == DimensionTexts(show, dims, a', r'))
      ==> AgreeOnAll(dims, a, r, a', r')
  }

  /** The same for span attributes that are all strings and resources without the dimensions. */
  ghost predicate KeysTellStringsOfSpans(show: Printer, dims: seq<Dimension>) {
    forall a, r, a', r' ::
      (Strings(a) && Strings(a') && NoDimensionIn(dims, r) && NoDimensionIn(dims, r')
       && DimensionTexts(show, dims, a, r) == DimensionTexts(show, dims, a', r'))
      ==> AgreeOnAll(dims, a, r, a', r')
  }

  ghost predicate CustomKeysTell(show: Printer, dims: seq<Dimension>) {
    forall a, r, a', r' ::
      CustomTexts(show, dims, a, r) == CustomTexts(show, dims, a', r') ==> AgreeOnAll(dims, a, r, a', r')
  }

  ghost predicate CustomKeysTellForStrings(show: Printer, dims: seq<Dimension>) {
    forall a, r, a', r' ::
      (Strings(a) && Strings(r) && Strings(a') && Strings(r')
       && CustomTexts(show, dims, a, r) == CustomTexts(show, dims, a', r'))
      ==> AgreeOnAll(dims, a, r, a', r')
  }

  // ---------------------------------------------------------------- the resource's attributes are not in the key

  /** Already for strings the keys tell only when no dimension is configured: a resource that repeats an attribute of
      the span changes the labels and never the key. */
  lemma KeysTellForStringsExactly(show: Printer, dims: seq<Dimension>)
    ensures KeysTellForStrings(show, dims) <==> dims == []
  {
    if dims != [] {
      var a: Attributes, none: Attributes := map[dims[0].name := Str("v")], map[];
      forall i | 0 <= i < |dims| ensures SameText(show, dims[i], a, none, a, a) {}
      SameTexts(show, dims, a, none, a, a);
      assert Strings(a) && Strings(none);
      assert !Agree(dims[0], a, none, a, a);
      assert !AgreeOnAll(dims, a, none, a, a);
    }
  }

  /** The dimension has a value in both or in neither, and the values have the same text. */
  predicate SameText(show: Printer, d: Dimension, a: Attributes, r: Attributes, a': Attributes, r': Attributes) {
    var v, v' := DimensionValue(d, a, r), DimensionValue(d, a', r');
    (v.Some? <==> v'.Some?) && (v.Some? ==> AsString(show, v.value) == AsString(show, v'.value))
  }

  lemma {:induction false} SameTexts(show: Printer, dims: seq<Dimension>, a: Attributes, r: Attributes,
                                     a': Attributes, r': Attributes)
    requires forall i :: 0 <= i < |dims| ==> SameText(show, dims[i], a, r, a', r')
    ensures DimensionTexts(show, dims, a, r) == DimensionTexts(show, dims, a', r')
  {
    if dims != [] {
      assert SameText(show, dims[0], a, r, a', r');
      forall i | 0 <= i < |dims[1..]| ensures SameText(show, dims[1..][i], a, r, a', r') {
        assert SameText(show, dims[i + 1], a, r, a', r');
      }
      SameTexts(show, dims[1..], a, r, a', r');
    }
  }

  // ---------------------------------------------------------------- the type of a value is not in the key

  function Number(n: string): Attributes { map[n := Int(200)] }

  function Numeral(n: string): Attributes { map[n := Str(FormatInt(200))] }

  /** A number in one span and its numeral as a string in the other give the same texts and different labels. */
  lemma TypesEscape(show: Printer, dims: seq<Dimension>)
    requires dims != []
    ensures var a, a' := Number(dims[0].name), Numeral(dims[0].name);
      DimensionTexts(show, dims, a, map[]) == DimensionTexts(show, dims, a', map[])
      && !AgreeOnAll(dims, a, map[], a', map[])
  {
    var a, a' := Number(dims[0].name), Numeral(dims[0].name);
    forall i | 0 <= i < |dims| ensures SameText(show, dims[i], a, map[], a', map[]) {}
    SameTexts(show, dims, a, map[], a', map[]);
    assert !Agree(dims[0], a, map[], a', map[]);
  }

  /** With attributes of any type the keys tell only when no dimension is configured, whatever the resources have. */
  lemma KeysTellExactly(show: Printer, dims: seq<Dimension>)
    ensures KeysTellBareResources(show, dims) <==> dims == []
    ensures KeysTell(show, dims) <==> dims == []
  {
    if dims != [] {
      TypesEscape(show, dims);
      assert NoDimensionIn(dims, map[]);
    }
  }

  // ---------------------------------------------------------------- strings in spans

  /** Two dimensions without a default that may be absent independently of each other. The stable status attribute
      stands in for the other one, so that where it is present both are. */
  predicate Independent(d: Dimension, e: Dimension) {
    && d.default.None? && e.default.None?
    && !(d.name == HTTP_STATUS && e.name == HTTP_STATUS_STABLE)
    && !(d.name == HTTP_STATUS_STABLE && e.name == HTTP_STATUS)
  }

  /** A condition on the configuration. Without the stable status attribute among the dimensions it says that at most
      one of them has no default. */
  predicate NoneIndependent(dims: seq<Dimension>) {
    forall i, j :: 0 <= i < j < |dims| ==> !Independent(dims[i], dims[j])
  }

  /** When span attributes are strings, and resources have none of the dimensions, the keys tell exactly when no two
      dimensions without a default are independent. */
  lemma KeysTellStringsOfSpansExactly(show: Printer, dims: seq<Dimension>)
    requires DistinctNames(dims)
    ensures KeysTellStringsOfSpans(show, dims) <==> NoneIndependent(dims)
  {
    if NoneIndependent(dims) {
      forall a, r, a', r' | Strings(a) && Strings(a') && NoDimensionIn(dims, r) && NoDimensionIn(dims, r') &&
        DimensionTexts(show, dims, a, r) == DimensionTexts(show, dims, a', r')
        ensures AgreeOnAll(dims, a, r, a', r')
      {
        forall i | 0 <= i < |dims| ensures SamePresence(dims[i], a, r, a', r') {
          PresenceIsTold(show, dims, a, r, a', r', i);
        }
        StringsAreTold(show, dims, a, r, a', r');
      }
    } else {
      var i, j :| 0 <= i < j < |dims| && Independent(dims[i], dims[j]);
      var p, q := Swappable(dims, i, j);
      OneOfTwo(show, dims, p, q);
    }
  }

  predicate SamePresence(d: Dimension, a: Attributes, r: Attributes, a': Attributes, r': Attributes) {
    DimensionValue(d, a, r).Some? <==> DimensionValue(d, a', r').Some?
  }

  lemma {:induction false} StringsAreTold(show: Printer, dims: seq<Dimension>, a: Attributes, r: Attributes,
                                          a': Attributes, r': Attributes)
    requires Strings(a) && Strings(a') && NoDimensionIn(dims, r) && NoDimensionIn(dims, r')
    requires forall i :: 0 <= i < |dims| ==> SamePresence(dims[i], a, r, a', r')
    requires DimensionTexts(show, dims, a, r) == DimensionTexts(show, dims, a', r')
    ensures AgreeOnAll(dims, a, r, a', r')
  {
    if dims != [] {
      var rest, rest' := DimensionTexts(show, dims[1..], a, r), DimensionTexts(show, dims[1..], a', r');
      var v, v' := DimensionValue(dims[0], a, r), DimensionValue(dims[0], a', r');
      assert SamePresence(dims[0], a, r, a', r');
      if v.Some? { FirstOf(AsString(show, v.value), rest, AsString(show, v'.value), rest'); }
      forall i | 0 <= i < |dims[1..]|
        ensures SamePresence(dims[1..][i], a, r, a', r') && dims[1..][i].name !in r && dims[1..][i].name !in r'
      {
        assert SamePresence(dims[i + 1], a, r, a', r');
      }
      StringsAreTold(show, dims[1..], a, r, a', r');
      FromRest(dims, a, r, a', r');
    }
  }

  lemma FirstOf(x: string, rest: seq<string>, y: string, rest': seq<string>)
    ensures [x] + rest == [y] + rest' ==> x == y && rest == rest'
  {
    assert ([x] + rest)[0] == x && ([y] + rest')[0] == y;
    assert ([x] + rest)[1..] == rest && ([y] + rest')[1..] == rest';
  }

  lemma FromRest(dims: seq<Dimension>, a: Attributes, r: Attributes, a': Attributes, r': Attributes)
    requires dims != [] && Agree(dims[0], a, r, a', r') && AgreeOnAll(dims[1..], a, r, a', r')
    ensures AgreeOnAll(dims, a, r, a', r')
  {
    forall i | 1 <= i < |dims| ensures Agree(dims[i], a, r, a', r') {
      assert Agree(dims[1..][i - 1], a, r, a', r');
    }
  }

  // The number of texts tells which dimensions have a value.

  ghost function Has(a: Attributes, r: Attributes): Dimension -> int {
    (d: Dimension) => One(DimensionValue(d, a, r).Some?)
  }

  lemma {:induction false} TextsAreCounted(show: Printer, dims: seq<Dimension>, a: Attributes, r: Attributes)
    ensures |DimensionTexts(show, dims, a, r)| == Total(dims, Has(a, r))
  {
    if dims != [] { TextsAreCounted(show, dims[1..], a, r); }
  }

  lemma PresenceIsTold(show: Printer, dims: seq<Dimension>, a: Attributes, r: Attributes, a': Attributes,
                       r': Attributes,
                       i: nat)
    requires NoneIndependent(dims) && DistinctNames(dims) && NoDimensionIn(dims, r) && NoDimensionIn(dims, r')
    requires DimensionTexts(show, dims, a, r) == DimensionTexts(show, dims, a', r')
    requires i < |dims|
    ensures SamePresence(dims[i], a, r, a', r')
  {
    TextsAreCounted(show, dims, a, r);
    TextsAreCounted(show, dims, a', r');
    if dims[i].default.None? {
      if j :| 0 <= j < |dims| && j != i && dims[j].default.None? {
        PairIsTold(dims, a, r, a', r', i, j);
      } else {
        TotalsDifferAt(dims, Has(a, r), Has(a', r'), i);
      }
    }
  }

  lemma PairIsTold(dims: seq<Dimension>, a: Attributes, r: Attributes, a': Attributes, r': Attributes, i: nat, j: nat)
    requires NoneIndependent(dims) && DistinctNames(dims) && NoDimensionIn(dims, r) && NoDimensionIn(dims, r')
    requires Total(dims, Has(a, r)) == Total(dims, Has(a', r'))
    requires i < |dims| && j < |dims| && i != j && dims[i].default.None? && dims[j].default.None?
    ensures SamePresence(dims[i], a, r, a', r')
  {
    var p, q := if i < j then i else j, if i < j then j else i;
    NoThird(dims, p, q);
    DefaultsCountAlike(a, r, a', r');
    PairIsCounted(dims, Has(a, r), Has(a', r'), p, q);
    assert !Independent(dims[p], dims[q]);
    if dims[p].name == HTTP_STATUS {
      StableImpliesOther(dims[p], dims[q], a, r, a', r');
    } else {
      StableImpliesOther(dims[q], dims[p], a, r, a', r');
    }
  }

  lemma PairIsCounted(dims: seq<Dimension>, f: Dimension -> int, g: Dimension -> int, p: nat, q: nat)
    requires Total(dims, f) == Total(dims, g) && p < q < |dims|
    requires forall d: Dimension :: d.default.Some? ==> f(d) == g(d)
    requires forall k :: 0 <= k < |dims| && k != p && k != q ==> dims[k].default.Some?
    ensures f(dims[p]) + f(dims[q]) == g(dims[p]) + g(dims[q])
  {
    TotalsDifferAtTwo(dims, f, g, p, q);
  }

  lemma DefaultsCountAlike(a: Attributes, r: Attributes, a': Attributes, r': Attributes)
    ensures forall d: Dimension :: d.default.Some? ==> Has(a, r)(d) == Has(a', r')(d)
  {}

  /** Where the stable status attribute is present the other dimension has a value too, so how many of the two have one
      says which. */
  lemma StableImpliesOther(d: Dimension, e: Dimension, a: Attributes, r: Attributes, a': Attributes, r': Attributes)
    requires d.name == HTTP_STATUS && e.name == HTTP_STATUS_STABLE && d.default.None? && e.default.None?
    requires d.name !in r && e.name !in r && d.name !in r' && e.name !in r'
    requires Has(a, r)(d) + Has(a, r)(e) == Has(a', r')(d) + Has(a', r')(e)
    ensures SamePresence(d, a, r, a', r') && SamePresence(e, a, r, a', r')
  {}

  lemma NoThird(dims: seq<Dimension>, p: nat, q: nat)
    requires NoneIndependent(dims) && DistinctNames(dims) && p < q < |dims|
    requires dims[p].default.None? && dims[q].default.None?
    ensures forall k :: 0 <= k < |dims| && k != p && k != q ==> dims[k].default.Some?
  {
    forall k | 0 <= k < |dims| && k != p && k != q ensures dims[k].default.Some? { OnlyTwo(dims, p, q, k); }
  }

  lemma OnlyTwo(dims: seq<Dimension>, p: nat, q: nat, k: nat)
    requires NoneIndependent(dims) && DistinctNames(dims) && p < q < |dims| && k < |dims| && k != p && k != q
    requires dims[p].default.None? && dims[q].default.None?
    ensures dims[k].default.Some?
  {
    assert !Independent(dims[p], dims[q]);
    assert !Independent(if p < k then dims[p] else dims[k], if p < k then dims[k] else dims[p]);
    assert dims[k].name != dims[q].name && dims[k].name != dims[p].name by {
      assert dims[if k < q then k else q].name != dims[if k < q then q else k].name;
      assert dims[if k < p then k else p].name != dims[if k < p then p else k].name;
    }
  }

  // Two independent dimensions: give every dimension the same text, and one of the two no value.

  function Valued(names: set<string>, v: string): Attributes { map n | n in names :: Str(v) }

  /** How many dimensions have a value when the attributes are `names`. */
  function CountIn(dims: seq<Dimension>, names: set<string>): nat {
    if dims == [] then 0
    else (if dims[0].name in names || dims[0].default.Some? then 1 else 0) + CountIn(dims[1..], names)
  }

  /** The dimensions that are attributes have text `v`, and so have those that are not but have a default. */
  ghost predicate Uniform(dims: seq<Dimension>, names: set<string>, v: string) {
    forall i :: 0 <= i < |dims| ==>
      && (dims[i].default.Some? && dims[i].name !in names ==> dims[i].default == Some(v))
      && (dims[i].name == HTTP_STATUS && HTTP_STATUS_STABLE in names ==> HTTP_STATUS in names)
  }

  lemma {:induction false} UniformTexts(show: Printer, dims: seq<Dimension>, names: set<string>, v: string)
    requires Uniform(dims, names, v)
    ensures DimensionTexts(show, dims, Valued(names, v), map[]) == seq(CountIn(dims, names), _ => v)
  {
    if dims != [] {
      assert forall i :: 0 <= i < |dims[1..]| ==> dims[1..][i] == dims[i + 1];
      UniformTexts(show, dims[1..], names, v);
    }
  }

  lemma {:induction false} CountOneMore(dims: seq<Dimension>, names: set<string>, k: nat)
    requires k < |dims| && dims[k].name !in names && dims[k].default.None? && DistinctNames(dims)
    ensures CountIn(dims, names + {dims[k].name}) == CountIn(dims, names) + 1
  {
    assert forall i :: 0 <= i < |dims[1..]| ==> dims[1..][i] == dims[i + 1];
    if k > 0 {
      CountOneMore(dims[1..], names, k - 1);
    } else {
      CountSame(dims[1..], names, dims[0].name);
    }
  }

  lemma {:induction false} CountSame(dims: seq<Dimension>, names: set<string>, n: string)
    requires forall i :: 0 <= i < |dims| ==> dims[i].name != n
    ensures CountIn(dims, names + {n}) == CountIn(dims, names)
  {
    if dims != [] {
      assert forall i :: 0 <= i < |dims[1..]| ==> dims[1..][i] == dims[i + 1];
      CountSame(dims[1..], names, n);
    }
  }

  /** Two independent dimensions that can be chosen so that giving one a value gives no other dimension one. */
  ghost predicate CanSwap(dims: seq<Dimension>, i: nat, j: nat) {
    && i < |dims| && j < |dims| && i != j && Independent(dims[i], dims[j])
    && (dims[i].name == HTTP_STATUS_STABLE || dims[j].name == HTTP_STATUS_STABLE ==>
          forall k :: 0 <= k < |dims| && dims[k].name == HTTP_STATUS ==> dims[k].default.Some?)
  }

  lemma Swappable(dims: seq<Dimension>, i: nat, j: nat) returns (p: nat, q: nat)
    requires DistinctNames(dims) && i < |dims| && j < |dims| && i != j && Independent(dims[i], dims[j])
    ensures CanSwap(dims, p, q)
  {
    p, q := i, j;
    DifferentNames(dims, i, j);
    if k :| 0 <= k < |dims| && dims[k].name == HTTP_STATUS && dims[k].default.None? {
      if dims[i].name == HTTP_STATUS_STABLE { p := k; }
      if dims[j].name == HTTP_STATUS_STABLE { q := k; }
    }
  }

  /** The dimensions with a default, but for the stable status attribute. */
  function Defaulted(dims: seq<Dimension>): set<string> {
    set i | 0 <= i < |dims| && dims[i].default.Some? && dims[i].name != HTTP_STATUS_STABLE :: dims[i].name
  }

  /** The default of the stable status attribute, or any text. */
  lemma SharedText(dims: seq<Dimension>) returns (v: string)
    requires DistinctNames(dims)
    ensures forall k :: 0 <= k < |dims| && dims[k].name == HTTP_STATUS_STABLE && dims[k].default.Some? ==>
      dims[k].default == Some(v)
  {
    v := "v";
    if k :| 0 <= k < |dims| && dims[k].name == HTTP_STATUS_STABLE && dims[k].default.Some? {
      v := dims[k].default.value;
    }
  }

  lemma NotDefaulted(dims: seq<Dimension>, i: nat)
    requires DistinctNames(dims) && i < |dims| && dims[i].default.None?
    ensures dims[i].name !in Defaulted(dims)
  {}

  lemma UniformWith(dims: seq<Dimension>, i: nat, j: nat, v: string)
    requires DistinctNames(dims) && (CanSwap(dims, i, j) || CanSwap(dims, j, i))
    requires forall k :: 0 <= k < |dims| && dims[k].name == HTTP_STATUS_STABLE && dims[k].default.Some? ==>
      dims[k].default == Some(v)
    ensures Uniform(dims, Defaulted(dims) + {dims[i].name}, v)
  {
    var names := Defaulted(dims) + {dims[i].name};
    forall k | 0 <= k < |dims| && dims[k].default.Some? && dims[k].name !in names
      ensures dims[k].name == HTTP_STATUS_STABLE
    {
      assert dims[k].name !in Defaulted(dims);
    }
  }

  lemma OneOfTwo(show: Printer, dims: seq<Dimension>, i: nat, j: nat)
    requires DistinctNames(dims) && CanSwap(dims, i, j)
    ensures !KeysTellStringsOfSpans(show, dims)
  {
    var names := Defaulted(dims);
    var v := SharedText(dims);
    var a, a' := Valued(names + {dims[i].name}, v), Valued(names + {dims[j].name}, v);
    NotDefaulted(dims, i);
    NotDefaulted(dims, j);
    UniformWith(dims, i, j, v);
    UniformWith(dims, j, i, v);
    UniformTexts(show, dims, names + {dims[i].name}, v);
    UniformTexts(show, dims, names + {dims[j].name}, v);
    CountOneMore(dims, names, i);
    CountOneMore(dims, names, j);
    DifferentNames(dims, i, j);
    OnlyFirstValued(dims[i], names, dims[j].name, v);
    assert NoDimensionIn(dims, map[]) && Strings(a) && Strings(a');
    assert !AgreeOnAll(dims, a, map[], a', map[]);
  }

  lemma DifferentNames(dims: seq<Dimension>, i: nat, j: nat)
    requires DistinctNames(dims) && i < |dims| && j < |dims| && i != j
    ensures dims[i].name != dims[j].name
  {
    assert dims[if i < j then i else j].name != dims[if i < j then j else i].name;
  }

  lemma OnlyFirstValued(d: Dimension, names: set<string>, other: string, v: string)
    requires d.default.None? && d.name !in names && d.name != other && HTTP_STATUS_STABLE !in names
    requires d.name == HTTP_STATUS ==> other != HTTP_STATUS_STABLE
    ensures !Agree(d, Valued(names + {d.name}, v), map[], Valued(names + {other}, v), map[])
  {}

  // ---------------------------------------------------------------- custom keys

  /** Without the dimensions in the resource, custom keys have the texts of the other keys: what was said above of bare
      resources holds for them too. */
  lemma {:induction false} CustomTextsOfBareResource(show: Printer, dims: seq<Dimension>, a: Attributes, r: Attributes)
    requires NoDimensionIn(dims, r)
    ensures CustomTexts(show, dims, a, r) == DimensionTexts(show, dims, a, r)
  {
    if dims != [] {
      assert forall i :: 0 <= i < |dims[1..]| ==> dims[1..][i] == dims[i + 1];
      CustomTextsOfBareResource(show, dims[1..], a, r);
    }
  }

  /** With attributes of any type custom keys tell only when no dimension is configured. */
  lemma CustomKeysTellExactly(show: Printer, dims: seq<Dimension>)
    ensures CustomKeysTell(show, dims) <==> dims == []
  {
    if dims != [] {
      var a, a' := Number(dims[0].name), Numeral(dims[0].name);
      TypesEscape(show, dims);
      CustomTextsOfBareResource(show, dims, a, map[]);
      CustomTextsOfBareResource(show, dims, a', map[]);
    }
  }

  /** For strings, with any resources, custom keys tell exactly when at most one dimension is configured: the mark for
      one dimension may read as the text of the next. */
  lemma CustomKeysTellForStringsExactly(show: Printer, dims: seq<Dimension>)
    requires DistinctNames(dims)
    ensures CustomKeysTellForStrings(show, dims) <==> |dims| <= 1
  {
    if |dims| >= 2 {
      MarkReadAsText(show, dims);
    } else if |dims| == 1 {
      forall a, r, a', r' | Strings(a) && Strings(r) && Strings(a') && Strings(r') &&
        CustomTexts(show, dims, a, r) == CustomTexts(show, dims, a', r')
        ensures AgreeOnAll(dims, a, r, a', r')
      {
        assert dims == [dims[0]];
        OneDimensionIsTold(show, dims[0], a, r, a', r');
      }
    }
  }

  /** What one dimension adds to a custom key. */
  function TextsOf(show: Printer, d: Dimension, a: Attributes, r: Attributes): seq<string> {
    match DimensionValue(d, a, r)
    case None => []
    case Some(v) =>
      var text := AsString(show, v);
      if FoundInResource(d, a, r) then [text, Marked(text)] else [text]
  }

  lemma CustomTextsUnfold(show: Printer, dims: seq<Dimension>, a: Attributes, r: Attributes)
    requires dims != []
    ensures CustomTexts(show, dims, a, r) == TextsOf(show, dims[0], a, r) + CustomTexts(show, dims[1..], a, r)
  {}

  lemma OneDimensionIsTold(show: Printer, d: Dimension, a: Attributes, r: Attributes, a': Attributes, r': Attributes)
    requires Strings(a) && Strings(r) && Strings(a') && Strings(r')
    requires CustomTexts(show, [d], a, r) == CustomTexts(show, [d], a', r')
    ensures Agree(d, a, r, a', r')
  {
    var ts := TextsOf(show, d, a, r);
    CustomTextsUnfold(show, [d], a, r);
    CustomTextsUnfold(show, [d], a', r');
    assert [d][1..] == [] && ts + [] == ts && TextsOf(show, d, a', r') + [] == TextsOf(show, d, a', r');
    if ts != [] {
      var v, v' := DimensionValue(d, a, r).value, DimensionValue(d, a', r').value;
      assert ts[0] == AsString(show, v) == AsString(show, v');
    }
  }

  function OtherNames(dims: seq<Dimension>): set<string> { set i | 2 <= i < |dims| :: dims[i].name }

  /** What every dimension but the first two has of its own. */
  function Others(dims: seq<Dimension>): Attributes {
    map n | n in OtherNames(dims) :: Str("w")
  }

  /** Both spans have the first dimension, and the second with a text that depends on the span. */
  function TwoValued(dims: seq<Dimension>, text: string): Attributes
    requires |dims| >= 2
  { Others(dims)[dims[0].name := Str("x")][dims[1].name := Str(text)] }

  function Only(n: string): Attributes { map[n := Str("x")] }

  /** The first dimension in the resource as well, and the text of the second reading as a mark of a mark; or the first
      not in the resource but the second, whose text reads as the mark of the first. */
  lemma MarkReadAsText(show: Printer, dims: seq<Dimension>)
    requires DistinctNames(dims) && |dims| >= 2
    ensures !CustomKeysTellForStrings(show, dims)
  {
    var a, r := TwoValued(dims, Marked(Marked("x"))), Only(dims[0].name);
    var a', r' := TwoValued(dims, Marked("x")), Only(dims[1].name);
    SameMarkedTexts(show, dims);
    OnlyStrings(dims, Marked(Marked("x")));
    OnlyStrings(dims, Marked("x"));
    assert dims[0].name != dims[1].name;
    assert FoundInResource(dims[0], a, r) && !FoundInResource(dims[0], a', r');
    assert !Agree(dims[0], a, r, a', r');
  }

  lemma SameMarkedTexts(show: Printer, dims: seq<Dimension>)
    requires DistinctNames(dims) && |dims| >= 2
    ensures CustomTexts(show, dims, TwoValued(dims, Marked(Marked("x"))), Only(dims[0].name))
         == CustomTexts(show, dims, TwoValued(dims, Marked("x")), Only(dims[1].name))
  {
    var a, r := TwoValued(dims, Marked(Marked("x"))), Only(dims[0].name);
    var a', r' := TwoValued(dims, Marked("x")), Only(dims[1].name);
    OthersAreOwn(dims);
    OwnTexts(show, dims[2..], a, r, a', r');
    TwoUnfold(show, dims, a, r);
    TwoUnfold(show, dims, a', r');
    FirstTwo(show, dims);
    SameThree("x", Marked("x"), Marked(Marked("x")), CustomTexts(show, dims[2..], a, r));
  }

  lemma OnlyStrings(dims: seq<Dimension>, text: string)
    requires |dims| >= 2
    ensures Strings(TwoValued(dims, text)) && Strings(Only(dims[0].name)) && Strings(Only(dims[1].name))
  {}

  lemma OthersAreOwn(dims: seq<Dimension>)
    requires DistinctNames(dims) && |dims| >= 2
    ensures var a, r := TwoValued(dims, Marked(Marked("x"))), Only(dims[0].name);
      var a', r' := TwoValued(dims, Marked("x")), Only(dims[1].name);
      forall i :: 0 <= i < |dims[2..]| ==> OwnOnly(dims[2..][i], a, r, a', r')
  {
    var a, r := TwoValued(dims, Marked(Marked("x"))), Only(dims[0].name);
    var a', r' := TwoValued(dims, Marked("x")), Only(dims[1].name);
    forall i | 0 <= i < |dims[2..]| ensures OwnOnly(dims[2..][i], a, r, a', r') {
      assert dims[2..][i] == dims[i + 2] && dims[i + 2].name in OtherNames(dims);
      assert dims[0].name != dims[i + 2].name && dims[1].name != dims[i + 2].name;
    }
  }

  lemma FirstTwo(show: Printer, dims: seq<Dimension>)
    requires DistinctNames(dims) && |dims| >= 2
    ensures var a, r := TwoValued(dims, Marked(Marked("x"))), Only(dims[0].name);
      TextsOf(show, dims[0], a, r) == ["x", Marked("x")] && TextsOf(show, dims[1], a, r) == [Marked(Marked("x"))]
    ensures var a', r' := TwoValued(dims, Marked("x")), Only(dims[1].name);
      TextsOf(show, dims[0], a', r') == ["x"] && TextsOf(show, dims[1], a', r') == [Marked("x"), Marked(Marked("x"))]
  {
    assert dims[0].name != dims[1].name;
  }

  lemma TwoUnfold(show: Printer, dims: seq<Dimension>, a: Attributes, r: Attributes)
    requires |dims| >= 2
    ensures CustomTexts(show, dims, a, r) ==
      TextsOf(show, dims[0], a, r) + (TextsOf(show, dims[1], a, r) + CustomTexts(show, dims[2..], a, r))
  {
    CustomTextsUnfold(show, dims, a, r);
    CustomTextsUnfold(show, dims[1..], a, r);
    assert dims[1..][0] == dims[1] && dims[1..][1..] == dims[2..];
  }

  lemma SameThree(x: string, y: string, z: string, tail: seq<string>)
    ensures [x, y] + ([z] + tail) == [x] + ([y, z] + tail)
  {}

  /** The same attribute in both spans and none in the resources. */
  predicate OwnOnly(d: Dimension, a: Attributes, r: Attributes, a': Attributes, r': Attributes) {
    d.name in a && d.name in a' && a[d.name] == a'[d.name] && d.name !in r && d.name !in r'
  }

  lemma {:induction false} OwnTexts(show: Printer, dims: seq<Dimension>, a: Attributes, r: Attributes,
                                    a': Attributes, r': Attributes)
    requires forall i :: 0 <= i < |dims| ==> OwnOnly(dims[i], a, r, a', r')
    ensures CustomTexts(show, dims, a, r) == CustomTexts(show, dims, a', r')
  {
    if dims != [] {
      assert OwnOnly(dims[0], a, r, a', r');
      forall i | 0 <= i < |dims[1..]| ensures OwnOnly(dims[1..][i], a, r, a', r') {
        assert OwnOnly(dims[i + 1], a, r, a', r');
      }
      OwnTexts(show, dims[1..], a, r, a', r');
    }
  }
}
