/** Attribute values and log records on their way through the log pipeline: out of pdata into plain values and stanza
    entries, and back again. */
module ValueRoundTrip {
  import opened PData
  import opened Words

  const INTERNAL_PREFIX: string := "__signozlogspipelineprocessor_internal__"

  /** A plain Go value of dynamic type. `RawInt` is a signed integer of any width, `RawUint` an unsigned one, and
      `RawOther` a value of a further type with its printed text. */
  datatype Raw =
    | Nil
    | RawOther(text: string)
    | RawStr(s: string)
    | RawBool(b: bool)
    | RawInt(i: int)
    | RawUint(u: Word)
    | RawDouble(r: real)
    | RawBytes(raw: seq<bv8>)
    | RawStrings(strs: seq<string>)
    | RawSlice(elems: seq<Raw>)
    | RawMap(m: map<string, Raw>)

  predicate IsInternal(k: string) { INTERNAL_PREFIX <= k }

  /** `Value.AsRaw`. */
  function AsRaw(v: Value): Raw {
    match v
    case Empty => Nil
    case Str(s) => RawStr(s)
    case Bool(b) => RawBool(b)
    case Int(i) => RawInt(i)
    case Double(r) => RawDouble(r)
    case Bytes(raw) => RawBytes(raw)
    case Slice(es) => RawSlice(seq(|es|, i requires 0 <= i < |es| => AsRaw(es[i])))
    case Map(m) => RawMap(map k | k in m :: AsRaw(m[k]))
  }

  /** `upsertToAttributeVal`: nil and other types are printed, unsigned integers are read as signed 64-bit ones, and map
      keys with the internal prefix are left out. */
  function Upsert(r: Raw): Value {
    match r
    case Nil => Str("<nil>")
    case RawOther(text) => Str(text)
    case RawStr(s) => Str(s)
    case RawBool(b) => Bool(b)
    case RawInt(i) => Int(i)
    case RawUint(u) => Int(Signed(u))
    case RawDouble(d) => Double(d)
    case RawBytes(raw) => Bytes(raw)
    case RawStrings(strs) => Slice(seq(|strs|, i requires 0 <= i < |strs| => Str(strs[i])))
    case RawSlice(es) => Slice(seq(|es|, i requires 0 <= i < |es| => Upsert(es[i])))
    case RawMap(m) => Map(map k | k in m && !IsInternal(k) :: Upsert(m[k]))
  }

  /** A plain value says the same as a value: of its kind, with its content, and the same at every place inside. */
  predicate SaysSame(raw: Raw, v: Value) {
    match v
    case Empty => raw == Nil
    case Str(s) => raw == RawStr(s)
    case Bool(b) => raw == RawBool(b)
    case Int(i) => raw == RawInt(i)
    case Double(r) => raw == RawDouble(r)
    case Bytes(bs) => raw == RawBytes(bs)
    case Slice(es) =>
      raw.RawSlice? && |raw.elems| == |es| && forall i :: 0 <= i < |es| ==> SaysSame(raw.elems[i], es[i])
    case Map(m) => raw.RawMap? && raw.m.Keys == m.Keys && forall k :: k in m ==> SaysSame(raw.m[k], m[k])
  }

  lemma {:induction false} AsRawSaysSame(v: Value)
    ensures SaysSame(AsRaw(v), v)
  {
    match v
    case Slice(es) => forall i | 0 <= i < |es| ensures SaysSame(AsRaw(es[i]), es[i]) { AsRawSaysSame(es[i]); }
    case Map(m) => forall k | k in m ensures SaysSame(AsRaw(m[k]), m[k]) { AsRawSaysSame(m[k]); }
    case _ =>
  }

  /** The attribute value that a plain value becomes: one that says the same, but for what attributes cannot hold. A nil
      and any other type are printed, an unsigned integer is read as the signed one with the same 64 bits, and a key
      that begins with the internal prefix is gone. */
  predicate Becomes(raw: Raw, v: Value) {
    match raw
    case Nil => v == Str("<nil>")
    case RawOther(text) => v == Str(text)
    case RawUint(u) =>
      && v.Int? && -0x8000_0000_0000_0000 <= v.i < 0x8000_0000_0000_0000
      && (v.i == u || v.i == u - 0x1_0000_0000_0000_0000)
    case RawStrings(strs) =>
      v.Slice? && |v.elems| == |strs| && forall i :: 0 <= i < |strs| ==> v.elems[i] == Str(strs[i])
    case RawSlice(es) => v.Slice? && |v.elems| == |es| && forall i :: 0 <= i < |es| ==> Becomes(es[i], v.elems[i])
    case RawMap(m) =>
      && v.Map? && v.m.Keys <= m.Keys
      && forall k :: k in m ==>
           if "__signozlogspipelineprocessor_internal__" <= k then k !in v.m else k in v.m && Becomes(m[k], v.m[k])
    case _ => SaysSame(raw, v)
  }

  lemma {:induction false} UpsertBecomes(raw: Raw)
    ensures Becomes(raw, Upsert(raw))
  {
    match raw
    case RawSlice(es) => forall i | 0 <= i < |es| ensures Becomes(es[i], Upsert(es[i])) { UpsertBecomes(es[i]); }
    case RawMap(m) => forall k | k in m ensures Becomes(m[k], Upsert(m[k])) { UpsertBecomes(m[k]); }
    case _ =>
  }

  /** Nothing empty inside, and no map key with the internal prefix. */
  predicate Faithful(v: Value) {
    match v
    case Empty => false
    case Slice(es) => forall i :: 0 <= i < |es| ==> Faithful(es[i])
    case Map(m) => forall k :: k in m ==> !IsInternal(k) && Faithful(m[k])
    case _ => true
  }

  /** A value survives the conversion to a plain value and back exactly when nothing in it is empty and no key in it
      carries the internal prefix. */
  lemma {:induction false} RoundTripExactly(v: Value)
    ensures Upsert(AsRaw(v)) == v <==> Faithful(v)
  {
    match v
    case Slice(es) =>
      forall i | 0 <= i < |es| ensures Upsert(AsRaw(es[i])) == es[i] <==> Faithful(es[i]) { RoundTripExactly(es[i]); }
      SliceBack(es);
    case Map(m) =>
      forall k | k in m ensures Upsert(AsRaw(m[k])) == m[k] <==> Faithful(m[k]) { RoundTripExactly(m[k]); }
      MapBack(m);
    case _ =>
  }

  lemma SliceBack(es: seq<Value>)
    ensures Upsert(AsRaw(Slice(es))) == Slice(es) <==> forall i :: 0 <= i < |es| ==> Upsert(AsRaw(es[i])) == es[i]
  {
    var back := Upsert(AsRaw(Slice(es))).elems;
    assert forall i :: 0 <= i < |es| ==> back[i] == Upsert(AsRaw(es[i]));
    if forall i :: 0 <= i < |es| ==> Upsert(AsRaw(es[i])) == es[i] { assert back == es; }
  }

  lemma MapBack(m: map<string, Value>)
    ensures Upsert(AsRaw(Map(m))) == Map(m)
       <==> forall k :: k in m ==> !IsInternal(k) && Upsert(AsRaw(m[k])) == m[k]
  {
    var back := Upsert(AsRaw(Map(m))).m;
    assert forall k :: k in back <==> k in m && !IsInternal(k);
    assert forall k :: k in back ==> back[k] == Upsert(AsRaw(m[k]));
    if forall k :: k in m ==> !IsInternal(k) && Upsert(AsRaw(m[k])) == m[k] { assert back == m; }
  }

  /** Whatever the value was, one pass leaves a faithful value: a second pass changes nothing more. */
  lemma {:induction false} OnePassSettles(v: Value)
    ensures Faithful(Upsert(AsRaw(v)))
    ensures Upsert(AsRaw(Upsert(AsRaw(v)))) == Upsert(AsRaw(v))
  {
    match v {
      case Slice(es) =>
        forall i | 0 <= i < |es| ensures Faithful(Upsert(AsRaw(es[i]))) { OnePassSettles(es[i]); }
      case Map(m) =>
        forall k | k in m ensures Faithful(Upsert(AsRaw(m[k]))) { OnePassSettles(m[k]); }
      case _ =>
    }
    RoundTripExactly(Upsert(AsRaw(v)));
  }

  /** An unsigned integer keeps its value exactly when it fits in 63 bits. */
  lemma UnsignedKeptExactly(u: Word)
    ensures Upsert(RawUint(u)) == Int(u) <==> u < 0x8000_0000_0000_0000
  {}

  // ---------------------------------------------------------------- the conversion as it runs

  /** `upsertToMap`: puts the keys into the destination one by one, in any order. */
  method UpsertToMap(obsMap: map<string, Raw>) returns (dest: map<string, Value>)
    ensures dest == Upsert(RawMap(obsMap)).m
    decreases RawMap(obsMap), 0
  {
    dest := map[];
    var rest := obsMap.Keys;
    while rest != {}
      invariant rest <= obsMap.Keys
      invariant dest == map k | k in obsMap && k !in rest && !IsInternal(k) :: Upsert(obsMap[k])
      decreases rest
    {
      var k :| k in rest;
      assert obsMap[k] < RawMap(obsMap);
      if !IsInternal(k) {
        var v := UpsertToAttributeVal(obsMap[k]);
        dest := dest[k := v];
      }
      rest := rest - {k};
    }
  }

  method UpsertToAttributeVal(r: Raw) returns (dest: Value)
    ensures dest == Upsert(r)
    decreases r, 1
  {
    match r
    case RawBool(b) => dest := Bool(b);
    case RawStr(s) => dest := Str(s);
    case RawStrings(strs) =>
      var d := UpsertStringsToSlice(strs);
      dest := Slice(d);
    case RawBytes(raw) => dest := Bytes(raw);
    case RawInt(i) => dest := Int(i);
    case RawUint(u) => dest := Int(if u < TWO63 then u else u - TWO64);
    case RawDouble(d) => dest := Double(d);
    case RawMap(m) =>
      var d := UpsertToMap(m);
      dest := Map(d);
    case RawSlice(es) =>
      var d := UpsertToSlice(es);
      dest := Slice(d);
    case Nil => dest := Str("<nil>");
    case RawOther(text) => dest := Str(text);
  }

  method UpsertStringsToSlice(obsArr: seq<string>) returns (dest: seq<Value>)
    ensures dest == Upsert(RawStrings(obsArr)).elems
  {
    dest := [];
    for i := 0 to |obsArr|
      invariant dest == Upsert(RawStrings(obsArr)).elems[..i]
    {
      dest := dest + [Str(obsArr[i])];
    }
  }

  method UpsertToSlice(obsArr: seq<Raw>) returns (dest: seq<Value>)
    ensures dest == Upsert(RawSlice(obsArr)).elems
    decreases RawSlice(obsArr), 0
  {
    dest := [];
    for i := 0 to |obsArr|
      invariant dest == Upsert(RawSlice(obsArr)).elems[..i]
    {
      var v := UpsertToAttributeVal(obsArr[i]);
      dest := dest + [v];
    }
  }
}
