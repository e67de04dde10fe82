/** Nested data flattened into one level, with dotted keys. */
module Flatten {
  import opened PData
  import opened Decimals
  import opened DottedPaths

  /** Nested data; `Other` is any value that is printed, with its text. */
  datatype Json =
    | Obj(m: map<string, Json>)
    | Arr(es: seq<Json>)
    | Int(i: int)
    | Float(x: real)
    | Bool(b: bool)
    | Other(text: string)

  predicate IsScalar(v: Json) { !v.Obj? && !v.Arr? }

  /** The value kept for a scalar: integers become floating point, everything but numbers and booleans becomes text. */
  function Kept(v: Json): Json
    requires IsScalar(v)
  { if v.Int? then Float(v.i as real) else v }

  /** An integer is kept as that number in floating point, everything else as it is. */
  predicate Keeps(v: Json, x: Json) { (v.Int? ==> x == Float(v.i as real)) && (!v.Int? ==> x == v) }

  function FullKey(prefix: string, key: string): string { if prefix != "" then prefix + "." + key else key }

  // ---------------------------------------------------------------- where the leaves are

  datatype Step = Key(key: string) | Index(i: nat)

  function Segment(s: Step): string { if s.Key? then s.key else FormatNat(s.i) }

  function Child(v: Json, s: Step): Option<Json> {
    if v.Obj? && s.Key? && s.key in v.m then Some(v.m[s.key])
    else if v.Arr? && s.Index? && s.i < |v.es| then Some(v.es[s.i])
    else None
  }

  /** The scalar at the end of a path, if there is one. */
  function At(v: Json, path: seq<Step>): Option<Json> {
    if path == [] then (if IsScalar(v) then Some(v) else None)
    else
      match Child(v, path[0])
      case None => None
      case Some(c) => At(c, path[1..])
  }

  function Leaves(v: Json): set<seq<Step>> {
    match v
    case Obj(m) => set k, p | k in m && p in Leaves(m[k]) :: [Key(k)] + p
    case Arr(es) => set i, p | 0 <= i < |es| && p in Leaves(es[i]) :: [Index(i)] + p
    case _ => {[]}
  }

  /** The flat key of a path below `prefix`. */
  function FlatKey(prefix: string, path: seq<Step>): string
    decreases path
  {
    if path == [] then prefix else FlatKey(FullKey(prefix, Segment(path[0])), path[1..])
  }

  lemma {:induction false} LeavesAreAt(v: Json, path: seq<Step>)
    ensures path in Leaves(v) <==> At(v, path).Some?
    decreases path
  {
    if path != [] {
      assert [path[0]] + path[1..] == path;
      if Child(v, path[0]).Some? { LeavesAreAt(Child(v, path[0]).value, path[1..]); }
      if path in Leaves(v) {
        if v.Obj? {
          var k, p :| k in v.m && p in Leaves(v.m[k]) && path == [Key(k)] + p;
          assert path[1..] == p;
        } else {
          var i, p :| 0 <= i < |v.es| && p in Leaves(v.es[i]) && path == [Index(i)] + p;
          assert path[1..] == p;
        }
      }
    }
  }

  /** Each step of a path adds its key or the digits of its index, after a dot if anything is before it. */
  lemma {:induction false} FlatKeyGrows(prefix: string, path: seq<Step>, s: Step)
    ensures FlatKey(prefix, []) == prefix
    ensures var k := FlatKey(prefix, path);
      FlatKey(prefix, path + [s]) == (if k == "" then "" else k + ".") + (if s.Key? then s.key else FormatNat(s.i))
    decreases |path|
  {
    if path == [] {
      assert path + [s] == [s] && [s][1..] == [];
    } else {
      assert (path + [s])[0] == path[0] && (path + [s])[1..] == path[1..] + [s];
      FlatKeyGrows(FullKey(prefix, Segment(path[0])), path[1..], s);
    }
  }

  // ---------------------------------------------------------------- the flattening as it runs

  /** The result has the flat key of every leaf, and under each key the value of a leaf with that key. Where leaves
      share a key, any of them may win: map iteration order decides. */
  ghost predicate IsFlat(r: map<string, Json>, v: Json, prefix: string) {
    && (forall p :: At(v, p).Some? ==> FlatKey(prefix, p) in r)
    && (forall key :: key in r ==> IsFromLeaf(v, prefix, key, r[key]))
  }

  ghost predicate IsFromLeaf(v: Json, prefix: string, key: string, x: Json) {
    exists p :: IsLeafWith(v, p, prefix, key, x)
  }

  ghost predicate IsLeafWith(v: Json, p: seq<Step>, prefix: string, key: string, x: Json) {
    At(v, p).Some? && FlatKey(prefix, p) == key && IsScalar(At(v, p).value) && Keeps(At(v, p).value, x)
  }

  lemma Below(w: Json, s: Step, q: seq<Step>, prefix: string)
    requires Child(w, s).Some?
    ensures At(w, [s] + q) == At(Child(w, s).value, q)
    ensures FlatKey(prefix, [s] + q) == FlatKey(FullKey(prefix, Segment(s)), q)
  {
    assert ([s] + q)[1..] == q;
  }

  lemma FirstStep(v: Json, p: seq<Step>)
    requires At(v, p).Some? && !IsScalar(v)
    ensures p != [] && p == [p[0]] + p[1..] && Child(v, p[0]).Some? && At(v, p) == At(Child(v, p[0]).value, p[1..])
  {}

  /** `w` is `v` with one more child. */
  ghost predicate Extends(w: Json, v: Json, s: Step) {
    && !IsScalar(v) && !IsScalar(w) && Child(w, s).Some? && Child(v, s).None?
    && forall t :: t != s ==> Child(w, t) == Child(v, t)
  }

  lemma SamePath(w: Json, v: Json, s: Step, p: seq<Step>)
    requires Extends(w, v, s)
    ensures p == [] || p[0] != s ==> At(w, p) == At(v, p)
    ensures At(v, p).Some? ==> p != [] && p[0] != s
  {}

  /** Adding the flattened child at one step. */
  lemma AddChild(r: map<string, Json>, v: Json, sub: map<string, Json>, w: Json, s: Step, prefix: string)
    requires IsFlat(r, v, prefix) && Extends(w, v, s)
    requires IsFlat(sub, Child(w, s).value, FullKey(prefix, Segment(s)))
    ensures IsFlat(r + sub, w, prefix)
  {
    forall p | At(w, p).Some? ensures FlatKey(prefix, p) in r + sub {
      FirstStep(w, p);
      SamePath(w, v, s, p);
      if p[0] == s { Below(w, s, p[1..], prefix); }
    }
    forall key | key in r + sub ensures IsFromLeaf(w, prefix, key, (r + sub)[key]) {
      if key in sub { LeafBelow(w, s, prefix, key, sub[key]); } else { LeafBeside(w, v, s, prefix, key, r[key]); }
    }
  }

  lemma LeafBelow(w: Json, s: Step, prefix: string, key: string, x: Json)
    requires Child(w, s).Some? && IsFromLeaf(Child(w, s).value, FullKey(prefix, Segment(s)), key, x)
    ensures IsFromLeaf(w, prefix, key, x)
  {
    var q :| IsLeafWith(Child(w, s).value, q, FullKey(prefix, Segment(s)), key, x);
    Below(w, s, q, prefix);
    assert IsLeafWith(w, [s] + q, prefix, key, x);
  }

  lemma LeafBeside(w: Json, v: Json, s: Step, prefix: string, key: string, x: Json)
    requires Extends(w, v, s) && IsFromLeaf(v, prefix, key, x)
    ensures IsFromLeaf(w, prefix, key, x)
  {
    var p :| IsLeafWith(v, p, prefix, key, x);
    SamePath(w, v, s, p);
    assert IsLeafWith(w, p, prefix, key, x);
  }

  method FlattenJSON(data: map<string, Json>, prefix: string) returns (result: map<string, Json>)
    ensures IsFlat(result, Obj(data), prefix)
    decreases Obj(data), 0
  {
    result := map[];
    var rest := data.Keys;
    ghost var done: map<string, Json> := map[];
    while rest != {}
      invariant rest <= data.Keys
      invariant done == map k | k in data && k !in rest :: data[k]
      invariant IsFlat(result, Obj(done), prefix)
      decreases rest
    {
      var key :| key in rest;
      assert data[key] < Obj(data);
      var sub := FlattenValue(data[key], FullKey(prefix, key));
      AddChild(result, Obj(done), sub, Obj(done[key := data[key]]), Key(key), prefix);
      result := result + sub;
      done := done[key := data[key]];
      rest := rest - {key};
    }
    assert done == data;
  }

  /** One value of the map under its full key. An array element is flattened as a map with the index as its only key. */
  method FlattenValue(value: Json, fullKey: string) returns (sub: map<string, Json>)
    ensures IsFlat(sub, value, fullKey)
    decreases value, 1
  {
    if value.Obj? {
      sub := FlattenJSON(value.m, fullKey);
    } else if value.Arr? {
      sub := map[];
      for i := 0 to |value.es|
        invariant IsFlat(sub, Arr(value.es[..i]), fullKey)
      {
        var more := FlattenValue(value.es[i], FullKey(fullKey, FormatNat(i)));
        AddChild(sub, Arr(value.es[..i]), more, Arr(value.es[..i + 1]), Index(i), fullKey);
        sub := sub + more;
      }
      assert value.es[..|value.es|] == value.es;
    } else {
      sub := map[fullKey := Kept(value)];
      assert IsLeafWith(value, [], fullKey, fullKey, Kept(value));
    }
  }

  // ---------------------------------------------------------------- which keys can make leaves share a flat key

  predicate PlainKey(k: string) { k != "" && '.' !in k }

  /** Every key at every depth is non-empty and free of dots, or it is `odd`. */
  predicate PlainBut(v: Json, odd: string) {
    match v
    case Obj(m) => forall k :: k in m ==> (PlainKey(k) || k == odd) && PlainBut(m[k], odd)
    case Arr(es) => forall i :: 0 <= i < |es| ==> PlainBut(es[i], odd)
    case _ => true
  }

  /** The empty key, when there is no prefix, and a key that reads as a path of plain keys. */
  predicate Harmful(prefix: string, k: string) { (k == "" && prefix == "") || ('.' in k && "" !in Segments(k)) }

  function Path(path: seq<Step>): (names: seq<string>)
    ensures |names| == |path|
  { seq(|path|, i requires 0 <= i < |path| => Segment(path[i])) }

  predicate NamesBut(names: seq<string>, odd: string) {
    forall i :: 0 <= i < |names| ==> PlainKey(names[i]) || names[i] == odd
  }

  /** The segments of the names, one after the other. */
  function Spelled(names: seq<string>): seq<string> {
    if names == [] then [] else Segments(names[0]) + Spelled(names[1..])
  }

  lemma {:induction false} NamesOfPath(v: Json, path: seq<Step>, odd: string)
    requires PlainBut(v, odd) && At(v, path).Some?
    ensures NamesBut(Path(path), odd)
    decreases path
  {
    if path != [] {
      NamesOfPath(Child(v, path[0]).value, path[1..], odd);
      if v.Arr? { DigitsArePlain(path[0].i); }
      assert forall i :: 1 <= i < |path| ==> Path(path)[i] == Path(path[1..])[i - 1];
    }
  }

  lemma DigitsArePlain(n: nat)
    ensures PlainKey(FormatNat(n))
  {
    var s := FormatNat(n);
    assert forall i :: 0 <= i < |s| ==> s[i] != '.';
  }

  lemma {:induction false} SpelledIsDotFree(names: seq<string>)
    ensures DotFree(Spelled(names)) && (names != [] ==> Spelled(names) != [])
  {
    if names != [] { SpelledIsDotFree(names[1..]); }
  }

  /** Unless it starts with an empty key and no prefix, a flat key is the prefix and the spelled path. */
  lemma {:induction false} FlatKeyIsSpelled(prefix: string, path: seq<Step>)
    requires path != [] && (prefix != "" || Path(path)[0] != "")
    ensures FlatKey(prefix, path) == FullKey(prefix, Dotted(Spelled(Path(path))))
    decreases path
  {
    var names := Path(path);
    var full := FullKey(prefix, names[0]);
    assert names[1..] == Path(path[1..]);
    DottedSegments(names[0]);
    if |path| == 1 {
      assert path[1..] == [] && names[1..] == [] && Spelled(names) == Segments(names[0]) + [];
      assert Segments(names[0]) + [] == Segments(names[0]);
    } else {
      FlatKeyIsSpelled(full, path[1..]);
      SpelledIsDotFree(names[1..]);
      DottedJoin(Segments(names[0]), Spelled(names[1..]));
      FullKeyNests(prefix, names[0], Dotted(Spelled(names[1..])));
    }
  }

  lemma FullKeyNests(prefix: string, key: string, rest: string)
    requires prefix != "" || key != ""
    ensures FullKey(FullKey(prefix, key), rest) == FullKey(prefix, key + "." + rest)
  {
    assert (prefix + "." + key) + "." + rest == prefix + "." + (key + "." + rest);
  }

  lemma {:induction false} SameSegmentsSameLeaf(v: Json, p: seq<Step>, q: seq<Step>)
    requires At(v, p).Some? && At(v, q).Some? && Path(p) == Path(q)
    ensures p == q
    decreases p
  {
    if p != [] {
      assert Path(p)[0] == Path(q)[0];
      if v.Arr? { FormatNatInjective(p[0].i, q[0].i); }
      assert Path(p[1..]) == Path(p)[1..] == Path(q[1..]);
      SameSegmentsSameLeaf(Child(v, p[0]).value, p[1..], q[1..]);
      assert p == [p[0]] + p[1..] && q == [q[0]] + q[1..];
    }
  }

  // ---------------------------------------------------------------- spelled paths can be read back

  function FirstBlank(segs: seq<string>): (i: nat)
    ensures i <= |segs|
  { if segs == [] || segs[0] == "" then 0 else 1 + FirstBlank(segs[1..]) }

  lemma {:induction false} FirstBlankJoin(a: seq<string>, b: seq<string>)
    ensures "" in a ==> FirstBlank(a + b) == FirstBlank(a)
    ensures "" !in a ==> FirstBlank(a + b) == |a| + FirstBlank(b)
  {
    if a == [] {
      assert a + b == b;
    } else {
      assert (a + b)[1..] == a[1..] + b;
      assert a == [a[0]] + a[1..];
      FirstBlankJoin(a[1..], b);
    }
  }

  /** No blank segment comes before the first one of `odd`. */
  lemma {:induction false} BlanksComeFromOdd(names: seq<string>, odd: string)
    requires NamesBut(names, odd) && "" in Segments(odd) && "" in Spelled(names)
    ensures FirstBlank(Spelled(names)) >= FirstBlank(Segments(odd))
    ensures names[0] != odd ==> FirstBlank(Spelled(names)) > FirstBlank(Segments(odd))
  {
    FirstBlankJoin(Segments(names[0]), Spelled(names[1..]));
    if names[0] != odd {
      SplitPlain(names[0]);
      BlanksComeFromOdd(names[1..], odd);
    }
  }

  /** When `odd` spells a blank segment, or has no dot at all, the names can be told from the spelled path. */
  lemma {:induction false} NamesAreSpelled(ps: seq<string>, qs: seq<string>, odd: string)
    requires NamesBut(ps, odd) && NamesBut(qs, odd) && ('.' !in odd || "" in Segments(odd))
    requires Spelled(ps) == Spelled(qs)
    ensures ps == qs
  {
    SpelledIsDotFree(ps);
    SpelledIsDotFree(qs);
    if ps != [] && qs != [] {
      var p, q := ps[0], qs[0];
      SameHead(ps, qs, odd);
      assert Spelled(ps[1..]) == Spelled(ps)[|Segments(p)|..] == Spelled(qs[1..]);
      NamesAreSpelled(ps[1..], qs[1..], odd);
      assert ps == [p] + ps[1..] && qs == [q] + qs[1..];
    }
  }

  lemma SameHead(ps: seq<string>, qs: seq<string>, odd: string)
    requires ps != [] && qs != []
    requires NamesBut(ps, odd) && NamesBut(qs, odd) && ('.' !in odd || "" in Segments(odd))
    requires Spelled(ps) == Spelled(qs)
    ensures ps[0] == qs[0]
  {
    if '.' !in ps[0] { SplitPlain(ps[0]); assert Spelled(ps)[0] == ps[0]; }
    if '.' !in qs[0] { SplitPlain(qs[0]); assert Spelled(qs)[0] == qs[0]; }
    if '.' in ps[0] && ps[0] != qs[0] { OddComesFirst(ps, qs, odd); }
    if '.' in qs[0] && ps[0] != qs[0] { OddComesFirst(qs, ps, odd); }
  }

  lemma OddComesFirst(ps: seq<string>, qs: seq<string>, odd: string)
    requires ps != [] && qs != [] && ps[0] == odd && "" in Segments(odd)
    requires NamesBut(ps, odd) && NamesBut(qs, odd) && Spelled(ps) == Spelled(qs)
    ensures qs[0] == odd
  {
    FirstBlankJoin(Segments(odd), Spelled(ps[1..]));
    var i :| 0 <= i < |Segments(odd)| && Segments(odd)[i] == "";
    assert Spelled(ps)[i] == "";
    BlanksComeFromOdd(qs, odd);
  }

  /** With plain keys and at most one odd key that is not harmful, different leaves have different flat keys. */
  lemma KeysAreDistinct(data: map<string, Json>, odd: string, prefix: string, p: seq<Step>, q: seq<Step>)
    requires PlainBut(Obj(data), odd) && !Harmful(prefix, odd)
    requires At(Obj(data), p).Some? && At(Obj(data), q).Some? && FlatKey(prefix, p) == FlatKey(prefix, q)
    ensures p == q
  {
    var v := Obj(data);
    NamesOfPath(v, p, odd);
    NamesOfPath(v, q, odd);
    FlatKeyIsSpelled(prefix, p);
    FlatKeyIsSpelled(prefix, q);
    var a, b := Spelled(Path(p)), Spelled(Path(q));
    assert FullKey(prefix, Dotted(a))[|FullKey(prefix, "")|..] == Dotted(a);
    assert FullKey(prefix, Dotted(b))[|FullKey(prefix, "")|..] == Dotted(b);
    SpelledIsDotFree(Path(p));
    SpelledIsDotFree(Path(q));
    SplitDotted(a);
    SplitDotted(b);
    NamesAreSpelled(Path(p), Path(q), odd);
    SameSegmentsSameLeaf(v, p, q);
  }

  /** For such data flattening loses nothing: there are as many flat keys as leaves, and the flat key of every leaf
      holds the value of that leaf. */
  lemma NothingIsLost(data: map<string, Json>, odd: string, prefix: string, r: map<string, Json>)
    requires PlainBut(Obj(data), odd) && !Harmful(prefix, odd) && IsFlat(r, Obj(data), prefix)
    ensures |r| == |Leaves(Obj(data))|
    ensures forall p :: p in Leaves(Obj(data)) ==>
      && FlatKey(prefix, p) in r && At(Obj(data), p).Some? && IsScalar(At(Obj(data), p).value)
      && var x := At(Obj(data), p).value; r[FlatKey(prefix, p)] == if x.Int? then Float(x.i as real) else x
  {
    var v := Obj(data);
    forall p ensures p in Leaves(v) <==> At(v, p).Some? { LeavesAreAt(v, p); }
    forall p | p in Leaves(v) ensures IsLeafWith(v, p, prefix, FlatKey(prefix, p), r[FlatKey(prefix, p)]) {
      var q :| IsLeafWith(v, q, prefix, FlatKey(prefix, p), r[FlatKey(prefix, p)]);
      KeysAreDistinct(data, odd, prefix, p, q);
    }
    forall p, q | p in Leaves(v) && q in Leaves(v) && FlatKey(prefix, p) == FlatKey(prefix, q) ensures p == q {
      KeysAreDistinct(data, odd, prefix, p, q);
    }
    SameSize(Leaves(v), r.Keys, p => FlatKey(prefix, p));
  }

  lemma {:induction false} SameSize<T>(a: set<seq<T>>, b: set<string>, f: seq<T> -> string)
    requires forall p, q :: p in a && q in a && f(p) == f(q) ==> p == q
    requires forall p :: p in a ==> f(p) in b
    requires forall k :: k in b ==> exists p :: p in a && f(p) == k
    ensures |a| == |b|
  {
    if a == {} {
      assert b == {};
    } else {
      var p :| p in a;
      forall k | k in b - {f(p)} ensures exists q :: q in a - {p} && f(q) == k {
        var q :| q in a && f(q) == k;
        assert q in a - {p};
      }
      SameSize(a - {p}, b - {f(p)}, f);
      assert |a| == |a - {p}| + 1 && |b| == |b - {f(p)}| + 1;
    }
  }

  /** Flattening a flattened result without a prefix gives the same result, whatever was flattened. */
  lemma FlatIsFixed(v: Json, prefix: string, r: map<string, Json>, again: map<string, Json>)
    requires IsFlat(r, v, prefix) && IsFlat(again, Obj(r), "")
    ensures again == r
  {
    forall key | key in r ensures IsScalar(r[key]) && Kept(r[key]) == r[key] {
      var p :| IsLeafWith(v, p, prefix, key, r[key]);
    }
    forall key | key in r ensures key in again {
      Below(Obj(r), Key(key), [], "");
      assert At(Obj(r), [Key(key)]).Some? by { assert [Key(key)] + [] == [Key(key)]; }
      assert FlatKey("", [Key(key)]) == key by { assert [Key(key)] + [] == [Key(key)]; }
    }
    forall key | key in again ensures key in r && again[key] == r[key] {
      var p :| IsLeafWith(Obj(r), p, "", key, again[key]);
      OneStep(r, p);
    }
  }

  lemma OneStep(r: map<string, Json>, p: seq<Step>)
    requires forall k :: k in r ==> IsScalar(r[k])
    requires At(Obj(r), p).Some?
    ensures FlatKey("", p) in r && At(Obj(r), p).value == r[FlatKey("", p)]
  {
    FirstStep(Obj(r), p);
    assert p[1..] == [];
    Below(Obj(r), p[0], p[1..], "");
  }

  // ---------------------------------------------------------------- a harmful key does harm

  /** Two leaves of data with plain keys and `odd` that share a flat key. */
  ghost predicate Collide(data: map<string, Json>, odd: string, prefix: string, p: seq<Step>, q: seq<Step>) {
    && PlainBut(Obj(data), odd) && p != q && At(Obj(data), p).Some? && At(Obj(data), q).Some?
    && FlatKey(prefix, p) == FlatKey(prefix, q)
  }

  /** One odd key among plain ones can make two leaves share a flat key exactly when it is harmful: when it is empty and
      there is no prefix, or has a dot and only non-empty segments. */
  lemma OddKeyCollidesExactly(prefix: string, odd: string)
    ensures (exists data, p, q :: Collide(data, odd, prefix, p, q)) <==> Harmful(prefix, odd)
  {
    if data, p, q :| Collide(data, odd, prefix, p, q) {
      if !Harmful(prefix, odd) { KeysAreDistinct(data, odd, prefix, p, q); }
    }
    if Harmful(prefix, odd) {
      if '.' in odd { DottedKeyCollides(prefix, odd); } else { EmptyKeyCollides(); }
    }
  }

  lemma EmptyKeyCollides()
    ensures exists data, p, q :: Collide(data, "", "", p, q)
  {
    var data := map["" := Obj(map["b" := Json.Bool(true)]), "b" := Json.Bool(false)];
    var p, q := [Key(""), Key("b")], [Key("b")];
    assert p[1..] == [Key("b")] && [Key("b")][1..] == [];
    assert Collide(data, "", "", p, q);
  }

  function Nested(segs: seq<string>): Json {
    if segs == [] then Json.Bool(true) else Obj(map[segs[0] := Nested(segs[1..])])
  }

  function Keys(segs: seq<string>): (path: seq<Step>)
    ensures |path| == |segs|
  { seq(|segs|, i requires 0 <= i < |segs| => Key(segs[i])) }

  predicate AllPlain(segs: seq<string>) { forall i :: 0 <= i < |segs| ==> PlainKey(segs[i]) }

  lemma {:induction false} NestedLeaf(segs: seq<string>, odd: string)
    requires AllPlain(segs)
    ensures PlainBut(Nested(segs), odd) && At(Nested(segs), Keys(segs)) == Some(Json.Bool(true))
    ensures Path(Keys(segs)) == segs && Spelled(segs) == segs
  {
    if segs != [] {
      NestedLeaf(segs[1..], odd);
      SplitPlain(segs[0]);
      assert Keys(segs)[1..] == Keys(segs[1..]);
      assert segs == [segs[0]] + segs[1..];
    }
  }

  lemma TopLeaf(data: map<string, Json>, k: string, prefix: string)
    requires k in data && IsScalar(data[k])
    ensures At(Obj(data), [Key(k)]) == Some(data[k]) && FlatKey(prefix, [Key(k)]) == FullKey(prefix, k)
  {
    assert [Key(k)] + [] == [Key(k)];
    Below(Obj(data), Key(k), [], prefix);
  }

  lemma SameBelowFirst(v: Json, w: Json, p: seq<Step>)
    requires p != [] && Child(v, p[0]) == Child(w, p[0])
    ensures At(v, p) == At(w, p)
  {}

  lemma SegmentsArePlain(odd: string)
    requires "" !in Segments(odd)
    ensures AllPlain(Segments(odd))
  {
    forall i | 0 <= i < |Segments(odd)| ensures PlainKey(Segments(odd)[i]) {
      assert Segments(odd)[i] in Segments(odd);
    }
  }

  /** The key itself at the top, and its segments as nested keys beside it. */
  lemma DottedKeyCollides(prefix: string, odd: string)
    requires '.' in odd && "" !in Segments(odd)
    ensures exists data, p, q :: Collide(data, odd, prefix, p, q)
  {
    var segs := Segments(odd);
    SegmentsArePlain(odd);
    NestedLeaf(segs, odd);
    var data := Nested(segs).m[odd := Json.Bool(false)];
    OddAtTop(Nested(segs), odd);
    TopLeaf(data, odd, prefix);
    NestedBeside(segs, odd, prefix);
    assert Collide(data, odd, prefix, [Key(odd)], Keys(segs));
  }

  lemma NestedBeside(segs: seq<string>, odd: string, prefix: string)
    requires AllPlain(segs) && segs == Segments(odd) && '.' in odd
    ensures var data := Obj(Nested(segs).m[odd := Json.Bool(false)]); var q := Keys(segs);
      && q != [Key(odd)] && At(data, q).Some? && FlatKey(prefix, q) == FullKey(prefix, odd)
  {
    var q := Keys(segs);
    NestedLeaf(segs, odd);
    assert q[0] == Key(segs[0]) && segs[0] != odd;
    SameBelowFirst(Obj(Nested(segs).m[odd := Json.Bool(false)]), Nested(segs), q);
    FlatKeyIsSpelled(prefix, q);
    DottedSegments(odd);
  }

  lemma OddAtTop(v: Json, odd: string)
    requires v.Obj? && PlainBut(v, odd)
    ensures PlainBut(Obj(v.m[odd := Json.Bool(false)]), odd)
  {}
}
