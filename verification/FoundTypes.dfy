/** Which types the inference finds and when it fails, said of the values in the body: where they are, how the path to
    them is spelled, and what kind of value they are. */
module FoundTypes {
  import opened PData
  import opened KeyCheck
  import opened TypeInference

  // ---------------------------------------------------------------- places

  /** From a map to the value of a key, or from an array to an element. */
  datatype Step = Key(key: string) | Element(i: nat)

  function Child(v: Value, s: Step): Option<Value> {
    match s
    case Key(k) => if v.Map? && k in v.m then Some(v.m[k]) else None
    case Element(i) => if v.Slice? && i < |v.elems| then Some(v.elems[i]) else None
  }

  function ValueAt(v: Value, steps: seq<Step>): Option<Value> {
    if steps == [] then Some(v)
    else
      match Child(v, steps[0])
      case None => None
      case Some(w) => ValueAt(w, steps[1..])
  }

  function KeysOn(steps: seq<Step>): nat {
    if steps == [] then 0 else (if steps[0].Key? then 1 else 0) + KeysOn(steps[1..])
  }

  // ---------------------------------------------------------------- spelling

  /** A key as part of a path: between backticks when it has a colon, an at sign or a hyphen. */
  function Part(k: string): string {
    if exists i :: 0 <= i < |k| && k[i] in {':', '@', '-'} then ['`'] + k + ['`'] else k
  }

  /** A key is added after a dot, as it is when nothing is before it; an element adds brackets. */
  function Extended(path: string, s: Step): string {
    if s.Element? then path + ['[', ']'] else if path == "" then s.key else path + ['.'] + Part(s.key)
  }

  function Spelled(path: string, steps: seq<Step>): string
    decreases |steps|
  {
    if steps == [] then path else Spelled(Extended(path, steps[0]), steps[1..])
  }

  /** What the steps add to a path that has begun. */
  function Pieces(steps: seq<Step>): string {
    if steps == [] then "" else Piece(steps[0]) + Pieces(steps[1..])
  }

  function Piece(s: Step): string { if s.Element? then "[]" else "." + Part(s.key) }

  lemma PieceAdded(path: string, s: Step)
    requires path != ""
    ensures Extended(path, s) == path + Piece(s)
  {
    if s.Key? { assert path + ['.'] + Part(s.key) == path + ("." + Part(s.key)); }
  }

  /** Once there is something before it, every step adds its own piece. */
  lemma {:induction false} SpelledInPieces(path: string, steps: seq<Step>)
    requires path != ""
    ensures Spelled(path, steps) == path + Pieces(steps)
    decreases |steps|
  {
    if steps == [] {
      assert path + "" == path;
    } else {
      PieceAdded(path, steps[0]);
      SpelledInPieces(path + Piece(steps[0]), steps[1..]);
      assert path + Piece(steps[0]) + Pieces(steps[1..]) == path + (Piece(steps[0]) + Pieces(steps[1..]));
    }
  }

  lemma GeneratedPath(prefix: string, key: string)
    ensures GeneratePath(prefix, key) == Extended(prefix, Key(key))
  {
    assert IsBacktickRequired(key) <==> exists i :: 0 <= i < |key| && key[i] in {':', '@', '-'};
  }

  // ---------------------------------------------------------------- kinds

  predicate SameKind(v: Value, w: Value) {
    || (v.Map? && w.Map?) || ((v.Str? || v.Bytes?) && (w.Str? || w.Bytes?))
    || (v.Bool? && w.Bool?) || (v.Int? && w.Int?) || (v.Double? && w.Double?)
  }

  /** The type of a scalar, if it is one. */
  predicate IsNamed(v: Value, name: string) {
    || ((v.Str? || v.Bytes?) && name == "String") || (v.Bool? && name == "Bool")
    || (v.Int? && name == "Int") || (v.Double? && name == "Float64")
  }

  /** The type of an array of values of the kind of `el`. */
  predicate IsArrayOf(el: Value, name: string) {
    || (el.Map? && name == "Array(JSON)") || ((el.Str? || el.Bytes?) && name == "Array(Nullable(String))")
    || (el.Bool? && name == "Array(Nullable(Bool))") || (el.Int? && name == "Array(Nullable(Int))")
    || (el.Double? && name == "Array(Nullable(Float64))")
  }

  /** The type of an array by its elements. */
  ghost predicate IsArrayNamed(es: seq<Value>, name: string) {
    && es != []
    && if exists i :: 0 <= i < |es| && !SameKind(es[0], es[i]) then name == "Array(Dynamic)" else IsArrayOf(es[0], name)
  }

  // ---------------------------------------------------------------- where the walk goes

  /** A map or array that is not too deep or too big. */
  predicate Opens(c: Config, v: Value, level: int) {
    level < c.maxDepthTraverse && ((v.Map? && |v.m| <= 1024) || (v.Slice? && |v.elems| <= c.maxArrayElements))
  }

  /** Element `i` is looked at: those before it are of one kind. */
  predicate LooksAt(es: seq<Value>, i: nat) { i < |es| && forall j, k :: 0 <= j < k < i ==> SameKind(es[j], es[k]) }

  /** Keys that do not look generated are followed, and elements that are maps. */
  predicate Takes(c: Config, v: Value, level: int, s: Step) {
    Opens(c, v, level) &&
    match s
    case Key(k) => v.Map? && k in v.m && !IsCardinal(k)
    case Element(i) => v.Slice? && LooksAt(v.elems, i) && v.elems[i].Map?
  }

  /** The walk that starts at `v` on `level` gets to the place: it takes every step, and only keys count as depth. */
  ghost predicate Reaches(c: Config, v: Value, level: int, steps: seq<Step>) {
    && ValueAt(v, steps).Some?
    && forall n :: 0 <= n < |steps| ==>
         && ValueAt(v, steps[..n]).Some?
         && Takes(c, ValueAt(v, steps[..n]).value, level + KeysOn(steps[..n]), steps[n])
  }

  function Deeper(level: int, s: Step): int { if s.Key? then level + 1 else level }

  lemma AfterFirst(v: Value, s: Step, rest: seq<Step>)
    ensures ValueAt(v, [s] + rest) == if Child(v, s).Some? then ValueAt(Child(v, s).value, rest) else None
    ensures KeysOn([s] + rest) == (if s.Key? then 1 else 0) + KeysOn(rest)
  {
    assert ([s] + rest)[1..] == rest;
  }

  lemma ReachesCons(c: Config, v: Value, level: int, s: Step, rest: seq<Step>)
    ensures Reaches(c, v, level, [s] + rest) <==>
      Takes(c, v, level, s) && Child(v, s).Some? && Reaches(c, Child(v, s).value, Deeper(level, s), rest)
  {
    var steps := [s] + rest;
    assert steps[..0] == [] && steps[0] == s;
    AfterFirst(v, s, rest);
    forall n | 0 <= n < |rest|
      ensures steps[n + 1] == rest[n]
      ensures ValueAt(v, steps[..n + 1]) == if Child(v, s).Some? then ValueAt(Child(v, s).value, rest[..n]) else None
      ensures level + KeysOn(steps[..n + 1]) == Deeper(level, s) + KeysOn(rest[..n])
    {
      assert steps[..n + 1] == [s] + rest[..n];
      AfterFirst(v, s, rest[..n]);
    }
    if Reaches(c, v, level, steps) {
      assert Takes(c, v, level, s) by { assert ValueAt(v, steps[..0]).Some?; }
      forall n | 0 <= n < |rest|
        ensures ValueAt(Child(v, s).value, rest[..n]).Some?
        ensures Takes(c, ValueAt(Child(v, s).value, rest[..n]).value, Deeper(level, s) + KeysOn(rest[..n]), rest[n])
      {
        assert ValueAt(v, steps[..n + 1]).Some?;
      }
    }
    if Takes(c, v, level, s) && Child(v, s).Some? && Reaches(c, Child(v, s).value, Deeper(level, s), rest) {
      forall n | 0 <= n < |steps|
        ensures ValueAt(v, steps[..n]).Some?
        ensures Takes(c, ValueAt(v, steps[..n]).value, level + KeysOn(steps[..n]), steps[n])
      {
        if n > 0 { assert ValueAt(Child(v, s).value, rest[..n - 1]).Some? && steps[n] == rest[n - 1]; }
      }
    }
  }

  // ---------------------------------------------------------------- what is found

  /** The value itself gives the name: a scalar its type, an opened array the type of its elements. */
  ghost predicate Gives(c: Config, v: Value, level: int, name: string) {
    IsNamed(v, name) || (v.Slice? && Opens(c, v, level) && IsArrayNamed(v.elems, name))
  }

  /** The steps lead to a value that gives the name, and spell the path. */
  ghost predicate FindsBy(c: Config, prefix: string, v: Value, level: int, path: string, name: string,
                          steps: seq<Step>)
  {
    && Reaches(c, v, level, steps) && Spelled(prefix, steps) == path
    && Gives(c, ValueAt(v, steps).value, level + KeysOn(steps), name)
  }

  ghost predicate Finds(c: Config, prefix: string, v: Value, level: int, path: string, name: string) {
    exists steps :: FindsBy(c, prefix, v, level, path, name, steps)
  }

  /** The value itself is an error: an empty value, or an opened array where a looked-at element is empty or an array.
      */
  ghost predicate Bad(c: Config, v: Value, level: int) {
    v.Empty? || (v.Slice? && Opens(c, v, level)
                 && exists i: nat :: LooksAt(v.elems, i) && (v.elems[i].Empty? || v.elems[i].Slice?))
  }

  ghost predicate FailsBy(c: Config, v: Value, level: int, steps: seq<Step>) {
    Reaches(c, v, level, steps) && Bad(c, ValueAt(v, steps).value, level + KeysOn(steps))
  }

  ghost predicate Fails(c: Config, v: Value, level: int) { exists steps :: FailsBy(c, v, level, steps) }

  lemma FindsByCons(c: Config, prefix: string, v: Value, level: int, path: string, name: string, s: Step,
                    rest: seq<Step>)
    ensures FindsBy(c, prefix, v, level, path, name, [s] + rest) <==>
      && Takes(c, v, level, s) && Child(v, s).Some?
      && FindsBy(c, Extended(prefix, s), Child(v, s).value, Deeper(level, s), path, name, rest)
  {
    ReachesCons(c, v, level, s, rest);
    AfterFirst(v, s, rest);
    assert ([s] + rest)[0] == s && ([s] + rest)[1..] == rest;
  }

  lemma FailsByCons(c: Config, v: Value, level: int, s: Step, rest: seq<Step>)
    ensures FailsBy(c, v, level, [s] + rest) <==>
      Takes(c, v, level, s) && Child(v, s).Some? && FailsBy(c, Child(v, s).value, Deeper(level, s), rest)
  {
    ReachesCons(c, v, level, s, rest);
    AfterFirst(v, s, rest);
  }

  lemma ByNone(c: Config, prefix: string, v: Value, level: int, path: string, name: string)
    ensures FindsBy(c, prefix, v, level, path, name, []) <==> prefix == path && Gives(c, v, level, name)
    ensures FailsBy(c, v, level, []) <==> Bad(c, v, level)
  {}

  ghost predicate FindsPast(c: Config, prefix: string, v: Value, level: int, path: string, name: string, s: Step) {
    && Takes(c, v, level, s) && Child(v, s).Some?
    && Finds(c, Extended(prefix, s), Child(v, s).value, Deeper(level, s), path, name)
  }

  ghost predicate FailsPast(c: Config, v: Value, level: int, s: Step) {
    Takes(c, v, level, s) && Child(v, s).Some? && Fails(c, Child(v, s).value, Deeper(level, s))
  }

  lemma FindsUnfold(c: Config, prefix: string, v: Value, level: int, path: string, name: string)
    ensures Finds(c, prefix, v, level, path, name) <==>
      (prefix == path && Gives(c, v, level, name)) || exists s :: FindsPast(c, prefix, v, level, path, name, s)
  {
    ByNone(c, prefix, v, level, path, name);
    if steps :| FindsBy(c, prefix, v, level, path, name, steps) {
      FindsFirst(c, prefix, v, level, path, name, steps);
    } else if s :| FindsPast(c, prefix, v, level, path, name, s) {
      FindsAfter(c, prefix, v, level, path, name, s);
    }
  }

  lemma FindsFirst(c: Config, prefix: string, v: Value, level: int, path: string, name: string, steps: seq<Step>)
    requires FindsBy(c, prefix, v, level, path, name, steps)
    ensures steps != [] ==> FindsPast(c, prefix, v, level, path, name, steps[0])
  {
    if steps != [] {
      assert steps == [steps[0]] + steps[1..];
      FindsByCons(c, prefix, v, level, path, name, steps[0], steps[1..]);
    }
  }

  lemma FindsAfter(c: Config, prefix: string, v: Value, level: int, path: string, name: string, s: Step)
    requires FindsPast(c, prefix, v, level, path, name, s)
    ensures Finds(c, prefix, v, level, path, name)
  {
    var rest :| FindsBy(c, Extended(prefix, s), Child(v, s).value, Deeper(level, s), path, name, rest);
    FindsByCons(c, prefix, v, level, path, name, s, rest);
  }

  lemma FailsUnfold(c: Config, v: Value, level: int)
    ensures Fails(c, v, level) <==> Bad(c, v, level) || exists s :: FailsPast(c, v, level, s)
  {
    ByNone(c, "", v, level, "", "");
    if steps :| FailsBy(c, v, level, steps) {
      FailsFirst(c, v, level, steps);
    } else if s :| FailsPast(c, v, level, s) {
      FailsAfter(c, v, level, s);
    }
  }

  lemma FailsFirst(c: Config, v: Value, level: int, steps: seq<Step>)
    requires FailsBy(c, v, level, steps)
    ensures steps != [] ==> FailsPast(c, v, level, steps[0])
  {
    if steps != [] {
      assert steps == [steps[0]] + steps[1..];
      FailsByCons(c, v, level, steps[0], steps[1..]);
    }
  }

  lemma FailsAfter(c: Config, v: Value, level: int, s: Step)
    requires FailsPast(c, v, level, s)
    ensures Fails(c, v, level)
  {
    var rest :| FailsBy(c, Child(v, s).value, Deeper(level, s), rest);
    FailsByCons(c, v, level, s, rest);
  }

  // ---------------------------------------------------------------- scalars and arrays

  lemma ScalarNamesExactly(prefix: string, v: Value, path: string, name: string)
    requires !v.Map? && !v.Slice?
    ensures ScalarMask(v) == 0 <==> v.Empty?
    ensures ScalarMask(v) != 0 ==>
      ((path, name) in Named({Typed(prefix, ScalarMask(v))}) <==> path == prefix && IsNamed(v, name))
  {
    NamedOfOne(prefix, ScalarMask(v), path, name);
    MaskNames(name);
  }

  lemma NamedOfOne(prefix: string, mask: bv16, path: string, name: string)
    ensures (path, name) in Named({Typed(prefix, mask)}) <==> path == prefix && name in TypeNames(mask)
  {
    assert Typed(prefix, mask) in {Typed(prefix, mask)};
  }

  lemma MaskNames(name: string)
    ensures name in TypeNames(MASK_STRING) <==> name == "String"
    ensures name in TypeNames(MASK_INT) <==> name == "Int"
    ensures name in TypeNames(MASK_FLOAT) <==> name == "Float64"
    ensures name in TypeNames(MASK_BOOL) <==> name == "Bool"
  {}

  lemma ArrayMaskNames(name: string)
    ensures name in TypeNames(MASK_ARRAY_STRING) <==> name == "Array(Nullable(String))"
    ensures name in TypeNames(MASK_ARRAY_INT) <==> name == "Array(Nullable(Int))"
    ensures name in TypeNames(MASK_ARRAY_FLOAT) <==> name == "Array(Nullable(Float64))"
    ensures name in TypeNames(MASK_ARRAY_BOOL) <==> name == "Array(Nullable(Bool))"
    ensures name in TypeNames(MASK_ARRAY_JSON) <==> name == "Array(JSON)"
    ensures name in TypeNames(MASK_ARRAY_DYNAMIC) <==> name == "Array(Dynamic)"
  {}

  lemma MaskIsKind(v: Value, w: Value)
    ensures ElementMask(v) == 0 <==> v.Empty? || v.Slice?
    ensures SameKind(v, w) <==> ElementMask(v) == ElementMask(w) && ElementMask(v) != 0
    ensures ElementMask(v) != MASK_ARRAY_DYNAMIC
  {}

  /** Element `i` is reached by the inference that has met the kind `prev`, or none, before. */
  predicate Met(es: seq<Value>, prev: bv16, i: nat) {
    i < |es| && forall j :: 0 <= j < i ==> ElementMask(es[j]) == if prev != 0 then prev else ElementMask(es[0])
  }

  lemma MetRest(es: seq<Value>, prev: bv16, i: nat)
    requires es != [] && (prev == 0 || ElementMask(es[0]) == prev) && ElementMask(es[0]) != 0
    ensures Met(es, prev, i + 1) <==> Met(es[1..], ElementMask(es[0]), i)
  {
    var cur := ElementMask(es[0]);
    if Met(es[1..], cur, i) {
      forall j | 0 <= j < i + 1 ensures ElementMask(es[j]) == cur {
        if j > 0 { assert es[j] == es[1..][j - 1]; }
      }
    }
    if Met(es, prev, i + 1) {
      forall j | 0 <= j < i ensures ElementMask(es[1..][j]) == cur { assert es[1..][j] == es[j + 1]; }
    }
  }

  /** The elements that end the inference. */
  predicate BadElement(c: Config, prefix: string, el: Value, level: int) {
    ElementMask(el) == 0 || Inside(c, prefix, el, level).None?
  }

  lemma {:induction false} ElementsFailExactly(c: Config, prefix: string, es: seq<Value>, prev: bv16, level: int)
    ensures InferElements(c, prefix, es, prev, level).None? <==>
      exists i: nat :: Met(es, prev, i) && BadElement(c, prefix, es[i], level)
    decreases |es|
  {
    if es != [] {
      var cur := ElementMask(es[0]);
      assert Met(es, prev, 0);
      if !BadElement(c, prefix, es[0], level) && (prev == 0 || cur == prev) {
        ElementsFailExactly(c, prefix, es[1..], cur, level);
        if i: nat :| Met(es, prev, i) && BadElement(c, prefix, es[i], level) {
          MetRest(es, prev, i - 1);
          assert es[1..][i - 1] == es[i];
        }
        if i: nat :| Met(es[1..], cur, i) && BadElement(c, prefix, es[1..][i], level) {
          MetRest(es, prev, i);
          assert es[i + 1] == es[1..][i];
        }
      }
    }
  }

  lemma {:induction false} ElementsFindExactly(c: Config, prefix: string, es: seq<Value>, prev: bv16, level: int,
                                               t: Typed)
    requires InferElements(c, prefix, es, prev, level).Some?
    ensures t in InferElements(c, prefix, es, prev, level).value.0 <==>
      exists i: nat :: Met(es, prev, i) && InsideOf(c, prefix, es[i], level, t)
    decreases |es|
  {
    if es != [] {
      var cur := ElementMask(es[0]);
      assert Met(es, prev, 0);
      if prev == 0 || cur == prev {
        ElementsFindExactly(c, prefix, es[1..], cur, level, t);
        if i: nat :| Met(es, prev, i) && InsideOf(c, prefix, es[i], level, t) {
          if i > 0 {
            MetRest(es, prev, i - 1);
            assert es[1..][i - 1] == es[i];
          }
        }
        if i: nat :| Met(es[1..], cur, i) && InsideOf(c, prefix, es[1..][i], level, t) {
          MetRest(es, prev, i);
          assert es[i + 1] == es[1..][i];
        }
      }
    }
  }

  predicate InsideOf(c: Config, prefix: string, el: Value, level: int, t: Typed) {
    Inside(c, prefix, el, level).Some? && t in Inside(c, prefix, el, level).value
  }

  // ---------------------------------------------------------------- the whole inference

  /** `r` is an error exactly when something the walk meets is one, and otherwise says exactly what there is to find. */
  ghost predicate IsRight(c: Config, prefix: string, v: Value, level: int, r: Option<set<Typed>>) {
    && (r.None? <==> Fails(c, v, level))
    && (r.Some? ==> forall path, name :: (path, name) in Named(r.value) <==> Finds(c, prefix, v, level, path, name))
  }

  /** The inference fails exactly when the walk meets an empty value, or looks at an array element that is empty or an
      array; otherwise it finds exactly the types of the scalars and opened arrays that the walk gets to, under the
      paths that their keys and elements spell. */
  lemma {:induction false} InferExactly(c: Config, prefix: string, v: Value, level: int)
    ensures IsRight(c, prefix, v, level, Infer(c, prefix, v, level))
    decreases v
  {
    if !v.Map? && !v.Slice? {
      ScalarIsRight(c, prefix, v, level);
    } else if !Opens(c, v, level) {
      ShutIsRight(c, prefix, v, level);
    } else if v.Map? {
      forall k | k in v.m ensures KeyRight(c, prefix, v, level, k) {
        GeneratedPath(prefix, k);
        InferExactly(c, GeneratePath(prefix, k), v.m[k], level + 1);
      }
      KeysAreRight(c, prefix, v, level);
    } else {
      forall i | 0 <= i < |v.elems| ensures ElementRight(c, prefix, v.elems, level, i) {
        InferExactly(c, prefix + "[]", v.elems[i], level);
      }
      ArrayIsRight(c, prefix, v, level);
    }
  }

  lemma ScalarIsRight(c: Config, prefix: string, v: Value, level: int)
    requires !v.Map? && !v.Slice?
    ensures IsRight(c, prefix, v, level, Infer(c, prefix, v, level))
  {
    FailsUnfold(c, v, level);
    forall path, name
      ensures Finds(c, prefix, v, level, path, name) <==> path == prefix && IsNamed(v, name)
      ensures ScalarMask(v) != 0 ==>
        ((path, name) in Named({Typed(prefix, ScalarMask(v))}) <==> path == prefix && IsNamed(v, name))
    {
      FindsUnfold(c, prefix, v, level, path, name);
      ScalarNamesExactly(prefix, v, path, name);
    }
    ScalarNamesExactly(prefix, v, "", "");
  }

  /** Too deep or too big: nothing is found. */
  lemma ShutIsRight(c: Config, prefix: string, v: Value, level: int)
    requires (v.Map? || v.Slice?) && !Opens(c, v, level)
    ensures IsRight(c, prefix, v, level, Infer(c, prefix, v, level))
  {
    FailsUnfold(c, v, level);
    forall path, name ensures !Finds(c, prefix, v, level, path, name) { FindsUnfold(c, prefix, v, level, path, name); }
    assert Infer(c, prefix, v, level) == Some({});
  }

  // Maps.

  ghost predicate KeyRight(c: Config, prefix: string, v: Value, level: int, k: string)
    requires v.Map? && k in v.m
  {
    IsRight(c, Extended(prefix, Key(k)), v.m[k], level + 1, Infer(c, GeneratePath(prefix, k), v.m[k], level + 1))
  }

  ghost predicate KeysRight(c: Config, prefix: string, v: Value, level: int)
    requires v.Map?
  { forall k :: k in v.m ==> KeyRight(c, prefix, v, level, k) }

  predicate AllKeysRead(c: Config, prefix: string, v: Value, level: int)
    requires v.Map?
  { forall k :: k in v.m ==> InferKey(c, prefix, v, k, level).Some? }

  lemma KeysNamed(c: Config, prefix: string, v: Value, level: int, path: string, name: string)
    requires v.Map? && AllKeysRead(c, prefix, v, level)
    ensures InferKeys(c, prefix, v, v.m.Keys, level).Some?
    ensures (path, name) in Named(InferKeys(c, prefix, v, v.m.Keys, level).value) <==>
      exists k :: k in v.m && (path, name) in Named(InferKey(c, prefix, v, k, level).value)
  {
    var all := InferKeys(c, prefix, v, v.m.Keys, level).value;
    if (path, name) in Named(all) {
      var t :| t in all && t.path == path && name in TypeNames(t.mask);
      var k :| k in v.m && t in InferKey(c, prefix, v, k, level).value;
      assert (path, name) in Named(InferKey(c, prefix, v, k, level).value);
    }
    if k :| k in v.m && (path, name) in Named(InferKey(c, prefix, v, k, level).value) {
      var t :| t in InferKey(c, prefix, v, k, level).value && t.path == path && name in TypeNames(t.mask);
      assert t in all;
    }
  }

  lemma KeysAreRight(c: Config, prefix: string, v: Value, level: int)
    requires v.Map? && Opens(c, v, level)
    requires KeysRight(c, prefix, v, level)
    ensures IsRight(c, prefix, v, level, Infer(c, prefix, v, level))
  {
    var all := InferKeys(c, prefix, v, v.m.Keys, level);
    assert Infer(c, prefix, v, level) == all;
    KeysFailExactly(c, prefix, v, level);
    if all.Some? {
      forall path, name ensures (path, name) in Named(all.value) <==> Finds(c, prefix, v, level, path, name) {
        KeysFindExactly(c, prefix, v, level, path, name);
      }
    }
  }

  lemma KeyFails(c: Config, prefix: string, v: Value, level: int, k: string)
    requires v.Map? && Opens(c, v, level) && k in v.m && KeyRight(c, prefix, v, level, k)
    ensures InferKey(c, prefix, v, k, level).None? <==> FailsPast(c, v, level, Key(k))
  {}

  lemma KeysFailExactly(c: Config, prefix: string, v: Value, level: int)
    requires v.Map? && Opens(c, v, level)
    requires KeysRight(c, prefix, v, level)
    ensures InferKeys(c, prefix, v, v.m.Keys, level).None? <==> Fails(c, v, level)
  {
    FailsUnfold(c, v, level);
    if k :| k in v.m && InferKey(c, prefix, v, k, level).None? {
      KeyFails(c, prefix, v, level, k);
    }
    if s :| FailsPast(c, v, level, s) {
      KeyFails(c, prefix, v, level, s.key);
      assert InferKey(c, prefix, v, s.key, level).None?;
    }
  }

  lemma KeyFinds(c: Config, prefix: string, v: Value, level: int, path: string, name: string, k: string)
    requires v.Map? && Opens(c, v, level) && k in v.m && KeyRight(c, prefix, v, level, k)
    requires InferKey(c, prefix, v, k, level).Some?
    ensures (path, name) in Named(InferKey(c, prefix, v, k, level).value) <==>
      FindsPast(c, prefix, v, level, path, name, Key(k))
  {
    if IsCardinal(k) { assert Named({}) == {}; }
  }

  lemma KeysFindExactly(c: Config, prefix: string, v: Value, level: int, path: string, name: string)
    requires v.Map? && Opens(c, v, level) && InferKeys(c, prefix, v, v.m.Keys, level).Some?
    requires KeysRight(c, prefix, v, level)
    ensures (path, name) in Named(InferKeys(c, prefix, v, v.m.Keys, level).value) <==>
      Finds(c, prefix, v, level, path, name)
  {
    FindsUnfold(c, prefix, v, level, path, name);
    KeysNamed(c, prefix, v, level, path, name);
    if k :| k in v.m && (path, name) in Named(InferKey(c, prefix, v, k, level).value) {
      KeyFinds(c, prefix, v, level, path, name, k);
    }
    if s :| FindsPast(c, prefix, v, level, path, name, s) {
      KeyFinds(c, prefix, v, level, path, name, s.key);
    }
  }

  // Arrays.

  /** While no element is an error, the elements that are met are those that are looked at. */
  lemma MetIsLookedAt(es: seq<Value>, i: nat)
    requires forall j :: 0 <= j < i && j < |es| ==> ElementMask(es[j]) != 0
    ensures Met(es, 0, i) <==> LooksAt(es, i)
  {
    if Met(es, 0, i) {
      forall j, k | 0 <= j < k < i ensures SameKind(es[j], es[k]) { MaskIsKind(es[j], es[k]); }
    }
    if LooksAt(es, i) {
      forall j | 0 <= j < i ensures ElementMask(es[j]) == ElementMask(es[0]) {
        if j > 0 { MaskIsKind(es[0], es[j]); }
      }
    }
  }

  ghost predicate ElementRight(c: Config, prefix: string, es: seq<Value>, level: int, i: nat)
    requires i < |es|
  { IsRight(c, prefix + "[]", es[i], level, Infer(c, prefix + "[]", es[i], level)) }

  ghost predicate ElementsRight(c: Config, prefix: string, es: seq<Value>, level: int) {
    forall i :: 0 <= i < |es| ==> ElementRight(c, prefix, es, level, i)
  }

  lemma ArrayFailsExactly(c: Config, prefix: string, v: Value, level: int)
    requires v.Slice? && Opens(c, v, level) && ElementsRight(c, prefix, v.elems, level)
    ensures InferElements(c, prefix, v.elems, 0, level).None? <==> Fails(c, v, level)
  {
    ElementsFailExactly(c, prefix, v.elems, 0, level);
    FailsUnfold(c, v, level);
    if i: nat :| Met(v.elems, 0, i) && BadElement(c, prefix, v.elems[i], level) {
      BadElementFails(c, prefix, v, level, i);
    }
    if Bad(c, v, level) {
      var i: nat :| LooksAt(v.elems, i) && (v.elems[i].Empty? || v.elems[i].Slice?);
      LookedAtBad(c, prefix, v.elems, level, i);
    }
    if s :| FailsPast(c, v, level, s) {
      assert ElementRight(c, prefix, v.elems, level, s.i);
      LookedAtBad(c, prefix, v.elems, level, s.i);
    }
  }

  lemma BadElementFails(c: Config, prefix: string, v: Value, level: int, i: nat)
    requires v.Slice? && Opens(c, v, level) && ElementsRight(c, prefix, v.elems, level)
    requires Met(v.elems, 0, i) && BadElement(c, prefix, v.elems[i], level)
    ensures Bad(c, v, level) || exists s :: FailsPast(c, v, level, s)
  {
    var j := FirstBad(c, prefix, v.elems, level, i);
    MetIsLookedAt(v.elems, j);
    MaskIsKind(v.elems[j], v.elems[j]);
    assert ElementRight(c, prefix, v.elems, level, j);
    if ElementMask(v.elems[j]) != 0 { assert FailsPast(c, v, level, Element(j)); }
  }

  lemma {:induction false} FirstBad(c: Config, prefix: string, es: seq<Value>, level: int, i: nat) returns (j: nat)
    requires Met(es, 0, i) && BadElement(c, prefix, es[i], level)
    ensures Met(es, 0, j) && BadElement(c, prefix, es[j], level)
    ensures forall k :: 0 <= k < j ==> ElementMask(es[k]) != 0
    decreases i
  {
    j := i;
    if k: nat :| k < i && ElementMask(es[k]) == 0 {
      assert Met(es, 0, k);
      j := FirstBad(c, prefix, es, level, k);
    }
  }

  lemma LookedAtBad(c: Config, prefix: string, es: seq<Value>, level: int, i: nat)
    requires LooksAt(es, i) && BadElement(c, prefix, es[i], level)
    ensures exists j: nat :: Met(es, 0, j) && BadElement(c, prefix, es[j], level)
  {
    if k: nat :| k < i && ElementMask(es[k]) == 0 {
      if i > 1 {
        var l := if k == 0 then 1 else 0;
        MaskIsKind(es[if k < l then k else l], es[if k < l then l else k]);
      }
      assert k == 0 && Met(es, 0, 0) && BadElement(c, prefix, es[0], level);
    } else {
      MetIsLookedAt(es, i);
    }
  }

  lemma ArrayFindsExactly(c: Config, prefix: string, v: Value, level: int, path: string, name: string)
    requires v.Slice? && Opens(c, v, level) && InferElements(c, prefix, v.elems, 0, level).Some?
    requires ElementsRight(c, prefix, v.elems, level)
    ensures (path, name) in Named(InferElements(c, prefix, v.elems, 0, level).value.0) <==>
      exists s :: FindsPast(c, prefix, v, level, path, name, s)
  {
    if (path, name) in Named(InferElements(c, prefix, v.elems, 0, level).value.0) {
      NamedIsPast(c, prefix, v, level, path, name);
    }
    if s :| FindsPast(c, prefix, v, level, path, name, s) {
      PastIsNamed(c, prefix, v, level, path, name, s);
    }
  }

  lemma NamedIsPast(c: Config, prefix: string, v: Value, level: int, path: string, name: string)
    requires v.Slice? && Opens(c, v, level) && InferElements(c, prefix, v.elems, 0, level).Some?
    requires ElementsRight(c, prefix, v.elems, level)
    requires (path, name) in Named(InferElements(c, prefix, v.elems, 0, level).value.0)
    ensures exists s :: FindsPast(c, prefix, v, level, path, name, s)
  {
    var es, ts := v.elems, InferElements(c, prefix, v.elems, 0, level).value.0;
    var t :| t in ts && t.path == path && name in TypeNames(t.mask);
    ElementsFailExactly(c, prefix, es, 0, level);
    ElementsFindExactly(c, prefix, es, 0, level, t);
    var i: nat :| Met(es, 0, i) && InsideOf(c, prefix, es[i], level, t);
    NoneBadBefore(c, prefix, es, level, i);
    MetIsLookedAt(es, i);
    InsideIsPast(c, prefix, v, level, path, name, t, i);
  }

  lemma InsideIsPast(c: Config, prefix: string, v: Value, level: int, path: string, name: string, t: Typed, i: nat)
    requires v.Slice? && Opens(c, v, level) && LooksAt(v.elems, i) && ElementRight(c, prefix, v.elems, level, i)
    requires InsideOf(c, prefix, v.elems[i], level, t) && t.path == path && name in TypeNames(t.mask)
    ensures FindsPast(c, prefix, v, level, path, name, Element(i))
  {
    assert (path, name) in Named(Infer(c, prefix + "[]", v.elems[i], level).value);
  }

  lemma PastIsNamed(c: Config, prefix: string, v: Value, level: int, path: string, name: string, s: Step)
    requires v.Slice? && Opens(c, v, level) && InferElements(c, prefix, v.elems, 0, level).Some?
    requires ElementsRight(c, prefix, v.elems, level) && FindsPast(c, prefix, v, level, path, name, s)
    ensures (path, name) in Named(InferElements(c, prefix, v.elems, 0, level).value.0)
  {
    var es, ts := v.elems, InferElements(c, prefix, v.elems, 0, level).value.0;
    ElementsFailExactly(c, prefix, es, 0, level);
    LookedAtIsMet(c, prefix, es, level, s.i);
    assert !BadElement(c, prefix, es[s.i], level) && ElementRight(c, prefix, es, level, s.i);
    assert (path, name) in Named(Infer(c, prefix + "[]", es[s.i], level).value);
    var t :| t in Infer(c, prefix + "[]", es[s.i], level).value && t.path == path && name in TypeNames(t.mask);
    ElementsFindExactly(c, prefix, es, 0, level, t);
    assert InsideOf(c, prefix, es[s.i], level, t);
    assert t in ts;
  }

  lemma NoneBadBefore(c: Config, prefix: string, es: seq<Value>, level: int, i: nat)
    requires Met(es, 0, i) && forall j: nat :: Met(es, 0, j) ==> !BadElement(c, prefix, es[j], level)
    ensures forall k :: 0 <= k < i ==> ElementMask(es[k]) != 0
  {
    forall k | 0 <= k < i ensures ElementMask(es[k]) != 0 { assert Met(es, 0, k); }
  }

  lemma LookedAtIsMet(c: Config, prefix: string, es: seq<Value>, level: int, i: nat)
    requires LooksAt(es, i) && forall j: nat :: Met(es, 0, j) ==> !BadElement(c, prefix, es[j], level)
    ensures Met(es, 0, i)
  {
    assert Met(es, 0, 0) && !BadElement(c, prefix, es[0], level);
    forall j | 0 <= j < i ensures ElementMask(es[j]) == ElementMask(es[0]) {
      if j > 0 { MaskIsKind(es[0], es[j]); }
    }
  }

  lemma ArrayNamedExactly(c: Config, prefix: string, es: seq<Value>, level: int, name: string)
    requires InferElements(c, prefix, es, 0, level).Some?
    ensures var mask := InferElements(c, prefix, es, 0, level).value.1;
      && (mask == 0 <==> es == [])
      && (es != [] ==> (name in TypeNames(mask) <==> IsArrayNamed(es, name)))
  {
    ArrayMaskExactly(c, prefix, es, 0, level);
    if es != [] {
      ElementsFailExactly(c, prefix, es, 0, level);
      assert Met(es, 0, 0) && !BadElement(c, prefix, es[0], level);
      ArrayNameOfMask(es, InferElements(c, prefix, es, 0, level).value.1, name);
    }
  }

  lemma ArrayNameOfMask(es: seq<Value>, mask: bv16, name: string)
    requires es != [] && ElementMask(es[0]) != 0
    requires mask == if AllOf(es, |es|, ElementMask(es[0])) then ElementMask(es[0]) else MASK_ARRAY_DYNAMIC
    ensures name in TypeNames(mask) <==> IsArrayNamed(es, name)
  {
    MixedKinds(es);
    ElementName(es[0], name);
  }

  lemma MixedKinds(es: seq<Value>)
    requires es != [] && ElementMask(es[0]) != 0
    ensures AllOf(es, |es|, ElementMask(es[0])) <==> forall i :: 0 <= i < |es| ==> SameKind(es[0], es[i])
  {
    forall i | 0 <= i < |es| ensures SameKind(es[0], es[i]) <==> ElementMask(es[i]) == ElementMask(es[0]) {
      MaskIsKind(es[0], es[i]);
    }
  }

  lemma ElementName(el: Value, name: string)
    requires ElementMask(el) != 0
    ensures name in TypeNames(ElementMask(el)) <==> IsArrayOf(el, name)
    ensures name in TypeNames(MASK_ARRAY_DYNAMIC) <==> name == "Array(Dynamic)"
  {
    ArrayMaskNames(name);
  }

  lemma ArrayIsRight(c: Config, prefix: string, v: Value, level: int)
    requires v.Slice? && Opens(c, v, level)
    requires ElementsRight(c, prefix, v.elems, level)
    ensures IsRight(c, prefix, v, level, Infer(c, prefix, v, level))
  {
    ArrayFailsExactly(c, prefix, v, level);
    var r := InferElements(c, prefix, v.elems, 0, level);
    if r.Some? {
      var ts, mask := r.value.0, r.value.1;
      var all := if mask == 0 then ts else ts + {Typed(prefix, mask)};
      assert Infer(c, prefix, v, level) == Some(all);
      forall path, name ensures (path, name) in Named(all) <==> Finds(c, prefix, v, level, path, name) {
        ArrayNamedExactly(c, prefix, v.elems, level, name);
        ArrayFindsExactly(c, prefix, v, level, path, name);
        FindsUnfold(c, prefix, v, level, path, name);
        NamedUnion(ts, {Typed(prefix, mask)});
        NamedOfOne(prefix, mask, path, name);
      }
    }
  }
}
