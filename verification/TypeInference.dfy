/** The types of the JSON paths of a log body, as a function of the body alone. */
module TypeInference {
  import opened PData
  import opened KeyCheck

  const MAX_KEYS_AT_LEVEL: nat := 1024

  const MASK_STRING: bv16 := 1
  const MASK_INT: bv16 := 2
  const MASK_FLOAT: bv16 := 4
  const MASK_BOOL: bv16 := 8
  const MASK_ARRAY_DYNAMIC: bv16 := 16
  const MASK_ARRAY_BOOL: bv16 := 32
  const MASK_ARRAY_FLOAT: bv16 := 64
  const MASK_ARRAY_INT: bv16 := 128
  const MASK_ARRAY_STRING: bv16 := 256
  const MASK_ARRAY_JSON: bv16 := 512

  datatype Config = Config(maxDepthTraverse: int, maxArrayElements: int)

  datatype Typed = Typed(path: string, mask: bv16)

  function GeneratePath(prefix: string, key: string): string {
    if prefix == "" then key
    else prefix + "." + (if IsBacktickRequired(key) then "`" + key + "`" else key)
  }

  /** The mask of an array element, or 0 for one that makes the array an error. */
  function ElementMask(v: Value): bv16 {
    match v
    case Map(_) => MASK_ARRAY_JSON
    case Str(_) => MASK_ARRAY_STRING
    case Bytes(_) => MASK_ARRAY_STRING
    case Bool(_) => MASK_ARRAY_BOOL
    case Double(_) => MASK_ARRAY_FLOAT
    case Int(_) => MASK_ARRAY_INT
    case Slice(_) => 0
    case Empty => 0
  }

  /** The mask of a value that is neither a map nor an array, or 0 for one of unknown type. */
  function ScalarMask(v: Value): bv16 {
    match v
    case Str(_) => MASK_STRING
    case Bytes(_) => MASK_STRING
    case Bool(_) => MASK_BOOL
    case Double(_) => MASK_FLOAT
    case Int(_) => MASK_INT
    case _ => 0
  }

  /** The types found in `v`, or None if the walk ends in an error. */
  function Infer(c: Config, prefix: string, v: Value, level: int): Option<set<Typed>>
    decreases v, 1
  {
    if level >= c.maxDepthTraverse && (v.Map? || v.Slice?) then Some({})
    else
      match v
      case Map(m) => if |m| > MAX_KEYS_AT_LEVEL then Some({}) else InferKeys(c, prefix, v, m.Keys, level)
      case Slice(es) =>
        if |es| > c.maxArrayElements then Some({})
        else
          (match InferElements(c, prefix, es, 0, level)
           case None => None
           case Some((ts, mask)) => Some(if mask == 0 then ts else ts + {Typed(prefix, mask)}))
      case _ => if ScalarMask(v) == 0 then None else Some({Typed(prefix, ScalarMask(v))})
  }

  /** The types found under one key; a key that looks generated is passed over. */
  function InferKey(c: Config, prefix: string, v: Value, k: string, level: int): Option<set<Typed>>
    requires v.Map? && k in v.m
    decreases v, 0, 0
  {
    if IsCardinal(k) then Some({}) else Infer(c, GeneratePath(prefix, k), v.m[k], level + 1)
  }

  /** The types found under the keys `ks` of the map `v`. */
  function InferKeys(c: Config, prefix: string, v: Value, ks: set<string>, level: int): Option<set<Typed>>
    requires v.Map? && ks <= v.m.Keys
    decreases v, 0, 1
  {
    if exists k :: k in ks && InferKey(c, prefix, v, k, level).None? then None
    else Some(set k, t | k in ks && t in InferKey(c, prefix, v, k, level).value :: t)
  }

  /** The types found in the elements `es` and the mask of the array, given the mask `prev` of the element before
      (0 if there is none). The walk stops at the first element of another kind, which it still enters. */
  function InferElements(c: Config, prefix: string, es: seq<Value>, prev: bv16, level: int): Option<(set<Typed>, bv16)>
    decreases es, 0
  {
    if es == [] then Some(({}, prev))
    else
      var inside := if es[0].Map? then Infer(c, prefix + "[]", es[0], level) else Some({});
      var cur := ElementMask(es[0]);
      if inside.None? || cur == 0 then None
      else if prev != 0 && cur != prev then Some((inside.value, MASK_ARRAY_DYNAMIC))
      else
        match InferElements(c, prefix, es[1..], cur, level)
        case None => None
        case Some((ts, mask)) => Some((inside.value + ts, mask))
  }

  // ---------------------------------------------------------------- arrays

  /** All elements before position `n` are of the kind `mask`. */
  predicate AllOf(es: seq<Value>, n: nat, mask: bv16)
    requires n <= |es|
  { forall i :: 0 <= i < n ==> ElementMask(es[i]) == mask }

  /** The mask of an array whose walk succeeds is Array(Dynamic) exactly when its elements are not all of the kind of
      the first, and otherwise that kind. */
  lemma {:induction false} ArrayMaskExactly(c: Config, prefix: string, es: seq<Value>, prev: bv16, level: int)
    requires InferElements(c, prefix, es, prev, level).Some?
    requires prev != MASK_ARRAY_DYNAMIC
    ensures var mask := InferElements(c, prefix, es, prev, level).value.1;
      var first := if prev != 0 then prev else if es == [] then 0 else ElementMask(es[0]);
      mask == if AllOf(es, |es|, first) then first else MASK_ARRAY_DYNAMIC
    decreases |es|
  {
    if es != [] {
      var cur := ElementMask(es[0]);
      if prev == 0 || cur == prev {
        ArrayMaskExactly(c, prefix, es[1..], cur, level);
        var first := if prev != 0 then prev else cur;
        assert AllOf(es, |es|, first) <==> AllOf(es[1..], |es| - 1, cur) by {
          if AllOf(es[1..], |es| - 1, cur) {
            assert forall i :: 1 <= i < |es| ==> es[i] == es[1..][i - 1];
          }
          if AllOf(es, |es|, first) {
            assert forall i :: 0 <= i < |es| - 1 ==> es[1..][i] == es[i + 1];
          }
        }
      }
    }
  }

  /** The walk of an array stops at the first element of another kind: nothing after it is looked at. */
  lemma {:induction false} StopsAtFirstMismatch(c: Config, prefix: string, es: seq<Value>, more: seq<Value>, prev: bv16,
                                                level: int)
    requires InferElements(c, prefix, es, prev, level).Some?
    requires InferElements(c, prefix, es, prev, level).value.1 == MASK_ARRAY_DYNAMIC && prev != MASK_ARRAY_DYNAMIC
    ensures InferElements(c, prefix, es + more, prev, level) == InferElements(c, prefix, es, prev, level)
    decreases |es|
  {
    if es != [] {
      assert (es + more)[1..] == es[1..] + more;
      var cur := ElementMask(es[0]);
      if prev == 0 || cur == prev { StopsAtFirstMismatch(c, prefix, es[1..], more, cur, level); }
    }
  }

  // ---------------------------------------------------------------- keys, one at a time

  lemma InferKeysStep(c: Config, prefix: string, v: Value, ks: set<string>, k: string, level: int)
    requires v.Map? && ks <= v.m.Keys && k in ks
    ensures var one, rest := InferKey(c, prefix, v, k, level), InferKeys(c, prefix, v, ks - {k}, level);
      InferKeys(c, prefix, v, ks, level) ==
        if one.None? || rest.None? then None else Some(one.value + rest.value)
  {
    var one, rest := InferKey(c, prefix, v, k, level), InferKeys(c, prefix, v, ks - {k}, level);
    var all := InferKeys(c, prefix, v, ks, level);
    assert all.None? <==> one.None? || rest.None?;
    if all.Some? {
      assert all.value == one.value + rest.value;
    }
  }

  /** Findings so far and those still to come; an error ahead makes the whole an error. */
  function Plus(found: set<Typed>, later: Option<set<Typed>>): Option<set<Typed>> {
    if later.None? then None else Some(found + later.value)
  }

  lemma PlusKeysStep(c: Config, prefix: string, v: Value, found: set<Typed>, ks: set<string>, k: string, level: int)
    requires v.Map? && ks <= v.m.Keys && k in ks
    ensures var one, rest := InferKey(c, prefix, v, k, level), InferKeys(c, prefix, v, ks - {k}, level);
      Plus(found, InferKeys(c, prefix, v, ks, level)) ==
        if one.None? then None else Plus(found + one.value, rest)
  {
    InferKeysStep(c, prefix, v, ks, k, level);
    var one, rest := InferKey(c, prefix, v, k, level), InferKeys(c, prefix, v, ks - {k}, level);
    if one.Some? && rest.Some? {
      assert found + (one.value + rest.value) == (found + one.value) + rest.value;
    }
  }

  lemma PlusNothing(r: Option<set<Typed>>)
    ensures Plus({}, r) == r
  {
    if r.Some? { assert {} + r.value == r.value; }
  }

  /** Findings so far and those of the rest of an array, with its mask. */
  function PlusElements(found: set<Typed>, later: Option<(set<Typed>, bv16)>): Option<(set<Typed>, bv16)> {
    if later.None? then None else Some((found + later.value.0, later.value.1))
  }

  /** What a map element contributes. */
  function Inside(c: Config, prefix: string, el: Value, level: int): Option<set<Typed>> {
    if el.Map? then Infer(c, prefix + "[]", el, level) else Some({})
  }

  lemma PlusElementsStep(c: Config, prefix: string, found: set<Typed>, es: seq<Value>, prev: bv16, level: int)
    requires es != []
    ensures var inside, cur := Inside(c, prefix, es[0], level), ElementMask(es[0]);
      PlusElements(found, InferElements(c, prefix, es, prev, level)) ==
        if inside.None? || cur == 0 then None
        else if prev != 0 && cur != prev then Some((found + inside.value, MASK_ARRAY_DYNAMIC))
        else PlusElements(found + inside.value, InferElements(c, prefix, es[1..], cur, level))
  {
    var inside, rest := Inside(c, prefix, es[0], level), InferElements(c, prefix, es[1..], ElementMask(es[0]), level);
    if inside.Some? && rest.Some? {
      assert found + (inside.value + rest.value.0) == (found + inside.value) + rest.value.0;
    }
  }

  lemma PlusElementAt(c: Config, prefix: string, found: set<Typed>, es: seq<Value>, i: nat, prev: bv16, level: int)
    requires i < |es|
    ensures var inside, cur := Inside(c, prefix, es[i], level), ElementMask(es[i]);
      PlusElements(found, InferElements(c, prefix, es[i..], prev, level)) ==
        if inside.None? || cur == 0 then None
        else if prev != 0 && cur != prev then Some((found + inside.value, MASK_ARRAY_DYNAMIC))
        else PlusElements(found + inside.value, InferElements(c, prefix, es[i + 1..], cur, level))
  {
    assert es[i..][0] == es[i] && es[i..][1..] == es[i + 1..];
    PlusElementsStep(c, prefix, found, es[i..], prev, level);
  }

  lemma PlusNoElements(r: Option<(set<Typed>, bv16)>)
    ensures PlusElements({}, r) == r
  {
    if r.Some? { assert {} + r.value.0 == r.value.0; }
  }

  lemma InferNoKeys(c: Config, prefix: string, v: Value, level: int)
    requires v.Map?
    ensures InferKeys(c, prefix, v, {}, level) == Some({})
  {
    assert InferKeys(c, prefix, v, {}, level).value == {};
  }

  // ---------------------------------------------------------------- names of types

  function NameIf(mask: bv16, bit: bv16, name: string): set<string> { if mask & bit != 0 then {name} else {} }

  function ScalarNames(mask: bv16): set<string> {
    NameIf(mask, MASK_STRING, "String") + NameIf(mask, MASK_INT, "Int") + NameIf(mask, MASK_FLOAT, "Float64")
    + NameIf(mask, MASK_BOOL, "Bool")
  }

  function ArrayNames(mask: bv16): set<string> {
    NameIf(mask, MASK_ARRAY_STRING, "Array(Nullable(String))") + NameIf(mask, MASK_ARRAY_INT, "Array(Nullable(Int))")
    + NameIf(mask, MASK_ARRAY_FLOAT, "Array(Nullable(Float64))")
    + NameIf(mask, MASK_ARRAY_BOOL, "Array(Nullable(Bool))")
    + NameIf(mask, MASK_ARRAY_JSON, "Array(JSON)") + NameIf(mask, MASK_ARRAY_DYNAMIC, "Array(Dynamic)")
  }

  /** The names that `TypeSet.Insert` adds for a mask: one per bit. */
  function TypeNames(mask: bv16): set<string> { ScalarNames(mask) + ArrayNames(mask) }

  /** The (path, type name) pairs of a set of findings. */
  function Named(ts: set<Typed>): set<(string, string)> {
    set t, n | t in ts && n in TypeNames(t.mask) :: (t.path, n)
  }

  lemma NamedUnion(a: set<Typed>, b: set<Typed>)
    ensures Named(a + b) == Named(a) + Named(b)
  {}
}
