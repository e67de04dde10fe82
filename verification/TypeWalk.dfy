/** The walk of a log body by the JSON type exporter, with its LRU cache of keys known not to be generated ones. */
module TypeWalk {
  import opened PData
  import opened KeyCheck
  import opened TypeInference
  import DimensionsCache
  import FoundTypes

  class TypeSet {
    var types: map<string, set<string>>

    function Pairs(): set<(string, string)>
      reads this
    { PairsOf(types) }

    constructor ()
      ensures types == map[]
    { types := map[]; }

    method Insert(path: string, mask: bv16)
      modifies this
      ensures Pairs() == old(Pairs()) + Named({Typed(path, mask)})
    {
      var before := if path in types then types[path] else {};
      var cs := Expand(before, mask);
      types := types[path := cs];
      AddedPairs(old(types), path, mask);
    }

    lemma AddedPairs(m: map<string, set<string>>, path: string, mask: bv16)
      ensures var cs := (if path in m then m[path] else {}) + TypeNames(mask);
        PairsOf(m[path := cs]) == PairsOf(m) + Named({Typed(path, mask)})
    {
      var cs := (if path in m then m[path] else {}) + TypeNames(mask);
      forall p, n ensures (p, n) in PairsOf(m[path := cs]) <==> (p, n) in PairsOf(m) + Named({Typed(path, mask)}) {
        assert Typed(path, mask) in {Typed(path, mask)};
      }
    }
  }

  function PairsOf(m: map<string, set<string>>): set<(string, string)> { set p, n | p in m && n in m[p] :: (p, n) }

  /** `before` with the name of every bit of the mask. */
  method Expand(before: set<string>, mask: bv16) returns (cs: set<string>)
    ensures cs == before + TypeNames(mask)
  {
    cs := ExpandScalars(before, mask);
    cs := ExpandArrays(cs, mask);
  }

  method ExpandScalars(before: set<string>, mask: bv16) returns (cs: set<string>)
    ensures cs == before + ScalarNames(mask)
  {
    cs := InsertIf(before, mask, MASK_STRING, "String");
    cs := InsertIf(cs, mask, MASK_INT, "Int");
    cs := InsertIf(cs, mask, MASK_FLOAT, "Float64");
    cs := InsertIf(cs, mask, MASK_BOOL, "Bool");
  }

  method ExpandArrays(before: set<string>, mask: bv16) returns (cs: set<string>)
    ensures cs == before + ArrayNames(mask)
  {
    cs := InsertIf(before, mask, MASK_ARRAY_STRING, "Array(Nullable(String))");
    cs := InsertIf(cs, mask, MASK_ARRAY_INT, "Array(Nullable(Int))");
    cs := InsertIf(cs, mask, MASK_ARRAY_FLOAT, "Array(Nullable(Float64))");
    cs := InsertIf(cs, mask, MASK_ARRAY_BOOL, "Array(Nullable(Bool))");
    cs := InsertIf(cs, mask, MASK_ARRAY_JSON, "Array(JSON)");
    cs := InsertIf(cs, mask, MASK_ARRAY_DYNAMIC, "Array(Dynamic)");
  }

  method InsertIf(cs: set<string>, mask: bv16, bit: bv16, name: string) returns (r: set<string>)
    ensures r == cs + NameIf(mask, bit, name)
  {
    r := cs;
    if mask & bit != 0 {
      r := r + {name};
    }
  }

  class Exporter {
    const config: Config
    const cacheSize: nat
    var keyCache: seq<string>          // most recently added first

    /** Every cached key has passed the check for generated keys. */
    ghost predicate Valid()
      reads this
    { cacheSize >= 1 && |keyCache| <= cacheSize && forall k :: k in keyCache ==> !IsCardinal(k) }

    constructor (config: Config, cacheSize: nat)
      requires cacheSize >= 1
      ensures Valid() && this.config == config
    {
      this.config, this.cacheSize := config, cacheSize;
      keyCache := [];
    }

    /** Whether the key is to be passed over. The cache saves the check and never changes its outcome. */
    method SkipsKey(key: string) returns (skip: bool)
      requires Valid()
      modifies this
      ensures Valid() && skip == IsCardinal(key)
    {
      var contains := key in keyCache;
      if !contains && IsCardinal(key) {
        return true;
      }
      if !contains {
        keyCache := DimensionsCache.Used(keyCache, key, cacheSize);
      }
      skip := false;
    }

    /** Collects the types of `v`. The outcome is that of the inference without a cache: an error exactly when the walk
        meets one, and otherwise every type there is to find under its path, besides those that were there. */
    method Walk(prefix: string, v: Value, typeSet: TypeSet, level: int) returns (ok: bool)
      requires Valid()
      modifies this, typeSet
      ensures Valid()
      ensures ok <==> !FoundTypes.Fails(config, v, level)
      ensures ok ==> forall path, name ::
        (path, name) in typeSet.Pairs() <==>
          (path, name) in old(typeSet.Pairs()) || FoundTypes.Finds(config, prefix, v, level, path, name)
      ensures ok == Infer(config, prefix, v, level).Some?
      ensures ok ==> typeSet.Pairs() == old(typeSet.Pairs()) + Named(Infer(config, prefix, v, level).value)
      decreases v, 1
    {
      FoundTypes.InferExactly(config, prefix, v, level);
      if level >= config.maxDepthTraverse && (v.Map? || v.Slice?) { return true; }
      if v.Map? {
        if |v.m| > MAX_KEYS_AT_LEVEL { return true; }
        ok := WalkKeys(prefix, v, typeSet, level);
      } else if v.Slice? {
        if |v.elems| > config.maxArrayElements { return true; }
        ok := WalkElements(prefix, v, typeSet, level);
      } else if ScalarMask(v) == 0 {
        ok := false;
      } else {
        typeSet.Insert(prefix, ScalarMask(v));
        ok := true;
      }
    }

    /** The keys of a map, in any order. */
    method WalkKeys(prefix: string, v: Value, typeSet: TypeSet, level: int) returns (ok: bool)
      requires Valid() && v.Map?
      modifies this, typeSet
      ensures Valid()
      ensures ok == InferKeys(config, prefix, v, v.m.Keys, level).Some?
      ensures ok ==>
        typeSet.Pairs() == old(typeSet.Pairs()) + Named(InferKeys(config, prefix, v, v.m.Keys, level).value)
      decreases v, 0
    {
      var rest := v.m.Keys;
      ghost var found: set<Typed> := {};
      ghost var all := InferKeys(config, prefix, v, v.m.Keys, level);
      PlusNothing(all);
      while rest != {}
        invariant Valid() && rest <= v.m.Keys
        invariant all == Plus(found, InferKeys(config, prefix, v, rest, level))
        invariant typeSet.Pairs() == old(typeSet.Pairs()) + Named(found)
        decreases rest
      {
        var key :| key in rest;
        PlusKeysStep(config, prefix, v, found, rest, key, level);
        ghost var one := InferKey(config, prefix, v, key, level);
        var skip := SkipsKey(key);
        if !skip {
          var fine := Walk(GeneratePath(prefix, key), v.m[key], typeSet, level + 1);
          if !fine { return false; }
        }
        NamedUnion(found, one.value);
        found, rest := found + one.value, rest - {key};
      }
      InferNoKeys(config, prefix, v, level);
      ok := true;
    }

    /** The elements of an array, up to the first of another kind. */
    method WalkElements(prefix: string, v: Value, typeSet: TypeSet, level: int) returns (ok: bool)
      requires Valid() && v.Slice? && |v.elems| <= config.maxArrayElements && level < config.maxDepthTraverse
      modifies this, typeSet
      ensures Valid()
      ensures ok == Infer(config, prefix, v, level).Some?
      ensures ok ==> typeSet.Pairs() == old(typeSet.Pairs()) + Named(Infer(config, prefix, v, level).value)
      decreases v, 0, 1
    {
      var mask: bv16;
      ghost var found;
      ok, mask, found := WalkEach(prefix, v, typeSet, level);
      if ok && mask != 0 {
        NamedUnion(found, {Typed(prefix, mask)});
        typeSet.Insert(prefix, mask);
      }
    }

    /** One element: if it is a map, it is walked at the level of the array. `cur` is its kind, 0 for an unknown one. */
    method WalkElement(prefix: string, el: Value, typeSet: TypeSet, level: int) returns (fine: bool, cur: bv16)
      requires Valid()
      modifies this, typeSet
      ensures Valid() && cur == ElementMask(el)
      ensures fine <==> Inside(config, prefix, el, level).Some? && cur != 0
      ensures fine ==> typeSet.Pairs() == old(typeSet.Pairs()) + Named(Inside(config, prefix, el, level).value)
      decreases el, 2
    {
      fine, cur := true, ElementMask(el);
      if el.Map? {
        fine := Walk(prefix + "[]", el, typeSet, level);
      }
      fine := fine && cur != 0;
    }

    /** The loop over the elements; `mask` is what is to be recorded for the array, 0 for an empty one. */
    method WalkEach(prefix: string, v: Value, typeSet: TypeSet, level: int)
      returns (ok: bool, mask: bv16, ghost found: set<Typed>)
      requires Valid() && v.Slice?
      modifies this, typeSet
      ensures Valid()
      ensures InferElements(config, prefix, v.elems, 0, level) == if ok then Some((found, mask)) else None
      ensures ok ==> typeSet.Pairs() == old(typeSet.Pairs()) + Named(found)
      decreases v, 0, 0
    {
      var es, i := v.elems, 0;
      var prev: bv16 := 0;
      found := {};
      ghost var all := InferElements(config, prefix, es, 0, level);
      PlusNoElements(all);
      assert es[0..] == es;
      while i < |es|
        invariant 0 <= i <= |es| && Valid() && (prev == 0 <==> i == 0)
        invariant all == PlusElements(found, InferElements(config, prefix, es[i..], prev, level))
        invariant typeSet.Pairs() == old(typeSet.Pairs()) + Named(found)
      {
        ghost var inside := Inside(config, prefix, es[i], level);
        PlusElementAt(config, prefix, found, es, i, prev, level);
        var fine, cur := WalkElement(prefix, es[i], typeSet, level);
        if !fine { return false, 0, found; }
        NamedUnion(found, inside.value);
        found := found + inside.value;
        if i > 0 && cur != prev {
          return true, MASK_ARRAY_DYNAMIC, found;
        }
        prev := cur;
        i := i + 1;
      }
      ok, mask := true, prev;
    }
  }
}
