/** The concurrent walks of the records of one batch: goroutines share the key cache and the type set, and take their
    steps in any order. */
module TypeWalkers {
  import opened PData
  import opened KeyCheck
  import opened TypeInference
  import FoundTypes

  /** What a goroutine still has to do. The call stack of the walk is a list of such tasks, the next one first. */
  datatype Task =
    | Visit(prefix: string, v: Value, level: int)
    | Keys(prefix: string, v: Value, ks: set<string>, level: int)
    | Key(prefix: string, v: Value, k: string, level: int)          // about to look the key up in the cache
    | Fresh(prefix: string, v: Value, k: string, level: int)        // about to add the key to the cache
    | Elements(prefix: string, es: seq<Value>, prev: bv16, level: int)
    | Record(prefix: string, mask: bv16)                            // about to insert into the type set

  /** The outcome of a step: an error, or what remains to be walked and what goes into the shared state. */
  datatype Outcome = Fail | Goes(tasks: seq<Task>, found: set<Typed>, cached: set<string>)

  predicate TaskOk(t: Task) {
    match t
    case Keys(_, v, ks, _) => v.Map? && ks <= v.m.Keys
    case Key(_, v, k, _) => v.Map? && k in v.m
    case Fresh(_, v, k, _) => v.Map? && k in v.m && !IsCardinal(k)
    case _ => true
  }

  function Child(t: Task): Task
    requires TaskOk(t) && (t.Key? || t.Fresh?)
  { Visit(GeneratePath(t.prefix, t.k), t.v.m[t.k], t.level + 1) }

  /** One step of a goroutine; `choice` is the key that the map iteration delivers next. */
  function Advance(c: Config, cache: set<string>, t: Task, choice: string): Outcome
    requires TaskOk(t)
  {
    match t
    case Visit(prefix, v, level) =>
      if level >= c.maxDepthTraverse && (v.Map? || v.Slice?) then Goes([], {}, {})
      else if v.Map? then
        if |v.m| > MAX_KEYS_AT_LEVEL then Goes([], {}, {}) else Goes([Keys(prefix, v, v.m.Keys, level)], {}, {})
      else if v.Slice? then
        if |v.elems| > c.maxArrayElements then Goes([], {}, {}) else Goes([Elements(prefix, v.elems, 0, level)], {}, {})
      else if ScalarMask(v) == 0 then Fail
      else Goes([Record(prefix, ScalarMask(v))], {}, {})
    case Keys(prefix, v, ks, level) =>
      if choice in ks then Goes([Key(prefix, v, choice, level), Keys(prefix, v, ks - {choice}, level)], {}, {})
      else if ks == {} then Goes([], {}, {})
      else Goes([t], {}, {})
    case Key(prefix, v, k, level) =>
      if k in cache then Goes([Child(t)], {}, {})
      else if IsCardinal(k) then Goes([], {}, {})
      else Goes([Fresh(prefix, v, k, level)], {}, {})
    case Fresh(_, _, k, _) => Goes([Child(t)], {}, {k})
    case Elements(prefix, es, prev, level) =>
      if es == [] then Goes(if prev == 0 then [] else [Record(prefix, prev)], {}, {})
      else if ElementMask(es[0]) == 0 then Fail
      else
        var cur := ElementMask(es[0]);
        var inside := if es[0].Map? then [Visit(prefix + "[]", es[0], level)] else [];
        Goes(inside + [if prev != 0 && cur != prev then Record(prefix, MASK_ARRAY_DYNAMIC)
                       else Elements(prefix, es[1..], cur, level)], {}, {})
    case Record(prefix, mask) => Goes([], {Typed(prefix, mask)}, {})
  }

  datatype State = State(config: Config, cache: set<string>, types: set<Typed>, stacks: seq<seq<Task>>, failed: bool)

  /** A step of goroutine `w`, or the loss of any keys from the bounded cache. */
  datatype Label = Step(w: nat, choice: string) | Evict(keys: set<string>)

  predicate StateOk(s: State) {
    && (forall k :: k in s.cache ==> !IsCardinal(k))
    && forall w, i :: 0 <= w < |s.stacks| && 0 <= i < |s.stacks[w]| ==> TaskOk(s.stacks[w][i])
  }

  predicate Enabled(s: State, l: Label) { l.Step? ==> l.w < |s.stacks| && s.stacks[l.w] != [] && !s.failed }

  function Next(s: State, l: Label): State
    requires StateOk(s) && Enabled(s, l)
  {
    match l
    case Evict(keys) => s.(cache := s.cache - keys)
    case Step(w, choice) =>
      match Advance(s.config, s.cache, s.stacks[w][0], choice)
      case Fail => s.(failed := true)
      case Goes(tasks, found, cached) =>
        s.(stacks := s.stacks[w := tasks + s.stacks[w][1..]], types := s.types + found, cache := s.cache + cached)
  }

  // ---------------------------------------------------------------- what remains to be found

  function Both(a: Option<set<Typed>>, b: Option<set<Typed>>): Option<set<Typed>> {
    if a.None? || b.None? then None else Some(a.value + b.value)
  }

  function Types(c: Config, t: Task): Option<set<Typed>>
    requires TaskOk(t)
  {
    match t
    case Visit(prefix, v, level) => Infer(c, prefix, v, level)
    case Keys(prefix, v, ks, level) => InferKeys(c, prefix, v, ks, level)
    case Key(prefix, v, k, level) => InferKey(c, prefix, v, k, level)
    case Fresh(prefix, v, k, level) => InferKey(c, prefix, v, k, level)
    case Elements(prefix, es, prev, level) => OfArray(prefix, InferElements(c, prefix, es, prev, level))
    case Record(prefix, mask) => Some({Typed(prefix, mask)})
  }

  function OfArray(prefix: string, r: Option<(set<Typed>, bv16)>): Option<set<Typed>> {
    match r
    case None => None
    case Some((ts, mask)) => Some(if mask == 0 then ts else ts + {Typed(prefix, mask)})
  }

  ghost function StackTypes(c: Config, st: seq<Task>): Option<set<Typed>>
    requires forall i :: 0 <= i < |st| ==> TaskOk(st[i])
  { if st == [] then Some({}) else Both(Types(c, st[0]), StackTypes(c, st[1..])) }

  ghost function AllTypes(c: Config, sts: seq<seq<Task>>): Option<set<Typed>>
    requires forall w, i :: 0 <= w < |sts| && 0 <= i < |sts[w]| ==> TaskOk(sts[w][i])
  { if sts == [] then Some({}) else Both(StackTypes(c, sts[0]), AllTypes(c, sts[1..])) }

  lemma BothLaws(a: Option<set<Typed>>, b: Option<set<Typed>>, d: Option<set<Typed>>)
    ensures Both(a, b) == Both(b, a)
    ensures Both(Both(a, b), d) == Both(a, Both(b, d))
    ensures Both(Some({}), a) == a
  {
    if a.Some? && b.Some? {
      assert a.value + b.value == b.value + a.value;
      if d.Some? { assert (a.value + b.value) + d.value == a.value + (b.value + d.value); }
    }
    if a.Some? { assert {} + a.value == a.value; }
  }

  lemma {:induction false} StackSplit(c: Config, a: seq<Task>, b: seq<Task>)
    requires (forall i :: 0 <= i < |a| ==> TaskOk(a[i])) && (forall i :: 0 <= i < |b| ==> TaskOk(b[i]))
    ensures StackTypes(c, a + b) == Both(StackTypes(c, a), StackTypes(c, b))
  {
    BothLaws(StackTypes(c, b), None, None);
    if a == [] {
      assert a + b == b;
    } else {
      assert (a + b)[1..] == a[1..] + b;
      StackSplit(c, a[1..], b);
      BothLaws(Types(c, a[0]), StackTypes(c, a[1..]), StackTypes(c, b));
    }
  }

  /** A step neither loses nor invents types: whatever the cache holds, what a walk would find is what it has just
      found and what the walks it leaves will. */
  lemma AdvanceKeepsTypes(c: Config, cache: set<string>, t: Task, choice: string)
    requires TaskOk(t) && forall k :: k in cache ==> !IsCardinal(k)
    ensures Advance(c, cache, t, choice).Fail? ==> Types(c, t) == None
    ensures var o := Advance(c, cache, t, choice);
      o.Goes? ==>
        && (forall i :: 0 <= i < |o.tasks| ==> TaskOk(o.tasks[i]))
        && (forall k :: k in o.cached ==> !IsCardinal(k))
        && Types(c, t) == Both(Some(o.found), StackTypes(c, o.tasks))
  {
    var o := Advance(c, cache, t, choice);
    if o.Goes? {
      if t.Elements? {
        ElementsStep(c, t);
        BothLaws(Types(c, t), Some({}), None);
      } else if t.Keys? {
        KeysStep(c, cache, t, choice);
        BothLaws(Types(c, t), Some({}), None);
      } else {
        AloneStep(c, cache, t, choice);
      }
    }
  }

  lemma KeysStep(c: Config, cache: set<string>, t: Task, choice: string)
    requires TaskOk(t) && t.Keys?
    ensures var o := Advance(c, cache, t, choice);
      o.Goes? && o.found == {} && Types(c, t) == StackTypes(c, o.tasks)
  {
    OneOrTwo(c, Advance(c, cache, t, choice).tasks);
    if choice in t.ks {
      InferKeysStep(c, t.prefix, t.v, t.ks, choice, t.level);
    } else if t.ks == {} {
      InferNoKeys(c, t.prefix, t.v, t.level);
    }
  }

  /** The other tasks leave one task or none. */
  lemma AloneStep(c: Config, cache: set<string>, t: Task, choice: string)
    requires TaskOk(t) && !t.Elements? && !t.Keys? && forall k :: k in cache ==> !IsCardinal(k)
    ensures var o := Advance(c, cache, t, choice);
      o.Goes? ==> Types(c, t) == Both(Some(o.found), StackTypes(c, o.tasks))
  {
    var o := Advance(c, cache, t, choice);
    if o.Goes? {
      OneOrTwo(c, o.tasks);
      BothLaws(Types(c, t), Some({}), None);
    }
  }

  /** The types of a stack of up to two tasks. */
  lemma OneOrTwo(c: Config, st: seq<Task>)
    requires forall i :: 0 <= i < |st| ==> TaskOk(st[i])
    ensures |st| == 1 ==> StackTypes(c, st) == Types(c, st[0])
    ensures |st| == 2 ==> StackTypes(c, st) == Both(Types(c, st[0]), Types(c, st[1]))
  {
    if |st| == 1 {
      assert st[1..] == [];
      BothLaws(Types(c, st[0]), Some({}), None);
    }
    if |st| == 2 {
      assert st[1..] == [st[1]] && [st[1]][1..] == [];
      BothLaws(Types(c, st[1]), Some({}), None);
    }
  }

  lemma ElementsStep(c: Config, t: Task)
    requires t.Elements?
    ensures var o := Advance(c, {}, t, "");
      o.Goes? ==> Types(c, t) == StackTypes(c, o.tasks) && o.found == {}
  {
    if t.es != [] && ElementMask(t.es[0]) != 0 {
      var cur := ElementMask(t.es[0]);
      var last := if t.prev != 0 && cur != t.prev then Record(t.prefix, MASK_ARRAY_DYNAMIC)
                  else Elements(t.prefix, t.es[1..], cur, t.level);
      ElementTypes(c, t, last);
      var tasks := Advance(c, {}, t, "").tasks;
      OneOrTwo(c, tasks);
      if t.es[0].Map? {
        assert tasks == [Visit(t.prefix + "[]", t.es[0], t.level), last];
      } else {
        assert tasks == [last];
        BothLaws(Types(c, last), None, None);
      }
    } else {
      OneOrTwo(c, if t.prev == 0 then [] else [Record(t.prefix, t.prev)]);
      assert {} + {Typed(t.prefix, t.prev)} == {Typed(t.prefix, t.prev)};
    }
  }

  /** An element contributes what is inside it, and `last` stands for the rest of the array. */
  lemma ElementTypes(c: Config, t: Task, last: Task)
    requires t.Elements? && t.es != [] && ElementMask(t.es[0]) != 0
    requires last == if t.prev != 0 && ElementMask(t.es[0]) != t.prev then Record(t.prefix, MASK_ARRAY_DYNAMIC)
                     else Elements(t.prefix, t.es[1..], ElementMask(t.es[0]), t.level)
    ensures Types(c, t) == Both(Inside(c, t.prefix, t.es[0], t.level), Types(c, last))
  {
    var inside, cur := Inside(c, t.prefix, t.es[0], t.level), ElementMask(t.es[0]);
    var r := InferElements(c, t.prefix, t.es, t.prev, t.level);
    PlusNoElements(r);
    PlusElementsStep(c, t.prefix, {}, t.es, t.prev, t.level);
    if inside.Some? {
      assert {} + inside.value == inside.value;
      if t.prev != 0 && cur != t.prev {
        assert r == Some((inside.value, MASK_ARRAY_DYNAMIC));
      } else {
        OfArrayPlus(t.prefix, inside.value, InferElements(c, t.prefix, t.es[1..], cur, t.level));
      }
    }
  }

  lemma OfArrayPlus(prefix: string, found: set<Typed>, r: Option<(set<Typed>, bv16)>)
    ensures OfArray(prefix, PlusElements(found, r)) == Both(Some(found), OfArray(prefix, r))
  {
    if r.Some? {
      assert (found + r.value.0) + {Typed(prefix, r.value.1)} == found + (r.value.0 + {Typed(prefix, r.value.1)});
    }
  }

  // ---------------------------------------------------------------- the whole batch

  ghost predicate StacksOk(sts: seq<seq<Task>>) {
    forall w, i :: 0 <= w < |sts| && 0 <= i < |sts[w]| ==> TaskOk(sts[w][i])
  }

  /** One goroutine turns `found` types into shared ones: the types found so far and those to come stay the same. */
  lemma {:induction false} AllTypesUpdate(c: Config, sts: seq<seq<Task>>, w: nat, st: seq<Task>, found: set<Typed>)
    requires StacksOk(sts) && w < |sts| && forall i :: 0 <= i < |st| ==> TaskOk(st[i])
    requires StackTypes(c, sts[w]) == Both(Some(found), StackTypes(c, st))
    ensures StacksOk(sts[w := st])
    ensures AllTypes(c, sts) == Both(Some(found), AllTypes(c, sts[w := st]))
  {
    if w == 0 {
      assert sts[0 := st][1..] == sts[1..];
      BothLaws(Some(found), StackTypes(c, st), AllTypes(c, sts[1..]));
    } else {
      assert sts[w := st][1..] == sts[1..][w - 1 := st];
      AllTypesUpdate(c, sts[1..], w - 1, st, found);
      var head, rest := StackTypes(c, sts[0]), AllTypes(c, sts[1..][w - 1 := st]);
      BothLaws(head, Some(found), rest);
      BothLaws(Some(found), head, rest);
    }
  }

  lemma {:induction false} AllTypesFail(c: Config, sts: seq<seq<Task>>, w: nat)
    requires StacksOk(sts) && w < |sts| && StackTypes(c, sts[w]) == None
    ensures AllTypes(c, sts) == None
  {
    if w > 0 { AllTypesFail(c, sts[1..], w - 1); }
  }

  /** What the batch amounts to, seen from any state on the way. */
  ghost predicate Leads(s: State, total: Option<set<Typed>>) {
    && StateOk(s)
    && (s.failed ==> total == None)
    && (!s.failed ==> Both(Some(s.types), AllTypes(s.config, s.stacks)) == total)
  }

  lemma LeadsNext(s: State, l: Label, total: Option<set<Typed>>)
    requires Leads(s, total) && Enabled(s, l)
    ensures Leads(Next(s, l), total)
  {
    if l.Step? {
      var st := s.stacks[l.w];
      assert st == [st[0]] + st[1..];
      AdvanceKeepsTypes(s.config, s.cache, st[0], l.choice);
      var o := Advance(s.config, s.cache, st[0], l.choice);
      if o.Fail? {
        AllTypesFail(s.config, s.stacks, l.w);
      } else {
        StackSplit(s.config, o.tasks, st[1..]);
        BothLaws(Some(o.found), StackTypes(s.config, o.tasks), StackTypes(s.config, st[1..]));
        AllTypesUpdate(s.config, s.stacks, l.w, o.tasks + st[1..], o.found);
        BothLaws(Some(s.types), Some(o.found), AllTypes(s.config, Next(s, l).stacks));
      }
    }
  }

  ghost predicate Runs(s: State, ls: seq<Label>)
    decreases |ls|
  { ls == [] || (StateOk(s) && Enabled(s, ls[0]) && Runs(Next(s, ls[0]), ls[1..])) }

  ghost function Exec(s: State, ls: seq<Label>): State
    requires Runs(s, ls)
    decreases |ls|
  { if ls == [] then s else Exec(Next(s, ls[0]), ls[1..]) }

  lemma {:induction false} LeadsAlways(s: State, ls: seq<Label>, total: Option<set<Typed>>)
    requires Leads(s, total) && Runs(s, ls)
    ensures Leads(Exec(s, ls), total)
    decreases |ls|
  {
    if ls != [] {
      LeadsNext(s, ls[0], total);
      LeadsAlways(Next(s, ls[0]), ls[1..], total);
    }
  }

  /** A goroutine for every record whose body is a map. */
  function Stacks(bodies: seq<Value>): seq<seq<Task>> {
    if bodies == [] then []
    else (if bodies[0].Map? then [[Visit("", bodies[0], 0)]] else []) + Stacks(bodies[1..])
  }

  /** The union over the records of the inference without a cache. */
  function BatchTypes(c: Config, bodies: seq<Value>): Option<set<Typed>> {
    if bodies == [] then Some({})
    else
      var rest := BatchTypes(c, bodies[1..]);
      if bodies[0].Map? then Both(Infer(c, "", bodies[0], 0), rest) else rest
  }

  lemma {:induction false} StacksOfBatch(c: Config, bodies: seq<Value>)
    ensures StacksOk(Stacks(bodies)) && AllTypes(c, Stacks(bodies)) == BatchTypes(c, bodies)
  {
    if bodies != [] {
      StacksOfBatch(c, bodies[1..]);
      if bodies[0].Map? {
        var one := [Visit("", bodies[0], 0)];
        assert Stacks(bodies)[0] == one && Stacks(bodies)[1..] == Stacks(bodies[1..]);
        OneOrTwo(c, one);
      } else {
        assert Stacks(bodies) == Stacks(bodies[1..]);
      }
    }
  }

  predicate Done(s: State) { forall w :: 0 <= w < |s.stacks| ==> s.stacks[w] == [] }

  lemma {:induction false} NothingLeft(c: Config, sts: seq<seq<Task>>)
    requires StacksOk(sts) && forall w :: 0 <= w < |sts| ==> sts[w] == []
    ensures AllTypes(c, sts) == Some({})
  {
    if sts != [] {
      NothingLeft(c, sts[1..]);
      BothLaws(Some({}), None, None);
    }
  }

  /** Some record is an error by itself. */
  ghost predicate BatchFails(c: Config, bodies: seq<Value>) {
    exists i :: 0 <= i < |bodies| && bodies[i].Map? && FoundTypes.Fails(c, bodies[i], 0)
  }

  /** Some record has the type under the path. */
  ghost predicate BatchFinds(c: Config, bodies: seq<Value>, path: string, name: string) {
    exists i :: 0 <= i < |bodies| && bodies[i].Map? && FoundTypes.Finds(c, "", bodies[i], 0, path, name)
  }

  lemma {:induction false} BatchFailsExactly(c: Config, bodies: seq<Value>)
    ensures BatchTypes(c, bodies).None? <==> BatchFails(c, bodies)
  {
    if bodies != [] {
      BatchFailsExactly(c, bodies[1..]);
      FoundTypes.InferExactly(c, "", bodies[0], 0);
      assert BatchFails(c, bodies) <==>
        (bodies[0].Map? && FoundTypes.Fails(c, bodies[0], 0)) || BatchFails(c, bodies[1..])
      by {
        if i :| 0 <= i < |bodies| - 1 && bodies[1..][i].Map? && FoundTypes.Fails(c, bodies[1..][i], 0) {
          assert bodies[i + 1] == bodies[1..][i];
        }
        if i :| 0 < i < |bodies| && bodies[i].Map? && FoundTypes.Fails(c, bodies[i], 0) {
          assert bodies[1..][i - 1] == bodies[i];
        }
      }
    }
  }

  lemma {:induction false} BatchFindsExactly(c: Config, bodies: seq<Value>, path: string, name: string)
    requires BatchTypes(c, bodies).Some?
    ensures (path, name) in Named(BatchTypes(c, bodies).value) <==> BatchFinds(c, bodies, path, name)
  {
    if bodies != [] {
      BatchFindsExactly(c, bodies[1..], path, name);
      if bodies[0].Map? {
        FoundTypes.InferExactly(c, "", bodies[0], 0);
        NamedUnion(Infer(c, "", bodies[0], 0).value, BatchTypes(c, bodies[1..]).value);
      }
      assert BatchFinds(c, bodies, path, name) <==>
        || (bodies[0].Map? && FoundTypes.Finds(c, "", bodies[0], 0, path, name))
        || BatchFinds(c, bodies[1..], path, name)
      by {
        if i :| 0 <= i < |bodies| - 1 && bodies[1..][i].Map? && FoundTypes.Finds(c, "", bodies[1..][i], 0, path, name) {
          assert bodies[i + 1] == bodies[1..][i];
        }
        if i :| 0 < i < |bodies| && bodies[i].Map? && FoundTypes.Finds(c, "", bodies[i], 0, path, name) {
          assert bodies[1..][i - 1] == bodies[i];
        }
      }
    }
  }

  /** Cache transparency: from any cache of keys that passed the check, with any evictions and any interleaving, a
      batch that comes to its end without an error has collected exactly the types that each record has by itself; and a
      goroutine meets an error only if some record is an error by itself. */
  lemma BatchIsCacheFree(c: Config, cache: set<string>, bodies: seq<Value>, ls: seq<Label>)
    requires forall k :: k in cache ==> !IsCardinal(k)
    requires Runs(State(c, cache, {}, Stacks(bodies), false), ls)
    ensures var s := Exec(State(c, cache, {}, Stacks(bodies), false), ls);
      && (forall k :: k in s.cache ==> !IsCardinal(k))
      && (s.failed ==> BatchFails(c, bodies))
      && (Done(s) && !s.failed ==>
            && !BatchFails(c, bodies)
            && forall path, name :: (path, name) in Named(s.types) <==> BatchFinds(c, bodies, path, name))
  {
    var s := Exec(State(c, cache, {}, Stacks(bodies), false), ls);
    BatchIsInference(c, cache, bodies, ls);
    BatchFailsExactly(c, bodies);
    if Done(s) && !s.failed {
      forall path, name ensures (path, name) in Named(s.types) <==> BatchFinds(c, bodies, path, name) {
        BatchFindsExactly(c, bodies, path, name);
      }
    }
  }

  lemma BatchIsInference(c: Config, cache: set<string>, bodies: seq<Value>, ls: seq<Label>)
    requires forall k :: k in cache ==> !IsCardinal(k)
    requires Runs(State(c, cache, {}, Stacks(bodies), false), ls)
    ensures var s := Exec(State(c, cache, {}, Stacks(bodies), false), ls);
      && (forall k :: k in s.cache ==> !IsCardinal(k))
      && (s.failed ==> BatchTypes(c, bodies) == None)
      && (Done(s) && !s.failed ==> BatchTypes(c, bodies) == Some(s.types))
  {
    var s0 := State(c, cache, {}, Stacks(bodies), false);
    StacksOfBatch(c, bodies);
    BothLaws(BatchTypes(c, bodies), None, None);
    LeadsAlways(s0, ls, BatchTypes(c, bodies));
    var s := Exec(s0, ls);
    assert s.config == c by { ConfigStays(s0, ls); }
    if Done(s) && !s.failed {
      NothingLeft(c, s.stacks);
      BothLaws(Some(s.types), Some({}), None);
    }
  }

  lemma {:induction false} ConfigStays(s: State, ls: seq<Label>)
    requires Runs(s, ls)
    ensures Exec(s, ls).config == s.config
    decreases |ls|
  {
    if ls != [] { ConfigStays(Next(s, ls[0]), ls[1..]); }
  }
}
