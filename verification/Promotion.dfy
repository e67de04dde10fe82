/** Promotion of configured JSON paths out of a log body, as the ClickHouse logs exporter does it before insertion.
    `Resolve` and `Prune` say on immutable trees what handling one path finds and what it leaves behind;
    `BodyMap` in PromotionInPlace.dfy is the in-place edit and is proved against them. */
module Promotion {
  import opened PData
  import opened DottedPaths

  type Body = map<string, Value>

  /** Index of the first '.', or -1. */
  function DotIndex(p: string): (i: int)
    ensures -1 <= i < |p|
    ensures i >= 0 ==> p[i] == '.' && '.' !in p[..i]
    ensures i == -1 <==> '.' !in p
  {
    if p == "" then -1
    else if p[0] == '.' then 0
    else
      var r := DotIndex(p[1..]);
      if r == -1 then -1
      else assert p[..r + 1] == [p[0]] + p[1..][..r]; r + 1
  }

  predicate HasDot(p: string) { DotIndex(p) != -1 }

  function Head(p: string): string
    requires HasDot(p)
  { p[..DotIndex(p)] }

  function Tail(p: string): (t: string)
    requires HasDot(p)
    ensures |t| < |p|
  { p[DotIndex(p) + 1..] }

  lemma SplitAtFirstDot(p: string)
    requires HasDot(p)
    ensures p == Head(p) + "." + Tail(p)
  {}

  lemma SameHeadSameTail(p: string, q: string)
    requires HasDot(p) && HasDot(q) && Head(p) == Head(q) && Tail(p) == Tail(q)
    ensures p == q
  {
    SplitAtFirstDot(p);
    SplitAtFirstDot(q);
  }

  /** The whole of `p` is a key of this level and holds something other than a map. */
  predicate IsLiteral(m: Body, p: string) { p in m && !m[p].Map? }

  /** Handling `p` goes on inside the map stored under the first segment of `p`. */
  predicate Descends(m: Body, p: string) {
    !IsLiteral(m, p) && HasDot(p) && Head(p) in m && m[Head(p)].Map?
  }

  /** The value `p` stands for: at every level the whole remaining path is tried as a key before it is split. */
  function Resolve(m: Body, p: string): (r: Option<Value>)
    ensures r.Some? ==> !r.value.Map?
    decreases |p|
  {
    if IsLiteral(m, p) then Some(m[p])
    else if Descends(m, p) then Resolve(m[Head(p)].m, Tail(p))
    else None
  }

  /** `m` with key `k` bound to the map `n`, or without `k` when `n` is empty. */
  function PutOrDrop(m: Body, k: string, n: Body): Body {
    if n == map[] then m - {k} else m[k := Map(n)]
  }

  /** What is left of the body after `p` is handled. */
  function Prune(m: Body, p: string): Body
    decreases |p|
  {
    if IsLiteral(m, p) then m - {p}
    else if Descends(m, p) then PutOrDrop(m, Head(p), Prune(m[Head(p)].m, Tail(p)))
    else m
  }

  /** Handling the paths of `ps` one after the other. */
  function PruneAll(m: Body, ps: seq<string>): Body {
    if ps == [] then m else PruneAll(Prune(m, ps[0]), ps[1..])
  }

  // ---------------------------------------------------------------- two paths do not interfere

  /** Handling another path changes neither whether `p` is a literal key here nor its value. */
  lemma LiteralStable(m: Body, p: string, q: string)
    requires p != q
    ensures IsLiteral(Prune(m, q), p) <==> IsLiteral(m, p)
    ensures IsLiteral(m, p) ==> Prune(m, q)[p] == m[p]
  {}

  lemma {:induction false} ResolveStable(m: Body, p: string, q: string)
    requires p != q
    ensures Resolve(Prune(m, q), p) == Resolve(m, p)
    decreases |p|
  {
    LiteralStable(m, p, q);
    if !IsLiteral(m, p) && Descends(m, p) {
      var h := Head(p);
      if Descends(m, q) && Head(q) == h {
        if Tail(p) == Tail(q) { SameHeadSameTail(p, q); }
        ResolveStable(m[h].m, Tail(p), Tail(q));
      }
    }
  }

  lemma NothingInEmpty(p: string)
    ensures Prune(map[], p) == map[]
  {}

  /** The key of this level that handling `p` binds anew or drops, if any, and the map it is bound to. */
  function Spotted(m: Body, p: string): Option<string> {
    if IsLiteral(m, p) then Some(p) else if Descends(m, p) then Some(Head(p)) else None
  }

  function LeftBelow(m: Body, p: string): Body {
    if !IsLiteral(m, p) && Descends(m, p) then Prune(m[Head(p)].m, Tail(p)) else map[]
  }

  lemma PruneIsPut(m: Body, p: string)
    ensures Prune(m, p) == if Spotted(m, p).Some? then PutOrDrop(m, Spotted(m, p).value, LeftBelow(m, p)) else m
  {}

  lemma PutsCommute(m: Body, j: string, a: Body, k: string, b: Body)
    requires j != k
    ensures PutOrDrop(PutOrDrop(m, j, a), k, b) == PutOrDrop(PutOrDrop(m, k, b), j, a)
  {}

  /** Paths that do not meet in a nested map leave each other's key alone. */
  lemma SpottedStable(m: Body, p: string, q: string)
    requires p != q && !(Descends(m, p) && Descends(m, q) && Head(p) == Head(q))
    ensures Spotted(Prune(m, q), p) == Spotted(m, p) && LeftBelow(Prune(m, q), p) == LeftBelow(m, p)
    ensures Spotted(m, p).Some? ==> Spotted(m, p) != Spotted(m, q)
  {
    LiteralStable(m, p, q);
  }

  lemma {:induction false} PruneCommutes(m: Body, p: string, q: string)
    requires p != q
    ensures Prune(Prune(m, p), q) == Prune(Prune(m, q), p)
    decreases |p|
  {
    if Descends(m, p) && Descends(m, q) && Head(p) == Head(q) {
      if Tail(p) == Tail(q) { SameHeadSameTail(p, q); }
      PruneCommutes(m[Head(p)].m, Tail(p), Tail(q));
      PruneBothBelow(m, p, q);
      PruneBothBelow(m, q, p);
    } else {
      ApartCommute(m, p, q);
    }
  }

  lemma ApartCommute(m: Body, p: string, q: string)
    requires p != q && !(Descends(m, p) && Descends(m, q) && Head(p) == Head(q))
    ensures Prune(Prune(m, p), q) == Prune(Prune(m, q), p)
  {
    SpottedStable(m, p, q);
    SpottedStable(m, q, p);
    PruneIsPut(m, p);
    PruneIsPut(m, q);
    PruneIsPut(Prune(m, p), q);
    PruneIsPut(Prune(m, q), p);
    if Spotted(m, p).Some? && Spotted(m, q).Some? {
      PutsCommute(m, Spotted(m, p).value, LeftBelow(m, p), Spotted(m, q).value, LeftBelow(m, q));
    }
  }

  /** Two paths through the same map: handling both amounts to handling their tails inside it. */
  lemma PruneBothBelow(m: Body, p: string, q: string)
    requires p != q && Descends(m, p) && Descends(m, q) && Head(p) == Head(q)
    ensures Prune(Prune(m, p), q) == PutOrDrop(m, Head(p), Prune(Prune(m[Head(p)].m, Tail(p)), Tail(q)))
  {
    LiteralStable(m, q, p);
    NothingInEmpty(Tail(q));
  }

  // ---------------------------------------------------------------- every order gives the same result

  /** `ps` lists the set `s`, each path once: one iteration order of Go's map. */
  ghost predicate IsOrderOf(ps: seq<string>, s: set<string>) {
    && (forall i, j :: 0 <= i < j < |ps| ==> ps[i] != ps[j])
    && forall p :: p in ps <==> p in s
  }

  lemma NonEmptyHasMember(ps: seq<string>)
    ensures ps != [] ==> exists p :: p in ps
  {
    if ps != [] { assert ps[0] in ps; }
  }

  lemma {:induction false} PullToFront(m: Body, ps: seq<string>, i: nat)
    requires i < |ps|
    requires forall j :: 0 <= j < i ==> ps[j] != ps[i]
    ensures PruneAll(m, ps) == PruneAll(Prune(m, ps[i]), ps[..i] + ps[i + 1..])
    decreases i
  {
    if i == 0 {
      assert ps[..0] + ps[1..] == ps[1..];
    } else {
      var rest := ps[1..];
      PullToFront(Prune(m, ps[0]), rest, i - 1);
      PruneCommutes(m, ps[0], ps[i]);
      var moved := ps[..i] + ps[i + 1..];
      assert moved[0] == ps[0] && moved[1..] == rest[..i - 1] + rest[i..];
    }
  }

  /** An order without one path is an order of the rest. */
  lemma OrderWithout(ps: seq<string>, i: nat, s: set<string>)
    requires IsOrderOf(ps, s) && i < |ps|
    ensures IsOrderOf(ps[..i] + ps[i + 1..], s - {ps[i]})
  {
    var rest := ps[..i] + ps[i + 1..];
    assert forall j :: 0 <= j < |rest| ==> rest[j] == ps[if j < i then j else j + 1];
    forall p ensures p in rest <==> p in s - {ps[i]} {
      if p in rest {
        var j :| 0 <= j < |rest| && rest[j] == p;
        assert p == ps[if j < i then j else j + 1];
      }
      if p in s && p != ps[i] {
        var j :| 0 <= j < |ps| && ps[j] == p;
        assert p == rest[if j < i then j else j - 1];
      }
    }
  }

  /** Confluence: any two iteration orders of the same set leave the same body. */
  lemma {:induction false} PruneAllConfluent(m: Body, ps: seq<string>, qs: seq<string>, s: set<string>)
    requires IsOrderOf(ps, s) && IsOrderOf(qs, s)
    ensures PruneAll(m, ps) == PruneAll(m, qs)
    decreases |ps|
  {
    if ps == [] {
      NonEmptyHasMember(qs);
    } else {
      assert ps[0] in qs;
      var i :| 0 <= i < |qs| && qs[i] == ps[0];
      PullToFront(m, qs, i);
      OrderWithout(ps, 0, s);
      assert ps[..0] + ps[1..] == ps[1..];
      OrderWithout(qs, i, s);
      PruneAllConfluent(Prune(m, ps[0]), ps[1..], qs[..i] + qs[i + 1..], s - {ps[0]});
    }
  }

  lemma {:induction false} ResolveStableAll(m: Body, p: string, ps: seq<string>)
    requires p !in ps
    ensures Resolve(PruneAll(m, ps), p) == Resolve(m, p)
    decreases |ps|
  {
    if ps != [] {
      ResolveStable(m, p, ps[0]);
      ResolveStableAll(Prune(m, ps[0]), p, ps[1..]);
    }
  }

  lemma {:induction false} PruneAllSnoc(m: Body, ps: seq<string>, p: string)
    ensures PruneAll(m, ps + [p]) == Prune(PruneAll(m, ps), p)
    decreases |ps|
  {
    if ps == [] {
      assert [p][1..] == [];
    } else {
      assert (ps + [p])[0] == ps[0] && (ps + [p])[1..] == ps[1..] + [p];
      PruneAllSnoc(Prune(m, ps[0]), ps[1..], p);
    }
  }

  /** The promoted map in terms of the original body alone. */
  function Promoted(m: Body, s: set<string>): map<string, Value> {
    map p | p in s && Resolve(m, p).Some? :: Resolve(m, p).value
  }

  // ---------------------------------------------------------------- where the leaves go

  /** A place in a body: the keys followed from the root. */
  type Location = seq<string>

  function Lookup(m: Body, loc: Location): Option<Value>
    decreases |loc|
  {
    if loc == [] || loc[0] !in m then None
    else if |loc| == 1 then Some(m[loc[0]])
    else if m[loc[0]].Map? then Lookup(m[loc[0]].m, loc[1..])
    else None
  }

  function Leaf(m: Body, loc: Location): Option<Value> {
    var v := Lookup(m, loc);
    if v.Some? && v.value.Map? then None else v
  }

  /** The place at which `p` resolves; [] when it resolves to nothing. */
  function Spot(m: Body, p: string): Location
    decreases |p|
  {
    if IsLiteral(m, p) then [p]
    else if Descends(m, p) then
      var below := Spot(m[Head(p)].m, Tail(p));
      if below == [] then [] else [Head(p)] + below
    else []
  }

  /** `Spot` is where `Resolve` finds its value, and the keys of that place, joined with dots, spell the path. */
  lemma {:induction false} SpotIsResolved(m: Body, p: string)
    ensures Spot(m, p) != [] <==> Resolve(m, p).Some?
    ensures Spot(m, p) != [] ==> Leaf(m, Spot(m, p)) == Resolve(m, p) && Dotted(Spot(m, p)) == p
    decreases |p|
  {
    if Descends(m, p) {
      SpotIsResolved(m[Head(p)].m, Tail(p));
      SplitAtFirstDot(p);
      var below := Spot(m[Head(p)].m, Tail(p));
      assert ([Head(p)] + below)[1..] == below;
    }
  }

  lemma {:induction false} SpotStable(m: Body, p: string, q: string)
    requires p != q
    ensures Spot(Prune(m, q), p) == Spot(m, p)
    decreases |p|
  {
    LiteralStable(m, p, q);
    if !IsLiteral(m, p) && Descends(m, p) && Descends(m, q) && Head(q) == Head(p) {
      if Tail(p) == Tail(q) { SameHeadSameTail(p, q); }
      SpotStable(m[Head(p)].m, Tail(p), Tail(q));
    }
  }

  /** Replacing the nested map under `k` changes the leaves in it alone. */
  lemma LeafOfPut(m: Body, k: string, n: Body, loc: Location)
    requires k in m && m[k].Map? && loc != []
    ensures Leaf(PutOrDrop(m, k, n), loc) == if loc[0] == k then Leaf(n, loc[1..]) else Leaf(m, loc)
  {}

  /** Handling one path takes away the leaf it resolves to and no other, and moves nothing. */
  lemma {:induction false} PruneTakesOneLeaf(m: Body, p: string, loc: Location)
    ensures Leaf(Prune(m, p), loc) == if loc != [] && loc == Spot(m, p) then None else Leaf(m, loc)
    decreases |p|
  {
    if loc != [] && Descends(m, p) {
      var n := m[Head(p)].m;
      LeafOfPut(m, Head(p), Prune(n, Tail(p)), loc);
      if loc[0] == Head(p) {
        PruneTakesOneLeaf(n, Tail(p), loc[1..]);
        LeafBelow(m, p, loc);
      }
    }
  }

  lemma LeafBelow(m: Body, p: string, loc: Location)
    requires loc != [] && Descends(m, p) && loc[0] == Head(p)
    ensures Leaf(m, loc) == Leaf(m[Head(p)].m, loc[1..])
    ensures loc == Spot(m, p) <==> loc[1..] != [] && loc[1..] == Spot(m[Head(p)].m, Tail(p))
  {
    var below := Spot(m[Head(p)].m, Tail(p));
    assert loc == [Head(p)] + loc[1..];
    assert ([Head(p)] + below)[1..] == below;
  }

  /** Promotion partitions the leaves: after any sequence of distinct paths, the leaf at `loc` is gone exactly when
      the path spelled by `loc` was handled and resolves there, and is otherwise unchanged and in place. */
  lemma {:induction false} LeavesPartitioned(m: Body, ps: seq<string>, loc: Location)
    requires loc != []
    requires forall i, j :: 0 <= i < j < |ps| ==> ps[i] != ps[j]
    ensures Leaf(PruneAll(m, ps), loc)
         == if Dotted(loc) in ps && Spot(m, Dotted(loc)) == loc then None else Leaf(m, loc)
    decreases |ps|
  {
    if ps != [] {
      var p, m', w := ps[0], Prune(m, ps[0]), Dotted(loc);
      PruneTakesOneLeaf(m, p, loc);
      SpotIsResolved(m, p);
      LeavesPartitioned(m', ps[1..], loc);
      if w != p { SpotStable(m, w, p); }
    }
  }

  // ---------------------------------------------------------------- which nested maps go

  /** Handling `p` walks into the nested map stored at `loc`. */
  predicate OnRoute(m: Body, p: string, loc: Location)
    decreases |p|
  {
    && loc != [] && Descends(m, p) && loc[0] == Head(p)
    && (|loc| == 1 || OnRoute(m[Head(p)].m, Tail(p), loc[1..]))
  }

  /** There is an empty nested map at `loc`. */
  predicate Hollow(m: Body, loc: Location) { Lookup(m, loc) == Some(Map(map[])) }

  /** A nested map the walk does not enter keeps its whole content. */
  lemma {:induction false} OffRouteUntouched(m: Body, p: string, loc: Location)
    requires Lookup(m, loc).Some? && Lookup(m, loc).value.Map? && !OnRoute(m, p, loc)
    ensures Lookup(Prune(m, p), loc) == Lookup(m, loc)
    decreases |p|
  {
    if Descends(m, p) && loc[0] == Head(p) {
      OffRouteUntouched(m[Head(p)].m, Tail(p), loc[1..]);
    }
  }

  /** A nested map the walk enters is either gone or has something left in it. */
  lemma {:induction false} OnRouteNotHollow(m: Body, p: string, loc: Location)
    requires OnRoute(m, p, loc)
    ensures !Hollow(Prune(m, p), loc)
    decreases |p|
  {
    if |loc| > 1 { OnRouteNotHollow(m[Head(p)].m, Tail(p), loc[1..]); }
  }

  /** No empty map comes into being. */
  lemma {:induction false} PruneNeverHollows(m: Body, p: string, loc: Location)
    requires !Hollow(m, loc)
    ensures !Hollow(Prune(m, p), loc)
    decreases |p|
  {
    if loc != [] && Descends(m, p) && loc[0] == Head(p) && |loc| > 1 {
      PruneNeverHollows(m[Head(p)].m, Tail(p), loc[1..]);
    }
  }

  /** Handling another path takes no map onto the route of `p`, and takes one off it only by removing it. */
  lemma {:induction false} RouteStable(m: Body, p: string, q: string, loc: Location)
    requires p != q
    ensures OnRoute(Prune(m, q), p, loc) ==> OnRoute(m, p, loc)
    ensures OnRoute(m, p, loc) ==> OnRoute(Prune(m, q), p, loc) || Lookup(Prune(m, q), loc) == None
    decreases |p|
  {
    LiteralStable(m, p, q);
    if loc != [] && Descends(m, p) && loc[0] == Head(p) && Descends(m, q) && Head(q) == Head(p) {
      if Tail(p) == Tail(q) { SameHeadSameTail(p, q); }
      if |loc| > 1 { RouteStable(m[Head(p)].m, Tail(p), Tail(q), loc[1..]); }
    }
  }

  /** After all paths are handled, no map that any of them walks into in the original body is left behind empty;
      a map that none of them walks into is exactly as it was, even if it was empty. */
  lemma {:induction false} EmptiedMapsRemoved(m: Body, ps: seq<string>, loc: Location)
    requires forall i, j :: 0 <= i < j < |ps| ==> ps[i] != ps[j]
    ensures (exists p :: p in ps && OnRoute(m, p, loc)) || !Hollow(m, loc) ==> !Hollow(PruneAll(m, ps), loc)
    ensures Lookup(m, loc).Some? && Lookup(m, loc).value.Map? && (forall p :: p in ps ==> !OnRoute(m, p, loc))
        ==> Lookup(PruneAll(m, ps), loc) == Lookup(m, loc)
    decreases |ps|
  {
    if ps != [] {
      var q, m', rest := ps[0], Prune(m, ps[0]), ps[1..];
      EmptiedMapsRemoved(m', rest, loc);
      if OnRoute(m, q, loc) {
        OnRouteNotHollow(m, q, loc);
      } else if !Hollow(m, loc) {
        PruneNeverHollows(m, q, loc);
      } else if exists p :: p in ps && OnRoute(m, p, loc) {
        var p :| p in ps && OnRoute(m, p, loc);
        RouteStable(m, p, q, loc);
        OffRouteUntouched(m, q, loc);
        assert p in rest;
      }
      if Lookup(m, loc).Some? && Lookup(m, loc).value.Map? && (forall p :: p in ps ==> !OnRoute(m, p, loc)) {
        OffRouteUntouched(m, q, loc);
        forall p | p in rest ensures !OnRoute(m', p, loc) { assert p in ps; RouteStable(m, p, q, loc); }
      }
    }
  }

  // ---------------------------------------------------------------- the set of configured paths

  lemma {:induction false} SomeOrder(s: set<string>)
    ensures exists ps :: IsOrderOf(ps, s)
  {
    if s == {} {
      assert IsOrderOf([], s);
    } else {
      var p :| p in s;
      SomeOrder(s - {p});
      var ps :| IsOrderOf(ps, s - {p});
      assert IsOrderOf(ps + [p], s);
    }
  }

  /** What handling the whole set leaves; `PruneSetAnyOrder` says the choice of order is immaterial. */
  ghost function PruneSet(m: Body, s: set<string>): Body {
    SomeOrder(s);
    var ps :| IsOrderOf(ps, s);
    PruneAll(m, ps)
  }

  lemma PruneSetAnyOrder(m: Body, s: set<string>, ps: seq<string>)
    requires IsOrderOf(ps, s)
    ensures PruneAll(m, ps) == PruneSet(m, s)
  {
    SomeOrder(s);
    var qs :| IsOrderOf(qs, s) && PruneSet(m, s) == PruneAll(m, qs);
    PruneAllConfluent(m, ps, qs, s);
  }

  /** Each leaf of the original body ends in exactly one of the two outputs, with its value unchanged: under the path
      its keys spell in the promoted map, if that path is configured and stands for this very leaf, and otherwise at
      its own place in the pruned body. Nothing else is in either. */
  lemma PromotionPartitionsLeaves(m: Body, s: set<string>, loc: Location)
    requires loc != []
    ensures var w := Dotted(loc);
      if w in s && Spot(m, w) == loc
      then Leaf(PruneSet(m, s), loc) == None && w in Promoted(m, s) && Leaf(m, loc) == Some(Promoted(m, s)[w])
      else Leaf(PruneSet(m, s), loc) == Leaf(m, loc)
    ensures forall p :: p in Promoted(m, s) ==>
      p in s && Dotted(Spot(m, p)) == p && Leaf(m, Spot(m, p)) == Some(Promoted(m, s)[p])
  {
    SomeOrder(s);
    var ps :| IsOrderOf(ps, s) && PruneSet(m, s) == PruneAll(m, ps);
    LeavesPartitioned(m, ps, loc);
    SpotIsResolved(m, Dotted(loc));
    forall p | p in Promoted(m, s)
      ensures p in s && Dotted(Spot(m, p)) == p && Leaf(m, Spot(m, p)) == Some(Promoted(m, s)[p])
    {
      SpotIsResolved(m, p);
    }
  }

  /** Which nested maps go with the leaves, for the whole set. */
  lemma PromotionRemovesEmptiedMaps(m: Body, s: set<string>, loc: Location)
    ensures (exists p :: p in s && OnRoute(m, p, loc)) ==> !Hollow(PruneSet(m, s), loc)
    ensures Lookup(m, loc).Some? && Lookup(m, loc).value.Map? && (forall p :: p in s ==> !OnRoute(m, p, loc))
        ==> Lookup(PruneSet(m, s), loc) == Lookup(m, loc)
    ensures !Hollow(m, loc) ==> !Hollow(PruneSet(m, s), loc)
  {
    SomeOrder(s);
    var ps :| IsOrderOf(ps, s) && PruneSet(m, s) == PruneAll(m, ps);
    EmptiedMapsRemoved(m, ps, loc);
  }

  lemma FirstDot(k: string, tail: string)
    requires '.' !in k
    ensures HasDot(k + "." + tail) && Head(k + "." + tail) == k && Tail(k + "." + tail) == tail
  {
    var p := k + "." + tail;
    assert p[|k|] == '.' && p[..|k|] == k && p[|k| + 1..] == tail;
  }

  /** A path that leads into a map that was empty from the start takes that map away, with nothing extracted. */
  lemma EmptyMapGoes(m: Body, k: string, tail: string)
    requires '.' !in k && k in m && m[k] == Map(map[]) && !IsLiteral(m, k + "." + tail)
    ensures Resolve(m, k + "." + tail) == None && Prune(m, k + "." + tail) == m - {k}
  {
    FirstDot(k, tail);
    NothingInEmpty(tail);
  }

  lemma EmptyUserGoes()
    ensures Prune(map["user" := Map(map[])], "user.id") == map[]
    ensures Resolve(map["user" := Map(map[])], "user.id") == None
  {
    assert "user" + "." + "id" == "user.id";
    EmptyMapGoes(map["user" := Map(map[])], "user", "id");
  }

  // ---------------------------------------------------------------- one step of the loop over the set

  function Recorded(values: map<string, Value>, k: string, r: Option<Value>): map<string, Value> {
    if r.Some? then values[k := r.value] else values
  }

  /** The paths of `done` have been handled in the order `order`. */
  ghost predicate Handled(m: Body, order: seq<string>, done: set<string>, body: Body, values: map<string, Value>) {
    IsOrderOf(order, done) && body == PruneAll(m, order) && values == Promoted(m, done)
  }

  lemma HandledStep(m: Body, order: seq<string>, done: set<string>, body: Body, values: map<string, Value>, p: string)
    requires Handled(m, order, done, body, values) && p !in done
    ensures Handled(m, order + [p], done + {p}, Prune(body, p), Recorded(values, p, Resolve(body, p)))
  {
    ResolveStableAll(m, p, order);
    PruneAllSnoc(m, order, p);
    OrderSnoc(order, done, p);
    PromotedStep(m, done, p);
  }

  lemma OrderSnoc(order: seq<string>, s: set<string>, p: string)
    requires IsOrderOf(order, s) && p !in s
    ensures IsOrderOf(order + [p], s + {p})
  {}

  lemma PromotedStep(m: Body, s: set<string>, p: string)
    requires p !in s
    ensures Promoted(m, s + {p}) == Recorded(Promoted(m, s), p, Resolve(m, p))
  {}
}
