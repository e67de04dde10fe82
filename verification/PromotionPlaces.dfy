/** What the configured paths stand for, and what promotion leaves of a body, said by places alone: by the keys that are
    followed from the root and the value found there. */
module PromotionPlaces {
  import opened PData
  import opened DottedPaths
  import opened Promotion

  /** Place `k` of a path: its first `k` segments as keys of nested maps, and the rest with its dots as one key. */
  function PlaceOf(p: string, k: nat): Location
    requires k < |Segments(p)|
  { Segments(p)[..k] + [Dotted(Segments(p)[k..])] }

  /** There is a value at `loc`, and it is no map. */
  predicate HasLeaf(m: Body, loc: Location) { Lookup(m, loc).Some? && !Lookup(m, loc).value.Map? }

  predicate LeafAt(m: Body, p: string, k: nat) { k < |Segments(p)| && HasLeaf(m, PlaceOf(p, k)) }

  /** Place `k` is the first place of the path that has a leaf. */
  predicate StandsAt(m: Body, p: string, k: nat) { LeafAt(m, p, k) && forall j :: 0 <= j < k ==> !LeafAt(m, p, j) }

  lemma FirstPlace(m: Body, p: string)
    ensures PlaceOf(p, 0) == [p]
    ensures LeafAt(m, p, 0) <==> p in m && !m[p].Map?
    ensures !HasDot(p) ==> |Segments(p)| == 1
  {
    DottedSegments(p);
    assert Segments(p)[0..] == Segments(p);
    if !HasDot(p) { SplitPlain(p); }
  }

  lemma LaterPlaces(p: string, k: nat)
    requires HasDot(p)
    ensures |Segments(p)| == 1 + |Segments(Tail(p))|
    ensures k < |Segments(Tail(p))| ==> PlaceOf(p, k + 1) == [Head(p)] + PlaceOf(Tail(p), k)
  {
    SplitAtFirstDot(p);
    SplitOne(Head(p), Tail(p));
    if k < |Segments(Tail(p))| {
      assert Segments(p)[k + 1..] == Segments(Tail(p))[k..];
      assert Segments(p)[..k + 1] == [Head(p)] + Segments(Tail(p))[..k];
    }
  }

  lemma LeafBelow(m: Body, p: string, k: nat)
    requires HasDot(p)
    ensures LeafAt(m, p, k + 1) <==> Head(p) in m && m[Head(p)].Map? && LeafAt(m[Head(p)].m, Tail(p), k)
    ensures LeafAt(m, p, k + 1) ==> Lookup(m, PlaceOf(p, k + 1)) == Lookup(m[Head(p)].m, PlaceOf(Tail(p), k))
  {
    LaterPlaces(p, k);
    if k < |Segments(Tail(p))| { LookupBelow(m, Head(p), PlaceOf(Tail(p), k)); }
  }

  lemma LookupBelow(m: Body, h: string, loc: Location)
    requires loc != []
    ensures Lookup(m, [h] + loc) == if h in m && m[h].Map? then Lookup(m[h].m, loc) else None
  {
    assert ([h] + loc)[1..] == loc;
  }

  /** A path resolves to nothing exactly when none of its places has a leaf. */
  lemma {:induction false} ResolvesNowhereExactly(m: Body, p: string)
    ensures Resolve(m, p).None? <==> forall k: nat :: !LeafAt(m, p, k)
    decreases |p|
  {
    FirstPlace(m, p);
    if Descends(m, p) { ResolvesNowhereExactly(m[Head(p)].m, Tail(p)); }
    if Resolve(m, p).None? {
      forall k: nat ensures !LeafAt(m, p, k) {
        if k > 0 && HasDot(p) { LeafBelow(m, p, k - 1); }
      }
    }
    if forall k: nat :: !LeafAt(m, p, k) {
      assert !LeafAt(m, p, 0);
      if Descends(m, p) {
        forall k: nat ensures !LeafAt(m[Head(p)].m, Tail(p), k) {
          assert !LeafAt(m, p, k + 1);
          LeafBelow(m, p, k);
        }
      }
    }
  }

  /** Otherwise it resolves to the leaf at the first of its places that has one: the whole path as a key before any key
      it is split at, and so on at every level. */
  lemma {:induction false} ResolvesAtFirstPlace(m: Body, p: string, k: nat)
    requires StandsAt(m, p, k)
    ensures Resolve(m, p) == Lookup(m, PlaceOf(p, k)) && Spot(m, p) == PlaceOf(p, k)
    decreases |p|
  {
    FirstPlace(m, p);
    if k > 0 {
      assert !LeafAt(m, p, 0) && HasDot(p);
      LeafBelow(m, p, k - 1);
      LaterPlaces(p, k - 1);
      StandsBelow(m, p, k);
      ResolvesAtFirstPlace(m[Head(p)].m, Tail(p), k - 1);
    }
  }

  lemma StandsBelow(m: Body, p: string, k: nat)
    requires HasDot(p) && k > 0 && StandsAt(m, p, k)
    ensures Head(p) in m && m[Head(p)].Map? && StandsAt(m[Head(p)].m, Tail(p), k - 1)
  {
    LeafBelow(m, p, k - 1);
    forall j | 0 <= j < k - 1 ensures !LeafAt(m[Head(p)].m, Tail(p), j) {
      assert !LeafAt(m, p, j + 1);
      LeafBelow(m, p, j);
    }
  }

  /** There is a first place with a leaf as soon as there is one. */
  lemma {:induction false} SomeFirst(m: Body, p: string, k: nat) returns (j: nat)
    requires LeafAt(m, p, k)
    ensures j <= k && StandsAt(m, p, j)
    decreases k
  {
    j := k;
    if i :| 0 <= i < k && LeafAt(m, p, i) { j := SomeFirst(m, p, i); }
  }

  /** Handling a path walks into the nested map at `loc` exactly when `loc` is made of its first segments, though not of
      all, and no place has a leaf that is tried before. */
  lemma {:induction false} OnRouteExactly(m: Body, p: string, loc: Location)
    requires loc != []
    ensures OnRoute(m, p, loc) <==>
      && |loc| < |Segments(p)| && loc == Segments(p)[..|loc|]
      && Lookup(m, loc).Some? && Lookup(m, loc).value.Map? && forall j :: 0 <= j < |loc| ==> !LeafAt(m, p, j)
    decreases |p|
  {
    FirstPlace(m, p);
    if HasDot(p) {
      var h, n := Head(p), |loc|;
      FirstSegments(p, loc);
      if n > 1 && loc[0] == h && h in m && m[h].Map? {
        OnRouteExactly(m[h].m, Tail(p), loc[1..]);
        LeavesBelow(m, p, n);
      }
    }
  }

  lemma FirstSegments(p: string, loc: Location)
    requires HasDot(p) && loc != []
    ensures |Segments(p)| == 1 + |Segments(Tail(p))|
    ensures |loc| <= |Segments(p)| ==>
      (loc == Segments(p)[..|loc|] <==> loc[0] == Head(p) && loc[1..] == Segments(Tail(p))[..|loc| - 1])
  {
    SplitAtFirstDot(p);
    SplitOne(Head(p), Tail(p));
    assert loc == [loc[0]] + loc[1..];
    if |loc| <= |Segments(p)| { assert Segments(p)[..|loc|] == [Head(p)] + Segments(Tail(p))[..|loc| - 1]; }
  }

  lemma LeavesBelow(m: Body, p: string, n: nat)
    requires HasDot(p) && Head(p) in m && m[Head(p)].Map? && n > 1
    ensures (forall j :: 0 <= j < n ==> !LeafAt(m, p, j)) <==>
      !LeafAt(m, p, 0) && forall j :: 0 <= j < n - 1 ==> !LeafAt(m[Head(p)].m, Tail(p), j)
  {
    if forall j :: 0 <= j < n ==> !LeafAt(m, p, j) {
      forall j | 0 <= j < n - 1 ensures !LeafAt(m[Head(p)].m, Tail(p), j) {
        assert !LeafAt(m, p, j + 1);
        LeafBelow(m, p, j);
      }
    }
    if !LeafAt(m, p, 0) && forall j :: 0 <= j < n - 1 ==> !LeafAt(m[Head(p)].m, Tail(p), j) {
      forall j | 0 <= j < n ensures !LeafAt(m, p, j) {
        if j > 0 { LeafBelow(m, p, j - 1); }
      }
    }
  }

  // ---------------------------------------------------------------- both outputs

  /** One of the paths stands for the leaf at `loc`. */
  ghost predicate Claimed(m: Body, s: set<string>, loc: Location) {
    exists p, k :: p in s && StandsAt(m, p, k) && PlaceOf(p, k) == loc
  }

  /** The two outputs for `m` and the paths `s`: a path is promoted exactly when one of its places has a leaf, with the
      leaf at the first that has; and the body left has the leaves that no path stands for, where they were. */
  ghost predicate IsSplit(m: Body, s: set<string>, promoted: map<string, Value>, pruned: Body) {
    && (forall p :: p in promoted <==> p in s && exists k :: StandsAt(m, p, k))
    && (forall p, k :: p in promoted && StandsAt(m, p, k) ==> Lookup(m, PlaceOf(p, k)) == Some(promoted[p]))
    && (forall loc :: loc != [] ==>
          (HasLeaf(pruned, loc) <==> HasLeaf(m, loc) && !Claimed(m, s, loc))
          && (HasLeaf(pruned, loc) ==> Lookup(pruned, loc) == Lookup(m, loc)))
  }

  lemma PromotedExactly(m: Body, s: set<string>, p: string)
    ensures p in Promoted(m, s) <==> p in s && exists k :: StandsAt(m, p, k)
    ensures forall k :: p in s && StandsAt(m, p, k) ==> Lookup(m, PlaceOf(p, k)) == Some(Promoted(m, s)[p])
  {
    ResolvesNowhereExactly(m, p);
    if k: nat :| LeafAt(m, p, k) {
      var j := SomeFirst(m, p, k);
    }
    forall k | StandsAt(m, p, k) ensures Resolve(m, p) == Lookup(m, PlaceOf(p, k)) { ResolvesAtFirstPlace(m, p, k); }
  }

  lemma ClaimedExactly(m: Body, s: set<string>, loc: Location)
    requires loc != []
    ensures Claimed(m, s, loc) <==> Dotted(loc) in s && Spot(m, Dotted(loc)) == loc
  {
    if p, k :| p in s && StandsAt(m, p, k) && PlaceOf(p, k) == loc {
      ResolvesAtFirstPlace(m, p, k);
      SpotIsResolved(m, p);
    }
    var p := Dotted(loc);
    if p in s && Spot(m, p) == loc {
      SpotIsResolved(m, p);
      ResolvesNowhereExactly(m, p);
      var k: nat :| LeafAt(m, p, k);
      var j := SomeFirst(m, p, k);
      ResolvesAtFirstPlace(m, p, j);
    }
  }

  lemma LeavesLeftExactly(m: Body, s: set<string>, loc: Location)
    requires loc != []
    ensures HasLeaf(PruneSet(m, s), loc) <==> HasLeaf(m, loc) && !Claimed(m, s, loc)
    ensures HasLeaf(PruneSet(m, s), loc) ==> Lookup(PruneSet(m, s), loc) == Lookup(m, loc)
  {
    ClaimedExactly(m, s, loc);
    PromotionPartitionsLeaves(m, s, loc);
  }

  /** Promotion splits every body that way. */
  lemma PromotionSplits(m: Body, s: set<string>)
    ensures IsSplit(m, s, Promoted(m, s), PruneSet(m, s))
  {
    forall p
      ensures p in Promoted(m, s) <==> p in s && exists k :: StandsAt(m, p, k)
      ensures forall k :: p in s && StandsAt(m, p, k) ==> Lookup(m, PlaceOf(p, k)) == Some(Promoted(m, s)[p])
    {
      PromotedExactly(m, s, p);
    }
    forall loc | loc != []
      ensures HasLeaf(PruneSet(m, s), loc) <==> HasLeaf(m, loc) && !Claimed(m, s, loc)
      ensures HasLeaf(PruneSet(m, s), loc) ==> Lookup(PruneSet(m, s), loc) == Lookup(m, loc)
    {
      LeavesLeftExactly(m, s, loc);
    }
  }
}
