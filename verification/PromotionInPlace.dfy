/** The in-place edit of a log body: a tree of mutable maps that hold references to their nested maps. */
module PromotionInPlace {
  import opened PData
  import opened Promotion
  import opened PromotionPlaces

  datatype BodyEntry = Scalar(v: Value) | Nested(node: BodyMap)

  /** The map the extracted values are put into. */
  class PromotedMap {
    var values: map<string, Value>

    constructor ()
      ensures values == map[]
    { values := map[]; }

    method Put(k: string, v: Value)
      modifies this
      ensures values == old(values)[k := v]
    { values := values[k := v]; }
  }

  class BodyMap {
    var entries: map<string, BodyEntry>
    ghost var Content: Body
    ghost var Repr: set<object>

    ghost predicate EntryOk(k: string)
      requires k in entries
      reads this, Repr
      decreases Repr, 0
    {
      match entries[k]
      case Scalar(v) => !v.Map? && k in Content && Content[k] == v
      case Nested(n) =>
        && n in Repr && n.Repr < Repr && this !in n.Repr
        && n.Valid() && k in Content && Content[k] == Map(n.Content)
    }

    ghost predicate Apart(j: string, k: string)
      requires j in entries && k in entries
      reads this, Repr
    {
      && entries[j].Nested? && entries[k].Nested? && entries[j].node in Repr && entries[k].node in Repr
      ==> entries[j].node.Repr !! entries[k].node.Repr
    }

    /** The nested maps form a tree, and `Content` is the value this map stands for. */
    ghost predicate Valid()
      reads this, Repr
      decreases Repr, 1
    {
      && this in Repr
      && entries.Keys == Content.Keys
      && (forall k :: k in entries ==> EntryOk(k))
      && (forall j, k :: j in entries && k in entries && j != k ==> Apart(j, k))
    }

    /** Extracts the value that `remaining` stands for, if any, into `promoted` under `full`, and removes it and
        the nested maps that the walk finds or leaves empty. */
    method HandleSinglePath(promoted: PromotedMap, full: string, remaining: string)
      requires Valid() && promoted !in Repr
      modifies Repr, promoted
      ensures Valid() && Repr <= old(Repr)
      ensures Content == Prune(old(Content), remaining)
      ensures promoted.values == Recorded(old(promoted.values), full, Resolve(old(Content), remaining))
      decreases |remaining|, 0
    {
      if remaining in entries {
        assert EntryOk(remaining);
        if entries[remaining].Scalar? {
          promoted.Put(full, entries[remaining].v);
          Remove(remaining);
          return;
        }
      }
      var dot := DotIndex(remaining);
      assert !IsLiteral(Content, remaining);
      if dot == -1 { return; }
      var head, tail := remaining[..dot], remaining[dot + 1..];
      assert head == Head(remaining) && tail == Tail(remaining);
      if head !in entries { assert !Descends(Content, remaining); return; }
      assert EntryOk(head);
      assert Descends(Content, remaining) <==> entries[head].Nested?;
      if entries[head].Nested? {
        var nested := entries[head].node;
        DescendInto(head, nested, promoted, full, tail);
        if |nested.entries| == 0 {
          Remove(head);
        }
      }
    }

    /** The recursive call, seen from the parent: the entries beside `head` keep their values. */
    method DescendInto(head: string, nested: BodyMap, promoted: PromotedMap, full: string, tail: string)
      requires Valid() && promoted !in Repr
      requires head in entries && entries[head] == Nested(nested)
      requires EntryOk(head)
      modifies Repr, promoted
      ensures Valid() && Repr == old(Repr) && entries == old(entries)
      ensures nested.entries.Keys == nested.Content.Keys
      ensures old(head in Content && Content[head].Map?)
      ensures Content == old(Content)[head := Map(nested.Content)]
      ensures nested.Content == Prune(old(Content[head].m), tail)
      ensures promoted.values == Recorded(old(promoted.values), full, Resolve(old(Content[head].m), tail))
      decreases |tail|, 1
    {
      nested.HandleSinglePath(promoted, full, tail);
      forall k | k in entries && k != head && entries[k].Nested?
        ensures old(entries[k].node.Repr) !! old(nested.Repr) && old(entries[k].node.Valid())
        ensures unchanged(entries[k].node)
        ensures entries[k].node.Valid()
      {
        assert old(EntryOk(k)) && old(Apart(head, k));
        var n := entries[k].node;
        assert old(n.Valid());
        assert n in old(n.Repr);
        assert forall o :: o in old(n.Repr) ==> o !in old(nested.Repr) && o != promoted;
      }
      Content := Content[head := Map(nested.Content)];
      forall k | k in entries
        ensures EntryOk(k)
        ensures entries[k].Nested? ==>
          entries[k].node in old(Repr) && entries[k].node.Repr <= old(entries[k].node.Repr)
      {
        assert old(EntryOk(k));
      }
      forall j, k | j in entries && k in entries && j != k ensures Apart(j, k) {
        assert old(Apart(j, k));
      }
    }

    method Remove(k: string)
      requires Valid() && k in entries
      modifies this
      ensures Valid() && Repr == old(Repr)
      ensures Content == old(Content) - {k} && entries == old(entries) - {k}
    {
      entries := entries - {k};
      Content := Content - {k};
    }
  }

  /** Extracts every configured path, in any order, as Go's map iteration does. */
  method ExtractEach(bm: BodyMap, promoted: PromotedMap, promotedPaths: set<string>)
    requires bm.Valid() && promoted !in bm.Repr && promoted.values == map[]
    modifies bm.Repr, promoted
    ensures bm.Valid()
    ensures promoted.values == Promoted(old(bm.Content), promotedPaths)
    ensures bm.Content == PruneSet(old(bm.Content), promotedPaths)
  {
    var rest := promotedPaths;
    ghost var m, order: seq<string> := bm.Content, [];
    while rest != {}
      invariant rest <= promotedPaths
      invariant bm.Valid() && bm.Repr <= old(bm.Repr) && promoted !in bm.Repr
      invariant Handled(m, order, promotedPaths - rest, bm.Content, promoted.values)
    {
      var path :| path in rest;
      HandledStep(m, order, promotedPaths - rest, bm.Content, promoted.values, path);
      assert promotedPaths - rest + {path} == promotedPaths - (rest - {path});
      bm.HandleSinglePath(promoted, path, path);
      order, rest := order + [path], rest - {path};
    }
    assert promotedPaths - rest == promotedPaths;
    PruneSetAnyOrder(m, promotedPaths, order);
  }

  /** Splits a log body into the promoted values and the rest. A body that is not a map promotes nothing. */
  method BuildPromotedAndPruneBody(body: BodyEntry, promotedPaths: set<string>) returns (promoted: PromotedMap)
    requires body.Nested? ==> body.node.Valid()
    modifies if body.Nested? then body.node.Repr else {}
    ensures fresh(promoted)
    ensures body.Scalar? ==> promoted.values == map[]
    ensures body.Nested? ==>
      && body.node.Valid()
      && promoted.values == Promoted(old(body.node.Content), promotedPaths)
      && body.node.Content == PruneSet(old(body.node.Content), promotedPaths)
      && IsSplit(old(body.node.Content), promotedPaths, promoted.values, body.node.Content)
  {
    promoted := new PromotedMap();
    if body.Scalar? { return; }
    PromotionSplits(body.node.Content, promotedPaths);
    if |promotedPaths| == 0 {
      PruneSetAnyOrder(body.node.Content, {}, []);
      return;
    }
    ExtractEach(body.node, promoted, promotedPaths);
  }
}
