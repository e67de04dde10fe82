/** Putting the members of a sequence into groups by a key: a group for every key in the order in which the keys first
    appear, and within a group the members in their own order. */
module StableGroups {
  import opened Sums

  datatype Group<K, E> = Group(key: K, members: seq<E>)

  /** Where the group of `k` is, or one past the end. */
  function Place<K(==), E>(gs: seq<Group<K, E>>, k: K): (i: nat)
    ensures i <= |gs|
    ensures i < |gs| ==> gs[i].key == k
    ensures forall j :: 0 <= j < i ==> gs[j].key != k
  {
    if gs == [] || gs[0].key == k then 0 else 1 + Place(gs[1..], k)
  }

  function Put<K(==), E>(gs: seq<Group<K, E>>, k: K, e: E): seq<Group<K, E>> {
    var i := Place(gs, k);
    if i < |gs| then gs[i := Group(k, gs[i].members + [e])] else gs + [Group(k, [e])]
  }

  function Groups<K(==), E>(es: seq<E>, key: E -> K): seq<Group<K, E>> {
    if es == [] then [] else var last := |es| - 1; Put(Groups(es[..last], key), key(es[last]), es[last])
  }

  /** The members of `es` that have the key `k`, in order. */
  function Own<K(==), E>(es: seq<E>, key: E -> K, k: K): seq<E> {
    if es == [] then []
    else
      var last := |es| - 1;
      Own(es[..last], key, k) + if key(es[last]) == k then [es[last]] else []
  }

  lemma GroupsSnoc<K, E>(es: seq<E>, e: E, key: E -> K)
    ensures Groups(es + [e], key) == Put(Groups(es, key), key(e), e)
  {
    assert (es + [e])[..|es|] == es;
  }

  lemma GroupsOfOne<K, E>(e: E, key: E -> K)
    ensures Groups([e], key) == [Group(key(e), [e])]
  {
    assert [e][..0] == [];
    assert Groups([e][..0], key) == [];
  }

  lemma {:induction false} OwnNone<K, E>(es: seq<E>, key: E -> K, k: K)
    requires forall e :: e in es ==> key(e) != k
    ensures Own(es, key, k) == []
  {
    if es != [] {
      assert es[|es| - 1] in es;
      OwnNone(es[..|es| - 1], key, k);
    }
  }

  ghost predicate DistinctKeys<K, E>(gs: seq<Group<K, E>>) {
    forall i, j :: 0 <= i < j < |gs| ==> gs[i].key != gs[j].key
  }

  lemma PlaceOf<K, E>(gs: seq<Group<K, E>>, i: nat)
    requires i < |gs| && DistinctKeys(gs)
    ensures Place(gs, gs[i].key) == i
  {
    var p := Place(gs, gs[i].key);
    assert p <= i;
  }

  lemma PutKeepsKeysDistinct<K, E>(gs: seq<Group<K, E>>, k: K, e: E)
    requires DistinctKeys(gs)
    ensures DistinctKeys(Put(gs, k, e))
  {
    var i := Place(gs, k);
    var after := Put(gs, k, e);
    assert forall j :: 0 <= j < |gs| ==> after[j].key == gs[j].key;
  }

  lemma {:induction false} GroupKeysDistinct<K, E>(es: seq<E>, key: E -> K)
    ensures DistinctKeys(Groups(es, key))
  {
    if es != [] {
      var last := |es| - 1;
      GroupKeysDistinct(es[..last], key);
      PutKeepsKeysDistinct(Groups(es[..last], key), key(es[last]), es[last]);
    }
  }

  lemma {:induction false} EveryKeyHasAGroup<K, E>(es: seq<E>, key: E -> K, n: nat)
    requires n < |es|
    ensures Place(Groups(es, key), key(es[n])) < |Groups(es, key)|
  {
    var last := |es| - 1;
    var was, gs := Groups(es[..last], key), Groups(es, key);
    if n < last {
      EveryKeyHasAGroup(es[..last], key, n);
      assert gs[Place(was, key(es[n]))].key == key(es[n]);
    } else {
      assert gs[Place(was, key(es[n]))].key == key(es[n]);
    }
  }

  /** The groups hold exactly the members with their keys, in order. */
  lemma {:induction false} MembersAreOwn<K, E>(es: seq<E>, key: E -> K, i: nat)
    requires i < |Groups(es, key)|
    ensures Groups(es, key)[i].members != []
    ensures Groups(es, key)[i].members == Own(es, key, Groups(es, key)[i].key)
  {
    var last := |es| - 1;
    var init, e := es[..last], es[last];
    var was := Groups(init, key);
    if i < |was| {
      MembersAreOwn(init, key, i);
      GroupKeysDistinct(init, key);
      PlaceOf(was, i);
    } else {
      forall x | x in init ensures key(x) != key(e) {
        var n :| 0 <= n < |init| && init[n] == x;
        EveryKeyHasAGroup(init, key, n);
      }
      OwnNone(init, key, key(e));
    }
  }

  /** The members stand in the sequence at these places, one after the other. */
  ghost predicate StandAt<E>(members: seq<E>, es: seq<E>, at: seq<nat>) {
    && |at| == |members| && (forall i, j :: 0 <= i < j < |at| ==> at[i] < at[j])
    && forall j :: 0 <= j < |at| ==> at[j] < |es| && members[j] == es[at[j]]
  }

  lemma StandSnoc<E>(members: seq<E>, es: seq<E>, at: seq<nat>, e: E)
    requires StandAt(members, es, at)
    ensures StandAt(members, es + [e], at) && StandAt(members + [e], es + [e], at + [|es|])
  {}

  /** These are the places with the key. */
  ghost predicate AreAll<K, E>(at: seq<nat>, es: seq<E>, key: E -> K, k: K) {
    forall n :: 0 <= n < |es| ==> (n in at <==> key(es[n]) == k)
  }

  lemma {:induction false} OwnStand<K, E>(es: seq<E>, key: E -> K, k: K) returns (at: seq<nat>)
    ensures StandAt(Own(es, key, k), es, at) && AreAll(at, es, key, k)
  {
    at := [];
    if es != [] {
      var init, e := es[..|es| - 1], es[|es| - 1];
      at := OwnStand(init, key, k);
      StandSnoc(Own(init, key, k), init, at, e);
      assert es == init + [e] && |init| !in at;
      at := at + if key(e) == k then [|init|] else [];
    }
  }

  /** The members of a group stand at the places with its key, of which there is one. */
  lemma GroupStands<K, E>(es: seq<E>, key: E -> K, i: nat) returns (at: seq<nat>)
    requires i < |Groups(es, key)|
    ensures at != [] && StandAt(Groups(es, key)[i].members, es, at) && AreAll(at, es, key, Groups(es, key)[i].key)
  {
    MembersAreOwn(es, key, i);
    at := OwnStand(es, key, Groups(es, key)[i].key);
  }

  /** The key `k` is there before `l` is. */
  ghost predicate ComesBefore<K, E>(es: seq<E>, key: E -> K, k: K, l: K) {
    exists n :: 0 <= n < |es| && key(es[n]) == k && forall m :: 0 <= m <= n ==> key(es[m]) != l
  }

  /** The groups are in the order in which their keys first appear. */
  lemma {:induction false} GroupsInOrder<K, E>(es: seq<E>, key: E -> K, i: nat, j: nat)
    requires i < j < |Groups(es, key)|
    ensures ComesBefore(es, key, Groups(es, key)[i].key, Groups(es, key)[j].key)
  {
    var last := |es| - 1;
    var init, was := es[..last], Groups(es[..last], key);
    var k, l := Groups(es, key)[i].key, Groups(es, key)[j].key;
    if j < |was| {
      GroupsInOrder(init, key, i, j);
      var n :| 0 <= n < |init| && key(init[n]) == k && forall m :: 0 <= m <= n ==> key(init[m]) != l;
      assert key(es[n]) == k && forall m :: 0 <= m <= n ==> es[m] == init[m];
    } else {
      var at := GroupStands(init, key, i);
      assert at[0] in at;
      forall m | 0 <= m <= at[0] ensures key(es[m]) != l {
        EveryKeyHasAGroup(init, key, m);
        assert es[m] == init[m];
      }
      assert key(es[at[0]]) == k;
    }
  }

  /** Places for all groups; the first places are in order. */
  ghost predicate ArePlaces<K, E>(ats: seq<seq<nat>>, gs: seq<Group<K, E>>, es: seq<E>, key: E -> K) {
    && |ats| <= |gs|
    && (forall i :: 0 <= i < |ats| ==> ats[i] != [] && StandAt(gs[i].members, es, ats[i])
                                       && AreAll(ats[i], es, key, gs[i].key))
    && forall i, j :: 0 <= i < j < |ats| ==> ats[i][0] < ats[j][0]
  }

  lemma {:induction false} GroupPlaces<K, E>(es: seq<E>, key: E -> K, n: nat) returns (ats: seq<seq<nat>>)
    requires n <= |Groups(es, key)|
    ensures |ats| == n && ArePlaces(ats, Groups(es, key), es, key)
  {
    ats := [];
    if n > 0 {
      var gs := Groups(es, key);
      ats := GroupPlaces(es, key, n - 1);
      var at := GroupStands(es, key, n - 1);
      forall i | 0 <= i < n - 1 ensures ats[i][0] < at[0] {
        GroupsInOrder(es, key, i, n - 1);
        FirstPlaces(es, key, gs[i].key, gs[n - 1].key, ats[i], at);
      }
      ats := ats + [at];
    }
  }

  lemma FirstPlaces<K, E>(es: seq<E>, key: E -> K, k: K, l: K, at: seq<nat>, bt: seq<nat>)
    requires at != [] && bt != [] && AreAll(at, es, key, k) && AreAll(bt, es, key, l) && ComesBefore(es, key, k, l)
    requires (forall i, j :: 0 <= i < j < |at| ==> at[i] < at[j]) && bt[0] < |es|
    ensures at[0] < bt[0]
  {
    var n :| 0 <= n < |es| && key(es[n]) == k && forall m :: 0 <= m <= n ==> key(es[m]) != l;
    assert n in at && bt[0] in bt;
  }

  /** The places of places. */
  function Through(at: seq<nat>, of: seq<nat>): (r: seq<nat>)
    requires forall j :: 0 <= j < |at| ==> at[j] < |of|
    ensures |r| == |at|
  { seq(|at|, j requires 0 <= j < |at| => of[at[j]]) }

  lemma InThrough(at: seq<nat>, of: seq<nat>, n: nat)
    requires forall j :: 0 <= j < |at| ==> at[j] < |of|
    requires forall i, j :: 0 <= i < j < |of| ==> of[i] < of[j]
    ensures n in Through(at, of) ==> n in of
    ensures forall j :: 0 <= j < |of| && of[j] == n ==> (n in Through(at, of) <==> j in at)
  {
    forall j | 0 <= j < |of| && of[j] == n ensures n in Through(at, of) <==> j in at {
      if j in at {
        var i :| 0 <= i < |at| && at[i] == j;
        assert Through(at, of)[i] == n;
      }
      if n in Through(at, of) {
        var i :| 0 <= i < |at| && of[at[i]] == n;
        assert at[i] == j;
      }
    }
  }

  lemma StandThrough<E>(members: seq<E>, mid: seq<E>, es: seq<E>, at: seq<nat>, of: seq<nat>)
    requires StandAt(members, mid, at) && StandAt(mid, es, of)
    ensures StandAt(members, es, Through(at, of))
  {}

  // ---------------------------------------------------------------- nothing is lost

  ghost function OfMembers<K, E>(w: E -> int): Group<K, E> -> int { (g: Group<K, E>) => Total(g.members, w) }

  lemma PutAdds<K, E>(gs: seq<Group<K, E>>, k: K, e: E, w: E -> int)
    ensures Total(Put(gs, k, e), OfMembers(w)) == Total(gs, OfMembers(w)) + w(e)
  {
    var i := Place(gs, k);
    if i < |gs| {
      TotalUpdate(gs, i, Group(k, gs[i].members + [e]), OfMembers(w));
      TotalSnoc(gs[i].members, e, w);
    } else {
      TotalSnoc(gs, Group(k, [e]), OfMembers(w));
      TotalSnoc([], e, w);
      assert [] + [e] == [e];
    }
  }

  /** However the members are weighed, the groups weigh together what the sequence weighs. With a weight that singles
      out one value, this counts its occurrences: the groups are a rearrangement of the sequence. */
  lemma {:induction false} GroupsWeighTheSame<K, E>(es: seq<E>, key: E -> K, w: E -> int)
    ensures Total(Groups(es, key), OfMembers(w)) == Total(es, w)
  {
    if es != [] {
      var last := |es| - 1;
      GroupsWeighTheSame(es[..last], key, w);
      PutAdds(Groups(es[..last], key), key(es[last]), es[last], w);
      TotalSnoc(es[..last], es[last], w);
      assert es == es[..last] + [es[last]];
    }
  }

  // ---------------------------------------------------------------- grouping what is grouped

  function Concat<K, E>(gs: seq<Group<K, E>>): seq<E> {
    if gs == [] then [] else Concat(gs[..|gs| - 1]) + gs[|gs| - 1].members
  }

  ghost predicate WellGrouped<K, E>(gs: seq<Group<K, E>>, key: E -> K) {
    && DistinctKeys(gs)
    && forall i :: 0 <= i < |gs| ==> gs[i].members != [] && OneKey(gs[i].members, key, gs[i].key)
  }

  ghost predicate OneKey<K, E>(run: seq<E>, key: E -> K, k: K) { forall j :: 0 <= j < |run| ==> key(run[j]) == k }

  lemma {:induction false} GroupsOfRun<K, E>(es: seq<E>, run: seq<E>, key: E -> K, k: K)
    requires run != [] && OneKey(run, key, k)
    requires Place(Groups(es, key), k) == |Groups(es, key)|
    ensures Groups(es + run, key) == Groups(es, key) + [Group(k, run)]
  {
    var last := |run| - 1;
    var gs, init, e := Groups(es, key), run[..last], run[last];
    assert es + run == (es + init) + [e] && key(e) == k;
    GroupsSnoc(es + init, e, key);
    if last == 0 {
      assert es + init == es && run == [e];
    } else {
      GroupsOfRun(es, init, key, k);
      PutAtEnd(gs, k, init, e);
      assert init + [e] == run;
    }
  }

  lemma PutAtEnd<K, E>(gs: seq<Group<K, E>>, k: K, run: seq<E>, e: E)
    requires Place(gs, k) == |gs|
    ensures Put(gs + [Group(k, run)], k, e) == gs + [Group(k, run + [e])]
  {
    var was := gs + [Group(k, run)];
    assert Place(was, k) == |gs| by { assert was[|gs|].key == k; }
  }

  /** Putting well-grouped members one after another and grouping them again gives the same groups. */
  lemma {:induction false} GroupsOfConcat<K, E>(gs: seq<Group<K, E>>, key: E -> K)
    requires WellGrouped(gs, key)
    ensures Groups(Concat(gs), key) == gs
  {
    if gs != [] {
      var last := |gs| - 1;
      GroupsOfConcat(gs[..last], key);
      assert Place(gs[..last], gs[last].key) == last;
      GroupsOfRun(Concat(gs[..last]), gs[last].members, key, gs[last].key);
      assert gs[last] == Group(gs[last].key, gs[last].members);
      assert gs == gs[..last] + [gs[last]];
    }
  }

  // ---------------------------------------------------------------- the index kept while grouping

  /** `ix` points at the group of every key. */
  ghost predicate Indexed<K, E>(ix: map<K, nat>, gs: seq<Group<K, E>>) {
    && (forall i :: 0 <= i < |gs| ==> gs[i].key in ix && ix[gs[i].key] == i)
    && (forall k :: k in ix ==> ix[k] < |gs| && gs[ix[k]].key == k)
  }

  lemma IndexIsPlace<K, E>(ix: map<K, nat>, gs: seq<Group<K, E>>, k: K)
    requires Indexed(ix, gs)
    ensures Place(gs, k) == if k in ix then ix[k] else |gs|
  {
    var i := Place(gs, k);
    if k in ix {
      assert gs[ix[k]].key == k;
      assert i <= ix[k];
      assert gs[i].key == k;
    }
  }

  lemma IndexAfterPut<K, E>(ix: map<K, nat>, gs: seq<Group<K, E>>, k: K, e: E)
    requires Indexed(ix, gs)
    ensures Indexed(if k in ix then ix else ix[k := |gs|], Put(gs, k, e))
  {
    IndexIsPlace(ix, gs, k);
  }

  function MembersAt<K(==), E>(gs: seq<Group<K, E>>, k: K): seq<E> {
    if Place(gs, k) < |gs| then gs[Place(gs, k)].members else []
  }

  /** What holds of the other groups, and of the group of `k` with `e` in it, holds of all groups after `Put`. */
  lemma HoldsAfterPut<K, E>(gs: seq<Group<K, E>>, k: K, e: E, p: Group<K, E> -> bool)
    requires DistinctKeys(gs)
    requires forall i :: 0 <= i < |gs| && gs[i].key != k ==> p(gs[i])
    requires p(Group(k, MembersAt(gs, k) + [e]))
    ensures forall i :: 0 <= i < |Put(gs, k, e)| ==> p(Put(gs, k, e)[i])
  {
    if Place(gs, k) == |gs| { assert [] + [e] == [e]; }
  }

  function MapGroups<K, E, R>(gs: seq<Group<K, E>>, f: Group<K, E> -> R): (rs: seq<R>)
    ensures |rs| == |gs| && forall i :: 0 <= i < |gs| ==> rs[i] == f(gs[i])
  {
    seq(|gs|, i requires 0 <= i < |gs| => f(gs[i]))
  }

  lemma MapOfOne<K, E, R>(e: E, key: E -> K, f: Group<K, E> -> R)
    ensures MapGroups(Groups([e], key), f) == [f(Group(key(e), [e]))]
  {
    GroupsOfOne(e, key);
  }

  lemma MapAfterPut<K, E, R>(gs: seq<Group<K, E>>, k: K, e: E, f: Group<K, E> -> R)
    ensures var at, was := Place(gs, k), MapGroups(gs, f);
      var r := f(Group(k, MembersAt(gs, k) + [e]));
      MapGroups(Put(gs, k, e), f) == if at < |gs| then was[at := r] else was + [r]
  {
    if Place(gs, k) == |gs| { assert [] + [e] == [e]; }
  }
}
