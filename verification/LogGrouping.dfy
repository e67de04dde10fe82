/** Processed stanza entries grouped back into resource logs and scope logs. */
module LogGrouping {
  import opened PData
  import opened Sums
  import opened StableGroups
  import opened ValueRoundTrip
  import opened LogRecords

  datatype ScopeLogs = ScopeLogs(name: string, version: string, attributes: map<string, Value>, droppedAttributes: nat,
                                 schemaUrl: string, records: seq<Record>)

  datatype ResourceLogs = ResourceLogs(attributes: map<string, Value>, droppedAttributes: nat, schemaUrl: string,
                                       scopes: seq<ScopeLogs>)

  /** Scope logs of which only the name is set. */
  function NamedScope(name: string, records: seq<Record>): ScopeLogs { ScopeLogs(name, "", map[], 0, "", records) }

  /** Resource logs of which only the attributes are set. */
  function BareResource(attributes: map<string, Value>, scopes: seq<ScopeLogs>): ResourceLogs {
    ResourceLogs(attributes, 0, "", scopes)
  }

  /** The resource hash is a parameter: nothing is known of it. */
  type Hash = map<string, Raw> -> int

  function ByResource(hash: Hash): Entry -> int { (e: Entry) => hash(e.resource) }

  function ByScope(): Entry -> string { (e: Entry) => e.scopeName }

  function Attributes(e: Entry): map<string, Value> { Upsert(RawMap(e.resource)).m }

  function Converted(es: seq<Entry>): (rs: seq<Record>)
    ensures |rs| == |es|
  { seq(|es|, i requires 0 <= i < |es| => ConvertInto(es[i])) }

  function ScopeOf(): Group<string, Entry> -> ScopeLogs {
    (g: Group<string, Entry>) => NamedScope(g.key, Converted(g.members))
  }

  function ScopesOf(es: seq<Entry>): seq<ScopeLogs> { MapGroups(Groups(es, ByScope()), ScopeOf()) }

  /** The resource logs of a group: its attributes are those of its first entry. */
  function ResourceOf(): Group<int, Entry> -> ResourceLogs {
    (g: Group<int, Entry>) =>
      BareResource(if g.members == [] then map[] else Attributes(g.members[0]), ScopesOf(g.members))
  }

  /** What grouping gives: the entries grouped by the hash of their resource, each group grouped by scope name. */
  ghost predicate IsGrouping(pLogs: seq<ResourceLogs>, entries: seq<Entry>, hash: Hash) {
    pLogs == MapGroups(Groups(entries, ByResource(hash)), ResourceOf())
  }

  // ---------------------------------------------------------------- the loop with its two index maps

  /** The index map of a resource points into its scopes. */
  ghost predicate Points(byScope: map<int, map<string, nat>>, h: int, es: seq<Entry>) {
    h in byScope && Indexed(byScope[h], Groups(es, ByScope()))
  }

  ghost function PointsInto(byScope: map<int, map<string, nat>>): Group<int, Entry> -> bool {
    (g: Group<int, Entry>) => Points(byScope, g.key, g.members)
  }

  /** Both index maps point where the next entry belongs. */
  ghost predicate IndexesPoint(byHash: map<int, nat>, byScope: map<int, map<string, nat>>, gs: seq<Group<int, Entry>>) {
    Indexed(byHash, gs) && forall i :: 0 <= i < |gs| ==> PointsInto(byScope)(gs[i])
  }

  lemma ConvertedSnoc(es: seq<Entry>, e: Entry)
    ensures Converted(es + [e]) == Converted(es) + [ConvertInto(e)]
  {}

  lemma OneEntryGroup(e: Entry)
    ensures Groups([e], ByScope()) == [Group(e.scopeName, [e])]
    ensures ScopesOf([e]) == [NamedScope(e.scopeName, [ConvertInto(e)])]
  {
    GroupsOfOne(e, ByScope());
    MapOfOne(e, ByScope(), ScopeOf());
    assert ScopeOf()(Group(e.scopeName, [e])) == NamedScope(e.scopeName, Converted([e]));
    assert Converted([e]) == [ConvertInto(e)];
  }

  /** Appends the record of `e` to the scope logs of its name, which are made when there are none. */
  method AddToScopes(scopes: seq<ScopeLogs>, scopeIdx: map<string, nat>, e: Entry, ghost es: seq<Entry>)
    returns (after: seq<ScopeLogs>)
    requires scopes == ScopesOf(es) && Indexed(scopeIdx, Groups(es, ByScope()))
    ensures after == ScopesOf(es + [e])
    ensures Indexed(if e.scopeName in scopeIdx then scopeIdx else scopeIdx[e.scopeName := |scopes|],
                    Groups(es + [e], ByScope()))
  {
    GroupsSnoc(es, e, ByScope());
    IndexIsPlace(scopeIdx, Groups(es, ByScope()), e.scopeName);
    IndexAfterPut(scopeIdx, Groups(es, ByScope()), e.scopeName, e);
    MapAfterPut(Groups(es, ByScope()), e.scopeName, e, ScopeOf());
    ghost var ms := MembersAt(Groups(es, ByScope()), e.scopeName);
    ConvertedSnoc(ms, e);
    assert ScopeOf()(Group(e.scopeName, ms + [e])) == NamedScope(e.scopeName, Converted(ms) + [ConvertInto(e)]);
    if e.scopeName !in scopeIdx {
      after := scopes + [NamedScope(e.scopeName, [ConvertInto(e)])];
      assert Converted([]) + [ConvertInto(e)] == [ConvertInto(e)];
    } else {
      var i := scopeIdx[e.scopeName];
      after := scopes[i := scopes[i].(records := scopes[i].records + [ConvertInto(e)])];
    }
  }

  lemma StillPoint(byHash: map<int, nat>, byScope: map<int, map<string, nat>>, gs: seq<Group<int, Entry>>,
                   h: int, e: Entry, scopeIdx: map<string, nat>)
    requires IndexesPoint(byHash, byScope, gs)
    requires Points(byScope[h := scopeIdx], h, MembersAt(gs, h) + [e])
    ensures IndexesPoint(if h in byHash then byHash else byHash[h := |gs|], byScope[h := scopeIdx], Put(gs, h, e))
  {
    IndexAfterPut(byHash, gs, h, e);
    forall i | 0 <= i < |gs| && gs[i].key != h ensures PointsInto(byScope[h := scopeIdx])(gs[i]) {
      assert PointsInto(byScope)(gs[i]);
    }
    HoldsAfterPut(gs, h, e, PointsInto(byScope[h := scopeIdx]));
  }

  /** One more entry of a resource changes its scopes alone. */
  lemma OneMoreOfResource(h: int, es: seq<Entry>, e: Entry)
    requires es != []
    ensures ResourceOf()(Group(h, es + [e])) == ResourceOf()(Group(h, es)).(scopes := ScopesOf(es + [e]))
  {
    assert (es + [e])[0] == es[0];
  }

  /** One round of the loop. */
  method AddEntry(pLogs: seq<ResourceLogs>, byHash: map<int, nat>, byScope: map<int, map<string, nat>>,
                  e: Entry, resourceId: int, ghost gs: seq<Group<int, Entry>>)
    returns (after: seq<ResourceLogs>, newHash: map<int, nat>, newScope: map<int, map<string, nat>>)
    requires pLogs == MapGroups(gs, ResourceOf()) && IndexesPoint(byHash, byScope, gs)
    requires MembersAt(gs, resourceId) == [] ==> resourceId !in byHash
    ensures after == MapGroups(Put(gs, resourceId, e), ResourceOf())
    ensures IndexesPoint(newHash, newScope, Put(gs, resourceId, e))
  {
    newHash := byHash;
    IndexIsPlace(byHash, gs, resourceId);
    ghost var es := MembersAt(gs, resourceId);
    if resourceId !in byHash {
      newHash := byHash[resourceId := |pLogs|];
      var rl := NewResource(e);
      newScope := byScope[resourceId := map[e.scopeName := 0]];
      after := pLogs + [rl];
      assert es + [e] == [e];
      MapAfterPut(gs, resourceId, e, ResourceOf());
      StillPoint(byHash, byScope, gs, resourceId, e, map[e.scopeName := 0]);
    } else {
      var i := byHash[resourceId];
      assert PointsInto(byScope)(gs[i]);
      var rl, scopeIdx := pLogs[i], byScope[resourceId];
      var scopes := AddToScopes(rl.scopes, scopeIdx, e, es);
      if e.scopeName !in scopeIdx { scopeIdx := scopeIdx[e.scopeName := |rl.scopes|]; }
      newScope := byScope[resourceId := scopeIdx];
      after := pLogs[i := rl.(scopes := scopes)];
      OneMoreOfResource(resourceId, es, e);
      MapAfterPut(gs, resourceId, e, ResourceOf());
      StillPoint(byHash, byScope, gs, resourceId, e, scopeIdx);
    }
  }

  method NewResource(e: Entry) returns (rl: ResourceLogs)
    ensures rl == ResourceOf()(Group(0, [e]))
    ensures Indexed(map[e.scopeName := 0], Groups([e], ByScope()))
  {
    var attributes := UpsertToMap(e.resource);
    rl := BareResource(attributes, [NamedScope(e.scopeName, [ConvertInto(e)])]);
    OneEntryGroup(e);
  }

  /** What the next round finds: a hash without members is not in the index, and the entry goes to its group. */
  lemma OneEntryMore(entries: seq<Entry>, n: nat, hash: Hash, index: map<int, nat>)
    requires n < |entries| && Indexed(index, Groups(entries[..n], ByResource(hash)))
    ensures var gs, h := Groups(entries[..n], ByResource(hash)), hash(entries[n].resource);
      && Groups(entries[..n + 1], ByResource(hash)) == Put(gs, h, entries[n])
      && (MembersAt(gs, h) == [] ==> h !in index)
  {
    var gs, h := Groups(entries[..n], ByResource(hash)), hash(entries[n].resource);
    assert entries[..n + 1] == entries[..n] + [entries[n]];
    GroupsSnoc(entries[..n], entries[n], ByResource(hash));
    IndexIsPlace(index, gs, h);
    if h in index { MembersAreOwn(entries[..n], ByResource(hash), index[h]); }
  }

  method ConvertEntriesToPlogs(entries: seq<Entry>, hash: Hash) returns (pLogs: seq<ResourceLogs>)
    ensures IsGrouping(pLogs, entries, hash)
  {
    var resourceHashToIdx: map<int, nat> := map[];
    var scopeIdxByResource: map<int, map<string, nat>> := map[];
    pLogs := [];
    for n := 0 to |entries|
      invariant IsGrouping(pLogs, entries[..n], hash)
      invariant IndexesPoint(resourceHashToIdx, scopeIdxByResource, Groups(entries[..n], ByResource(hash)))
    {
      var e := entries[n];
      ghost var gs := Groups(entries[..n], ByResource(hash));
      OneEntryMore(entries, n, hash, resourceHashToIdx);
      pLogs, resourceHashToIdx, scopeIdxByResource :=
        AddEntry(pLogs, resourceHashToIdx, scopeIdxByResource, e, hash(e.resource), gs);
    }
    assert entries[..|entries|] == entries;
  }

  // ---------------------------------------------------------------- what grouping promises

  /** Every entry's pair of resource hash and scope name has one scope logs, which holds the records of exactly the
      entries with that pair, in order; no scope logs is empty or there twice. */
  lemma GroupingIsStable(pLogs: seq<ResourceLogs>, entries: seq<Entry>, hash: Hash)
    requires IsGrouping(pLogs, entries, hash)
    ensures var gs := Groups(entries, ByResource(hash));
      && DistinctKeys(gs)
      && (forall e :: e in entries ==> exists i, j :: HasScope(pLogs, i, j, gs, hash(e.resource), e.scopeName))
      && (forall i, j :: 0 <= i < |pLogs| && 0 <= j < |pLogs[i].scopes| ==>
            && pLogs[i].scopes[j].records != []
            && pLogs[i].scopes[j].records ==
                 Converted(Own(Own(entries, ByResource(hash), gs[i].key), ByScope(), pLogs[i].scopes[j].name)))
      && (forall i, j, k :: 0 <= i < |pLogs| && 0 <= j < k < |pLogs[i].scopes| ==>
            pLogs[i].scopes[j].name != pLogs[i].scopes[k].name)
  {
    GroupKeysDistinct(entries, ByResource(hash));
    forall i, j | 0 <= i < |pLogs| && 0 <= j < |pLogs[i].scopes|
      ensures pLogs[i].scopes[j].records != []
      ensures pLogs[i].scopes[j].records == Converted(Own(Own(entries, ByResource(hash),
        Groups(entries, ByResource(hash))[i].key), ByScope(), pLogs[i].scopes[j].name))
    {
      ScopeHoldsOwn(pLogs, entries, hash, i, j);
    }
    forall i, j, k | 0 <= i < |pLogs| && 0 <= j < k < |pLogs[i].scopes|
      ensures pLogs[i].scopes[j].name != pLogs[i].scopes[k].name
    {
      NamesDiffer(Groups(entries, ByResource(hash))[i].members, j, k);
    }
    forall e | e in entries
      ensures exists i, j ::
        HasScope(pLogs, i, j, Groups(entries, ByResource(hash)), hash(e.resource), e.scopeName)
    {
      var i, j := ScopeOfEntry(pLogs, entries, hash, e);
    }
  }

  lemma NamesDiffer(es: seq<Entry>, j: nat, k: nat)
    requires j < k < |ScopesOf(es)|
    ensures ScopesOf(es)[j].name != ScopesOf(es)[k].name
  {
    GroupKeysDistinct(es, ByScope());
  }

  lemma ScopeHoldsOwn(pLogs: seq<ResourceLogs>, entries: seq<Entry>, hash: Hash, i: nat, j: nat)
    requires IsGrouping(pLogs, entries, hash) && i < |pLogs| && j < |pLogs[i].scopes|
    ensures pLogs[i].scopes[j].records != []
    ensures pLogs[i].scopes[j].records == Converted(Own(Own(entries, ByResource(hash),
      Groups(entries, ByResource(hash))[i].key), ByScope(), pLogs[i].scopes[j].name))
  {
    MembersAreOwn(entries, ByResource(hash), i);
    MembersAreOwn(Groups(entries, ByResource(hash))[i].members, ByScope(), j);
  }

  lemma ScopeOfEntry(pLogs: seq<ResourceLogs>, entries: seq<Entry>, hash: Hash, e: Entry) returns (i: nat, j: nat)
    requires IsGrouping(pLogs, entries, hash) && e in entries
    ensures HasScope(pLogs, i, j, Groups(entries, ByResource(hash)), hash(e.resource), e.scopeName)
  {
    var gs := Groups(entries, ByResource(hash));
    var n :| 0 <= n < |entries| && entries[n] == e;
    EveryKeyHasAGroup(entries, ByResource(hash), n);
    i := Place(gs, hash(e.resource));
    MembersAreOwn(entries, ByResource(hash), i);
    OwnHas(entries, ByResource(hash), n);
    j := ScopeOfMember(gs[i].members, e);
  }

  lemma ScopeOfMember(es: seq<Entry>, e: Entry) returns (j: nat)
    requires e in es
    ensures j < |ScopesOf(es)| && ScopesOf(es)[j].name == e.scopeName
  {
    var m :| 0 <= m < |es| && es[m] == e;
    EveryKeyHasAGroup(es, ByScope(), m);
    j := Place(Groups(es, ByScope()), e.scopeName);
  }

  ghost predicate HasScope(pLogs: seq<ResourceLogs>, i: nat, j: nat, gs: seq<Group<int, Entry>>, h: int, name: string) {
    i < |pLogs| && i < |gs| && gs[i].key == h && j < |pLogs[i].scopes| && pLogs[i].scopes[j].name == name
  }

  lemma {:induction false} OwnHas(es: seq<Entry>, key: Entry -> int, n: nat)
    requires n < |es|
    ensures es[n] in Own(es, key, key(es[n]))
  {
    if n < |es| - 1 { OwnHas(es[..|es| - 1], key, n); }
  }

  // ---------------------------------------------------------------- where every entry goes

  predicate Increasing(at: seq<nat>) { forall i, j :: 0 <= i < j < |at| ==> at[i] < at[j] }

  /** Scope logs hold the records of the entries with its name whose resources hash to `h`, which stand at these places,
      and say nothing else. */
  ghost predicate ScopeSays(sl: ScopeLogs, entries: seq<Entry>, hash: Hash, h: int, at: seq<nat>) {
    && sl == ScopeLogs(sl.name, "", map[], 0, "", sl.records) && |at| == |sl.records| > 0 && Increasing(at)
    && (forall k :: 0 <= k < |at| ==> at[k] < |entries| && sl.records[k] == ConvertInto(entries[at[k]]))
    && forall n :: 0 <= n < |entries| ==>
         (n in at <==> hash(entries[n].resource) == h && entries[n].scopeName == sl.name)
  }

  /** The scope logs in the order in which their names appear. */
  ghost predicate ScopesSay(sls: seq<ScopeLogs>, entries: seq<Entry>, hash: Hash, h: int, ats: seq<seq<nat>>) {
    && |ats| == |sls| && (forall j :: 0 <= j < |sls| ==> ScopeSays(sls[j], entries, hash, h, ats[j]))
    && (forall j, k :: 0 <= j < k < |sls| ==> ats[j][0] < ats[k][0])
    && forall n: nat :: n < |entries| && hash(entries[n].resource) == h ==> HasName(sls, entries[n].scopeName)
  }

  ghost predicate HasName(sls: seq<ScopeLogs>, name: string) { exists j :: 0 <= j < |sls| && sls[j].name == name }

  /** Resource logs have the attributes of the first of their entries, which stand at these places. */
  ghost predicate ResourceSays(rl: ResourceLogs, entries: seq<Entry>, hash: Hash, at: seq<nat>) {
    && at != [] && Increasing(at) && (forall k :: 0 <= k < |at| ==> at[k] < |entries|)
    && Becomes(RawMap(entries[at[0]].resource), Map(rl.attributes)) && rl.droppedAttributes == 0 && rl.schemaUrl == ""
    && (forall n :: 0 <= n < |entries| ==>
         (n in at <==> hash(entries[n].resource) == hash(entries[at[0]].resource)))
    && exists ats :: ScopesSay(rl.scopes, entries, hash, hash(entries[at[0]].resource), ats)
  }

  ghost predicate IsAmong(ats: seq<seq<nat>>, n: nat) { exists i :: 0 <= i < |ats| && n in ats[i] }

  /** The resource logs in the order in which their hashes appear. */
  ghost predicate AllSay(pLogs: seq<ResourceLogs>, entries: seq<Entry>, hash: Hash, ats: seq<seq<nat>>) {
    && |ats| == |pLogs| && (forall i :: 0 <= i < |pLogs| ==> ResourceSays(pLogs[i], entries, hash, ats[i]))
    && (forall i, j :: 0 <= i < j < |ats| ==> ats[i][0] < ats[j][0])
    && forall n: nat :: n < |entries| ==> IsAmong(ats, n)
  }

  /** Every entry is in the resource logs of its hash and there in the scope logs of its name, in order. */
  lemma GroupingSays(pLogs: seq<ResourceLogs>, entries: seq<Entry>, hash: Hash)
    requires IsGrouping(pLogs, entries, hash)
    ensures exists ats :: AllSay(pLogs, entries, hash, ats)
  {
    var gs := Groups(entries, ByResource(hash));
    var ats := GroupPlaces(entries, ByResource(hash), |gs|);
    forall i | 0 <= i < |pLogs| ensures ResourceSays(pLogs[i], entries, hash, ats[i]) {
      GroupSays(pLogs, entries, hash, i, ats[i]);
    }
    forall n: nat | n < |entries| ensures IsAmong(ats, n) { EntryIsAmong(entries, hash, ats, n); }
    assert AllSay(pLogs, entries, hash, ats);
  }

  lemma EntryIsAmong(entries: seq<Entry>, hash: Hash, ats: seq<seq<nat>>, n: nat)
    requires var gs := Groups(entries, ByResource(hash));
      |ats| == |gs| && ArePlaces(ats, gs, entries, ByResource(hash))
    requires n < |entries|
    ensures IsAmong(ats, n)
  {
    EveryKeyHasAGroup(entries, ByResource(hash), n);
    var i := Place(Groups(entries, ByResource(hash)), hash(entries[n].resource));
    assert n in ats[i];
  }

  lemma GroupSays(pLogs: seq<ResourceLogs>, entries: seq<Entry>, hash: Hash, i: nat, of: seq<nat>)
    requires IsGrouping(pLogs, entries, hash) && i < |pLogs| && of != []
    requires var g := Groups(entries, ByResource(hash))[i];
      StandAt(g.members, entries, of) && AreAll(of, entries, ByResource(hash), g.key)
    ensures ResourceSays(pLogs[i], entries, hash, of)
  {
    var g := Groups(entries, ByResource(hash))[i];
    UpsertBecomes(RawMap(g.members[0].resource));
    assert of[0] in of && g.members[0] == entries[of[0]];
    var ats := GroupPlaces(g.members, ByScope(), |Groups(g.members, ByScope())|);
    var all := ThroughAll(ats, of);
    ScopesOfGroupSay(entries, hash, g, of, ats, all);
  }

  ghost function ThroughAll(ats: seq<seq<nat>>, of: seq<nat>): (r: seq<seq<nat>>)
    requires forall j, k :: 0 <= j < |ats| && 0 <= k < |ats[j]| ==> ats[j][k] < |of|
    ensures |r| == |ats| && forall j :: 0 <= j < |ats| ==> r[j] == Through(ats[j], of)
  { seq(|ats|, j requires 0 <= j < |ats| => Through(ats[j], of)) }

  lemma ScopesOfGroupSay(entries: seq<Entry>, hash: Hash, g: Group<int, Entry>, of: seq<nat>, ats: seq<seq<nat>>,
                         all: seq<seq<nat>>)
    requires StandAt(g.members, entries, of) && AreAll(of, entries, ByResource(hash), g.key)
    requires var ss := Groups(g.members, ByScope()); |ats| == |ss| && ArePlaces(ats, ss, g.members, ByScope())
    requires |all| == |ats| && forall j :: 0 <= j < |ats| ==> all[j] == Through(ats[j], of)
    ensures ScopesSay(ScopesOf(g.members), entries, hash, g.key, all)
  {
    var sls := ScopesOf(g.members);
    forall j | 0 <= j < |sls| ensures ScopeSays(sls[j], entries, hash, g.key, all[j]) {
      ScopeOfGroupSays(entries, hash, g, of, ats[j], j);
    }
    forall n: nat | n < |entries| && hash(entries[n].resource) == g.key ensures HasName(sls, entries[n].scopeName) {
      EntryHasScope(entries, hash, g, of, n);
    }
  }

  lemma EntryHasScope(entries: seq<Entry>, hash: Hash, g: Group<int, Entry>, of: seq<nat>, n: nat)
    requires StandAt(g.members, entries, of) && AreAll(of, entries, ByResource(hash), g.key)
    requires n < |entries| && hash(entries[n].resource) == g.key
    ensures HasName(ScopesOf(g.members), entries[n].scopeName)
  {
    assert ByResource(hash)(entries[n]) == g.key;
    assert n in of;
    var m :| 0 <= m < |of| && of[m] == n;
    assert g.members[m] in g.members;
    var j := ScopeOfMember(g.members, g.members[m]);
  }

  lemma ScopeOfGroupSays(entries: seq<Entry>, hash: Hash, g: Group<int, Entry>, of: seq<nat>, at: seq<nat>, j: nat)
    requires StandAt(g.members, entries, of) && AreAll(of, entries, ByResource(hash), g.key)
    requires j < |Groups(g.members, ByScope())| && at != []
    requires var s := Groups(g.members, ByScope())[j];
      StandAt(s.members, g.members, at) && AreAll(at, g.members, ByScope(), s.key)
    ensures ScopeSays(ScopesOf(g.members)[j], entries, hash, g.key, Through(at, of))
  {
    var s := Groups(g.members, ByScope())[j];
    StandThrough(s.members, g.members, entries, at, of);
    assert ScopesOf(g.members)[j] == NamedScope(s.key, Converted(s.members));
    forall n | 0 <= n < |entries|
      ensures n in Through(at, of) <==> hash(entries[n].resource) == g.key && entries[n].scopeName == s.key
    {
      InThrough(at, of, n);
      if n in of {
        var m :| 0 <= m < |of| && of[m] == n;
        assert g.members[m] == entries[n];
      }
    }
  }
}
