/** What grouping keeps of the entries, and when the whole way from logs to entries and back changes nothing. */
module LogGroupingResults {
  import opened PData
  import opened Sums
  import opened StableGroups
  import opened ValueRoundTrip
  import opened LogRecords
  import opened LogGrouping

  // ---------------------------------------------------------------- no record is lost or made up

  ghost function OfScope(w: Record -> int): ScopeLogs -> int { (sl: ScopeLogs) => Total(sl.records, w) }

  ghost function OfResource(w: Record -> int): ResourceLogs -> int {
    (rl: ResourceLogs) => Total(rl.scopes, OfScope(w))
  }

  ghost function OfEntry(w: Record -> int): Entry -> int { (e: Entry) => w(ConvertInto(e)) }

  /** However records are weighed, the output weighs what the converted entries weigh. With a weight that is one for a
      single record and zero elsewhere this counts its occurrences, so the output is a rearrangement of the input. */
  lemma RecordsAreRearranged(pLogs: seq<ResourceLogs>, entries: seq<Entry>, hash: Hash, w: Record -> int)
    requires IsGrouping(pLogs, entries, hash)
    ensures Total(pLogs, OfResource(w)) == Total(Converted(entries), w)
  {
    var gs := Groups(entries, ByResource(hash));
    forall i | 0 <= i < |gs| ensures OfResource(w)(pLogs[i]) == OfMembers(OfEntry(w))(gs[i]) {
      ScopesWeighTheSame(gs[i].members, w);
    }
    SameTotals(gs, pLogs, OfMembers(OfEntry(w)), OfResource(w));
    GroupsWeighTheSame(entries, ByResource(hash), OfEntry(w));
    SameTotals(entries, Converted(entries), OfEntry(w), w);
  }

  lemma ScopesWeighTheSame(es: seq<Entry>, w: Record -> int)
    ensures Total(ScopesOf(es), OfScope(w)) == Total(es, OfEntry(w))
  {
    var gs := Groups(es, ByScope());
    forall j | 0 <= j < |gs| ensures OfScope(w)(ScopesOf(es)[j]) == OfMembers(OfEntry(w))(gs[j]) {
      SameTotals(gs[j].members, Converted(gs[j].members), OfEntry(w), w);
    }
    SameTotals(gs, ScopesOf(es), OfMembers(OfEntry(w)), OfScope(w));
    GroupsWeighTheSame(es, ByScope(), OfEntry(w));
  }

  // ---------------------------------------------------------------- whose attributes a resource carries

  /** The resource logs that holds the record of entry `n` carries the attributes of that entry. */
  ghost predicate UnderOwnAttributes(pLogs: seq<ResourceLogs>, entries: seq<Entry>, hash: Hash, n: nat)
    requires n < |entries|
  {
    var i := Place(Groups(entries, ByResource(hash)), hash(entries[n].resource));
    i < |pLogs| && pLogs[i].attributes == Attributes(entries[n])
  }

  ghost predicate AlikeIfHashedAlike(e: Entry, f: Entry, hash: Hash) {
    hash(e.resource) == hash(f.resource) ==> Attributes(e) == Attributes(f)
  }

  /** Every entry's record sits under its own resource attributes exactly when entries whose resources hash alike have
      alike attributes; in particular when the hash has no collision among them. */
  lemma AttributesAreOwnExactly(pLogs: seq<ResourceLogs>, entries: seq<Entry>, hash: Hash)
    requires IsGrouping(pLogs, entries, hash)
    ensures (forall n :: 0 <= n < |entries| ==> UnderOwnAttributes(pLogs, entries, hash, n))
       <==> (forall m, n :: 0 <= m < |entries| && 0 <= n < |entries| ==>
               AlikeIfHashedAlike(entries[m], entries[n], hash))
  {
    if forall n :: 0 <= n < |entries| ==> UnderOwnAttributes(pLogs, entries, hash, n) {
      forall m, n | 0 <= m < |entries| && 0 <= n < |entries| ensures AlikeIfHashedAlike(entries[m], entries[n], hash) {
        assert UnderOwnAttributes(pLogs, entries, hash, m) && UnderOwnAttributes(pLogs, entries, hash, n);
      }
    }
    if forall m, n :: 0 <= m < |entries| && 0 <= n < |entries| ==> AlikeIfHashedAlike(entries[m], entries[n], hash) {
      forall n | 0 <= n < |entries| ensures UnderOwnAttributes(pLogs, entries, hash, n) {
        var m := FirstOfGroup(pLogs, entries, hash, n);
        assert AlikeIfHashedAlike(entries[m], entries[n], hash);
      }
    }
  }

  /** The attributes above entry `n` are those of an entry whose resource hashes alike. */
  lemma FirstOfGroup(pLogs: seq<ResourceLogs>, entries: seq<Entry>, hash: Hash, n: nat) returns (m: nat)
    requires IsGrouping(pLogs, entries, hash) && n < |entries|
    ensures m < |entries| && hash(entries[m].resource) == hash(entries[n].resource)
    ensures var i := Place(Groups(entries, ByResource(hash)), hash(entries[n].resource));
      i < |pLogs| && pLogs[i].attributes == Attributes(entries[m])
  {
    EveryKeyHasAGroup(entries, ByResource(hash), n);
    var i := Place(Groups(entries, ByResource(hash)), hash(entries[n].resource));
    MembersAreOwn(entries, ByResource(hash), i);
    m := OwnIsAmong(entries, ByResource(hash), hash(entries[n].resource), 0);
  }

  lemma {:induction false} OwnIsAmong<K, E>(es: seq<E>, key: E -> K, k: K, i: nat) returns (m: nat)
    requires i < |Own(es, key, k)|
    ensures m < |es| && es[m] == Own(es, key, k)[i] && key(es[m]) == k
  {
    m := |es| - 1;
    if i < |Own(es[..m], key, k)| { m := OwnIsAmong(es[..m], key, k, i); }
  }

  // ---------------------------------------------------------------- from logs to entries

  function ScopeEntries(rl: ResourceLogs, sl: ScopeLogs, now: int): (es: seq<Entry>)
    ensures |es| == |sl.records|
  {
    seq(|sl.records|, k requires 0 <= k < |sl.records| => ConvertFrom(sl.records[k], rl.attributes, sl.name, now))
  }

  function Flat<E>(parts: seq<seq<E>>): seq<E> {
    if parts == [] then [] else Flat(parts[..|parts| - 1]) + parts[|parts| - 1]
  }

  function ScopeParts(rl: ResourceLogs, now: int): seq<seq<Entry>> {
    seq(|rl.scopes|, j requires 0 <= j < |rl.scopes| => ScopeEntries(rl, rl.scopes[j], now))
  }

  function ResourceParts(src: seq<ResourceLogs>, now: int): seq<seq<Entry>> {
    seq(|src|, i requires 0 <= i < |src| => Flat(ScopeParts(src[i], now)))
  }

  lemma FlatSnoc<E>(parts: seq<seq<E>>, n: nat)
    requires n < |parts|
    ensures Flat(parts[..n + 1]) == Flat(parts[..n]) + parts[n]
  {
    assert parts[..n + 1][..n] == parts[..n];
  }

  /** Resource by resource, scope by scope, record by record. */
  method PlogToEntries(src: seq<ResourceLogs>, now: int) returns (result: seq<Entry>)
    ensures result == Flat(ResourceParts(src, now))
  {
    result := [];
    for rlIdx := 0 to |src|
      invariant result == Flat(ResourceParts(src, now)[..rlIdx])
    {
      result := AddScopes(src[rlIdx], now, result);
      FlatSnoc(ResourceParts(src, now), rlIdx);
    }
    assert ResourceParts(src, now)[..|src|] == ResourceParts(src, now);
  }

  method AddScopes(resourceLogs: ResourceLogs, now: int, before: seq<Entry>) returns (result: seq<Entry>)
    ensures result == before + Flat(ScopeParts(resourceLogs, now))
  {
    result := before;
    for slIdx := 0 to |resourceLogs.scopes|
      invariant result == before + Flat(ScopeParts(resourceLogs, now)[..slIdx])
    {
      result := AddRecords(resourceLogs, resourceLogs.scopes[slIdx], now, result);
      FlatSnoc(ScopeParts(resourceLogs, now), slIdx);
    }
    assert ScopeParts(resourceLogs, now)[..|resourceLogs.scopes|] == ScopeParts(resourceLogs, now);
  }

  method AddRecords(resourceLogs: ResourceLogs, scopeLogs: ScopeLogs, now: int, before: seq<Entry>)
    returns (result: seq<Entry>)
    ensures result == before + ScopeEntries(resourceLogs, scopeLogs, now)
  {
    result := before;
    for lrIdx := 0 to |scopeLogs.records|
      invariant result == before + ScopeEntries(resourceLogs, scopeLogs, now)[..lrIdx]
    {
      result := result + [ConvertFrom(scopeLogs.records[lrIdx], resourceLogs.attributes, scopeLogs.name, now)];
    }
  }

  /** How many are in the parts before one. */
  function Before<E>(parts: seq<seq<E>>, i: nat): nat
    requires i <= |parts|
  { if i == 0 then 0 else Before(parts, i - 1) + |parts[i - 1]| }

  lemma {:induction false} FlatAt<E>(parts: seq<seq<E>>, i: nat, k: nat)
    requires i < |parts| && k < |parts[i]|
    ensures |Flat(parts)| == Before(parts, |parts|) && Before(parts, i) + k < |Flat(parts)|
    ensures Flat(parts)[Before(parts, i) + k] == parts[i][k]
  {
    var last := |parts| - 1;
    FlatSize(parts);
    FlatSize(parts[..last]);
    if i < last {
      FlatAt(parts[..last], i, k);
      BeforeTake(parts, last, i);
    } else {
      BeforeTake(parts, last, last);
    }
  }

  lemma {:induction false} FlatSize<E>(parts: seq<seq<E>>)
    ensures |Flat(parts)| == Before(parts, |parts|)
  {
    if parts != [] {
      var last := |parts| - 1;
      FlatSize(parts[..last]);
      BeforeTake(parts, last, last);
    }
  }

  lemma {:induction false} BeforeTake<E>(parts: seq<seq<E>>, n: nat, i: nat)
    requires i <= n <= |parts|
    ensures Before(parts[..n], i) == Before(parts, i)
  {
    if i > 0 { BeforeTake(parts, n, i - 1); }
  }

  /** The entry of record `k` of scope `j` of resource `i` stands after those of everything before, and tells of that
      record, the attributes of that resource and the name of that scope. */
  lemma EntryStands(src: seq<ResourceLogs>, now: int, i: nat, j: nat, k: nat) returns (at: nat)
    requires i < |src| && j < |src[i].scopes| && k < |src[i].scopes[j].records|
    ensures at == Before(ResourceParts(src, now), i) + Before(ScopeParts(src[i], now), j) + k
    ensures at < |Flat(ResourceParts(src, now))|
    ensures Flat(ResourceParts(src, now))[at] ==
      ConvertFrom(src[i].scopes[j].records[k], src[i].attributes, src[i].scopes[j].name, now)
  {
    FlatAt(ScopeParts(src[i], now), j, k);
    FlatAt(ResourceParts(src, now), i, Before(ScopeParts(src[i], now), j) + k);
    at := Before(ResourceParts(src, now), i) + Before(ScopeParts(src[i], now), j) + k;
  }

  // ---------------------------------------------------------------- there and back

  /** Logs that are grouped already: resources with different hashes, scopes with different names, nothing empty. */
  ghost predicate IsTidy(src: seq<ResourceLogs>, hash: Hash) {
    && (forall i, j :: 0 <= i < j < |src| ==> ResourceHash(src[i], hash) != ResourceHash(src[j], hash))
    && forall i :: 0 <= i < |src| ==> IsTidyResource(src[i])
  }

  ghost predicate IsTidyResource(rl: ResourceLogs) {
    && rl.scopes != []
    && (forall j :: 0 <= j < |rl.scopes| ==> rl.scopes[j].records != [])
    && (forall j, k :: 0 <= j < k < |rl.scopes| ==> rl.scopes[j].name != rl.scopes[k].name)
  }

  function ResourceHash(rl: ResourceLogs, hash: Hash): int { hash(AsRaw(Map(rl.attributes)).m) }

  /** The resource has nothing but faithful attributes, the scopes nothing but a name, and the records come through the
      conversions unchanged, as RecordRoundTripExactly says when. */
  ghost predicate IsUnchanged(rl: ResourceLogs, now: int) {
    && Faithful(Map(rl.attributes)) && rl.droppedAttributes == 0 && rl.schemaUrl == ""
    && forall j :: 0 <= j < |rl.scopes| ==>
         OnlyNamed(rl.scopes[j]) && Backs(rl.scopes[j].records, now) == rl.scopes[j].records
  }

  /** No version, no attributes, none dropped and no schema: the conversions lose all of these. */
  predicate OnlyNamed(sl: ScopeLogs) {
    sl.version == "" && sl.attributes == map[] && sl.droppedAttributes == 0 && sl.schemaUrl == ""
  }

  function Backs(rs: seq<Record>, now: int): (bs: seq<Record>)
    ensures |bs| == |rs|
  { seq(|rs|, k requires 0 <= k < |rs| => Back(rs[k], now)) }

  /** A resource with its parts converted there and back, in place, and everything else about it and its scopes gone. */
  function Refreshed(rl: ResourceLogs, now: int): ResourceLogs {
    BareResource(Upsert(AsRaw(Map(rl.attributes))).m,
                 seq(|rl.scopes|, j requires 0 <= j < |rl.scopes| =>
                   NamedScope(rl.scopes[j].name, Backs(rl.scopes[j].records, now))))
  }

  lemma RefreshedExactly(rl: ResourceLogs, now: int)
    ensures Refreshed(rl, now) == rl <==> IsUnchanged(rl, now)
  {
    RoundTripExactly(Map(rl.attributes));
    var scopes := Refreshed(rl, now).scopes;
    assert forall j :: 0 <= j < |scopes| ==>
      scopes[j] == NamedScope(rl.scopes[j].name, Backs(rl.scopes[j].records, now));
    assert forall j :: 0 <= j < |scopes| ==> (scopes[j] == rl.scopes[j] <==>
      OnlyNamed(rl.scopes[j]) && Backs(rl.scopes[j].records, now) == rl.scopes[j].records);
    if IsUnchanged(rl, now) { assert scopes == rl.scopes; }
  }

  /** When no operator touches the entries, tidy logs keep their resources, scopes and records in their order; the
      conversions show, and of a scope only the name and of a resource only the attributes are left. */
  lemma TidyLogsKeepTheirShape(src: seq<ResourceLogs>, out: seq<ResourceLogs>, hash: Hash, now: int)
    requires IsTidy(src, hash)
    requires IsGrouping(out, Flat(ResourceParts(src, now)), hash)
    ensures |out| == |src| && forall i :: 0 <= i < |src| ==> out[i] == Refreshed(src[i], now)
  {
    var parts := ResourceParts(src, now);
    var gs := seq(|src|, i requires 0 <= i < |src| => Group(ResourceHash(src[i], hash), parts[i]));
    forall i | 0 <= i < |src|
      ensures parts[i] != [] && OneKey(parts[i], ByResource(hash), gs[i].key)
      ensures ResourceOf()(gs[i]) == Refreshed(src[i], now)
    {
      ResourceComesBack(src[i], hash, now);
    }
    ConcatIsFlat(gs, parts);
    GroupsOfConcat(gs, ByResource(hash));
    assert forall i :: 0 <= i < |src| ==> out[i] == ResourceOf()(gs[i]);
  }

  /** Logs come out of a pipeline without operators as they went in exactly when they are tidy, carry
      nothing that the conversions lose, and all their parts convert back unchanged. */
  lemma UntouchedLogsComeBackExactly(src: seq<ResourceLogs>, out: seq<ResourceLogs>, hash: Hash, now: int)
    requires IsGrouping(out, Flat(ResourceParts(src, now)), hash)
    ensures out == src <==> IsTidy(src, hash) && forall i :: 0 <= i < |src| ==> IsUnchanged(src[i], now)
  {
    if out == src { GroupedLogsAreTidy(src, hash, now); }
    if IsTidy(src, hash) {
      TidyLogsKeepTheirShape(src, out, hash, now);
      forall i | 0 <= i < |src| ensures out[i] == src[i] <==> IsUnchanged(src[i], now) {
        RefreshedExactly(src[i], now);
      }
    }
  }

  /** What grouping gives has distinct scope names, and nothing in it is empty. */
  lemma GroupedIsTidyResource(out: seq<ResourceLogs>, entries: seq<Entry>, hash: Hash, i: nat)
    requires IsGrouping(out, entries, hash) && i < |out|
    ensures IsTidyResource(out[i])
  {
    GroupingIsStable(out, entries, hash);
    MembersAreOwn(entries, ByResource(hash), i);
    var ms := Groups(entries, ByResource(hash))[i].members;
    EveryKeyHasAGroup(ms, ByScope(), 0);
  }

  /** The first entry of a group comes from some resource of the source. */
  lemma FirstComesFrom(src: seq<ResourceLogs>, out: seq<ResourceLogs>, hash: Hash, now: int, i: nat) returns (j: nat)
    requires IsGrouping(out, Flat(ResourceParts(src, now)), hash) && i < |out|
    ensures j < |src| && out[i].attributes == Upsert(AsRaw(Map(src[j].attributes))).m
    ensures Groups(Flat(ResourceParts(src, now)), ByResource(hash))[i].key == ResourceHash(src[j], hash)
  {
    var entries := Flat(ResourceParts(src, now));
    var g := Groups(entries, ByResource(hash))[i];
    MembersAreOwn(entries, ByResource(hash), i);
    var m := OwnIsAmong(entries, ByResource(hash), g.key, 0);
    assert g.members[0] == entries[m];
    assert ResourceParts(src, now)[..|src|] == ResourceParts(src, now);
    j := EntryComesFrom(src, now, |src|, entries[m]);
    AttributesOf(entries[m], src[j].attributes);
  }

  lemma AttributesOf(e: Entry, a: map<string, Value>)
    requires e.resource == AsRaw(Map(a)).m
    ensures Attributes(e) == Upsert(AsRaw(Map(a))).m
  {
    assert RawMap(e.resource) == AsRaw(Map(a));
  }

  lemma {:induction false} EntryComesFrom(src: seq<ResourceLogs>, now: int, n: nat, e: Entry) returns (j: nat)
    requires n <= |src| && e in Flat(ResourceParts(src, now)[..n])
    ensures j < |src| && e.resource == AsRaw(Map(src[j].attributes)).m
  {
    j := n - 1;
    FlatSnoc(ResourceParts(src, now), n - 1);
    if e in Flat(ResourceParts(src, now)[..n - 1]) {
      j := EntryComesFrom(src, now, n - 1, e);
    } else {
      var rl := src[j];
      assert ScopeParts(rl, now)[..|rl.scopes|] == ScopeParts(rl, now);
      FlatOfResource(rl, now, |rl.scopes|, e);
    }
  }

  lemma AttributesSettle(a: map<string, Value>)
    ensures var b := Upsert(AsRaw(Map(a))).m; Upsert(AsRaw(Map(b))).m == b
  {
    OnePassSettles(Map(a));
  }

  lemma GroupedLogsAreTidy(src: seq<ResourceLogs>, hash: Hash, now: int)
    requires IsGrouping(src, Flat(ResourceParts(src, now)), hash)
    ensures IsTidy(src, hash)
  {
    var entries := Flat(ResourceParts(src, now));
    var gs := Groups(entries, ByResource(hash));
    GroupKeysDistinct(entries, ByResource(hash));
    forall i | 0 <= i < |src| ensures IsTidyResource(src[i]) && gs[i].key == ResourceHash(src[i], hash) {
      GroupedIsTidyResource(src, entries, hash, i);
      KeyIsOwnHash(src, hash, now, i);
    }
  }

  lemma KeyIsOwnHash(src: seq<ResourceLogs>, hash: Hash, now: int, i: nat)
    requires IsGrouping(src, Flat(ResourceParts(src, now)), hash) && i < |src|
    ensures Groups(Flat(ResourceParts(src, now)), ByResource(hash))[i].key == ResourceHash(src[i], hash)
  {
    var j := FirstComesFrom(src, src, hash, now, i);
    var k := FirstComesFrom(src, src, hash, now, j);
    AttributesSettle(src[k].attributes);
    assert src[i].attributes == src[j].attributes;
  }

  lemma {:induction false} ConcatIsFlat<K, E>(gs: seq<Group<K, E>>, parts: seq<seq<E>>)
    requires |gs| == |parts| && forall i :: 0 <= i < |gs| ==> gs[i].members == parts[i]
    ensures Concat(gs) == Flat(parts)
  {
    if gs != [] { ConcatIsFlat(gs[..|gs| - 1], parts[..|gs| - 1]); }
  }

  lemma ResourceComesBack(rl: ResourceLogs, hash: Hash, now: int)
    requires IsTidyResource(rl)
    ensures var es := Flat(ScopeParts(rl, now));
      && es != [] && OneKey(es, ByResource(hash), ResourceHash(rl, hash))
      && ResourceOf()(Group(ResourceHash(rl, hash), es)) == Refreshed(rl, now)
  {
    var es := Flat(ScopeParts(rl, now));
    var last := |rl.scopes| - 1;
    FlatSnoc(ScopeParts(rl, now), last);
    assert ScopeParts(rl, now)[..last + 1] == ScopeParts(rl, now);
    assert |ScopeParts(rl, now)[last]| > 0;
    forall k | 0 <= k < |es| ensures es[k].resource == AsRaw(Map(rl.attributes)).m {
      FlatOfResource(rl, now, |rl.scopes|, es[k]);
    }
    ScopesComeBack(rl, now);
    assert AsRaw(Map(rl.attributes)) == RawMap(es[0].resource);
  }

  lemma {:induction false} FlatOfResource(rl: ResourceLogs, now: int, n: nat, e: Entry)
    requires n <= |rl.scopes| && e in Flat(ScopeParts(rl, now)[..n])
    ensures e.resource == AsRaw(Map(rl.attributes)).m
  {
    if n > 0 {
      FlatSnoc(ScopeParts(rl, now), n - 1);
      if e in Flat(ScopeParts(rl, now)[..n - 1]) { FlatOfResource(rl, now, n - 1, e); }
    }
  }

  lemma ScopesComeBack(rl: ResourceLogs, now: int)
    requires IsTidyResource(rl)
    ensures ScopesOf(Flat(ScopeParts(rl, now))) == Refreshed(rl, now).scopes
  {
    var parts := ScopeParts(rl, now);
    var gs := seq(|rl.scopes|, j requires 0 <= j < |rl.scopes| => Group(rl.scopes[j].name, parts[j]));
    forall j | 0 <= j < |gs|
      ensures gs[j].members != [] && OneKey(gs[j].members, ByScope(), gs[j].key)
      ensures ScopeOf()(gs[j]) == Refreshed(rl, now).scopes[j]
    {
      RecordsComeBack(rl, rl.scopes[j], now);
    }
    ConcatIsFlat(gs, parts);
    GroupsOfConcat(gs, ByScope());
  }

  lemma RecordsComeBack(rl: ResourceLogs, sl: ScopeLogs, now: int)
    ensures Converted(ScopeEntries(rl, sl, now)) == Backs(sl.records, now)
    ensures OneKey(ScopeEntries(rl, sl, now), ByScope(), sl.name)
  {
    forall k | 0 <= k < |sl.records|
      ensures ConvertInto(ScopeEntries(rl, sl, now)[k]) == Back(sl.records[k], now)
    {
      ResourceDoesNotMatter(sl.records[k], rl.attributes, sl.name, now);
    }
  }

  lemma ResourceDoesNotMatter(r: Record, resource: map<string, Value>, name: string, now: int)
    ensures ConvertInto(ConvertFrom(r, resource, name, now)) == Back(r, now)
  {}
}
