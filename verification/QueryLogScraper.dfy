/** Scraping a query log in intervals: each interval is scraped once the server clock has passed its end by a delay,
    and the next one starts where the last successful one ended. Times are 32-bit seconds. */
module QueryLogScraper {
  import opened PData
  import opened Sums
  import opened StableGroups

  const TWO32: nat := 0x1_0000_0000

  function Add32(a: nat, b: nat): nat { (a + b) % TWO32 }

  function Sub32(a: nat, b: nat): nat { (a - b) % TWO32 }

  /** A row of the query log; `record` is the log record made of it, None when that fails. */
  datatype Row = Row(hostname: string, eventTime: nat, record: Option<int>)

  datatype HostLogs = HostLogs(hostname: string, records: seq<int>)

  /** What one attempt meets: the server clock (None: the query for it fails), and whether the scrape query and the
      next consumer succeed. */
  datatype Attempt = Attempt(serverTs: Option<nat>, scraped: bool, consumed: bool)

  /** A push that succeeded: the interval, the server clock at the time, and the logs. */
  datatype Push = Push(min: nat, max: nat, at: nat, logs: seq<HostLogs>)

  datatype Config = Config(interval: nat, delay: nat)

  ghost predicate ConfigOk(c: Config) { 0 < c.interval < TWO32 && c.delay < TWO32 }

  // ---------------------------------------------------------------- rows into logs, host by host

  function ByHost(): Row -> string { (r: Row) => r.hostname }

  function IdOf(r: Row): int { if r.record.Some? then r.record.value else 0 }

  function Ids(rs: seq<Row>): (ids: seq<int>)
    ensures |ids| == |rs|
  { seq(|rs|, i requires 0 <= i < |rs| => IdOf(rs[i])) }

  function HostOf(): Group<string, Row> -> HostLogs { (g: Group<string, Row>) => HostLogs(g.key, Ids(g.members)) }

  /** The rows host by host: a group for each host, its rows in order. */
  function ByHosts(rows: seq<Row>): seq<HostLogs> { MapGroups(Groups(rows, ByHost()), HostOf()) }

  predicate Convertible(rows: seq<Row>) { forall i :: 0 <= i < |rows| ==> rows[i].record.Some? }

  method QueryLogsToPlogs(queryLogs: seq<Row>) returns (pl: seq<HostLogs>, ok: bool)
    ensures ok <==> Convertible(queryLogs)
    ensures ok ==> pl == ByHosts(queryLogs)
  {
    pl := [];
    var logsByHost: map<string, nat> := map[];
    for n := 0 to |queryLogs|
      invariant Convertible(queryLogs[..n])
      invariant pl == ByHosts(queryLogs[..n])
      invariant Indexed(logsByHost, Groups(queryLogs[..n], ByHost()))
    {
      if queryLogs[n].record.None? { return pl, false; }
      pl, logsByHost := AddRow(pl, logsByHost, queryLogs[n], queryLogs[..n]);
      assert queryLogs[..n + 1] == queryLogs[..n] + [queryLogs[n]];
    }
    assert queryLogs[..|queryLogs|] == queryLogs;
    ok := true;
  }

  /** One row; the index points at the group of each host. */
  method AddRow(pl: seq<HostLogs>, logsByHost: map<string, nat>, ql: Row, ghost rows: seq<Row>)
    returns (after: seq<HostLogs>, index: map<string, nat>)
    requires ql.record.Some? && pl == ByHosts(rows) && Indexed(logsByHost, Groups(rows, ByHost()))
    ensures after == ByHosts(rows + [ql]) && Indexed(index, Groups(rows + [ql], ByHost()))
  {
    RowAdded(rows, ql);
    IndexIsPlace(logsByHost, Groups(rows, ByHost()), ql.hostname);
    IndexAfterPut(logsByHost, Groups(rows, ByHost()), ql.hostname, ql);
    after, index := pl, logsByHost;
    if ql.hostname !in logsByHost {
      index := index[ql.hostname := |pl|];
      after := after + [HostLogs(ql.hostname, [])];
    }
    var i := index[ql.hostname];
    var records := after[i].records + [ql.record.value];
    after := after[i := after[i].(records := records)];
    assert i == |pl| ==> records == [IdOf(ql)] && after == pl + [HostLogs(ql.hostname, records)];
  }

  lemma RowAdded(rows: seq<Row>, ql: Row)
    ensures var gs, pl := Groups(rows, ByHost()), ByHosts(rows);
      var at := Place(gs, ql.hostname);
      && Groups(rows + [ql], ByHost()) == Put(gs, ql.hostname, ql)
      && |pl| == |gs| && (at < |pl| ==> pl[at].hostname == ql.hostname)
      && ByHosts(rows + [ql]) ==
           if at < |pl| then pl[at := HostLogs(ql.hostname, pl[at].records + [IdOf(ql)])]
           else pl + [HostLogs(ql.hostname, [IdOf(ql)])]
  {
    var gs := Groups(rows, ByHost());
    GroupsSnoc(rows, ql, ByHost());
    MapAfterPut(gs, ql.hostname, ql, HostOf());
    var ms := MembersAt(gs, ql.hostname);
    IdsSnoc(ms, ql);
    assert HostOf()(Group(ql.hostname, ms + [ql])) == HostLogs(ql.hostname, Ids(ms) + [IdOf(ql)]);
    assert Ids([]) + [IdOf(ql)] == [IdOf(ql)];
  }

  lemma IdsSnoc(rs: seq<Row>, r: Row)
    ensures Ids(rs + [r]) == Ids(rs) + [IdOf(r)]
  {}

  // ---------------------------------------------------------------- one attempt

  /** The rows of the table with event times in an interval, in order: what the scrape query selects. */
  function Between(table: seq<Row>, min: nat, max: nat): seq<Row> {
    if table == [] then []
    else
      var last := |table| - 1;
      Between(table[..last], min, max) + if min <= table[last].eventTime < max then [table[last]] else []
  }

  predicate IsReady(c: Config, start: nat, now: nat) { now >= Add32(Add32(start, c.interval), c.delay) }

  predicate Succeeds(c: Config, table: seq<Row>, start: nat, a: Attempt) {
    && a.serverTs.Some? && IsReady(c, start, a.serverTs.value)
    && a.scraped && Convertible(Between(table, start, Add32(start, c.interval))) && a.consumed
  }

  /** The receiver's state: where the next interval starts, and what has been pushed. */
  datatype State = State(start: nat, pushed: seq<Push>)

  function Step(c: Config, table: seq<Row>, s: State, a: Attempt): State {
    if Succeeds(c, table, s.start, a) then
      var end := Add32(s.start, c.interval);
      State(end, s.pushed + [Push(s.start, end, a.serverTs.value, ByHosts(Between(table, s.start, end)))])
    else s
  }

  function Wait(c: Config, table: seq<Row>, s: State, a: Attempt): nat {
    if a.serverTs.None? then c.interval
    else
      var now := a.serverTs.value;
      var next := Add32(Add32(s.start, c.interval), c.delay);
      if now < next then Sub32(next, now)
      else if !Succeeds(c, table, s.start, a) then c.interval
      else
        var after := Add32(Add32(Add32(s.start, c.interval), c.interval), c.delay);
        if after > now then Sub32(after, now) else 0
  }

  class Receiver {
    const c: Config
    const table: seq<Row>
    var nextScrapeIntervalStartTs: nat
    ghost var pushed: seq<Push>

    ghost function Now(): State
      reads this
    { State(nextScrapeIntervalStartTs, pushed) }

    constructor (c: Config, table: seq<Row>, serverTsNow: nat)
      ensures this.c == c && this.table == table && Now() == State(serverTsNow, [])
    {
      this.c, this.table := c, table;
      nextScrapeIntervalStartTs := serverTsNow;
      pushed := [];
    }

    /** `rows` is what the scrape query returned. */
    method ScrapeAndPushQueryLogs(rows: seq<Row>, a: Attempt) returns (pl: seq<HostLogs>, ok: bool)
      ensures ok <==> a.scraped && Convertible(rows) && a.consumed
      ensures ok ==> pl == ByHosts(rows)
    {
      if !a.scraped { return [], false; }
      pl, ok := QueryLogsToPlogs(rows);
      ok := ok && a.consumed;
    }

    method ScrapeQueryLogIfReady(a: Attempt) returns (wait: nat, ok: bool)
      modifies this
      ensures Now() == Step(c, table, old(Now()), a)
      ensures wait == Wait(c, table, old(Now()), a)
      ensures ok <==> a.serverTs.Some? && (IsReady(c, old(nextScrapeIntervalStartTs), a.serverTs.value) ==>
                                           Succeeds(c, table, old(nextScrapeIntervalStartTs), a))
    {
      if a.serverTs.None? { return c.interval, false; }
      var serverTsNow := a.serverTs.value;
      var scrapeIntervalEndTs := Add32(nextScrapeIntervalStartTs, c.interval);
      var minServerTs := Add32(scrapeIntervalEndTs, c.delay);
      if serverTsNow < minServerTs { return Sub32(minServerTs, serverTsNow), true; }
      var rows := Between(table, nextScrapeIntervalStartTs, scrapeIntervalEndTs);
      var pl, pushOk := ScrapeAndPushQueryLogs(rows, a);
      if !pushOk { return c.interval, false; }
      pushed := pushed + [Push(nextScrapeIntervalStartTs, scrapeIntervalEndTs, serverTsNow, pl)];
      nextScrapeIntervalStartTs := scrapeIntervalEndTs;
      var nextScrapeMinServerTs := Add32(Add32(nextScrapeIntervalStartTs, c.interval), c.delay);
      wait := 0;
      if nextScrapeMinServerTs > serverTsNow { wait := Sub32(nextScrapeMinServerTs, serverTsNow); }
      ok := true;
    }
  }

  // ---------------------------------------------------------------- when 32 bits are enough

  /** The comparison means what it should, whatever the clock shows, exactly when the end of the delay still fits in 32
      bits. Where it does not, an attempt goes ahead before the interval has passed. */
  lemma ReadyExactly(c: Config, start: nat)
    requires ConfigOk(c) && start < TWO32
    ensures (forall now :: 0 <= now < TWO32 ==> (IsReady(c, start, now) <==> now >= start + c.interval + c.delay))
       <==> start + c.interval + c.delay < TWO32
  {
    var sum := start + c.interval + c.delay;
    assert Add32(Add32(start, c.interval), c.delay) == sum % TWO32;
    if sum >= TWO32 {
      assert IsReady(c, start, TWO32 - 1);
    }
  }

  /** The clock readings leave room for an interval and a delay. */
  ghost predicate HasRoom(c: Config, a: Attempt) {
    a.serverTs.Some? ==> a.serverTs.value + c.interval + c.delay < TWO32
  }

  // ---------------------------------------------------------------- runs

  ghost function Exec(c: Config, table: seq<Row>, start: nat, run: seq<Attempt>): State {
    if run == [] then State(start, [])
    else Step(c, table, Exec(c, table, start, run[..|run| - 1]), run[|run| - 1])
  }

  /** Every row of the table in an interval has a record. */
  predicate AllRead(table: seq<Row>, min: nat, max: nat) {
    forall n :: 0 <= n < |table| && min <= table[n].eventTime < max ==> table[n].record.Some?
  }

  lemma {:induction false} ReadExactly(table: seq<Row>, min: nat, max: nat)
    ensures Convertible(Between(table, min, max)) <==> AllRead(table, min, max)
  {
    if table != [] {
      var last := |table| - 1;
      var rest := Between(table[..last], min, max);
      ReadExactly(table[..last], min, max);
      if min <= table[last].eventTime < max {
        assert Convertible(rest + [table[last]]) <==> Convertible(rest) && table[last].record.Some? by {
          assert (rest + [table[last]])[|rest|] == table[last];
          assert forall i :: 0 <= i < |rest| ==> (rest + [table[last]])[i] == rest[i];
        }
      } else {
        assert rest + [] == rest;
      }
      assert AllRead(table, min, max) <==>
        AllRead(table[..last], min, max) && (min <= table[last].eventTime < max ==> table[last].record.Some?)
      by { assert forall n :: 0 <= n < last ==> table[..last][n] == table[n]; }
    }
  }

  /** The attempt with unbounded integers: the interval that is due is pushed once its end and the delay are past. */
  predicate IdealSucceeds(c: Config, table: seq<Row>, start: nat, a: Attempt) {
    && a.serverTs.Some? && a.serverTs.value >= start + c.interval + c.delay
    && a.scraped && AllRead(table, start, start + c.interval) && a.consumed
  }

  function IdealPush(c: Config, table: seq<Row>, start: nat, now: nat): Push {
    Push(start, start + c.interval, now, ByHosts(Between(table, start, start + c.interval)))
  }

  function IdealStep(c: Config, table: seq<Row>, s: State, a: Attempt): State {
    if IdealSucceeds(c, table, s.start, a) then
      State(s.start + c.interval, s.pushed + [IdealPush(c, table, s.start, a.serverTs.value)])
    else s
  }

  ghost function IdealExec(c: Config, table: seq<Row>, start: nat, run: seq<Attempt>): State {
    if run == [] then State(start, [])
    else IdealStep(c, table, IdealExec(c, table, start, run[..|run| - 1]), run[|run| - 1])
  }

  /** While the clock leaves room, 32 bits behave as unbounded integers over the whole run. */
  lemma {:induction false} RunsAreIdeal(c: Config, table: seq<Row>, start: nat, run: seq<Attempt>)
    requires ConfigOk(c) && start + c.interval + c.delay < TWO32
    requires forall i :: 0 <= i < |run| ==> HasRoom(c, run[i])
    ensures Exec(c, table, start, run) == IdealExec(c, table, start, run)
    ensures Exec(c, table, start, run).start + c.interval + c.delay < TWO32
  {
    if run != [] {
      var last := |run| - 1;
      RunsAreIdeal(c, table, start, run[..last]);
      StepIsIdeal(c, table, Exec(c, table, start, run[..last]), run[last]);
    }
  }

  lemma StepIsIdeal(c: Config, table: seq<Row>, s: State, a: Attempt)
    requires ConfigOk(c) && s.start + c.interval + c.delay < TWO32 && HasRoom(c, a)
    ensures Step(c, table, s, a) == IdealStep(c, table, s, a)
    ensures Step(c, table, s, a).start + c.interval + c.delay < TWO32
  {
    assert Add32(s.start, c.interval) == s.start + c.interval;
    assert Add32(Add32(s.start, c.interval), c.delay) == s.start + c.interval + c.delay;
    ReadExactly(table, s.start, s.start + c.interval);
  }

  /** The pushed intervals are as long as they should be and follow one another from `start0` to `start` without gap or
      overlap; each was scraped when the clock had passed its end by the delay. */
  ghost predicate Tiles(c: Config, pushed: seq<Push>, start0: nat, start: nat) {
    && (forall k :: 0 <= k < |pushed| ==> pushed[k].max == pushed[k].min + c.interval
                                          && pushed[k].at >= pushed[k].max + c.delay)
    && (forall k :: 0 <= k < |pushed| ==> pushed[k].min == start0 + k * c.interval)
    && start == start0 + |pushed| * c.interval
  }

  /** Gap-free scraping, over every run of successes, failures and attempts that come too early. */
  lemma ScrapesAreGapFree(c: Config, table: seq<Row>, start: nat, run: seq<Attempt>)
    requires ConfigOk(c) && start + c.interval + c.delay < TWO32
    requires forall i :: 0 <= i < |run| ==> HasRoom(c, run[i])
    ensures var s := Exec(c, table, start, run);
      Tiles(c, s.pushed, start, s.start) && CarriesRows(table, s.pushed)
  {
    RunsAreIdeal(c, table, start, run);
    IdealTiles(c, table, start, run);
  }

  /** The records of a host are those of the rows of the table in the interval that are of that host, in order. */
  ghost predicate HostSays(table: seq<Row>, min: nat, max: nat, h: HostLogs, at: seq<nat>) {
    && |at| == |h.records| > 0 && (forall i, j :: 0 <= i < j < |at| ==> at[i] < at[j])
    && (forall j :: 0 <= j < |at| ==> at[j] < |table| && table[at[j]].record == Some(h.records[j]))
    && forall n :: 0 <= n < |table| ==>
         (n in at <==> min <= table[n].eventTime < max && table[n].hostname == h.hostname)
  }

  /** A push carries the rows of its interval: every row has a record there with those of its host, and a host comes
      once. */
  ghost predicate PushSays(table: seq<Row>, push: Push) {
    && (forall i, j :: 0 <= i < j < |push.logs| ==> push.logs[i].hostname != push.logs[j].hostname)
    && (forall i :: 0 <= i < |push.logs| ==> HostIsRight(table, push.min, push.max, push.logs[i]))
    && forall n :: 0 <= n < |table| && push.min <= table[n].eventTime < push.max ==>
         HasHost(push.logs, table[n].hostname)
  }

  ghost predicate HostIsRight(table: seq<Row>, min: nat, max: nat, h: HostLogs) {
    exists at :: HostSays(table, min, max, h, at)
  }

  ghost predicate HasHost(logs: seq<HostLogs>, host: string) {
    exists i :: 0 <= i < |logs| && logs[i].hostname == host
  }

  ghost predicate CarriesRows(table: seq<Row>, pushed: seq<Push>) {
    forall k :: 0 <= k < |pushed| ==> PushSays(table, pushed[k])
  }

  /** Places in the table of the rows of an interval. */
  ghost predicate AreBetween(at: seq<nat>, table: seq<Row>, min: nat, max: nat) {
    forall n :: 0 <= n < |table| ==> (n in at <==> min <= table[n].eventTime < max)
  }

  lemma {:induction false} BetweenStands(table: seq<Row>, min: nat, max: nat) returns (at: seq<nat>)
    ensures StandAt(Between(table, min, max), table, at) && AreBetween(at, table, min, max)
  {
    at := [];
    if table != [] {
      var init, r := table[..|table| - 1], table[|table| - 1];
      at := BetweenStands(init, min, max);
      StandSnoc(Between(init, min, max), init, at, r);
      assert table == init + [r] && |init| !in at;
      at := at + if min <= r.eventTime < max then [|init|] else [];
    }
  }

  lemma HostStands(table: seq<Row>, min: nat, max: nat, i: nat)
    requires AllRead(table, min, max) && i < |ByHosts(Between(table, min, max))|
    ensures HostIsRight(table, min, max, ByHosts(Between(table, min, max))[i])
  {
    var rows := Between(table, min, max);
    var g := Groups(rows, ByHost())[i];
    var of := BetweenStands(table, min, max);
    var at := GroupStands(rows, ByHost(), i);
    var all := Through(at, of);
    forall n | 0 <= n < |table|
      ensures n in all <==> min <= table[n].eventTime < max && table[n].hostname == g.key
    {
      InThrough(at, of, n);
      if n in of {
        var j :| 0 <= j < |of| && of[j] == n;
        assert rows[j] == table[n];
      }
    }
    forall j | 0 <= j < |all| ensures all[j] < |table| && table[all[j]].record == Some(Ids(g.members)[j]) {
      assert g.members[j] == rows[at[j]] == table[of[at[j]]];
      assert of[at[j]] in of;
    }
    assert HostSays(table, min, max, HostLogs(g.key, Ids(g.members)), all);
  }

  lemma HostsDiffer(rows: seq<Row>)
    ensures forall i, j :: 0 <= i < j < |ByHosts(rows)| ==> ByHosts(rows)[i].hostname != ByHosts(rows)[j].hostname
  {
    GroupKeysDistinct(rows, ByHost());
  }

  lemma RowHasHost(table: seq<Row>, min: nat, max: nat, n: nat)
    requires n < |table| && min <= table[n].eventTime < max
    ensures HasHost(ByHosts(Between(table, min, max)), table[n].hostname)
  {
    var rows := Between(table, min, max);
    var of := BetweenStands(table, min, max);
    assert n in of;
    var j :| 0 <= j < |of| && of[j] == n;
    EveryKeyHasAGroup(rows, ByHost(), j);
    assert ByHosts(rows)[Place(Groups(rows, ByHost()), rows[j].hostname)].hostname == table[n].hostname;
  }

  lemma PushedSays(c: Config, table: seq<Row>, start: nat, now: nat)
    requires AllRead(table, start, start + c.interval)
    ensures PushSays(table, IdealPush(c, table, start, now))
  {
    var max := start + c.interval;
    var logs := ByHosts(Between(table, start, max));
    HostsDiffer(Between(table, start, max));
    forall i | 0 <= i < |logs| ensures HostIsRight(table, start, max, logs[i]) {
      HostStands(table, start, max, i);
    }
    forall n | 0 <= n < |table| && start <= table[n].eventTime < max ensures HasHost(logs, table[n].hostname) {
      RowHasHost(table, start, max, n);
    }
  }

  lemma {:induction false} IdealTiles(c: Config, table: seq<Row>, start: nat, run: seq<Attempt>)
    ensures var s := IdealExec(c, table, start, run);
      Tiles(c, s.pushed, start, s.start) && CarriesRows(table, s.pushed)
  {
    if run != [] {
      var last := |run| - 1;
      var s := IdealExec(c, table, start, run[..last]);
      IdealTiles(c, table, start, run[..last]);
      if IdealSucceeds(c, table, s.start, run[last]) {
        var push := IdealPush(c, table, s.start, run[last].serverTs.value);
        TilesSnoc(c, s.pushed, start, s.start, push);
        PushedSays(c, table, s.start, run[last].serverTs.value);
      }
    }
  }

  lemma TilesSnoc(c: Config, pushed: seq<Push>, start0: nat, start: nat, push: Push)
    requires Tiles(c, pushed, start0, start) && push.min == start
    requires push.max == push.min + c.interval && push.at >= push.max + c.delay
    ensures Tiles(c, pushed + [push], start0, start + c.interval)
  {
    NextMultiple(|pushed|, c.interval);
  }

  lemma NextMultiple(n: nat, i: nat)
    ensures (n + 1) * i == n * i + i
  {}

  /** Where the next interval starts after an attempt. */
  function StartAfter(c: Config, table: seq<Row>, start: nat, a: Attempt): nat {
    if IdealSucceeds(c, table, start, a) then start + c.interval else start
  }

  /** The wait is right: after an attempt that was too early or succeeded it is the shortest after which the next
      interval has ended and its delay passed; after one that failed, or found no clock, it is one interval. */
  lemma WaitIsExact(c: Config, table: seq<Row>, s: State, a: Attempt, more: nat)
    requires ConfigOk(c) && s.start + c.interval + c.delay < TWO32 && HasRoom(c, a)
    ensures var wait, due := Wait(c, table, s, a), StartAfter(c, table, s.start, a) + c.interval + c.delay;
      if a.serverTs.Some? && (a.serverTs.value < due || IdealSucceeds(c, table, s.start, a))
      then a.serverTs.value + more >= due <==> more >= wait
      else wait == c.interval
  {
    ReadyAt(c, s.start);
    ReadExactly(table, s.start, s.start + c.interval);
    if a.serverTs.Some? && a.serverTs.value >= s.start + c.interval + c.delay { ReadyAt(c, s.start + c.interval); }
  }

  /** With room in 32 bits the test is the plain comparison. */
  lemma ReadyAt(c: Config, start: nat)
    requires start + c.interval + c.delay < TWO32
    ensures Add32(start, c.interval) == start + c.interval
    ensures Add32(Add32(start, c.interval), c.delay) == start + c.interval + c.delay
  {}

  // ---------------------------------------------------------------- every row once

  ghost function OfHost(w: int -> int): HostLogs -> int { (h: HostLogs) => Total(h.records, w) }

  ghost function OfPush(w: int -> int): Push -> int { (p: Push) => Total(p.logs, OfHost(w)) }

  ghost function OfRow(w: int -> int): Row -> int { (r: Row) => w(IdOf(r)) }

  /** A row in the interval weighs what its record does, any other nothing. */
  ghost function OfRowIn(min: nat, max: nat, w: int -> int): Row -> int {
    (r: Row) => if min <= r.eventTime < max then w(if r.record.Some? then r.record.value else 0) else 0
  }

  /** The pushed logs weigh what the rows of the table from the first start to the present one weigh. */
  ghost predicate Weighed(table: seq<Row>, start0: nat, pushed: seq<Push>, start: nat, w: int -> int) {
    start0 <= start && Total(pushed, OfPush(w)) == Total(table, OfRowIn(start0, start, w))
  }

  /** That is so over every run, however records are weighed: each of those rows has been pushed once, and no other row
      has. */
  lemma EveryRowPushedOnce(c: Config, table: seq<Row>, start: nat, run: seq<Attempt>, w: int -> int)
    requires ConfigOk(c) && start + c.interval + c.delay < TWO32
    requires forall i :: 0 <= i < |run| ==> HasRoom(c, run[i])
    ensures var s := Exec(c, table, start, run); Weighed(table, start, s.pushed, s.start, w)
  {
    RunsAreIdeal(c, table, start, run);
    IdealPushesOnce(c, table, start, run, w);
  }

  /** A push weighs what the rows of its interval weigh. */
  ghost predicate WeighsItsRows(table: seq<Row>, push: Push, w: int -> int) {
    OfPush(w)(push) == Total(table, OfRowIn(push.min, push.max, w))
  }

  lemma PushWeighs(c: Config, table: seq<Row>, start: nat, now: nat, w: int -> int)
    ensures WeighsItsRows(table, IdealPush(c, table, start, now), w)
  {
    LogsWeigh(IdealPush(c, table, start, now), Between(table, start, start + c.interval), w);
    BetweenWeighs(table, start, start + c.interval, w);
  }

  lemma LogsWeigh(push: Push, rows: seq<Row>, w: int -> int)
    requires push.logs == ByHosts(rows)
    ensures OfPush(w)(push) == Total(rows, OfRow(w))
  {
    HostsWeighTheSame(rows, w);
  }

  lemma WeighedSnoc(table: seq<Row>, start0: nat, pushed: seq<Push>, push: Push, w: int -> int)
    requires Weighed(table, start0, pushed, push.min, w) && WeighsItsRows(table, push, w) && push.min <= push.max
    ensures Weighed(table, start0, pushed + [push], push.max, w)
  {
    TotalSnoc(pushed, push, OfPush(w));
    RangesJoin(table, start0, push.min, push.max, w);
  }

  lemma WeighedStep(c: Config, table: seq<Row>, start0: nat, s: State, a: Attempt, w: int -> int)
    requires Weighed(table, start0, s.pushed, s.start, w)
    ensures var t := IdealStep(c, table, s, a); Weighed(table, start0, t.pushed, t.start, w)
  {
    if IdealSucceeds(c, table, s.start, a) {
      PushWeighs(c, table, s.start, a.serverTs.value, w);
      WeighedSnoc(table, start0, s.pushed, IdealPush(c, table, s.start, a.serverTs.value), w);
    }
  }

  lemma {:induction false} IdealPushesOnce(c: Config, table: seq<Row>, start: nat, run: seq<Attempt>, w: int -> int)
    ensures var s := IdealExec(c, table, start, run); Weighed(table, start, s.pushed, s.start, w)
  {
    if run == [] {
      TotalZero(table, OfRowIn(start, start, w));
    } else {
      var last := |run| - 1;
      IdealPushesOnce(c, table, start, run[..last], w);
      WeighedStep(c, table, start, IdealExec(c, table, start, run[..last]), run[last], w);
    }
  }

  lemma HostsWeighTheSame(rows: seq<Row>, w: int -> int)
    ensures Total(ByHosts(rows), OfHost(w)) == Total(rows, OfRow(w))
  {
    var gs := Groups(rows, ByHost());
    forall i | 0 <= i < |gs| ensures OfHost(w)(ByHosts(rows)[i]) == OfMembers(OfRow(w))(gs[i]) {
      SameTotals(gs[i].members, Ids(gs[i].members), OfRow(w), w);
    }
    SameTotals(gs, ByHosts(rows), OfMembers(OfRow(w)), OfHost(w));
    GroupsWeighTheSame(rows, ByHost(), OfRow(w));
  }

  lemma {:induction false} RangesJoin(table: seq<Row>, a: nat, b: nat, c: nat, w: int -> int)
    requires a <= b <= c
    ensures Total(table, OfRowIn(a, c, w)) == Total(table, OfRowIn(a, b, w)) + Total(table, OfRowIn(b, c, w))
  {
    if table != [] { RangesJoin(table[1..], a, b, c, w); }
  }

  lemma RowWeighs(r: Row, min: nat, max: nat, w: int -> int)
    ensures OfRowIn(min, max, w)(r) == if min <= r.eventTime < max then OfRow(w)(r) else 0
  {
    assert IdOf(r) == if r.record.Some? then r.record.value else 0;
  }

  lemma {:induction false} BetweenWeighs(table: seq<Row>, min: nat, max: nat, w: int -> int)
    ensures Total(Between(table, min, max), OfRow(w)) == Total(table, OfRowIn(min, max, w))
  {
    if table != [] {
      var init, r := table[..|table| - 1], table[|table| - 1];
      var rows := Between(init, min, max);
      BetweenWeighs(init, min, max, w);
      TotalSnoc(init, r, OfRowIn(min, max, w));
      RowWeighs(r, min, max, w);
      assert table == init + [r];
      if min <= r.eventTime < max {
        TotalSnoc(rows, r, OfRow(w));
        assert Between(table, min, max) == rows + [r];
      } else {
        assert Between(table, min, max) == rows;
      }
    }
  }
}
