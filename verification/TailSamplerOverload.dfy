/** Runs of the tail sampler in which a trace is evicted undecided: for which loads there are any, and one in which that
    makes spans go out twice. */
module TailSamplerOverload {
  import opened Sums
  import opened TailSampler
  import opened TailSamplerProof
  import opened TailSamplerDelivery
  import opened TailSamplerEviction

  // ---------------------------------------------------------------- building runs

  /** `ls` leads from `s0` to `s`, and only ids of `ids` arrive. */
  ghost predicate Leads(s0: State, ids: set<TraceID>, ls: seq<Label>, s: State) {
    Runs(s0, ls) && IdsIn(ls, ids) && Exec(s0, ls) == s
  }

  lemma Then(s0: State, ids: set<TraceID>, ls: seq<Label>, s: State, l: Label) returns (ls': seq<Label>, s': State)
    requires Leads(s0, ids, ls, s) && Enabled(s, l) && (l.Arrive? ==> l.id in ids)
    ensures ls' == ls + [l] && s' == Next(s, l) && Leads(s0, ids, ls', s')
  {
    ExecSnoc(s0, ls, l);
    ls', s' := ls + [l], Next(s, l);
  }

  predicate FirstIdle(s: State) { |s.workers| > 0 && s.workers[0] == Idle }

  /** A new trace arrives with the first goroutine and gets as far as the eviction queue. */
  lemma ArriveNew(s0: State, ids: set<TraceID>, ls: seq<Label>, s: State, id: TraceID, sp: multiset<Span>)
    returns (ls': seq<Label>, s': State)
    requires Leads(s0, ids, ls, s) && FirstIdle(s) && id in ids && id !in s.idToTrace
    ensures Leads(s0, ids, ls', s')
    ensures s' == s.(traces := s.traces + [NewTrace(id, sp)], idToTrace := s.idToTrace[id := |s.traces|],
                     pendingIds := s.pendingIds + [id], numTracesOnMap := s.numTracesOnMap + 1,
                     workers := s.workers[0 := ToPost(|s.traces|, id, sp)])
  {
    var h := |s.traces|;
    ls', s' := Then(s0, ids, ls, s, Arrive(0, id, sp));
    assert s'.workers == s.workers[0 := ToBatch(h, id, sp)];
    ls', s' := Then(s0, ids, ls', s', Advance(0));
    assert s'.workers == s.workers[0 := ToCount(h, id, sp)];
    ls', s' := Then(s0, ids, ls', s', Advance(0));
    assert s'.workers == s.workers[0 := ToPost(h, id, sp)];
  }

  /** The queue is full, and the goroutine takes the oldest id off it and is about to drop its trace. */
  lemma PopOldest(s0: State, ids: set<TraceID>, ls: seq<Label>, s: State, h: nat, id: TraceID, sp: multiset<Span>)
    returns (ls': seq<Label>, s': State)
    requires Leads(s0, ids, ls, s) && |s.workers| > 0 && s.workers[0] == ToPost(h, id, sp)
    requires s.deleteChan != [] && |s.deleteChan| >= s.maxNumTraces
    ensures Leads(s0, ids, ls', s')
    ensures s' == s.(deleteChan := s.deleteChan[1..], workers := s.workers[0 := ToDrop(h, id, sp, s.deleteChan[0])])
  {
    ls', s' := Then(s0, ids, ls, s, Advance(0));
    assert s'.workers == s.workers[0 := ToPop(h, id, sp)];
    ls', s' := Then(s0, ids, ls', s', Advance(0));
    assert s'.workers == s.workers[0 := ToDrop(h, id, sp, s.deleteChan[0])];
  }

  /** The oldest trace makes room. */
  lemma EvictOne(s0: State, ids: set<TraceID>, ls: seq<Label>, s: State, h: nat, id: TraceID, sp: multiset<Span>)
    returns (ls': seq<Label>, s': State)
    requires Leads(s0, ids, ls, s) && |s.workers| > 0 && s.workers[0] == ToPost(h, id, sp)
    requires s.deleteChan != [] && |s.deleteChan| >= s.maxNumTraces && s.deleteChan[0] in s.idToTrace
    ensures Leads(s0, ids, ls', s')
    ensures s' == s.(idToTrace := s.idToTrace - {s.deleteChan[0]}, deleteChan := s.deleteChan[1..],
                     numTracesOnMap := s.numTracesOnMap - 1)
  {
    ls', s' := PopOldest(s0, ids, ls, s, h, id, sp);
    ls', s' := Then(s0, ids, ls', s', Advance(0));
    assert s'.workers == s.workers[0 := ToUncount(h, id, sp)];
    ls', s' := Then(s0, ids, ls', s', Advance(0));
    assert s'.workers == s.workers;
  }

  /** The id is queued and the spans are stored with the trace. */
  lemma PostAndStore(s0: State, ids: set<TraceID>, ls: seq<Label>, s: State, h: nat, id: TraceID, sp: multiset<Span>)
    returns (ls': seq<Label>, s': State)
    requires Leads(s0, ids, ls, s) && |s.workers| > 0 && s.workers[0] == ToPost(h, id, sp)
    requires |s.deleteChan| < s.maxNumTraces && h < |s.traces| && s.traces[h] == NewTrace(id, sp)
    ensures Leads(s0, ids, ls', s')
    ensures s' == s.(deleteChan := s.deleteChan + [id], workers := s.workers[0 := Idle],
                     traces := s.traces[h := NewTrace(id, sp).(received := sp)])
  {
    ls', s' := Then(s0, ids, ls, s, Advance(0));
    assert s'.workers == s.workers[0 := AtLock(h, sp)];
    ls', s' := Then(s0, ids, ls', s', Advance(0));
    assert multiset{} + sp == sp;
  }

  // ---------------------------------------------------------------- which loads are safe

  /** Every id in the queue is an undecided trace, and no other id is on the table. */
  ghost predicate Filling(s: State, ids: set<TraceID>) {
    && FirstIdle(s) && s.idToTrace.Keys <= ids && |s.idToTrace| == |s.deleteChan|
    && forall i :: 0 <= i < |s.deleteChan| ==> Undecided(s, s.deleteChan[i])
  }

  lemma FreshId(known: set<TraceID>, ids: set<TraceID>) returns (id: TraceID)
    requires |known| < |ids|
    ensures id in ids && id !in known
  {
    if ids <= known { SubsetSize(ids, known); }
    id :| id in ids && id !in known;
  }

  /** One trace more arrives and is stored undecided. */
  lemma AddOne(s0: State, ids: set<TraceID>, ls: seq<Label>, s: State) returns (ls': seq<Label>, s': State)
    requires Leads(s0, ids, ls, s) && Filling(s, ids) && |s.deleteChan| < s.maxNumTraces < |ids|
    ensures Leads(s0, ids, ls', s') && Filling(s', ids)
    ensures |s'.deleteChan| == |s.deleteChan| + 1 && s'.maxNumTraces == s.maxNumTraces
  {
    assert |s.idToTrace.Keys| == |s.idToTrace|;
    var id := FreshId(s.idToTrace.Keys, ids);
    ls', s' := ArriveNew(s0, ids, ls, s, id, multiset{});
    ls', s' := PostAndStore(s0, ids, ls', s', |s.traces|, id, multiset{});
    SizeAfterAdd(s.idToTrace, id, |s.traces|);
  }

  lemma {:induction false} FillTable(s0: State, ids: set<TraceID>, ls: seq<Label>, s: State)
    returns (ls': seq<Label>, s': State)
    requires Leads(s0, ids, ls, s) && Filling(s, ids) && |s.deleteChan| <= s.maxNumTraces < |ids|
    ensures Leads(s0, ids, ls', s') && Filling(s', ids)
    ensures |s'.deleteChan| == s'.maxNumTraces == s.maxNumTraces
    decreases s.maxNumTraces - |s.deleteChan|
  {
    ls', s' := ls, s;
    if |s.deleteChan| < s.maxNumTraces {
      ls', s' := AddOne(s0, ids, ls, s);
      ls', s' := FillTable(s0, ids, ls', s');
    }
  }

  lemma {:induction false} LastIsKept(s: State, ls: seq<Label>, l: Label, x: TraceID)
    requires Runs(s, ls + [l]) && RunKeeps(s, ls + [l], x)
    ensures Runs(s, ls) && Enabled(Exec(s, ls), l) && Keeps(Exec(s, ls), l, x)
    decreases |ls|
  {
    if ls == [] {
      assert ([] + [l])[0] == l;
    } else {
      assert (ls + [l])[0] == ls[0] && (ls + [l])[1..] == ls[1..] + [l];
      LastIsKept(Next(s, ls[0]), ls[1..], l, x);
    }
  }

  /** With more different traces than the table is configured for, some run evicts one that is undecided. */
  lemma ManyTracesCanBeEvicted(maxNumTraces: nat, numBatches: nat, numWorkers: nat, ids: set<TraceID>)
    returns (ls: seq<Label>, x: TraceID)
    requires maxNumTraces >= 1 && numWorkers >= 1 && |ids| > maxNumTraces
    ensures var s0 := Init(maxNumTraces, numBatches, numWorkers);
      Runs(s0, ls) && IdsIn(ls, ids) && !RunKeeps(s0, ls, x)
  {
    var s0 := Init(maxNumTraces, numBatches, numWorkers);
    var s;
    ls, s := FillTable(s0, ids, [], s0);
    x := s.deleteChan[0];
    assert Undecided(s, x) && |s.idToTrace.Keys| == |s.idToTrace|;
    var h := |s.traces|;
    var id := FreshId(s.idToTrace.Keys, ids);
    ls, s := ArriveNew(s0, ids, ls, s, id, multiset{});
    ls, s := PopOldest(s0, ids, ls, s, h, id, multiset{});
    assert Undecided(s, x) && !Keeps(s, Advance(0), x);
    var before := ls;
    ls, s := Then(s0, ids, ls, s, Advance(0));
    if RunKeeps(s0, ls, x) { LastIsKept(s0, before, Advance(0), x); }
  }

  /** The proviso of exactly-once delivery holds for every trace in every run over the ids exactly when there are no
      more of them than the table is configured for. */
  lemma LoadIsSafeExactly(maxNumTraces: nat, numBatches: nat, numWorkers: nat, ids: set<TraceID>)
    requires maxNumTraces >= 1 && numWorkers >= 1
    ensures var s0 := Init(maxNumTraces, numBatches, numWorkers);
      (forall ls, x :: Runs(s0, ls) && IdsIn(ls, ids) ==> RunKeeps(s0, ls, x)) <==> |ids| <= maxNumTraces
  {
    var s0 := Init(maxNumTraces, numBatches, numWorkers);
    if |ids| <= maxNumTraces {
      forall ls, x | Runs(s0, ls) && IdsIn(ls, ids) ensures RunKeeps(s0, ls, x) {
        FewTracesAreNeverEvicted(maxNumTraces, numBatches, numWorkers, ls, ids, x);
      }
    } else {
      var ls, x := ManyTracesCanBeEvicted(maxNumTraces, numBatches, numWorkers, ids);
    }
  }

  // ---------------------------------------------------------------- an entry forwarded twice

  /** A sampler for one trace with one goroutine. */
  const SMALL: State := Init(1, 1, 1)

  const TWO_IDS: set<TraceID> := {7, 8}

  /** One tick step that decides the trace with pointer `h` as sampled and forwards what it holds. */
  lemma TickOne(s0: State, ids: set<TraceID>, ls: seq<Label>, s: State, id: TraceID, h: nat)
    returns (ls': seq<Label>, s': State)
    requires Leads(s0, ids, ls, s) && s.ticker.Batch? && s.ticker.rest != [] && s.ticker.rest[0] == id
    requires id in s.idToTrace && s.idToTrace[id] == h && h < |s.traces|
    ensures Leads(s0, ids, ls', s')
    ensures var t := s.traces[h];
      s' == s.(ticker := Batch(s.ticker.rest[1..]),
               traces := s.traces[h := t.(decision := Sampled, forwarded := t.forwarded + t.received)])
  {
    ls', s' := Then(s0, ids, ls, s, LoadNext);
    ls', s' := Then(s0, ids, ls', s', Decide([]));
    ls', s' := Then(s0, ids, ls', s', ForwardSampled);
  }

  /** Trace 7, then trace 8, which evicts it. */
  lemma ArriveTwo() returns (ls: seq<Label>, s: State)
    ensures Leads(SMALL, TWO_IDS, ls, s) && s.workers == [Idle] && s.ticker == Waiting
    ensures s.maxNumTraces == 1 && s.numTracesOnMap == 1
    ensures s.traces == [Held(7, 1), Held(8, 2)] && s.idToTrace == map[8 := 1] && s.deleteChan == [8]
    ensures s.pendingIds == [7, 8] && s.currentBatch == [] && s.batches == [[]]
  {
    ls, s := [], SMALL;
    assert s.workers == [Idle] && s.batches == [[]];
    ls, s := ArriveNew(SMALL, TWO_IDS, ls, s, 7, multiset{1});
    ls, s := PostAndStore(SMALL, TWO_IDS, ls, s, 0, 7, multiset{1});
    assert s.traces == [Held(7, 1)] && s.idToTrace == map[7 := 0] && s.pendingIds == [7];
    ls, s := ArriveNew(SMALL, TWO_IDS, ls, s, 8, multiset{2});
    ls, s := EvictOne(SMALL, TWO_IDS, ls, s, 1, 8, multiset{2});
    ls, s := PostAndStore(SMALL, TWO_IDS, ls, s, 1, 8, multiset{2});
    assert s.traces == [Held(7, 1), Held(8, 2)];
  }

  /** And trace 7 again, which evicts trace 8. */
  lemma ArriveThree() returns (ls: seq<Label>, s: State)
    ensures Leads(SMALL, TWO_IDS, ls, s) && s.workers == [Idle] && s.ticker == Waiting
    ensures s.traces == [Held(7, 1), Held(8, 2), Held(7, 3)] && s.idToTrace == map[7 := 2]
    ensures s.pendingIds == [7, 8, 7] && s.currentBatch == [] && s.batches == [[]]
  {
    ls, s := ArriveTwo();
    ls, s := ArriveNew(SMALL, TWO_IDS, ls, s, 7, multiset{3});
    ls, s := EvictOne(SMALL, TWO_IDS, ls, s, 2, 7, multiset{3});
    ls, s := PostAndStore(SMALL, TWO_IDS, ls, s, 2, 7, multiset{3});
    assert s.traces == [Held(7, 1), Held(8, 2), Held(7, 3)];
  }

  function Held(id: TraceID, x: Span): Trace { NewTrace(id, multiset{x}).(received := multiset{x}) }

  /** The batch with the three ids comes to the front. */
  lemma TakeThree(s0: State, ids: set<TraceID>, ls: seq<Label>, s: State) returns (ls': seq<Label>, s': State)
    requires Leads(s0, ids, ls, s) && s.ticker == Waiting
    requires |s.pendingIds| == 3 && s.currentBatch == [] && s.batches == [[]]
    ensures Leads(s0, ids, ls', s')
    ensures s'.ticker == Batch(s.pendingIds)
    ensures s'.traces == s.traces && s'.idToTrace == s.idToTrace && s'.workers == s.workers
  {
    ls', s' := FillThree(s0, ids, ls, s);
    ls', s' := Then(s0, ids, ls', s', TakeBatch);
    ls', s' := Then(s0, ids, ls', s', EndTick);
    ls', s' := Then(s0, ids, ls', s', TakeBatch);
  }

  /** A trace that is evicted undecided and arrives again is in two decision batches. Here the table holds one trace:
      the spans of trace 7 that arrived first are never forwarded, those that came after the eviction twice. */
  lemma EvictedUndecidedIsForwardedTwice() returns (ls: seq<Label>, s: State)
    ensures Leads(SMALL, TWO_IDS, ls, s) && Quiet(s) && |s.traces| == 3
    ensures s.traces[0].id == 7 && s.traces[0].arrived == multiset{1} && s.traces[0].forwarded == multiset{}
    ensures s.traces[2].id == 7 && s.traces[2].arrived == multiset{3} && s.traces[2].forwarded == multiset{3, 3}
  {
    ls, s := ArriveThree();
    ls, s := TakeThree(SMALL, TWO_IDS, ls, s);
    ls, s := TickOne(SMALL, TWO_IDS, ls, s, 7, 2);
    ls, s := Then(SMALL, TWO_IDS, ls, s, LoadNext);
    assert s.ticker == Batch([7]);
    ls, s := TickOne(SMALL, TWO_IDS, ls, s, 7, 2);
    assert multiset{} + multiset{3} + multiset{3} == multiset{3, 3};
  }

  lemma FillThree(s0: State, ids: set<TraceID>, ls: seq<Label>, s: State) returns (ls': seq<Label>, s': State)
    requires Leads(s0, ids, ls, s) && |s.pendingIds| == 3 && s.currentBatch == []
    ensures Leads(s0, ids, ls', s') && s' == s.(pendingIds := [], currentBatch := s.pendingIds)
  {
    ls', s' := Then(s0, ids, ls, s, FillBatch);
    ls', s' := Then(s0, ids, ls', s', FillBatch);
    ls', s' := Then(s0, ids, ls', s', FillBatch);
    assert s'.currentBatch == s.pendingIds && s'.pendingIds == [];
  }
}
