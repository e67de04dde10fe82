/** Invariants of the tail sampler over every interleaving. */
module TailSamplerProof {
  import opened Sums
  import opened TailSampler

  // ---------------------------------------------------------------- queues of ids

  /** How often `x` occurs in a queue. */
  ghost function Occ(q: seq<TraceID>, x: TraceID): nat {
    if q == [] then 0 else One(q[0] == x) + Occ(q[1..], x)
  }

  lemma {:induction false} OccAppend(q: seq<TraceID>, id: TraceID, x: TraceID)
    ensures Occ(q + [id], x) == Occ(q, x) + One(id == x)
  {
    if q != [] {
      assert (q + [id])[1..] == q[1..] + [id];
      OccAppend(q[1..], id, x);
    }
  }

  // ---------------------------------------------------------------- the trace table and the eviction queue

  predicate Registering(w: Worker) { w.ToBatch? || w.ToCount? || w.ToPost? || w.ToPop? || w.ToDrop? || w.ToUncount? }

  /** How often a goroutine answers for id `x`: as the one it is about to queue or the one it is about to drop. */
  function Answers(w: Worker, x: TraceID): nat {
    One(Registering(w) && w.id == x) + One(w.ToDrop? && w.victim == x)
  }

  ghost function HoldsId(x: TraceID): Worker -> int { (w: Worker) => Answers(w, x) }

  /** How far the counter lags behind the table because of a goroutine between the two updates. */
  function LagOf(w: Worker): int { One(w.ToBatch? || w.ToCount?) - One(w.ToUncount?) }

  ghost const Lag: Worker -> int := (w: Worker) => LagOf(w)

  ghost predicate Counted(s: State) { s.numTracesOnMap == |s.idToTrace| - Total(s.workers, Lag) }

  ghost predicate RefsOk(s: State) {
    && (forall id :: id in s.idToTrace ==> s.idToTrace[id] < |s.traces| && s.traces[s.idToTrace[id]].id == id)
    && (forall i :: 0 <= i < |s.workers| ==> s.workers[i].Idle? || s.workers[i].h < |s.traces|)
    && (s.ticker.Evaluating? || s.ticker.Forwarding? ==> s.ticker.h < |s.traces|)
    && (s.ticker.Evaluating? ==> s.traces[s.ticker.h].id == s.ticker.id)
  }

  /** `x` is in the eviction queue or in the hands of one goroutine, once in all, exactly when it is in the table. */
  ghost predicate Indexed(s: State, x: TraceID) {
    Occ(s.deleteChan, x) + Total(s.workers, HoldsId(x)) == One(x in s.idToTrace)
  }

  ghost predicate IndexOk(s: State) {
    && (forall x :: Indexed(s, x))
    && |s.deleteChan| <= s.maxNumTraces
    && Counted(s)
  }

  lemma RefsStep(s: State, l: Label)
    requires RefsOk(s) && Enabled(s, l)
    ensures RefsOk(Next(s, l))
  {
    match l
    case Arrive(_, _, _) =>
    case Advance(w) => RefsAdvance(s, w);
    case Decide(_) =>
    case ForwardSampled =>
    case _ =>
  }

  lemma RefsAdvance(s: State, w: nat)
    requires RefsOk(s) && Enabled(s, Advance(w))
    ensures RefsOk(Advanced(s, w))
  {
    match s.workers[w]
    case ToDrop(_, _, _, _) =>
    case AtLock(_, _) =>
    case Late(_, _) =>
    case _ =>
  }

  /** A goroutine that pops an id from the queue always finds it in the table. */
  lemma DroppedIdIsOnTable(s: State, w: nat)
    requires IndexOk(s) && w < |s.workers| && s.workers[w].ToDrop?
    ensures s.workers[w].victim in s.idToTrace
  {
    var x := s.workers[w].victim;
    TotalAtLeast(s.workers, w, HoldsId(x));
    assert Indexed(s, x);
  }

  lemma SizeAfterAdd(m: map<TraceID, nat>, id: TraceID, h: nat)
    requires id !in m
    ensures |m[id := h]| == |m| + 1
  {
    assert m[id := h].Keys == m.Keys + {id};
    assert |m[id := h].Keys| == |m| + 1;
  }

  lemma SizeAfterRemove(m: map<TraceID, nat>, id: TraceID)
    requires id in m
    ensures |m - {id}| == |m| - 1
  {
    assert (m - {id}).Keys == m.Keys - {id};
    assert |(m - {id}).Keys| == |m| - 1;
  }

  lemma IndexArrive(s: State, w: nat, id: TraceID, spans: multiset<Span>)
    requires RefsOk(s) && IndexOk(s) && Enabled(s, Arrive(w, id, spans))
    ensures IndexOk(Arrived(s, w, id, spans))
  {
    var s' := Arrived(s, w, id, spans);
    var pc := s'.workers[w];
    forall x ensures Indexed(s', x) {
      assert Indexed(s, x);
      TotalUpdate(s.workers, w, pc, HoldsId(x));
    }
    TotalUpdate(s.workers, w, pc, Lag);
    if id !in s.idToTrace { SizeAfterAdd(s.idToTrace, id, |s.traces|); }
  }

  /** A change of one goroutine keeps `x` indexed when what it stops and starts answering for balances. */
  lemma IndexedBalance(s: State, s': State, w: nat, x: TraceID)
    requires Indexed(s, x) && w < |s.workers| == |s'.workers|
    requires s'.workers == s.workers[w := s'.workers[w]]
    requires Occ(s'.deleteChan, x) + Answers(s'.workers[w], x) - One(x in s'.idToTrace)
          == Occ(s.deleteChan, x) + Answers(s.workers[w], x) - One(x in s.idToTrace)
    ensures Indexed(s', x)
  {
    TotalUpdate(s.workers, w, s'.workers[w], HoldsId(x));
  }

  lemma IndexedAdvance(s: State, w: nat, x: TraceID)
    requires Enabled(s, Advance(w)) && Indexed(s, x)
    requires s.workers[w].ToDrop? ==> s.workers[w].victim in s.idToTrace
    ensures Indexed(Advanced(s, w), x)
  {
    AnswersAdvance(s, w, x);
    IndexedBalance(s, Advanced(s, w), w, x);
  }

  /** What a step takes from the queue or the table the goroutine answers for, and the other way round. */
  lemma AnswersAdvance(s: State, w: nat, x: TraceID)
    requires Enabled(s, Advance(w))
    requires s.workers[w].ToDrop? ==> s.workers[w].victim in s.idToTrace
    ensures var e := Effect(s, w);
      Occ(e.deleteChan, x) + Answers(NextPc(s, w), x) - One(x in e.idToTrace)
        == Occ(s.deleteChan, x) + Answers(s.workers[w], x) - One(x in s.idToTrace)
  {
    var pc := s.workers[w];
    if pc.ToPost? && |s.deleteChan| < s.maxNumTraces { OccAppend(s.deleteChan, pc.id, x); }
  }

  lemma CountedBalance(s: State, s': State, w: nat)
    requires Counted(s) && w < |s.workers| == |s'.workers|
    requires s'.workers == s.workers[w := s'.workers[w]]
    requires s'.numTracesOnMap - |s'.idToTrace| + LagOf(s'.workers[w])
          == s.numTracesOnMap - |s.idToTrace| + LagOf(s.workers[w])
    ensures Counted(s')
  {
    TotalUpdate(s.workers, w, s'.workers[w], Lag);
  }

  lemma CountedAdvance(s: State, w: nat)
    requires Enabled(s, Advance(w)) && Counted(s)
    requires s.workers[w].ToDrop? ==> s.workers[w].victim in s.idToTrace
    ensures Counted(Advanced(s, w))
  {
    if s.workers[w].ToDrop? { SizeAfterRemove(s.idToTrace, s.workers[w].victim); }
    CountedBalance(s, Advanced(s, w), w);
  }

  lemma IndexAdvance(s: State, w: nat)
    requires RefsOk(s) && IndexOk(s) && Enabled(s, Advance(w))
    ensures IndexOk(Advanced(s, w))
  {
    if s.workers[w].ToDrop? { DroppedIdIsOnTable(s, w); }
    forall x ensures Indexed(Advanced(s, w), x) {
      assert Indexed(s, x);
      IndexedAdvance(s, w, x);
    }
    CountedAdvance(s, w);
    ChannelBounded(s, w);
  }

  lemma ChannelBounded(s: State, w: nat)
    requires Enabled(s, Advance(w)) && |s.deleteChan| <= s.maxNumTraces
    ensures |Advanced(s, w).deleteChan| <= Advanced(s, w).maxNumTraces
  {}

  lemma IndexStep(s: State, l: Label)
    requires RefsOk(s) && IndexOk(s) && Enabled(s, l)
    ensures IndexOk(Next(s, l))
  {
    match l
    case Arrive(w, id, spans) => IndexArrive(s, w, id, spans);
    case Advance(w) => IndexAdvance(s, w);
    case _ =>
      var s' := Next(s, l);
      forall x ensures Indexed(s', x) { assert Indexed(s, x); }
  }

  lemma {:induction false} InitIndex(maxNumTraces: nat, numBatches: nat, numWorkers: nat)
    ensures var s := Init(maxNumTraces, numBatches, numWorkers); RefsOk(s) && IndexOk(s)
  {
    var s := Init(maxNumTraces, numBatches, numWorkers);
    forall x ensures Indexed(s, x) { TotalZero(s.workers, HoldsId(x)); }
    TotalZero(s.workers, Lag);
  }

  lemma {:induction false} IndexAlways(s: State, ls: seq<Label>)
    requires RefsOk(s) && IndexOk(s) && Runs(s, ls)
    ensures RefsOk(Exec(s, ls)) && IndexOk(Exec(s, ls))
    decreases |ls|
  {
    if ls != [] {
      RefsStep(s, ls[0]);
      IndexStep(s, ls[0]);
      IndexAlways(Next(s, ls[0]), ls[1..]);
    }
  }

  /** Labels executed in a row from the initial state, one more at the end. */
  lemma {:induction false} ExecSnoc(s: State, ls: seq<Label>, l: Label)
    requires Runs(s, ls) && Enabled(Exec(s, ls), l)
    ensures Runs(s, ls + [l]) && Exec(s, ls + [l]) == Next(Exec(s, ls), l)
    decreases |ls|
  {
    if ls == [] {
      assert [l][1..] == [];
    } else {
      assert (ls + [l])[1..] == ls[1..] + [l];
      ExecSnoc(Next(s, ls[0]), ls[1..], l);
    }
  }

  ghost predicate Distinct(q: seq<TraceID>) { forall i, j :: 0 <= i < j < |q| ==> q[i] != q[j] }

  lemma {:induction false} OccAt(q: seq<TraceID>, i: nat)
    requires i < |q|
    ensures Occ(q, q[i]) >= 1
    ensures forall j :: i < j < |q| && q[j] == q[i] ==> Occ(q, q[i]) >= 2
  {
    if i > 0 {
      OccAt(q[1..], i - 1);
      assert forall j :: i < j < |q| ==> q[j] == q[1..][j - 1];
    } else {
      forall j | 0 < j < |q| && q[j] == q[0] ensures Occ(q, q[0]) >= 2 {
        OccIn(q[1..], j - 1);
      }
    }
  }

  lemma {:induction false} OccIn(q: seq<TraceID>, i: nat)
    requires i < |q|
    ensures Occ(q, q[i]) >= 1
  {
    if i > 0 { OccIn(q[1..], i - 1); }
  }

  lemma {:induction false} OccPositive(q: seq<TraceID>, x: TraceID)
    ensures Occ(q, x) > 0 <==> x in q
  {
    if q != [] { OccPositive(q[1..], x); }
  }

  predicate Quiet(s: State) { forall i :: 0 <= i < |s.workers| ==> s.workers[i].Idle? }

  lemma QuietIndex(s: State)
    requires IndexOk(s) && Quiet(s)
    ensures Distinct(s.deleteChan) && (forall x :: x in s.deleteChan <==> x in s.idToTrace)
    ensures s.numTracesOnMap == |s.idToTrace| <= s.maxNumTraces
  {
    forall x ensures Occ(s.deleteChan, x) == One(x in s.idToTrace) {
      assert Indexed(s, x);
      TotalZero(s.workers, HoldsId(x));
    }
    forall x ensures x in s.deleteChan <==> x in s.idToTrace { OccPositive(s.deleteChan, x); }
    forall i, j | 0 <= i < j < |s.deleteChan| ensures s.deleteChan[i] != s.deleteChan[j] { OccAt(s.deleteChan, i); }
    TotalZero(s.workers, Lag);
    SameSize(s.deleteChan, s.idToTrace.Keys);
  }

  lemma {:induction false} SameSize(q: seq<TraceID>, xs: set<TraceID>)
    requires Distinct(q) && forall x :: x in q <==> x in xs
    ensures |xs| == |q|
  {
    if q == [] {
      assert xs == {};
    } else {
      var x := q[0];
      assert x in q;
      forall y ensures y in q[1..] <==> y in xs - {x} {
        if y in xs - {x} { assert y in q; }
        if y in q[1..] { var j :| 0 <= j < |q[1..]| && q[1..][j] == y; assert q[j + 1] == y; }
      }
      SameSize(q[1..], xs - {x});
    }
  }

  /** Whatever the interleaving, between arrivals the table holds exactly the queued ids, each queued once, the
      counter is the size of the table, and neither exceeds the configured number of traces. */
  lemma IndexAgreement(maxNumTraces: nat, numBatches: nat, numWorkers: nat, ls: seq<Label>)
    requires Runs(Init(maxNumTraces, numBatches, numWorkers), ls)
    ensures var s := Exec(Init(maxNumTraces, numBatches, numWorkers), ls);
      && (Quiet(s) ==>
            && Distinct(s.deleteChan) && (forall x :: x in s.deleteChan <==> x in s.idToTrace)
            && s.numTracesOnMap == |s.idToTrace| <= s.maxNumTraces)
      && (forall w :: 0 <= w < |s.workers| && s.workers[w].ToDrop? ==> s.workers[w].victim in s.idToTrace)
  {
    var s0 := Init(maxNumTraces, numBatches, numWorkers);
    InitIndex(maxNumTraces, numBatches, numWorkers);
    IndexAlways(s0, ls);
    var s := Exec(s0, ls);
    if Quiet(s) { QuietIndex(s); }
    forall w | 0 <= w < |s.workers| && s.workers[w].ToDrop? ensures s.workers[w].victim in s.idToTrace {
      DroppedIdIsOnTable(s, w);
    }
  }

  // ---------------------------------------------------------------- eviction order

  ghost function PostedBy(s: State, l: Label): seq<TraceID>
    requires Enabled(s, l)
  {
    if l.Advance? && s.workers[l.w].ToPost? && |s.deleteChan| < s.maxNumTraces then [s.workers[l.w].id] else []
  }

  ghost function EvictedBy(s: State, l: Label): seq<TraceID>
    requires Enabled(s, l)
  {
    if l.Advance? && s.workers[l.w].ToPop? then [s.deleteChan[0]] else []
  }

  /** The ids queued during a run, in order. */
  ghost function Posted(s: State, ls: seq<Label>): seq<TraceID>
    requires Runs(s, ls)
    decreases |ls|
  {
    if ls == [] then [] else PostedBy(s, ls[0]) + Posted(Next(s, ls[0]), ls[1..])
  }

  /** The ids taken off the queue to be dropped during a run, in order. */
  ghost function Evicted(s: State, ls: seq<Label>): seq<TraceID>
    requires Runs(s, ls)
    decreases |ls|
  {
    if ls == [] then [] else EvictedBy(s, ls[0]) + Evicted(Next(s, ls[0]), ls[1..])
  }

  lemma QueueStep(s: State, l: Label)
    requires Enabled(s, l)
    ensures EvictedBy(s, l) + Next(s, l).deleteChan == s.deleteChan + PostedBy(s, l)
  {}

  /** Oldest first: traces leave in the order in which they were queued. */
  lemma {:induction false} EvictionIsOldestFirst(s: State, ls: seq<Label>)
    requires Runs(s, ls)
    ensures Evicted(s, ls) + Exec(s, ls).deleteChan == s.deleteChan + Posted(s, ls)
    decreases |ls|
  {
    if ls != [] {
      var s', rest := Next(s, ls[0]), ls[1..];
      QueueStep(s, ls[0]);
      EvictionIsOldestFirst(s', rest);
      Chain(EvictedBy(s, ls[0]), Evicted(s', rest), s.deleteChan, s'.deleteChan, Exec(s', rest).deleteChan,
            PostedBy(s, ls[0]), Posted(s', rest));
    }
  }

  lemma Chain<T>(e: seq<T>, es: seq<T>, q: seq<T>, q': seq<T>, q'': seq<T>, p: seq<T>, ps: seq<T>)
    requires e + q' == q + p && es + q'' == q' + ps
    ensures (e + es) + q'' == q + (p + ps)
  {
    calc {
      (e + es) + q'';
      e + (es + q'');
      e + (q' + ps);
      (e + q') + ps;
      (q + p) + ps;
      q + (p + ps);
    }
  }

  // ---------------------------------------------------------------- the wait for a decision

  /** The batches that the ticker takes during a run, in order. */
  ghost function Taken(s: State, ls: seq<Label>): seq<seq<TraceID>>
    requires Runs(s, ls)
    decreases |ls|
  {
    if ls == [] then [] else (if ls[0].TakeBatch? then [s.batches[0]] else []) + Taken(Next(s, ls[0]), ls[1..])
  }

  /** What is in the current batch whenever it is closed. */
  ghost function Closed(s: State, ls: seq<Label>): seq<seq<TraceID>>
    requires Runs(s, ls)
    decreases |ls|
  {
    if ls == [] then [] else (if ls[0].TakeBatch? then [s.currentBatch] else []) + Closed(Next(s, ls[0]), ls[1..])
  }

  /** The ids that goroutines hand to the batcher, in order. */
  ghost function Sent(s: State, ls: seq<Label>): seq<TraceID>
    requires Runs(s, ls)
    decreases |ls|
  {
    if ls == [] then []
    else
      (if ls[0].Advance? && s.workers[ls[0].w].ToBatch? then [s.workers[ls[0].w].id] else [])
      + Sent(Next(s, ls[0]), ls[1..])
  }

  lemma {:induction false} BatchesInTurn(s: State, ls: seq<Label>)
    requires Runs(s, ls)
    ensures Taken(s, ls) + Exec(s, ls).batches == s.batches + Closed(s, ls) && |Taken(s, ls)| == |Closed(s, ls)|
    decreases |ls|
  {
    if ls != [] {
      var s', rest := Next(s, ls[0]), ls[1..];
      var taken := if ls[0].TakeBatch? then [s.batches[0]] else [];
      var closed := if ls[0].TakeBatch? then [s.currentBatch] else [];
      assert taken + s'.batches == s.batches + closed;
      BatchesInTurn(s', rest);
      Chain(taken, Taken(s', rest), s.batches, s'.batches, Exec(s', rest).batches, closed, Closed(s', rest));
    }
  }

  /** Over every run, a batch is taken for decision exactly as many ticks after the one that closed it as there are
      batches in the pipeline. */
  lemma BatchWaits(s: State, ls: seq<Label>, i: nat)
    requires Runs(s, ls) && i + |s.batches| < |Taken(s, ls)|
    ensures i < |Closed(s, ls)| && Taken(s, ls)[i + |s.batches|] == Closed(s, ls)[i]
  {
    BatchesInTurn(s, ls);
    assert (Taken(s, ls) + Exec(s, ls).batches)[i + |s.batches|] == (s.batches + Closed(s, ls))[i + |s.batches|];
  }

  /** The ids of batches, one after the other. */
  ghost function Joined(bs: seq<seq<TraceID>>): seq<TraceID> { if bs == [] then [] else bs[0] + Joined(bs[1..]) }

  /** And every id that is handed over is in one batch, in order: in a closed one, the current one or on its way. */
  lemma {:induction false} IdsAreBatched(s: State, ls: seq<Label>)
    requires Runs(s, ls)
    ensures var t := Exec(s, ls);
      Joined(Closed(s, ls)) + (t.currentBatch + t.pendingIds) == s.currentBatch + s.pendingIds + Sent(s, ls)
    decreases |ls|
  {
    if ls != [] {
      var l, s', rest := ls[0], Next(s, ls[0]), ls[1..];
      var closed := if l.TakeBatch? then s.currentBatch else [];
      var sent := if l.Advance? && s.workers[l.w].ToBatch? then [s.workers[l.w].id] else [];
      IdsStep(s, l, closed, sent);
      IdsAreBatched(s', rest);
      var t := Exec(s', rest);
      Chain(closed, Joined(Closed(s', rest)), s.currentBatch + s.pendingIds, s'.currentBatch + s'.pendingIds,
            t.currentBatch + t.pendingIds, sent, Sent(s', rest));
      JoinedCons(s.currentBatch, Closed(s', rest));
      assert Closed(s, ls) == (if l.TakeBatch? then [s.currentBatch] else []) + Closed(s', rest);
      assert [] + Closed(s', rest) == Closed(s', rest) && [] + Joined(Closed(s', rest)) == Joined(Closed(s', rest));
    }
  }

  lemma JoinedCons(b: seq<TraceID>, bs: seq<seq<TraceID>>)
    ensures Joined([b] + bs) == b + Joined(bs)
  {
    assert ([b] + bs)[1..] == bs;
  }

  lemma IdsStep(s: State, l: Label, closed: seq<TraceID>, sent: seq<TraceID>)
    requires Enabled(s, l) && closed == if l.TakeBatch? then s.currentBatch else []
    requires sent == if l.Advance? && s.workers[l.w].ToBatch? then [s.workers[l.w].id] else []
    ensures var t := Next(s, l); closed + (t.currentBatch + t.pendingIds) == s.currentBatch + s.pendingIds + sent
  {
    if l.FillBatch? {
      assert s.pendingIds == [s.pendingIds[0]] + s.pendingIds[1..];
    }
  }
}
