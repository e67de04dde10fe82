/** Delivery of the spans of one trace by the tail sampler, over every interleaving in which that trace is not evicted
    before its decision; other traces may be. */
module TailSamplerDelivery {
  import opened Sums
  import opened TailSampler
  import opened TailSamplerProof

  /** The step does not evict trace `x` while it is undecided. */
  predicate Keeps(s: State, l: Label, x: TraceID)
    requires Enabled(s, l)
  {
    l.Advance? && s.workers[l.w].ToDrop? && s.workers[l.w].victim == x ==> !Undecided(s, x)
  }

  predicate RunKeeps(s: State, ls: seq<Label>, x: TraceID)
    requires Runs(s, ls)
    decreases |ls|
  {
    ls == [] || (Keeps(s, ls[0], x) && RunKeeps(Next(s, ls[0]), ls[1..], x))
  }

  predicate Undecided(s: State, x: TraceID) {
    x in s.idToTrace && s.idToTrace[x] < |s.traces| && s.traces[s.idToTrace[x]].decision == Unspecified
  }

  // ---------------------------------------------------------------- each undecided trace is scheduled once

  ghost function OccAll(bs: seq<seq<TraceID>>, x: TraceID): nat {
    if bs == [] then 0 else Occ(bs[0], x) + OccAll(bs[1..], x)
  }

  lemma {:induction false} OccAllAppend(bs: seq<seq<TraceID>>, b: seq<TraceID>, x: TraceID)
    ensures OccAll(bs + [b], x) == OccAll(bs, x) + Occ(b, x)
  {
    if bs != [] {
      assert (bs + [b])[1..] == bs[1..] + [b];
      OccAllAppend(bs[1..], b, x);
    }
  }

  ghost function AtTicker(t: Ticker, x: TraceID): nat {
    match t
    case Waiting => 0
    case Batch(rest) => Occ(rest, x)
    case Evaluating(_, id, rest) => One(id == x) + Occ(rest, x)
    case Forwarding(_, _, rest) => Occ(rest, x)
  }

  function WillBatch(w: Worker, x: TraceID): nat { One(w.ToBatch? && w.id == x) }

  ghost function Batching(x: TraceID): Worker -> int { (w: Worker) => WillBatch(w, x) }

  /** How often `x` is on its way to a decision, the goroutines apart. */
  ghost function InPipeline(s: State, x: TraceID): nat {
    Occ(s.pendingIds, x) + Occ(s.currentBatch, x) + OccAll(s.batches, x) + AtTicker(s.ticker, x)
  }

  ghost predicate Scheduled(s: State, x: TraceID) {
    InPipeline(s, x) + Total(s.workers, Batching(x)) == One(Undecided(s, x))
  }

  /** While `x` is not decided its entry is on the table, and the ticker evaluates the entry on the table. */
  ghost predicate OnTable(s: State, x: TraceID) {
    && (forall h :: 0 <= h < |s.traces| && s.traces[h].id == x && s.traces[h].decision == Unspecified
          ==> x in s.idToTrace && s.idToTrace[x] == h)
    && (s.ticker.Evaluating? && s.ticker.id == x ==> x in s.idToTrace && s.idToTrace[x] == s.ticker.h)
  }

  // ---------------------------------------------------------------- every span is in one place

  function HeldBy(w: Worker, h: nat, x: Span): nat {
    if w.Idle? || w.Late? || w.h != h then 0 else w.spans[x]
  }

  function LateBy(w: Worker, h: nat, x: Span): nat {
    if w.Late? && w.h == h then w.spans[x] else 0
  }

  ghost function Holding(h: nat, x: Span): Worker -> int { (w: Worker) => HeldBy(w, h, x) }

  ghost function Forwarders(h: nat, x: Span): Worker -> int { (w: Worker) => LateBy(w, h, x) }

  function TickerHolds(t: Ticker, h: nat, x: Span): nat {
    if t.Forwarding? && t.h == h then t.spans[x] else 0
  }

  /** Copies of span `x` of trace entry `h` that were forwarded or are just about to be. */
  ghost function Out(s: State, h: nat, x: Span): int
    requires h < |s.traces|
  {
    Total(s.workers, Forwarders(h, x)) + TickerHolds(s.ticker, h, x) + s.traces[h].forwarded[x]
  }

  /** `held`: copies of `x` with goroutines that have not taken the trace's lock; `out`: forwarded or about to be. */
  ghost predicate Balanced(t: Trace, x: Span, held: int, out: int) {
    match t.decision
    case Unspecified => t.arrived[x] == held + t.received[x] && out == 0
    case Sampled => t.arrived[x] == held + out
    case NotSampled => out == 0
    case _ => false
  }

  ghost predicate Conserved(s: State, h: nat, x: Span)
    requires h < |s.traces|
  {
    Balanced(s.traces[h], x, Total(s.workers, Holding(h, x)), Out(s, h, x))
  }

  ghost predicate Inv(s: State, x: TraceID) {
    && RefsOk(s) && OnTable(s, x) && Scheduled(s, x)
    && (forall h, sp :: 0 <= h < |s.traces| && s.traces[h].id == x ==> Conserved(s, h, sp))
  }

  // ---------------------------------------------------------------- preservation: scheduling

  lemma BatchingNonNegative(x: TraceID, ws: seq<Worker>)
    ensures Total(ws, Batching(x)) >= 0
  {
    TotalNonNegative(ws, Batching(x));
  }

  lemma ScheduledArrive(s: State, w: nat, id: TraceID, spans: multiset<Span>, x: TraceID)
    requires RefsOk(s) && Enabled(s, Arrive(w, id, spans)) && Scheduled(s, x)
    ensures Scheduled(Arrived(s, w, id, spans), x)
  {
    var s' := Arrived(s, w, id, spans);
    TotalUpdate(s.workers, w, s'.workers[w], Batching(x));
    assert Undecided(s', x) <==> Undecided(s, x) || (x == id && id !in s.idToTrace);
  }

  lemma UndecidedAdvance(s: State, w: nat, x: TraceID)
    requires RefsOk(s) && Enabled(s, Advance(w)) && Keeps(s, Advance(w), x)
    ensures Undecided(Effect(s, w), x) <==> Undecided(s, x)
  {}

  lemma PipelineAdvance(s: State, w: nat, x: TraceID)
    requires Enabled(s, Advance(w))
    ensures InPipeline(Effect(s, w), x) + WillBatch(NextPc(s, w), x) == InPipeline(s, x) + WillBatch(s.workers[w], x)
  {
    var pc := s.workers[w];
    if pc.ToBatch? { OccAppend(s.pendingIds, pc.id, x); }
  }

  lemma ScheduledAdvance(s: State, w: nat, x: TraceID)
    requires RefsOk(s) && Enabled(s, Advance(w)) && Keeps(s, Advance(w), x) && Scheduled(s, x)
    ensures Scheduled(Advanced(s, w), x)
  {
    TotalUpdate(s.workers, w, NextPc(s, w), Batching(x));
    UndecidedAdvance(s, w, x);
    PipelineAdvance(s, w, x);
    WithWorkerKeeps(Effect(s, w), w, NextPc(s, w), x);
  }

  /** Moving a goroutine on changes neither what is undecided nor what waits for a decision. */
  lemma WithWorkerKeeps(s: State, w: nat, pc: Worker, x: TraceID)
    requires w < |s.workers|
    ensures InPipeline(WithWorker(s, w, pc), x) == InPipeline(s, x)
    ensures Undecided(WithWorker(s, w, pc), x) <==> Undecided(s, x)
  {}

  lemma ScheduledRest(s: State, l: Label, x: TraceID)
    requires RefsOk(s) && OnTable(s, x) && Enabled(s, l) && !l.Arrive? && !l.Advance?
    requires Scheduled(s, x)
    ensures Scheduled(Next(s, l), x)
  {
    BatchingNonNegative(x, s.workers);
    match l
    case FillBatch => OccAppend(s.currentBatch, s.pendingIds[0], x);
    case TakeBatch => OccAllAppend(s.batches[1..], s.currentBatch, x);
    case LoadNext =>
    case Decide(answers) => ScheduledDecide(s, answers, x);
    case ForwardSampled =>
    case EndTick =>
  }

  lemma ScheduledDecide(s: State, answers: seq<Decision>, x: TraceID)
    requires RefsOk(s) && OnTable(s, x) && Scheduled(s, x) && Enabled(s, Decide(answers))
    ensures Scheduled(Next(s, Decide(answers)), x)
  {
    BatchingNonNegative(x, s.workers);
    if s.ticker.id == x {
      DecidedOnce(s, x);
    } else {
      assert Undecided(Next(s, Decide(answers)), x) <==> Undecided(s, x);
    }
  }

  /** The ticker evaluates a trace that is not decided, and meets its id nowhere else. */
  lemma DecidedOnce(s: State, x: TraceID)
    requires s.ticker.Evaluating? && s.ticker.id == x && Scheduled(s, x)
    ensures Undecided(s, x) && Occ(s.ticker.rest, x) == 0
  {
    BatchingNonNegative(x, s.workers);
  }

  // ---------------------------------------------------------------- preservation: the table

  lemma OnTableStep(s: State, l: Label, x: TraceID)
    requires RefsOk(s) && OnTable(s, x) && Enabled(s, l) && Keeps(s, l, x) && Scheduled(s, x)
    ensures OnTable(Next(s, l), x)
  {
    if s.ticker.Evaluating? && s.ticker.id == x { DecidedOnce(s, x); }
    match l
    case Arrive(_, _, _) =>
    case Advance(w) => OnTableAdvance(s, w, x);
    case LoadNext =>
    case Decide(_) =>
    case ForwardSampled =>
    case _ =>
  }

  lemma OnTableAdvance(s: State, w: nat, x: TraceID)
    requires RefsOk(s) && OnTable(s, x) && Enabled(s, Advance(w)) && Keeps(s, Advance(w), x)
    requires s.ticker.Evaluating? && s.ticker.id == x ==> Undecided(s, x)
    ensures OnTable(Advanced(s, w), x)
  {
    match s.workers[w]
    case ToDrop(_, _, _, victim) =>
    case AtLock(_, _) =>
    case Late(_, _) =>
    case _ =>
  }

  // ---------------------------------------------------------------- preservation: the spans

  lemma ForwardersNonNegative(ws: seq<Worker>, h: nat, x: Span)
    ensures Total(ws, Forwarders(h, x)) >= 0
  {
    TotalNonNegative(ws, Forwarders(h, x));
  }

  lemma ConservedArrive(s: State, w: nat, id: TraceID, spans: multiset<Span>, h: nat, x: Span)
    requires RefsOk(s) && Enabled(s, Arrive(w, id, spans))
    requires h < |Arrived(s, w, id, spans).traces|
    requires h < |s.traces| ==> Conserved(s, h, x)
    ensures Conserved(Arrived(s, w, id, spans), h, x)
  {
    var pc := Arrived(s, w, id, spans).workers[w];
    TotalUpdate(s.workers, w, pc, Holding(h, x));
    TotalUpdate(s.workers, w, pc, Forwarders(h, x));
    if h == |s.traces| {
      TotalZero(s.workers, Holding(h, x));
      TotalZero(s.workers, Forwarders(h, x));
    }
  }

  /** What a goroutine's step does to an entry and to the copies of `x` it carries for it. */
  lemma CarriedAdvance(s: State, w: nat, h: nat, x: Span)
    requires RefsOk(s) && Enabled(s, Advance(w)) && h < |s.traces|
    ensures |Effect(s, w).traces| == |s.traces|
    ensures var t, t', pc, pc' := s.traces[h], Effect(s, w).traces[h], s.workers[w], NextPc(s, w);
      && t'.decision == t.decision && t'.arrived == t.arrived && t'.id == t.id
      && t'.received[x] == t.received[x] +
           (if pc.AtLock? && t.decision == Unspecified then HeldBy(pc, h, x) else 0)
      && t'.forwarded[x] == t.forwarded[x] + LateBy(pc, h, x)
      && HeldBy(pc', h, x) == (if pc.AtLock? then 0 else HeldBy(pc, h, x))
      && LateBy(pc', h, x) == if pc.AtLock? && t.decision == Sampled then HeldBy(pc, h, x) else 0
  {
    var pc := s.workers[w];
    if pc.AtLock? || pc.Late? {
      assert pc.h < |s.traces|;
    }
  }

  /** One goroutine's step moves its spans from one place to the next. */
  lemma BalancedAdvance(s: State, w: nat, h: nat, x: Span, held: int, late: int, ticker: nat)
    requires RefsOk(s) && Enabled(s, Advance(w)) && h < |s.traces|
    requires late >= LateBy(s.workers[w], h, x)
    requires Balanced(s.traces[h], x, held, late + ticker + s.traces[h].forwarded[x])
    ensures |Effect(s, w).traces| == |s.traces|
    ensures var t := Effect(s, w).traces[h];
      Balanced(t, x, held - HeldBy(s.workers[w], h, x) + HeldBy(NextPc(s, w), h, x),
               late - LateBy(s.workers[w], h, x) + LateBy(NextPc(s, w), h, x) + ticker + t.forwarded[x])
  {
    CarriedAdvance(s, w, h, x);
  }

  lemma ConservedAdvance(s: State, w: nat, h: nat, x: Span)
    requires RefsOk(s) && Enabled(s, Advance(w)) && h < |s.traces| && Conserved(s, h, x)
    ensures |Advanced(s, w).traces| == |s.traces|
    ensures Conserved(Advanced(s, w), h, x)
  {
    TotalUpdate(s.workers, w, NextPc(s, w), Holding(h, x));
    TotalUpdate(s.workers, w, NextPc(s, w), Forwarders(h, x));
    TotalAtLeast(s.workers, w, Forwarders(h, x));
    BalancedAdvance(s, w, h, x, Total(s.workers, Holding(h, x)), Total(s.workers, Forwarders(h, x)),
                    TickerHolds(s.ticker, h, x));
  }

  lemma ConservedRest(s: State, l: Label, h: nat, x: Span)
    requires RefsOk(s) && Enabled(s, l) && !l.Arrive? && !l.Advance?
    requires h < |s.traces| && Conserved(s, h, x)
    requires s.ticker.Evaluating? && s.ticker.h == h ==> s.traces[h].decision == Unspecified
    ensures Conserved(Next(s, l), h, x)
  {
    ForwardersNonNegative(s.workers, h, x);
    match l
    case Decide(_) =>
    case ForwardSampled =>
    case _ =>
  }

  lemma {:induction false} IdsStay(s: State, l: Label, h: nat)
    requires RefsOk(s) && Enabled(s, l) && h < |s.traces|
    ensures h < |Next(s, l).traces| && Next(s, l).traces[h].id == s.traces[h].id
  {
    if l.Advance? { CarriedAdvance(s, l.w, h, 0); }
  }

  lemma ConservedStep(s: State, l: Label, x: TraceID, h: nat, sp: Span)
    requires Inv(s, x) && Enabled(s, l) && Keeps(s, l, x)
    requires h < |Next(s, l).traces| && Next(s, l).traces[h].id == x
    ensures Conserved(Next(s, l), h, sp)
  {
    if l.Arrive? {
      assert h < |s.traces| ==> Conserved(s, h, sp) by { if h < |s.traces| { IdsStay(s, l, h); } }
      ConservedArrive(s, l.w, l.id, l.spans, h, sp);
    } else {
      OnlyArrivalsAllocate(s, l);
      IdsStay(s, l, h);
      assert Conserved(s, h, sp);
      if l.Advance? { ConservedAdvance(s, l.w, h, sp); } else { ConservedTicker(s, l, x, h, sp); }
    }
  }

  lemma ConservedTicker(s: State, l: Label, x: TraceID, h: nat, sp: Span)
    requires Inv(s, x) && Enabled(s, l) && !l.Arrive? && !l.Advance?
    requires h < |s.traces| && s.traces[h].id == x
    ensures Conserved(Next(s, l), h, sp)
  {
    assert Conserved(s, h, sp);
    if s.ticker.Evaluating? && s.ticker.h == h { DecidedOnce(s, x); }
    ConservedRest(s, l, h, sp);
  }

  lemma OnlyArrivalsAllocate(s: State, l: Label)
    requires Enabled(s, l) && !l.Arrive?
    ensures |Next(s, l).traces| == |s.traces|
  {}

  lemma InvStep(s: State, l: Label, x: TraceID)
    requires Inv(s, x) && Enabled(s, l) && Keeps(s, l, x)
    ensures Inv(Next(s, l), x)
  {
    var s' := Next(s, l);
    RefsStep(s, l);
    OnTableStep(s, l, x);
    match l {
      case Arrive(w, id, spans) => ScheduledArrive(s, w, id, spans, x);
      case Advance(w) => ScheduledAdvance(s, w, x);
      case _ => ScheduledRest(s, l, x);
    }
    forall h: nat, sp: Span | h < |s'.traces| && s'.traces[h].id == x ensures Conserved(s', h, sp) {
      ConservedStep(s, l, x, h, sp);
    }
  }

  lemma {:induction false} InitInv(maxNumTraces: nat, numBatches: nat, numWorkers: nat, x: TraceID)
    ensures Inv(Init(maxNumTraces, numBatches, numWorkers), x)
  {
    var s := Init(maxNumTraces, numBatches, numWorkers);
    TotalZero(s.workers, Batching(x));
    NothingInEmptyBatches(s.batches, x);
  }

  lemma {:induction false} NothingInEmptyBatches(bs: seq<seq<TraceID>>, x: TraceID)
    requires forall i :: 0 <= i < |bs| ==> bs[i] == []
    ensures OccAll(bs, x) == 0
  {
    if bs != [] { NothingInEmptyBatches(bs[1..], x); }
  }

  lemma {:induction false} InvAlways(s: State, ls: seq<Label>, x: TraceID)
    requires Inv(s, x) && Runs(s, ls) && RunKeeps(s, ls, x)
    ensures Inv(Exec(s, ls), x)
    decreases |ls|
  {
    if ls != [] {
      InvStep(s, ls[0], x);
      InvAlways(Next(s, ls[0]), ls[1..], x);
    }
  }

  // ---------------------------------------------------------------- the promise

  /** No goroutine still works on spans of trace entry `h`. */
  predicate Settled(s: State, h: nat) {
    && (forall i :: 0 <= i < |s.workers| ==> s.workers[i].Idle? || s.workers[i].h != h)
    && !(s.ticker.Forwarding? && s.ticker.h == h)
  }

  /** In every interleaving that does not evict trace `x` undecided, whatever becomes of other traces: no span of `x` is
      ever forwarded more often than it arrived, none is forwarded while `x` is undecided or when it is decided
      NotSampled, and once the work on a Sampled entry has settled each of its spans, held until the tick or late, has
      been forwarded exactly once. */
  lemma ExactlyOnce(maxNumTraces: nat, numBatches: nat, numWorkers: nat, ls: seq<Label>, x: TraceID, h: nat)
    requires var s0 := Init(maxNumTraces, numBatches, numWorkers); Runs(s0, ls) && RunKeeps(s0, ls, x)
    requires var s := Exec(Init(maxNumTraces, numBatches, numWorkers), ls); h < |s.traces| && s.traces[h].id == x
    ensures var s := Exec(Init(maxNumTraces, numBatches, numWorkers), ls);
      var t := s.traces[h];
      && (t.decision == Unspecified || t.decision == Sampled || t.decision == NotSampled)
      && t.forwarded <= t.arrived
      && (t.decision != Sampled ==> t.forwarded == multiset{})
      && (t.decision == Sampled && Settled(s, h) ==> t.forwarded == t.arrived)
  {
    var s0 := Init(maxNumTraces, numBatches, numWorkers);
    InitInv(maxNumTraces, numBatches, numWorkers, x);
    InvAlways(s0, ls, x);
    var s := Exec(s0, ls);
    var t := s.traces[h];
    assert Conserved(s, h, 0);
    forall sp: Span
      ensures t.forwarded[sp] <= t.arrived[sp] || t.decision != Sampled
      ensures t.decision != Sampled ==> t.forwarded[sp] == 0
      ensures t.decision == Sampled && Settled(s, h) ==> t.forwarded[sp] == t.arrived[sp]
    {
      assert Conserved(s, h, sp);
      ForwardersNonNegative(s.workers, h, sp);
      HoldingNonNegative(s.workers, h, sp);
      if Settled(s, h) {
        TotalZero(s.workers, Holding(h, sp));
        TotalZero(s.workers, Forwarders(h, sp));
      }
    }
  }

  lemma HoldingNonNegative(ws: seq<Worker>, h: nat, x: Span)
    ensures Total(ws, Holding(h, x)) >= 0
  {
    TotalNonNegative(ws, Holding(h, x));
  }
}
