/** The tail sampler as a state machine over its atomic steps: any number of goroutines inside `processTraces`,
    the goroutine that fills the decision batches, and the ticker goroutine inside `samplingPolicyOnTick`.
    Every interleaving is a sequence of labels executed by `Exec`. */
module TailSampler {

  type TraceID = nat
  type Span = nat

  datatype Decision =
    | Unspecified | Pending | Sampled | NotSampled | Dropped | Error | InvertSampled | InvertNotSampled | NoResult

  /** The decision reached from the answers of the policies in order: the first Sampled or NotSampled counts, and a
      trace about which no policy says either is sampled. */
  function Verdict(answers: seq<Decision>): (d: Decision)
    ensures d == Sampled || d == NotSampled
    ensures d == NotSampled <==> exists i :: 0 <= i < |answers| && answers[i] == NotSampled
                                   && forall j :: 0 <= j < i ==> answers[j] != Sampled
  {
    if answers == [] then Sampled
    else if answers[0] == Sampled || answers[0] == NotSampled then answers[0]
    else
      var d := Verdict(answers[1..]);
      assert d == NotSampled ==> forall i :: 0 <= i < |answers[1..]| ==> answers[1..][i] == answers[i + 1];
      d
  }

  /** Per-trace data. `arrived` and `forwarded` record history: the spans handed in for this entry of the trace
      table, and the spans passed on to the next consumer. */
  datatype Trace = Trace(id: TraceID, received: multiset<Span>, decision: Decision,
                         arrived: multiset<Span>, forwarded: multiset<Span>)

  /** Where a goroutine stands in `processTraces` with one group of spans of the same trace. `h` is the pointer to the
      per-trace data. */
  datatype Worker =
    | Idle
    | ToBatch(h: nat, id: TraceID, spans: multiset<Span>)
    | ToCount(h: nat, id: TraceID, spans: multiset<Span>)
    | ToPost(h: nat, id: TraceID, spans: multiset<Span>)
    | ToPop(h: nat, id: TraceID, spans: multiset<Span>)
    | ToDrop(h: nat, id: TraceID, spans: multiset<Span>, victim: TraceID)
    | ToUncount(h: nat, id: TraceID, spans: multiset<Span>)
    | AtLock(h: nat, spans: multiset<Span>)
    | Late(h: nat, spans: multiset<Span>)

  datatype Ticker =
    | Waiting
    | Batch(rest: seq<TraceID>)
    | Evaluating(h: nat, id: TraceID, rest: seq<TraceID>)
    | Forwarding(h: nat, spans: multiset<Span>, rest: seq<TraceID>)

  datatype State = State(
    maxNumTraces: nat,
    traces: seq<Trace>,               // all per-trace data ever allocated, indexed by pointer
    idToTrace: map<TraceID, nat>,
    deleteChan: seq<TraceID>,
    numTracesOnMap: int,
    pendingIds: seq<TraceID>,         // batcher: ids on their way into the current batch
    currentBatch: seq<TraceID>,
    batches: seq<seq<TraceID>>,
    workers: seq<Worker>,
    ticker: Ticker)

  datatype Label =
    | Arrive(w: nat, id: TraceID, spans: multiset<Span>)
    | Advance(w: nat)
    | FillBatch
    | TakeBatch
    | LoadNext
    | Decide(answers: seq<Decision>)
    | ForwardSampled
    | EndTick

  /** Steps that can run now. A full channel blocks a send and an empty one blocks a receive. */
  predicate Enabled(s: State, l: Label) {
    match l
    case Arrive(w, _, _) => w < |s.workers| && s.workers[w].Idle?
    case Advance(w) => w < |s.workers| && !s.workers[w].Idle? && (s.workers[w].ToPop? ==> s.deleteChan != [])
    case FillBatch => s.pendingIds != []
    case TakeBatch => s.ticker.Waiting? && s.batches != []
    case LoadNext => s.ticker.Batch? && s.ticker.rest != []
    case Decide(_) => s.ticker.Evaluating? && s.ticker.h < |s.traces|
    case ForwardSampled => s.ticker.Forwarding? && s.ticker.h < |s.traces|
    case EndTick => s.ticker.Batch? && s.ticker.rest == []
  }

  function WithWorker(s: State, w: nat, pc: Worker): State
    requires w < |s.workers|
  { s.(workers := s.workers[w := pc]) }

  function NewTrace(id: TraceID, spans: multiset<Span>): Trace {
    Trace(id, multiset{}, Unspecified, spans, multiset{})
  }

  function Arrived(s: State, w: nat, id: TraceID, spans: multiset<Span>): State
    requires Enabled(s, Arrive(w, id, spans))
  {
    if id in s.idToTrace then
      var h := s.idToTrace[id];
      if h < |s.traces| then
        WithWorker(s, w, AtLock(h, spans))
          .(traces := s.traces[h := s.traces[h].(arrived := s.traces[h].arrived + spans)])
      else s
    else
      WithWorker(s, w, ToBatch(|s.traces|, id, spans))
        .(traces := s.traces + [NewTrace(id, spans)], idToTrace := s.idToTrace[id := |s.traces|])
  }

  /** Where the next step of a goroutine inside `processTraces` takes it. */
  function NextPc(s: State, w: nat): Worker
    requires Enabled(s, Advance(w))
  {
    match s.workers[w]
    case ToBatch(h, id, spans) => ToCount(h, id, spans)
    case ToCount(h, id, spans) => ToPost(h, id, spans)
    case ToPost(h, id, spans) => if |s.deleteChan| < s.maxNumTraces then AtLock(h, spans) else ToPop(h, id, spans)
    case ToPop(h, id, spans) => ToDrop(h, id, spans, s.deleteChan[0])
    case ToDrop(h, id, spans, victim) =>
      if victim in s.idToTrace then ToUncount(h, id, spans) else ToPost(h, id, spans)
    case ToUncount(h, id, spans) => ToPost(h, id, spans)
    case AtLock(h, spans) => if h < |s.traces| && s.traces[h].decision == Sampled then Late(h, spans) else Idle
    case Late(_, _) => Idle
    case Idle => Idle
  }

  /** What that step does to the shared state. */
  function Effect(s: State, w: nat): State
    requires Enabled(s, Advance(w))
  {
    match s.workers[w]
    case ToBatch(_, id, _) => s.(pendingIds := s.pendingIds + [id])
    case ToCount(_, _, _) => s.(numTracesOnMap := s.numTracesOnMap + 1)
    case ToPost(_, id, _) => if |s.deleteChan| < s.maxNumTraces then s.(deleteChan := s.deleteChan + [id]) else s
    case ToPop(_, _, _) => s.(deleteChan := s.deleteChan[1..])
    case ToDrop(_, _, _, victim) => s.(idToTrace := s.idToTrace - {victim})
    case ToUncount(_, _, _) => s.(numTracesOnMap := s.numTracesOnMap - 1)
    case AtLock(h, spans) =>
      if h < |s.traces| && s.traces[h].decision == Unspecified
      then s.(traces := s.traces[h := s.traces[h].(received := s.traces[h].received + spans)])
      else s
    case Late(h, spans) =>
      if h < |s.traces|
      then s.(traces := s.traces[h := s.traces[h].(forwarded := s.traces[h].forwarded + spans)])
      else s
    case Idle => s
  }

  function Advanced(s: State, w: nat): State
    requires Enabled(s, Advance(w))
  {
    WithWorker(Effect(s, w), w, NextPc(s, w))
  }

  function Next(s: State, l: Label): State
    requires Enabled(s, l)
  {
    match l
    case Arrive(w, id, spans) => Arrived(s, w, id, spans)
    case Advance(w) => Advanced(s, w)
    case FillBatch => s.(currentBatch := s.currentBatch + [s.pendingIds[0]], pendingIds := s.pendingIds[1..])
    case TakeBatch =>
      s.(ticker := Batch(s.batches[0]), batches := s.batches[1..] + [s.currentBatch], currentBatch := [])
    case LoadNext =>
      var id, rest := s.ticker.rest[0], s.ticker.rest[1..];
      s.(ticker := if id in s.idToTrace then Evaluating(s.idToTrace[id], id, rest) else Batch(rest))
    case Decide(answers) =>
      var h, d := s.ticker.h, Verdict(answers);
      s.(traces := s.traces[h := s.traces[h].(decision := d)],
         ticker := if d == Sampled then Forwarding(h, s.traces[h].received, s.ticker.rest) else Batch(s.ticker.rest))
    case ForwardSampled =>
      var h := s.ticker.h;
      s.(traces := s.traces[h := s.traces[h].(forwarded := s.traces[h].forwarded + s.ticker.spans)],
         ticker := Batch(s.ticker.rest))
    case EndTick => s.(ticker := Waiting)
  }

  /** The processor just built: empty tables, `numBatches` empty batches in the pipeline, idle goroutines. */
  function Init(maxNumTraces: nat, numBatches: nat, numWorkers: nat): State {
    State(maxNumTraces, [], map[], [], 0, [], [], seq(numBatches, _ => []), seq(numWorkers, _ => Idle), Waiting)
  }

  /** The labels can be executed one after the other from `s`. */
  predicate Runs(s: State, ls: seq<Label>)
    decreases |ls|
  {
    ls == [] || (Enabled(s, ls[0]) && Runs(Next(s, ls[0]), ls[1..]))
  }

  function Exec(s: State, ls: seq<Label>): State
    requires Runs(s, ls)
    decreases |ls|
  {
    if ls == [] then s else Exec(Next(s, ls[0]), ls[1..])
  }
}
