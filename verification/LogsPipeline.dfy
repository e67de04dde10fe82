/** One push of a log batch to ClickHouse: a producer loop that starts a goroutine per record under a limiter, one
    consumer, and a closer, around a bounded channel. Every interleaving is a sequence of labels. */
module LogsPipeline {

  const BUCKET_SECONDS: nat := 1800

  /** A log record of the batch with what its worker reads: the serialized resource, the fingerprint that would be
      computed for it, the two timestamps (0 when absent) and the time at which the worker looks at the clock. */
  datatype Record = Record(json: string, freshFp: string, ts: nat, ots: nat, clock: nat)

  datatype Row = Row(index: nat, bucket: nat, fp: string, ts: nat, ots: nat)

  datatype Worker =
    | Started
    | HasId
    | Bucketed
    | Creating
    | Sending(fp: string)
    | Returning(sent: bool, err: bool)
    | Released(sent: bool, err: bool)
    | Counted(sent: bool, err: bool)
    | Finished(sent: bool)

  datatype Producer = Looping | Acquired | Added | Left

  datatype Consumer = Receiving | Handling(row: Row) | Exited(err: bool) | Ended

  datatype State = State(
    recs: seq<Record>, oldestAllowedTs: nat, capacity: nat,
    producer: Producer, workers: seq<Worker>, inUse: int, producersWG: int,
    recordStream: seq<Row>, closed: bool, closes: nat, panicked: bool,
    consumer: Consumer, appended: seq<Row>,
    buckets: Registry,
    cancelled: bool, closerDone: bool, returned: bool)

  datatype Label =
    | Acquire | Add | Spawn | Leave
    | Step(i: nat) | FailId(i: nat)
    | Receive | SeeClosed | SeeCancelled | Append | FailAppend | EndConsumer
    | Close | Return
    | CancelParent

  // ---------------------------------------------------------------- what one record becomes

  function ObservedTs(r: Record): nat { if r.ots == 0 then r.clock else r.ots }

  function EventTs(r: Record): nat { if r.ts == 0 then ObservedTs(r) else r.ts }

  function BucketOf(ts: nat): nat { ts / 1_000_000_000 / BUCKET_SECONDS * BUCKET_SECONDS }

  function RowOf(r: Record, i: nat, fp: string): Row {
    Row(i, BucketOf(EventTs(r)), fp, EventTs(r), ObservedTs(r))
  }

  predicate Expired(s: State, i: nat)
    requires i < |s.recs|
  { EventTs(s.recs[i]) < s.oldestAllowedTs }

  function Bucket(s: State, i: nat): nat
    requires i < |s.recs|
  { BucketOf(EventTs(s.recs[i])) }

  // ---------------------------------------------------------------- one goroutine

  predicate WorkerEnabled(s: State, i: nat) {
    && i < |s.workers| && i < |s.recs| && !s.workers[i].Finished?
    && (s.workers[i].Sending? ==> s.closed || |s.recordStream| < s.capacity)
  }

  function NextPc(s: State, i: nat): Worker
    requires WorkerEnabled(s, i)
  {
    match s.workers[i]
    case Started => if Expired(s, i) then Returning(false, false) else HasId
    case HasId => Bucketed
    case Bucketed =>
      if Known(s.buckets, Bucket(s, i), s.recs[i].json)
      then Sending(s.buckets[Bucket(s, i)][s.recs[i].json]) else Creating
    case Creating =>
      if Known(s.buckets, Bucket(s, i), s.recs[i].json)
      then Sending(s.buckets[Bucket(s, i)][s.recs[i].json]) else Sending(s.recs[i].freshFp)
    case Sending(_) => Returning(true, false)
    case Returning(sent, err) => Released(sent, err)
    case Released(sent, err) => Counted(sent, err)
    case Counted(sent, _) => Finished(sent)
    case Finished(sent) => Finished(sent)
  }

  type Registry = map<nat, map<string, string>>

  predicate Known(reg: Registry, b: nat, json: string) { b in reg && json in reg[b] }

  /** `LoadOrStore` of an empty inner map for the bucket. */
  function WithBucket(reg: Registry, b: nat): Registry { if b in reg then reg else reg[b := map[]] }

  /** `LoadOrStore` of a fingerprint in the inner map: the first one stored stays. */
  function WithFingerprint(reg: Registry, b: nat, json: string, fp: string): Registry {
    if b in reg && json !in reg[b] then reg[b := reg[b][json := fp]] else reg
  }

  function RegistryAfter(s: State, i: nat): Registry
    requires WorkerEnabled(s, i)
  {
    match s.workers[i]
    case HasId => WithBucket(s.buckets, Bucket(s, i))
    case Creating => WithFingerprint(s.buckets, Bucket(s, i), s.recs[i].json, s.recs[i].freshFp)
    case _ => s.buckets
  }

  /** What the step does to the shared state. A send on a closed channel panics. */
  function Effect(s: State, i: nat): State
    requires WorkerEnabled(s, i)
  {
    var w := s.workers[i];
    s.(buckets := RegistryAfter(s, i),
       panicked := s.panicked || (w.Sending? && s.closed),
       recordStream := if w.Sending? && !s.closed then s.recordStream + [RowOf(s.recs[i], i, w.fp)] else s.recordStream,
       inUse := s.inUse - (if w.Returning? then 1 else 0),
       producersWG := s.producersWG - (if w.Released? then 1 else 0),
       cancelled := s.cancelled || (w.Counted? && w.err))
  }

  function WithWorker(s: State, i: nat, w: Worker): State
    requires i < |s.workers|
  { s.(workers := s.workers[i := w]) }

  // ---------------------------------------------------------------- the whole push

  predicate AllFinished(s: State) { forall i :: 0 <= i < |s.workers| ==> s.workers[i].Finished? }

  predicate Enabled(s: State, l: Label) {
    match l
    case Acquire => s.producer.Looping? && |s.workers| < |s.recs| && s.inUse < s.capacity
    case Add => s.producer.Acquired?
    case Spawn => s.producer.Added?
    case Leave => s.producer.Looping? && (|s.workers| == |s.recs| || s.cancelled)
    case Step(i) => WorkerEnabled(s, i)
    case FailId(i) => WorkerEnabled(s, i) && s.workers[i].Started? && !Expired(s, i)
    case Receive => s.consumer.Receiving? && s.recordStream != []
    case SeeClosed => s.consumer.Receiving? && s.recordStream == [] && s.closed
    case SeeCancelled => s.consumer.Receiving? && s.cancelled
    case Append => s.consumer.Handling?
    case FailAppend => s.consumer.Handling?
    case EndConsumer => s.consumer.Exited?
    case Close => s.producer.Left? && !s.closerDone && s.producersWG == 0
    case Return => s.producer.Left? && !s.returned && AllFinished(s) && s.consumer.Ended?
    case CancelParent => true
  }

  /** `closeOnce.Do(close(recordStream))`. */
  function ClosedOnce(s: State): State {
    if s.closes > 0 then s else s.(closed := true, closes := s.closes + 1)
  }

  function ProducerAfter(s: State, l: Label): Producer {
    if l.Acquire? then Acquired else if l.Add? then Added else if l.Spawn? then Looping else if l.Leave? then Left
    else s.producer
  }

  function ProducerNext(s: State, l: Label): State {
    s.(producer := ProducerAfter(s, l),
       inUse := s.inUse + (if l.Acquire? then 1 else 0),
       producersWG := s.producersWG + (if l.Add? then 1 else 0),
       workers := if l.Spawn? then s.workers + [Started] else s.workers)
  }

  function ConsumerAfter(s: State, l: Label): Consumer
    requires l.Receive? ==> s.recordStream != []
  {
    if l.Receive? then Handling(s.recordStream[0])
    else if l.SeeClosed? || l.SeeCancelled? then Exited(false)
    else if l.Append? then Receiving
    else if l.FailAppend? then Exited(true)
    else if l.EndConsumer? then Ended
    else s.consumer
  }

  function ConsumerNext(s: State, l: Label): State
    requires l.Receive? ==> s.recordStream != []
  {
    s.(consumer := ConsumerAfter(s, l),
       recordStream := if l.Receive? then s.recordStream[1..] else s.recordStream,
       appended := if l.Append? && s.consumer.Handling? then s.appended + [s.consumer.row] else s.appended,
       cancelled := s.cancelled || (l.EndConsumer? && s.consumer == Exited(true)))
  }

  function MainNext(s: State, l: Label): State {
    var t := if l.Close? || l.Return? then ClosedOnce(s) else s;
    t.(closerDone := t.closerDone || l.Close?, returned := t.returned || l.Return?,
       cancelled := t.cancelled || l.CancelParent?)
  }

  predicate OfWorker(l: Label) { l.Step? || l.FailId? }

  predicate OfProducer(l: Label) { l.Acquire? || l.Add? || l.Spawn? || l.Leave? }

  predicate OfConsumer(l: Label) {
    l.Receive? || l.SeeClosed? || l.SeeCancelled? || l.Append? || l.FailAppend? || l.EndConsumer?
  }

  function Next(s: State, l: Label): State
    requires Enabled(s, l)
  {
    if l.Step? then WithWorker(Effect(s, l.i), l.i, NextPc(s, l.i))
    else if l.FailId? then WithWorker(s, l.i, Returning(false, true))
    else if OfProducer(l) then ProducerNext(s, l)
    else if OfConsumer(l) then ConsumerNext(s, l)
    else MainNext(s, l)
  }

  function Init(recs: seq<Record>, oldestAllowedTs: nat, capacity: nat): State {
    State(recs, oldestAllowedTs, capacity, Looping, [], 0, 0, [], false, 0, false,
          Receiving, [], map[], false, false, false)
  }

  predicate Runs(s: State, ls: seq<Label>)
    decreases |ls|
  { ls == [] || (Enabled(s, ls[0]) && Runs(Next(s, ls[0]), ls[1..])) }

  function Exec(s: State, ls: seq<Label>): State
    requires Runs(s, ls)
    decreases |ls|
  { if ls == [] then s else Exec(Next(s, ls[0]), ls[1..]) }
}
