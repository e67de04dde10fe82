/** What a push guarantees: safety in every run, exact delivery and completion when nothing goes wrong, and exactly
    when a push whose consumer has stopped can still return. */
module LogsPipelineResults {
  import opened Sums
  import opened LogsPipeline
  import opened LogsPipelineProof

  /** The record is too old: its time, or the time it was observed when it has none, or the time its goroutine looks at
      the clock when it has neither, is before the oldest allowed. */
  predicate TooOld(r: Record, oldestAllowedTs: nat) {
    || (r.ts != 0 && r.ts < oldestAllowedTs)
    || (r.ts == 0 && r.ots != 0 && r.ots < oldestAllowedTs)
    || (r.ts == 0 && r.ots == 0 && r.clock < oldestAllowedTs)
  }

  /** The row has the times of the record, and its bucket is the half hour of them that starts on a multiple of 1800. */
  predicate TellsTimesOf(row: Row, r: Record) {
    && (r.ots != 0 ==> row.ots == r.ots) && (r.ots == 0 ==> row.ots == r.clock)
    && (r.ts != 0 ==> row.ts == r.ts) && (r.ts == 0 ==> row.ts == row.ots)
    && row.bucket % 1800 == 0 && row.bucket <= row.ts / 1_000_000_000 < row.bucket + 1800
  }

  lemma RowsTellTimes(r: Record, i: nat, fp: string)
    ensures TellsTimesOf(RowOf(r, i, fp), r) && RowOf(r, i, fp).index == i && RowOf(r, i, fp).fp == fp
  {}

  /** Why the producer and the consumer have stopped when nothing was cancelled. */
  ghost predicate EndOk(s: State) {
    && (s.producer.Left? && !s.cancelled ==> |s.workers| == |s.recs|)
    && (s.consumer.Exited? || s.consumer.Ended? ==>
          || s.cancelled || s.consumer == Exited(true)
          || (s.closed && s.recordStream == []))
    && (s.returned ==> AllFinished(s) && s.consumer.Ended? && s.producer.Left?)
  }

  lemma EndNext(s: State, l: Label)
    requires Inv(s) && EndOk(s) && Enabled(s, l)
    ensures EndOk(Next(s, l))
  {
    if l.Step? && s.workers[l.i].Sending? { SendsAreOpen(s, l.i); }
  }

  lemma {:induction false} InitOk(recs: seq<Record>, oldestAllowedTs: nat, capacity: nat)
    ensures var s := Init(recs, oldestAllowedTs, capacity); Inv(s) && EndOk(s)
  {
    var s := Init(recs, oldestAllowedTs, capacity);
    forall i ensures Accounted(s, i) {}
  }

  lemma {:induction false} AlwaysOk(s: State, ls: seq<Label>)
    requires Inv(s) && EndOk(s) && Runs(s, ls)
    ensures Inv(Exec(s, ls)) && EndOk(Exec(s, ls))
    ensures Exec(s, ls).recs == s.recs && Exec(s, ls).capacity == s.capacity
    ensures Exec(s, ls).oldestAllowedTs == s.oldestAllowedTs
    decreases |ls|
  {
    if ls != [] {
      InvNext(s, ls[0]);
      EndNext(s, ls[0]);
      GrowsNext(s, ls[0]);
      AlwaysOk(Next(s, ls[0]), ls[1..]);
    }
  }

  lemma RowIsOfRecord(s: State, k: nat)
    requires Inv(s) && k < |s.appended|
    ensures var row := s.appended[k];
      && row.index < |s.recs| && TellsTimesOf(row, s.recs[row.index])
      && row.bucket in s.buckets && s.recs[row.index].json in s.buckets[row.bucket]
      && s.buckets[row.bucket][s.recs[row.index].json] == row.fp
  {
    var row := s.appended[k];
    assert RowOk(s, row);
    RowsTellTimes(s.recs[row.index], row.index, row.fp);
  }

  /** In every run, with errors and cancellation anywhere: the channel is closed at most once, only when every started
      goroutine is past its send, and no send meets a closed channel; the limiter bounds the goroutines at work. No
      record is appended twice or when too old, and rows have the times of their records. */
  lemma ChannelSafety(recs: seq<Record>, oldestAllowedTs: nat, capacity: nat, ls: seq<Label>)
    requires Runs(Init(recs, oldestAllowedTs, capacity), ls)
    ensures var s := Exec(Init(recs, oldestAllowedTs, capacity), ls);
      && !s.panicked && s.closes <= 1
      && (s.closed ==> s.producer.Left? && forall i :: 0 <= i < |s.workers| ==> PastDone(s.workers[i]))
      && |s.recordStream| <= capacity && 0 <= s.inUse <= capacity && s.producersWG >= 0
      && (forall i :: 0 <= i < |recs| ==> Copies(s.appended, i) <= One(!TooOld(recs[i], oldestAllowedTs)))
      && forall k :: 0 <= k < |s.appended| ==>
           s.appended[k].index < |recs| && TellsTimesOf(s.appended[k], recs[s.appended[k].index])
  {
    InitOk(recs, oldestAllowedTs, capacity);
    AlwaysOk(Init(recs, oldestAllowedTs, capacity), ls);
    var s := Exec(Init(recs, oldestAllowedTs, capacity), ls);
    TotalNonNegative(s.workers, SlotOf);
    TotalNonNegative(s.workers, WaitsFor);
    forall i | 0 <= i < |recs| ensures Copies(s.appended, i) <= One(!TooOld(recs[i], oldestAllowedTs)) {
      assert Accounted(s, i);
      if i < |s.workers| { assert WorkerOk(s, i); }
    }
    forall k | 0 <= k < |s.appended|
      ensures s.appended[k].index < |recs| && TellsTimesOf(s.appended[k], recs[s.appended[k].index])
    {
      RowIsOfRecord(s, k);
    }
  }

  /** Rows of the same bucket and resource carry the same fingerprint. */
  predicate AgreeOnFp(recs: seq<Record>, a: Row, b: Row) {
    && a.index < |recs| && b.index < |recs|
    && (a.bucket == b.bucket && recs[a.index].json == recs[b.index].json ==> a.fp == b.fp)
  }

  lemma ReturnedCleanly(s: State)
    requires Inv(s) && EndOk(s) && s.returned && !s.cancelled
    ensures forall i :: 0 <= i < |s.recs| ==>
      Copies(s.appended, i) == One(!TooOld(s.recs[i], s.oldestAllowedTs))
  {
    forall i | 0 <= i < |s.recs| ensures Copies(s.appended, i) == One(!TooOld(s.recs[i], s.oldestAllowedTs)) {
      assert Accounted(s, i) && WorkerOk(s, i);
    }
  }

  lemma RowsAgree(s: State)
    requires Inv(s)
    ensures forall k, l :: 0 <= k < |s.appended| && 0 <= l < |s.appended| ==>
      AgreeOnFp(s.recs, s.appended[k], s.appended[l])
  {}

  /** A push that returns without an error or cancellation has appended each record that is not expired exactly once and
      nothing else. Each row has the times of its record and their bucket, and the fingerprint that the registry ends
      with for its bucket and resource: rows that agree on these agree on the fingerprint. */
  lemma DeliveredExactlyOnce(recs: seq<Record>, oldestAllowedTs: nat, capacity: nat, ls: seq<Label>)
    requires Runs(Init(recs, oldestAllowedTs, capacity), ls)
    requires var s := Exec(Init(recs, oldestAllowedTs, capacity), ls); s.returned && !s.cancelled
    ensures var s := Exec(Init(recs, oldestAllowedTs, capacity), ls);
      && (forall i :: 0 <= i < |recs| ==> Copies(s.appended, i) == One(!TooOld(recs[i], oldestAllowedTs)))
      && (forall k :: 0 <= k < |s.appended| ==>
            var row := s.appended[k];
            && row.index < |recs| && TellsTimesOf(row, recs[row.index])
            && row.bucket in s.buckets && recs[row.index].json in s.buckets[row.bucket]
            && s.buckets[row.bucket][recs[row.index].json] == row.fp)
      && (forall k, l :: 0 <= k < |s.appended| && 0 <= l < |s.appended| ==>
            AgreeOnFp(recs, s.appended[k], s.appended[l]))
      && (forall b, j :: Known(s.buckets, b, j) ==> Computed(s, b, j, s.buckets[b][j]))
  {
    InitOk(recs, oldestAllowedTs, capacity);
    AlwaysOk(Init(recs, oldestAllowedTs, capacity), ls);
    ReturnedCleanly(Exec(Init(recs, oldestAllowedTs, capacity), ls));
    RowsAgree(Exec(Init(recs, oldestAllowedTs, capacity), ls));
    forall k | 0 <= k < |Exec(Init(recs, oldestAllowedTs, capacity), ls).appended| {
      RowIsOfRecord(Exec(Init(recs, oldestAllowedTs, capacity), ls), k);
    }
  }

  // ---------------------------------------------------------------- every run is finite

  function WorkerRank(w: Worker): int {
    match w
    case Started => 12
    case HasId => 11
    case Bucketed => 10
    case Creating => 9
    case Sending(_) => 8
    case Returning(_, _) => 3
    case Released(_, _) => 2
    case Counted(_, _) => 1
    case Finished(_) => 0
  }

  ghost const RankOf: Worker -> int := (w: Worker) => WorkerRank(w)

  function ProducerRank(p: Producer): nat {
    match p case Looping => 3 case Acquired => 2 case Added => 1 case Left => 0
  }

  function ConsumerRank(c: Consumer): nat {
    match c case Receiving => 2 case Handling(_) => 4 case Exited(_) => 1 case Ended => 0
  }

  ghost function Rank(s: State): int {
    16 * (|s.recs| - |s.workers|) + Total(s.workers, RankOf) + 3 * |s.recordStream|
    + ProducerRank(s.producer) + ConsumerRank(s.consumer) + One(!s.closerDone) + One(!s.returned)
  }

  /** A step of a goroutine lowers its rank by more than it adds to the channel. */
  lemma PcFalls(s: State, i: nat)
    requires WorkerEnabled(s, i) && (s.workers[i].Sending? ==> !s.closed)
    ensures WorkerRank(NextPc(s, i)) + 3 * (|Effect(s, i).recordStream| - |s.recordStream|) < WorkerRank(s.workers[i])
  {}

  lemma RankWorker(s: State, l: Label)
    requires Inv(s) && Enabled(s, l) && OfWorker(l)
    ensures Rank(Next(s, l)) < Rank(s)
  {
    if l.Step? {
      if s.workers[l.i].Sending? { SendsAreOpen(s, l.i); }
      PcFalls(s, l.i);
      TotalUpdate(s.workers, l.i, NextPc(s, l.i), RankOf);
    } else {
      TotalUpdate(s.workers, l.i, Returning(false, true), RankOf);
    }
  }

  lemma RankFalls(s: State, l: Label)
    requires Inv(s) && Enabled(s, l) && l != CancelParent
    ensures Rank(Next(s, l)) < Rank(s)
  {
    if OfWorker(l) { RankWorker(s, l); }
    else if l.Spawn? { TotalSnoc(s.workers, Started, RankOf); }
  }

  lemma RankNonNegative(s: State)
    requires Inv(s)
    ensures Rank(s) >= 0
  {
    TotalNonNegative(s.workers, RankOf);
  }

  /** No run goes on for ever: cancellations apart, it has at most `Rank` steps. */
  lemma {:induction false} RunsAreBounded(s: State, ls: seq<Label>)
    requires Inv(s) && Runs(s, ls)
    requires forall k :: 0 <= k < |ls| ==> ls[k] != CancelParent
    ensures |ls| <= Rank(s)
    decreases |ls|
  {
    if ls == [] {
      RankNonNegative(s);
    } else {
      RankFalls(s, ls[0]);
      InvNext(s, ls[0]);
      RunsAreBounded(Next(s, ls[0]), ls[1..]);
    }
  }

  // ---------------------------------------------------------------- where a run can end

  /** Steps that are neither failures nor cancellations. */
  predicate Proper(l: Label) { !l.FailId? && !l.FailAppend? && !l.CancelParent? }

  ghost predicate Quiescent(s: State) { forall l :: Proper(l) ==> !Enabled(s, l) }

  /** A push that has come to a halt without returning has lost its consumer, the channel is full and a goroutine
      waits to send. */
  lemma HaltedShape(s: State)
    requires Inv(s) && EndOk(s) && s.capacity >= 1 && !s.returned && Quiescent(s)
    ensures s.consumer.Ended? && |s.recordStream| == s.capacity && !s.closed
    ensures exists i :: 0 <= i < |s.workers| && s.workers[i].Sending?
  {
    assert !Enabled(s, Receive) && !Enabled(s, SeeClosed) && !Enabled(s, Append) && !Enabled(s, EndConsumer);
    if i :| 0 <= i < |s.workers| && !s.workers[i].Finished? {
      assert !Enabled(s, Step(i));
      assert s.workers[i].Sending?;
    } else {
      var l := SomeoneCanGoOn(s);
    }
  }

  /** With every goroutine finished, the producer, the closer, the consumer or the main goroutine can go on. */
  lemma SomeoneCanGoOn(s: State) returns (l: Label)
    requires Inv(s) && EndOk(s) && s.capacity >= 1 && !s.returned && AllFinished(s)
    ensures Proper(l) && Enabled(s, l)
  {
    TotalZero(s.workers, WaitsFor);
    TotalZero(s.workers, SlotOf);
    l := match s.producer
      case Looping => if |s.workers| == |s.recs| then Leave else Acquire
      case Acquired => Add
      case Added => Spawn
      case Left =>
        if !s.closerDone then Close
        else match s.consumer
          case Receiving => if s.recordStream == [] then SeeClosed else Receive
          case Handling(_) => Append
          case Exited(_) => EndConsumer
          case Ended => Return;
  }

  /** When nothing fails and nothing is cancelled, a run that can go no further has returned; `DeliveredExactlyOnce`
      then says what it delivered. */
  lemma CleanPushReturns(recs: seq<Record>, oldestAllowedTs: nat, capacity: nat, ls: seq<Label>)
    requires capacity >= 1 && Runs(Init(recs, oldestAllowedTs, capacity), ls)
    requires var s := Exec(Init(recs, oldestAllowedTs, capacity), ls); Clean(s) && Quiescent(s)
    ensures Exec(Init(recs, oldestAllowedTs, capacity), ls).returned
  {
    InitOk(recs, oldestAllowedTs, capacity);
    AlwaysOk(Init(recs, oldestAllowedTs, capacity), ls);
    var s := Exec(Init(recs, oldestAllowedTs, capacity), ls);
    if !s.returned { HaltedShape(s); }
  }

  // ---------------------------------------------------------------- after the consumer has stopped

  predicate WillSend(s: State, i: nat)
    requires i < |s.workers| && i < |s.recs|
  {
    match s.workers[i]
    case Started => !Expired(s, i)
    case HasId => true
    case Bucketed => true
    case Creating => true
    case Sending(_) => true
    case _ => false
  }

  /** How many of the first `n` goroutines are still to send their record. */
  ghost function PendingSends(s: State, n: nat): nat
    requires n <= |s.workers| && n <= |s.recs|
  { if n == 0 then 0 else PendingSends(s, n - 1) + One(WillSend(s, n - 1)) }

  lemma {:induction false} PendingStep(s: State, i: nat, n: nat)
    requires WorkerEnabled(s, i) && !s.closed && n <= |s.workers| && n <= |s.recs|
    ensures var s' := Next(s, Step(i));
      PendingSends(s', n) + (if s.workers[i].Sending? && i < n then 1 else 0) == PendingSends(s, n)
  {
    if n > 0 {
      PendingStep(s, i, n - 1);
      var s' := Next(s, Step(i));
      assert n - 1 != i ==> s'.workers[n - 1] == s.workers[n - 1];
      assert Expired(s', n - 1) == Expired(s, n - 1);
    }
  }

  lemma {:induction false} PendingSame(s: State, s': State, n: nat)
    requires n <= |s.workers| && n <= |s.recs|
    requires s'.workers == s.workers && s'.recs == s.recs && s'.oldestAllowedTs == s.oldestAllowedTs
    ensures PendingSends(s', n) == PendingSends(s, n)
  {
    if n > 0 { PendingSame(s, s', n - 1); }
  }

  lemma {:induction false} PendingNone(s: State, n: nat)
    requires n <= |s.workers| && n <= |s.recs|
    requires forall i :: 0 <= i < n ==> !WillSend(s, i)
    ensures PendingSends(s, n) == 0
  {
    if n > 0 { PendingNone(s, n - 1); }
  }

  lemma {:induction false} PendingSome(s: State, n: nat, i: nat)
    requires i < n <= |s.workers| && n <= |s.recs| && WillSend(s, i)
    ensures PendingSends(s, n) >= 1
  {
    if i < n - 1 { PendingSome(s, n - 1, i); }
  }

  /** Rows in the channel and rows still to come. */
  ghost function Demand(s: State): nat
    requires |s.workers| <= |s.recs|
  { |s.recordStream| + PendingSends(s, |s.workers|) }

  /** The consumer has gone and the producer starts no further goroutine. */
  predicate Unattended(s: State) { s.consumer.Ended? && s.producer.Left? }

  lemma DemandStays(s: State, l: Label)
    requires Inv(s) && Unattended(s) && Enabled(s, l) && Proper(l)
    ensures Unattended(Next(s, l)) && Inv(Next(s, l)) && Demand(Next(s, l)) == Demand(s)
  {
    InvNext(s, l);
    if l.Step? {
      StepOpenOrDone(s, l.i);
    } else {
      PendingSame(s, Next(s, l), |s.workers|);
    }
  }

  lemma StepOpenOrDone(s: State, i: nat)
    requires Inv(s) && Enabled(s, Step(i))
    ensures |Next(s, Step(i)).workers| == |s.workers| <= |s.recs|
    ensures Demand(Next(s, Step(i))) == Demand(s)
  {
    if s.closed {
      assert PastDone(s.workers[i]);
      var s' := Next(s, Step(i));
      forall k | 0 <= k < |s.workers| ensures !WillSend(s, k) && !WillSend(s', k) { assert PastDone(s.workers[k]); }
      PendingNone(s, |s.workers|);
      PendingNone(s', |s.workers|);
    } else {
      PendingStep(s, i, |s.workers|);
    }
  }

  lemma {:induction false} DemandAlways(s: State, ls: seq<Label>)
    requires Inv(s) && Unattended(s) && Runs(s, ls) && forall k :: 0 <= k < |ls| ==> Proper(ls[k])
    ensures Inv(Exec(s, ls)) && Demand(Exec(s, ls)) == Demand(s)
    decreases |ls|
  {
    if ls != [] {
      DemandStays(s, ls[0]);
      DemandAlways(Next(s, ls[0]), ls[1..]);
    }
  }

  /** Once the consumer has stopped, and barring further failures, the push returns exactly when the channel has room
      for all the rows still to be sent: the sends watch the channel only, not the cancellation. */
  lemma ReturnsIffChannelHasRoom(s: State, ls: seq<Label>)
    requires Inv(s) && EndOk(s) && s.capacity >= 1 && Unattended(s)
    requires Runs(s, ls) && (forall k :: 0 <= k < |ls| ==> Proper(ls[k])) && Quiescent(Exec(s, ls))
    ensures Exec(s, ls).returned <==> Demand(s) <= s.capacity
  {
    AlwaysOk(s, ls);
    DemandAlways(s, ls);
    var s' := Exec(s, ls);
    if s'.returned {
      PendingNone(s', |s'.workers|);
    } else {
      HaltedShape(s');
      var i :| 0 <= i < |s'.workers| && s'.workers[i].Sending?;
      PendingSome(s', |s'.workers|, i);
    }
  }
}
