/** Safety of the push over every interleaving, with errors and cancellation at any point. */
module LogsPipelineProof {
  import opened Sums
  import opened LogsPipeline

  // ---------------------------------------------------------------- the channel is closed once, after all sends

  predicate PastDone(w: Worker) { w.Counted? || w.Finished? }

  function Waits(w: Worker): int { One(!PastDone(w)) }

  function Slot(w: Worker): int { One(!PastDone(w) && !w.Released?) }

  ghost const WaitsFor: Worker -> int := (w: Worker) => Waits(w)

  ghost const SlotOf: Worker -> int := (w: Worker) => Slot(w)

  ghost predicate CountersOk(s: State) {
    && s.producersWG == Total(s.workers, WaitsFor) + One(s.producer.Added?)
    && s.inUse == Total(s.workers, SlotOf) + One(s.producer.Acquired? || s.producer.Added?)
    && s.inUse <= s.capacity
    && |s.workers| + One(s.producer.Acquired? || s.producer.Added?) <= |s.recs|
  }

  ghost predicate ChannelOk(s: State) {
    && !s.panicked && |s.recordStream| <= s.capacity
    && s.closes <= 1 && (s.closed <==> s.closes == 1)
    && (s.closed ==> s.producer.Left? && forall i :: 0 <= i < |s.workers| ==> PastDone(s.workers[i]))
    && (s.closerDone || s.returned ==> s.closed)
  }

  lemma NobodyWaits(s: State)
    requires CountersOk(s) && s.producersWG == 0
    ensures forall i :: 0 <= i < |s.workers| ==> PastDone(s.workers[i])
  {
    forall i | 0 <= i < |s.workers| ensures PastDone(s.workers[i]) {
      TotalAtLeast(s.workers, i, WaitsFor);
    }
  }

  lemma CountersStep(s: State, i: nat)
    requires CountersOk(s) && WorkerEnabled(s, i)
    ensures CountersOk(Next(s, Step(i)))
  {
    TotalUpdate(s.workers, i, NextPc(s, i), WaitsFor);
    TotalUpdate(s.workers, i, NextPc(s, i), SlotOf);
    TotalAtLeast(s.workers, i, SlotOf);
  }

  lemma CountersProducer(s: State, l: Label)
    requires CountersOk(s) && Enabled(s, l) && OfProducer(l)
    ensures CountersOk(ProducerNext(s, l))
  {
    if l.Spawn? {
      TotalSnoc(s.workers, Started, WaitsFor);
      TotalSnoc(s.workers, Started, SlotOf);
    }
  }

  lemma CountersFail(s: State, i: nat)
    requires CountersOk(s) && Enabled(s, FailId(i))
    ensures CountersOk(Next(s, FailId(i)))
  {
    TotalUpdate(s.workers, i, Returning(false, true), WaitsFor);
    TotalUpdate(s.workers, i, Returning(false, true), SlotOf);
  }

  /** What the consumer and the main goroutine never touch. */
  ghost predicate SameWorkers(s: State, s': State) {
    && s'.producer == s.producer && s'.workers == s.workers && s'.producersWG == s.producersWG
    && s'.inUse == s.inUse && s'.capacity == s.capacity && s'.recs == s.recs
  }

  lemma ConsumerFrame(s: State, l: Label)
    requires OfConsumer(l) && (l.Receive? ==> s.recordStream != [])
    ensures SameWorkers(s, ConsumerNext(s, l))
  {
    if l.Receive? { assert SameWorkers(s, ConsumerNext(s, Receive)); }
    else if l.Append? { assert SameWorkers(s, ConsumerNext(s, Append)); }
    else if l.EndConsumer? { assert SameWorkers(s, ConsumerNext(s, EndConsumer)); }
  }

  lemma MainFrame(s: State, l: Label)
    ensures SameWorkers(s, MainNext(s, l))
  {}

  lemma CountersNext(s: State, l: Label)
    requires CountersOk(s) && Enabled(s, l)
    ensures CountersOk(Next(s, l))
  {
    if l.Step? { CountersStep(s, l.i); }
    else if l.FailId? { CountersFail(s, l.i); }
    else if OfProducer(l) { CountersProducer(s, l); }
    else if OfConsumer(l) { ConsumerFrame(s, l); }
    else { MainFrame(s, l); }
  }

  /** A goroutine that is about to send finds the channel open. */
  lemma SendsAreOpen(s: State, i: nat)
    requires ChannelOk(s) && i < |s.workers| && s.workers[i].Sending?
    ensures !s.closed
  {
    assert s.closed ==> PastDone(s.workers[i]);
  }

  lemma ChannelNext(s: State, l: Label)
    requires CountersOk(s) && ChannelOk(s) && Enabled(s, l)
    ensures ChannelOk(Next(s, l))
  {
    if l.Step? {
      ChannelStep(s, l.i);
    } else if l.Close? {
      NobodyWaits(s);
    }
  }

  lemma ChannelStep(s: State, i: nat)
    requires ChannelOk(s) && WorkerEnabled(s, i)
    ensures ChannelOk(Next(s, Step(i)))
  {
    if s.workers[i].Sending? { SendsAreOpen(s, i); }
  }

  // ---------------------------------------------------------------- every record is in one place

  ghost function Copies(rows: seq<Row>, i: nat): nat {
    if rows == [] then 0 else One(rows[0].index == i) + Copies(rows[1..], i)
  }

  lemma {:induction false} CopiesSnoc(rows: seq<Row>, row: Row, i: nat)
    ensures Copies(rows + [row], i) == Copies(rows, i) + One(row.index == i)
  {
    if rows != [] {
      assert (rows + [row])[1..] == rows[1..] + [row];
      CopiesSnoc(rows[1..], row, i);
    }
  }

  predicate Sent(w: Worker) {
    match w
    case Returning(sent, _) => sent
    case Released(sent, _) => sent
    case Counted(sent, _) => sent
    case Finished(sent) => sent
    case _ => false
  }

  ghost function InConsumer(c: Consumer, i: nat): nat { One(c.Handling? && c.row.index == i) }

  /** Rows of record `i` that were sent and not lost by a consumer error. */
  ghost function Alive(s: State, i: nat): nat {
    Copies(s.recordStream, i) + InConsumer(s.consumer, i) + Copies(s.appended, i)
  }

  predicate Clean(s: State) { !s.cancelled && s.consumer != Exited(true) }

  ghost predicate Accounted(s: State, i: nat) {
    var sent := One(i < |s.workers| && Sent(s.workers[i]));
    Alive(s, i) <= sent && (Clean(s) ==> Alive(s, i) == sent)
  }

  /** A goroutine that returned without sending had an expired record or failed. */
  predicate SkippedOk(s: State, i: nat)
    requires i < |s.workers| && i < |s.recs|
  {
    match s.workers[i]
    case Returning(sent, err) => sent || err || Expired(s, i)
    case Released(sent, err) => sent || err || Expired(s, i)
    case Counted(sent, err) => sent || err || Expired(s, i)
    case Finished(sent) => sent || s.cancelled || Expired(s, i)
    case Started => true
    case _ => !Expired(s, i)
  }

  /** A sent record was not expired. */
  predicate SentOk(s: State, i: nat)
    requires i < |s.workers| && i < |s.recs|
  { Sent(s.workers[i]) ==> !Expired(s, i) }

  lemma AccountedNext(s: State, l: Label, i: nat)
    requires ChannelOk(s) && Enabled(s, l) && Accounted(s, i)
    ensures Accounted(Next(s, l), i)
  {
    if l.Step? { AccountedStep(s, l.i, i); }
    else if l.FailId? { AccountedFail(s, l.i, i); }
    else if OfProducer(l) { AccountedProducer(s, l, i); }
    else if OfConsumer(l) { AccountedConsumer(s, l, i); }
    else { AccountedMain(s, l, i); }
  }

  lemma AccountedFail(s: State, j: nat, i: nat)
    requires Enabled(s, FailId(j)) && Accounted(s, i)
    ensures Accounted(Next(s, FailId(j)), i)
  {
    assert i != j && i < |s.workers| ==> Next(s, FailId(j)).workers[i] == s.workers[i];
  }

  lemma AccountedProducer(s: State, l: Label, i: nat)
    requires OfProducer(l) && Accounted(s, i)
    ensures Accounted(ProducerNext(s, l), i)
  {}

  lemma AccountedConsumer(s: State, l: Label, i: nat)
    requires OfConsumer(l) && Enabled(s, l) && Accounted(s, i)
    ensures Accounted(ConsumerNext(s, l), i)
  {
    ConsumerFrame(s, l);
    if l.Append? { CopiesSnoc(s.appended, s.consumer.row, i); }
  }

  lemma AccountedMain(s: State, l: Label, i: nat)
    requires Accounted(s, i)
    ensures Accounted(MainNext(s, l), i)
  {}

  lemma AccountedStep(s: State, j: nat, i: nat)
    requires ChannelOk(s) && WorkerEnabled(s, j) && Accounted(s, i)
    ensures Accounted(Next(s, Step(j)), i)
  {
    var s' := Next(s, Step(j));
    if s.workers[j].Sending? {
      SendsAreOpen(s, j);
      CopiesSnoc(s.recordStream, RowOf(s.recs[j], j, s.workers[j].fp), i);
    }
    assert i != j && i < |s.workers| ==> s'.workers[i] == s.workers[i];
  }

  // ---------------------------------------------------------------- fingerprints

  /** The registry holds `fp` for the bucket and resource of record `i`. */
  predicate Registered(s: State, i: nat, fp: string) {
    && i < |s.recs| && Known(s.buckets, Bucket(s, i), s.recs[i].json)
    && s.buckets[Bucket(s, i)][s.recs[i].json] == fp
  }

  predicate RowOk(s: State, row: Row) {
    Registered(s, row.index, row.fp) && row == RowOf(s.recs[row.index], row.index, row.fp)
  }

  predicate WorkerFpOk(s: State, i: nat)
    requires i < |s.workers| && i < |s.recs|
  {
    match s.workers[i]
    case Bucketed => Bucket(s, i) in s.buckets
    case Creating => Bucket(s, i) in s.buckets
    case Sending(fp) => Registered(s, i, fp)
    case _ => true
  }

  /** Every fingerprint in the registry was computed for a record of the batch with that bucket and resource. */
  ghost predicate RegistryOk(s: State) {
    forall b, j :: Known(s.buckets, b, j) ==> Computed(s, b, j, s.buckets[b][j])
  }

  ghost predicate Computed(s: State, b: nat, j: string, fp: string) {
    exists i :: 0 <= i < |s.recs| && Bucket(s, i) == b && s.recs[i].json == j && s.recs[i].freshFp == fp
  }

  ghost predicate RowsOk(s: State) {
    && (forall k :: 0 <= k < |s.recordStream| ==> RowOk(s, s.recordStream[k]))
    && (forall k :: 0 <= k < |s.appended| ==> RowOk(s, s.appended[k]))
    && (s.consumer.Handling? ==> RowOk(s, s.consumer.row))
  }

  ghost predicate WorkerOk(s: State, i: nat)
    requires i < |s.workers| && i < |s.recs|
  { WorkerFpOk(s, i) && SkippedOk(s, i) && SentOk(s, i) }

  ghost predicate WorkersOk(s: State) {
    |s.workers| <= |s.recs| && forall i :: 0 <= i < |s.workers| ==> WorkerOk(s, i)
  }

  ghost predicate Inv(s: State) {
    && CountersOk(s) && ChannelOk(s) && WorkersOk(s) && RowsOk(s) && RegistryOk(s)
    && forall i :: Accounted(s, i)
  }

  /** The registry only grows: a key keeps its fingerprint. */
  ghost predicate Extends(reg: Registry, reg': Registry) {
    && (forall b :: b in reg ==> b in reg')
    && (forall b, j :: Known(reg, b, j) ==> Known(reg', b, j) && reg'[b][j] == reg[b][j])
  }

  lemma RegistryExtends(s: State, i: nat)
    requires WorkerEnabled(s, i)
    ensures Extends(s.buckets, RegistryAfter(s, i))
    ensures s.workers[i].HasId? ==> Bucket(s, i) in RegistryAfter(s, i)
  {}

  ghost predicate Grows(s: State, s': State) {
    s'.recs == s.recs && s'.oldestAllowedTs == s.oldestAllowedTs && Extends(s.buckets, s'.buckets)
  }

  lemma GrowsNext(s: State, l: Label)
    requires Enabled(s, l)
    ensures Grows(s, Next(s, l))
    ensures !l.Step? ==> Next(s, l).buckets == s.buckets
  {
    if l.Step? { RegistryExtends(s, l.i); } else { OnlyStepsRegister(s, l); }
  }

  lemma OnlyStepsRegister(s: State, l: Label)
    requires Enabled(s, l) && !l.Step?
    ensures var s' := Next(s, l);
      s'.recs == s.recs && s'.oldestAllowedTs == s.oldestAllowedTs && s'.buckets == s.buckets
  {
    if OfProducer(l) {} else if OfConsumer(l) {} else if !l.FailId? { MainFrame(s, l); }
  }

  lemma RowGrows(s: State, s': State, row: Row)
    requires Grows(s, s') && RowOk(s, row)
    ensures RowOk(s', row)
  {}

  lemma RegistryNext(s: State, l: Label)
    requires RegistryOk(s) && Enabled(s, l)
    ensures RegistryOk(Next(s, l))
  {
    var s' := Next(s, l);
    GrowsNext(s, l);
    forall b, j | Known(s'.buckets, b, j) ensures Computed(s', b, j, s'.buckets[b][j]) {
      if Known(s.buckets, b, j) {
        assert Computed(s, b, j, s.buckets[b][j]);
        var i :| 0 <= i < |s.recs| && Bucket(s, i) == b && s.recs[i].json == j && s.recs[i].freshFp == s.buckets[b][j];
        assert Bucket(s', i) == b;
      } else {
        NewFingerprint(s, l.i, b, j);
        assert Bucket(s', l.i) == b;
      }
    }
  }

  lemma NewFingerprint(s: State, i: nat, b: nat, j: string)
    requires WorkerEnabled(s, i) && !Known(s.buckets, b, j) && Known(RegistryAfter(s, i), b, j)
    ensures Bucket(s, i) == b && s.recs[i].json == j && s.recs[i].freshFp == RegistryAfter(s, i)[b][j]
  {}

  lemma RowsNext(s: State, l: Label)
    requires ChannelOk(s) && WorkersOk(s) && RowsOk(s) && Enabled(s, l)
    ensures RowsOk(Next(s, l))
  {
    var s' := Next(s, l);
    GrowsNext(s, l);
    forall row | RowOk(s, row) ensures RowOk(s', row) { RowGrows(s, s', row); }
    if l.Step? && s.workers[l.i].Sending? {
      SendsAreOpen(s, l.i);
      assert WorkerOk(s, l.i);
      assert RowOk(s, RowOf(s.recs[l.i], l.i, s.workers[l.i].fp));
    }
  }

  lemma FpOkStep(s: State, i: nat)
    requires WorkerEnabled(s, i) && WorkerFpOk(s, i)
    ensures WorkerFpOk(Next(s, Step(i)), i)
  {
    RegistryExtends(s, i);
    var s' := Next(s, Step(i));
    assert s'.workers[i] == NextPc(s, i) && s'.buckets == RegistryAfter(s, i) && Bucket(s', i) == Bucket(s, i);
  }

  lemma SkippedOkStep(s: State, i: nat)
    requires WorkerEnabled(s, i) && SkippedOk(s, i) && SentOk(s, i)
    ensures SkippedOk(Next(s, Step(i)), i) && SentOk(Next(s, Step(i)), i)
  {
    var s' := Next(s, Step(i));
    assert s'.workers[i] == NextPc(s, i) && Expired(s', i) == Expired(s, i);
  }

  lemma WorkerOkGrows(s: State, s': State, i: nat)
    requires i < |s.workers| && i < |s.recs| && WorkerOk(s, i)
    requires Grows(s, s') && i < |s'.workers| && s'.workers[i] == s.workers[i] && (s.cancelled ==> s'.cancelled)
    ensures WorkerOk(s', i)
  {}

  lemma CancelledStays(s: State, l: Label)
    requires Enabled(s, l) && s.cancelled
    ensures Next(s, l).cancelled
  {
    if l.Step? { assert Effect(s, l.i).cancelled; }
    else if OfProducer(l) { assert ProducerNext(s, l).cancelled; }
    else if OfConsumer(l) { assert ConsumerNext(s, l).cancelled; }
    else if !l.FailId? { assert MainNext(s, l).cancelled; }
  }

  lemma WorkersFrame(s: State, l: Label)
    requires Enabled(s, l) && !OfWorker(l)
    ensures Next(s, l).workers == s.workers + (if l.Spawn? then [Started] else [])
  {
    if OfConsumer(l) { ConsumerFrame(s, l); }
    else if !OfProducer(l) { MainFrame(s, l); }
  }

  /** Only a goroutine's own step changes its place. */
  lemma OthersStay(s: State, l: Label, i: nat)
    requires Enabled(s, l) && i < |s.workers| && !(OfWorker(l) && l.i == i)
    ensures i < |Next(s, l).workers| && Next(s, l).workers[i] == s.workers[i]
  {
    if !OfWorker(l) { WorkersFrame(s, l); }
  }

  lemma WorkersNext(s: State, l: Label)
    requires CountersOk(s) && WorkersOk(s) && Enabled(s, l)
    ensures WorkersOk(Next(s, l))
  {
    var s' := Next(s, l);
    GrowsNext(s, l);
    CountersNext(s, l);
    forall i | 0 <= i < |s'.workers| ensures WorkerOk(s', i) {
      if i < |s.workers| { assert WorkerOk(s, i); }
      if l.Step? && l.i == i {
        FpOkStep(s, i);
        SkippedOkStep(s, i);
      } else if i < |s.workers| && !(l.FailId? && l.i == i) {
        OthersStay(s, l, i);
        if s.cancelled { CancelledStays(s, l); }
        WorkerOkGrows(s, s', i);
      } else {
        FreshWorker(s, l, i);
      }
    }
  }

  lemma FreshWorker(s: State, l: Label, i: nat)
    requires Enabled(s, l) && i < |Next(s, l).workers| && i < |Next(s, l).recs|
    requires (l.FailId? && l.i == i) || (i >= |s.workers| && !l.Step?)
    ensures WorkerOk(Next(s, l), i)
  {
    if l.FailId? {
      assert Next(s, l).workers[i] == Returning(false, true);
    } else {
      WorkersFrame(s, l);
      assert Next(s, l).workers[i] == Started;
    }
  }

  lemma InvNext(s: State, l: Label)
    requires Inv(s) && Enabled(s, l)
    ensures Inv(Next(s, l))
  {
    CountersNext(s, l);
    ChannelNext(s, l);
    WorkersNext(s, l);
    RowsNext(s, l);
    RegistryNext(s, l);
    forall i ensures Accounted(Next(s, l), i) {
      assert Accounted(s, i);
      AccountedNext(s, l, i);
    }
  }

  lemma {:induction false} InvAlways(s: State, ls: seq<Label>)
    requires Inv(s) && Runs(s, ls)
    ensures Inv(Exec(s, ls))
    decreases |ls|
  {
    if ls != [] {
      InvNext(s, ls[0]);
      InvAlways(Next(s, ls[0]), ls[1..]);
    }
  }
}
