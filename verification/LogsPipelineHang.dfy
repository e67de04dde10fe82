/** Exactly when a push can hang for ever, in terms of the batch: by the number of records that are not expired. */
module LogsPipelineHang {
  import opened Sums
  import opened LogsPipeline
  import opened LogsPipelineProof
  import opened LogsPipelineResults

  // ---------------------------------------------------------------- how many records want to be sent

  predicate IsLive(r: Record, oldestAllowedTs: nat) { !TooOld(r, oldestAllowedTs) }

  /** The records from `k` on that are not expired. */
  function LiveFrom(recs: seq<Record>, oldestAllowedTs: nat, k: nat): nat
    requires k <= |recs|
    decreases |recs| - k
  {
    if k == |recs| then 0 else One(IsLive(recs[k], oldestAllowedTs)) + LiveFrom(recs, oldestAllowedTs, k + 1)
  }

  function Live(recs: seq<Record>, oldestAllowedTs: nat): nat { LiveFrom(recs, oldestAllowedTs, 0) }

  function LiveIndices(recs: seq<Record>, oldestAllowedTs: nat, k: nat): set<nat> {
    set i | k <= i < |recs| && IsLive(recs[i], oldestAllowedTs)
  }

  lemma LiveIndicesUnfold(recs: seq<Record>, oldestAllowedTs: nat, k: nat)
    requires k < |recs|
    ensures LiveIndices(recs, oldestAllowedTs, k)
         == LiveIndices(recs, oldestAllowedTs, k + 1) + if IsLive(recs[k], oldestAllowedTs) then {k} else {}
    ensures k !in LiveIndices(recs, oldestAllowedTs, k + 1)
  {}

  lemma {:induction false} LiveSet(recs: seq<Record>, oldestAllowedTs: nat, k: nat)
    requires k <= |recs|
    ensures |LiveIndices(recs, oldestAllowedTs, k)| == LiveFrom(recs, oldestAllowedTs, k)
    decreases |recs| - k
  {
    if k == |recs| {
      assert LiveIndices(recs, oldestAllowedTs, k) == {};
    } else {
      LiveSet(recs, oldestAllowedTs, k + 1);
      LiveIndicesUnfold(recs, oldestAllowedTs, k);
      var rest := LiveIndices(recs, oldestAllowedTs, k + 1);
      assert rest + {} == rest && |rest + {k}| == |rest| + 1;
    }
  }

  /** Different live records are at most as many as there are. */
  lemma AtMostLive(recs: seq<Record>, oldestAllowedTs: nat, some: set<nat>)
    requires forall i :: i in some ==> i < |recs| && IsLive(recs[i], oldestAllowedTs)
    ensures |some| <= Live(recs, oldestAllowedTs)
  {
    LiveSet(recs, oldestAllowedTs, 0);
    SubsetSize(some, LiveIndices(recs, oldestAllowedTs, 0));
  }

  lemma OneMoreLive(recs: seq<Record>, oldestAllowedTs: nat, some: set<nat>, i: nat)
    requires forall k :: k in some ==> k < |recs| && IsLive(recs[k], oldestAllowedTs)
    requires i !in some && i < |recs| && IsLive(recs[i], oldestAllowedTs)
    ensures |some| + 1 <= Live(recs, oldestAllowedTs)
  {
    assert |some + {i}| == |some| + 1;
    AtMostLive(recs, oldestAllowedTs, some + {i});
  }

  lemma TwoMoreLive(recs: seq<Record>, oldestAllowedTs: nat, some: set<nat>, i: nat, j: nat)
    requires forall k :: k in some ==> k < |recs| && IsLive(recs[k], oldestAllowedTs)
    requires i !in some && i < |recs| && IsLive(recs[i], oldestAllowedTs)
    requires j !in some && j < |recs| && IsLive(recs[j], oldestAllowedTs) && i != j
    ensures |some| + 2 <= Live(recs, oldestAllowedTs)
  {
    assert |some + {i}| == |some| + 1;
    OneMoreLive(recs, oldestAllowedTs, some + {i}, j);
  }

  function Indices(rows: seq<Row>): set<nat> { set k | 0 <= k < |rows| :: rows[k].index }

  lemma {:induction false} CopiesOfIndex(rows: seq<Row>, i: nat)
    ensures Copies(rows, i) > 0 <==> i in Indices(rows)
  {
    if rows != [] {
      CopiesOfIndex(rows[1..], i);
      assert rows == [rows[0]] + rows[1..];
      assert forall k :: 1 <= k < |rows| ==> rows[k] == rows[1..][k - 1];
      if i in Indices(rows[1..]) {
        var k :| 0 <= k < |rows[1..]| && rows[1..][k].index == i;
        assert rows[k + 1].index == i;
      }
      if i in Indices(rows) && rows[0].index != i {
        var k :| 0 <= k < |rows| && rows[k].index == i;
        assert rows[1..][k - 1].index == i;
      }
    }
  }

  /** Rows without a repeated index have as many indices. */
  lemma {:induction false} IndicesOfDistinct(rows: seq<Row>)
    requires forall i :: Copies(rows, i) <= 1
    ensures |Indices(rows)| == |rows|
  {
    if rows == [] {
      assert Indices(rows) == {};
    } else {
      var i := rows[0].index;
      forall j ensures Copies(rows[1..], j) <= 1 { assert Copies(rows, j) <= 1; }
      IndicesOfDistinct(rows[1..]);
      assert Copies(rows, i) <= 1;
      CopiesOfIndex(rows[1..], i);
      assert forall k :: 1 <= k < |rows| ==> rows[k] == rows[1..][k - 1];
      assert forall k :: 0 <= k < |rows[1..]| ==> rows[1..][k] == rows[k + 1];
      assert Indices(rows) == Indices(rows[1..]) + {i};
    }
  }

  // ---------------------------------------------------------------- a halted push is crowded

  /** The records of the rows in the channel: as many as rows, sent and not expired. */
  lemma ChannelIndices(s: State)
    requires Inv(s)
    ensures |Indices(s.recordStream)| == |s.recordStream|
    ensures forall i :: i in Indices(s.recordStream) ==>
      i < |s.workers| && i < |s.recs| && Sent(s.workers[i]) && IsLive(s.recs[i], s.oldestAllowedTs)
  {
    forall i ensures Copies(s.recordStream, i) <= 1 { assert Accounted(s, i); }
    IndicesOfDistinct(s.recordStream);
    forall i | i in Indices(s.recordStream)
      ensures i < |s.workers| && i < |s.recs| && Sent(s.workers[i]) && IsLive(s.recs[i], s.oldestAllowedTs)
    {
      CopiesOfIndex(s.recordStream, i);
      assert Accounted(s, i);
      assert WorkerOk(s, i);
    }
  }

  /** A goroutine at its send, or past it with its row sent, has a live record. */
  lemma SendersAreLive(s: State, i: nat)
    requires Inv(s) && i < |s.workers| && (s.workers[i].Sending? || Sent(s.workers[i]))
    ensures i < |s.recs| && IsLive(s.recs[i], s.oldestAllowedTs)
  {
    assert WorkerOk(s, i);
  }

  /** A row that is not sent, or lost, is not in the channel. */
  lemma NotInChannel(s: State, i: nat)
    requires Inv(s) && i < |s.workers| && (!Sent(s.workers[i]) || Alive(s, i) == 0)
    ensures i !in Indices(s.recordStream)
  {
    assert Accounted(s, i);
    CopiesOfIndex(s.recordStream, i);
  }

  /** A push that can go no further without having returned has more live records than the channel has slots. */
  lemma HaltedIsCrowded(s: State)
    requires Inv(s) && EndOk(s) && s.capacity >= 1 && !s.returned && Quiescent(s)
    ensures Live(s.recs, s.oldestAllowedTs) > s.capacity
  {
    HaltedShape(s);
    ChannelIndices(s);
    var i :| 0 <= i < |s.workers| && s.workers[i].Sending?;
    SendersAreLive(s, i);
    NotInChannel(s, i);
    OneMoreLive(s.recs, s.oldestAllowedTs, Indices(s.recordStream), i);
  }

  /** A row was sent and lost. */
  ghost predicate LostRow(s: State) { exists i :: 0 <= i < |s.workers| && Sent(s.workers[i]) && Alive(s, i) == 0 }

  /** No goroutine has failed, and if the consumer has stopped early a row was lost. */
  ghost predicate OnlyConsumerFailed(s: State) {
    && (forall i :: 0 <= i < |s.workers| ==> !HasErr(s.workers[i]))
    && (s.cancelled || s.consumer == Exited(true) ==> LostRow(s))
  }

  predicate HasErr(w: Worker) { (w.Returning? || w.Released? || w.Counted?) && w.err }

  lemma FailedAppendLoses(s: State)
    requires Inv(s) && s.consumer.Handling?
    ensures LostRow(Next(s, FailAppend))
  {
    var i, s' := s.consumer.row.index, Next(s, FailAppend);
    assert Accounted(s, i) && Alive(s, i) == 1;
    assert s'.workers == s.workers && s'.recordStream == s.recordStream && s'.appended == s.appended;
    assert s'.consumer == Exited(true) && Alive(s', i) == 0;
    assert i < |s'.workers| && Sent(s'.workers[i]);
  }

  lemma LostStaysLost(s: State, l: Label, i: nat)
    requires Inv(s) && Enabled(s, l) && i < |s.workers| && Sent(s.workers[i]) && Alive(s, i) == 0
    ensures i < |Next(s, l).workers| && Sent(Next(s, l).workers[i]) && Alive(Next(s, l), i) == 0
  {
    var s' := Next(s, l);
    if l.Step? {
      if s.workers[l.i].Sending? {
        SendsAreOpen(s, l.i);
        CopiesSnoc(s.recordStream, RowOf(s.recs[l.i], l.i, s.workers[l.i].fp), i);
      }
      assert l.i != i ==> s'.workers[i] == s.workers[i];
    } else if l.FailId? {
      assert l.i != i;
    } else {
      WorkersFrame(s, l);
      if l.Append? { CopiesSnoc(s.appended, s.consumer.row, i); }
    }
  }

  lemma OnlyConsumerFailedStep(s: State, l: Label)
    requires Inv(s) && OnlyConsumerFailed(s) && Enabled(s, l) && !l.CancelParent? && !l.FailId?
    ensures OnlyConsumerFailed(Next(s, l))
  {
    var s' := Next(s, l);
    if l.FailAppend? { FailedAppendLoses(s); }
    if LostRow(s) {
      var i :| 0 <= i < |s.workers| && Sent(s.workers[i]) && Alive(s, i) == 0;
      LostStaysLost(s, l, i);
    }
    NobodyFails(s, l);
    WhyStopped(s, l);
  }

  lemma NobodyFails(s: State, l: Label)
    requires Enabled(s, l) && !l.FailId? && forall i :: 0 <= i < |s.workers| ==> !HasErr(s.workers[i])
    ensures var ws := Next(s, l).workers; forall i :: 0 <= i < |ws| ==> !HasErr(ws[i])
  {
    if l.Step? { assert !HasErr(NextPc(s, l.i)); } else { WorkersFrame(s, l); }
  }

  /** Only a failed append makes the push stop early. */
  lemma WhyStopped(s: State, l: Label)
    requires Enabled(s, l) && !l.CancelParent? && !l.FailId?
    requires forall i :: 0 <= i < |s.workers| ==> !HasErr(s.workers[i])
    ensures var s' := Next(s, l);
      s'.cancelled || s'.consumer == Exited(true) ==> s.cancelled || s.consumer == Exited(true) || l.FailAppend?
  {
    if l.Step? { assert !HasErr(s.workers[l.i]); }
  }

  lemma {:induction false} OnlyConsumerFailedAlways(s: State, ls: seq<Label>)
    requires Inv(s) && OnlyConsumerFailed(s) && Runs(s, ls) && OnlyAppendsFail(ls)
    ensures OnlyConsumerFailed(Exec(s, ls))
    decreases |ls|
  {
    if ls != [] {
      InvNext(s, ls[0]);
      OnlyConsumerFailedStep(s, ls[0]);
      OnlyConsumerFailedAlways(Next(s, ls[0]), ls[1..]);
    }
  }

  /** When only an append can fail, the lost row makes room for one record more. */
  lemma HaltedAfterAppendIsCrowded(s: State)
    requires Inv(s) && EndOk(s) && OnlyConsumerFailed(s) && s.capacity >= 1 && !s.returned && Quiescent(s)
    ensures Live(s.recs, s.oldestAllowedTs) > s.capacity + 1
  {
    HaltedShape(s);
    var i :| 0 <= i < |s.workers| && s.workers[i].Sending?;
    var lost :| 0 <= lost < |s.workers| && Sent(s.workers[lost]) && Alive(s, lost) == 0;
    TwoBesidesTheChannel(s, i, lost);
  }

  lemma TwoBesidesTheChannel(s: State, i: nat, lost: nat)
    requires Inv(s) && i < |s.workers| && s.workers[i].Sending?
    requires lost < |s.workers| && Sent(s.workers[lost]) && Alive(s, lost) == 0
    ensures Live(s.recs, s.oldestAllowedTs) >= |s.recordStream| + 2
  {
    ChannelIndices(s);
    SendersAreLive(s, i);
    SendersAreLive(s, lost);
    NotInChannel(s, i);
    NotInChannel(s, lost);
    TwoMoreLive(s.recs, s.oldestAllowedTs, Indices(s.recordStream), i, lost);
  }

  // ---------------------------------------------------------------- runs, step by step

  /** The only failures of the run are those of the consumer. */
  predicate OnlyAppendsFail(ls: seq<Label>) { forall k :: 0 <= k < |ls| ==> !ls[k].CancelParent? && !ls[k].FailId? }

  ghost predicate Leads(s0: State, ls: seq<Label>, s: State) {
    Runs(s0, ls) && Exec(s0, ls) == s && OnlyAppendsFail(ls)
  }

  lemma {:induction false} ExecSnoc(s: State, ls: seq<Label>, l: Label)
    requires Runs(s, ls) && Enabled(Exec(s, ls), l)
    ensures Runs(s, ls + [l]) && Exec(s, ls + [l]) == Next(Exec(s, ls), l)
    decreases |ls|
  {
    if ls == [] {
      assert [l][1..] == [];
    } else {
      assert (ls + [l])[1..] == ls[1..] + [l];
      ExecSnoc(Next(s, ls[0]), ls[1..], l);
    }
  }

  lemma Then(s0: State, ls: seq<Label>, s: State, l: Label) returns (ls': seq<Label>, s': State)
    requires Leads(s0, ls, s) && Enabled(s, l) && !l.CancelParent? && !l.FailId?
    ensures s' == Next(s, l) && Leads(s0, ls', s')
  {
    ExecSnoc(s0, ls, l);
    ls', s' := ls + [l], Next(s, l);
  }

  lemma SpawnOne(s0: State, ls: seq<Label>, s: State) returns (ls': seq<Label>, s': State)
    requires Leads(s0, ls, s) && s.producer == Looping && |s.workers| < |s.recs| && s.inUse < s.capacity
    ensures Leads(s0, ls', s')
    ensures s' == s.(workers := s.workers + [Started], inUse := s.inUse + 1, producersWG := s.producersWG + 1)
  {
    ls', s' := Then(s0, ls, s, Acquire);
    ls', s' := Then(s0, ls', s', Add);
    ls', s' := Then(s0, ls', s', Spawn);
  }

  lemma ReachBucket(s0: State, ls: seq<Label>, s: State, i: nat) returns (ls': seq<Label>, s': State)
    requires Leads(s0, ls, s) && i < |s.workers| && i < |s.recs| && s.workers[i] == Started && !Expired(s, i)
    ensures Leads(s0, ls', s')
    ensures s' == s.(workers := s.workers[i := Bucketed], buckets := WithBucket(s.buckets, Bucket(s, i)))
  {
    ls', s' := Then(s0, ls, s, Step(i));
    assert s'.workers == s.workers[i := HasId];
    ls', s' := Then(s0, ls', s', Step(i));
    assert s'.workers == s.workers[i := Bucketed];
  }

  /** From its bucket to its send: the fingerprint is there, or is made. */
  lemma ReachSend(s0: State, ls: seq<Label>, s: State, i: nat) returns (ls': seq<Label>, s': State)
    requires Leads(s0, ls, s) && i < |s.workers| && i < |s.recs| && s.workers[i] == Bucketed
    ensures Leads(s0, ls', s') && i < |s'.workers| && s'.workers[i].Sending?
    ensures s' == s.(workers := s.workers[i := s'.workers[i]], buckets := s'.buckets)
  {
    ls', s' := Then(s0, ls, s, Step(i));
    assert s' == s.(workers := s.workers[i := NextPc(s, i)]);
    if s'.workers[i].Creating? { ls', s' := Create(s0, ls', s', i); }
  }

  lemma Create(s0: State, ls: seq<Label>, s: State, i: nat) returns (ls': seq<Label>, s': State)
    requires Leads(s0, ls, s) && i < |s.workers| && i < |s.recs| && s.workers[i] == Creating
    ensures Leads(s0, ls', s') && i < |s'.workers| && s'.workers[i].Sending?
    ensures s' == s.(workers := s.workers[i := s'.workers[i]], buckets := s'.buckets)
  {
    ls', s' := Then(s0, ls, s, Step(i));
    assert s' == s.(workers := s.workers[i := NextPc(s, i)], buckets := RegistryAfter(s, i));
  }

  /** The goroutine of record `i`, which is not expired, as far as its send. */
  lemma ReadyToSend(s0: State, ls: seq<Label>, s: State, i: nat) returns (ls': seq<Label>, s': State)
    requires Leads(s0, ls, s) && i < |s.workers| && i < |s.recs| && s.workers[i] == Started && !Expired(s, i)
    ensures Leads(s0, ls', s') && i < |s'.workers| && s'.workers[i].Sending?
    ensures s' == s.(workers := s.workers[i := s'.workers[i]], buckets := s'.buckets)
  {
    ls', s' := ReachBucket(s0, ls, s, i);
    ls', s' := ReachSend(s0, ls', s', i);
  }

  /** Its send into a channel with room, and the release of its limiter slot. */
  lemma SendAndRelease(s0: State, ls: seq<Label>, s: State, i: nat) returns (ls': seq<Label>, s': State)
    requires Leads(s0, ls, s) && i < |s.workers| && i < |s.recs| && s.workers[i].Sending?
    requires !s.closed && !s.panicked && |s.recordStream| < s.capacity
    ensures Leads(s0, ls', s')
    ensures s' == s.(workers := s.workers[i := Released(true, false)], inUse := s.inUse - 1,
                     recordStream := s.recordStream + [RowOf(s.recs[i], i, s.workers[i].fp)])
  {
    ls', s' := Then(s0, ls, s, Step(i));
    assert s'.workers == s.workers[i := Returning(true, false)];
    ls', s' := Then(s0, ls', s', Step(i));
    assert s'.workers == s.workers[i := Released(true, false)];
  }

  lemma {:induction false} ExecJoin(s: State, ls: seq<Label>, more: seq<Label>)
    requires Runs(s, ls) && Runs(Exec(s, ls), more)
    ensures Runs(s, ls + more) && Exec(s, ls + more) == Exec(Exec(s, ls), more)
    decreases |ls|
  {
    if ls == [] {
      assert ls + more == more;
    } else {
      assert (ls + more)[0] == ls[0] && (ls + more)[1..] == ls[1..] + more;
      ExecJoin(Next(s, ls[0]), ls[1..], more);
    }
  }

  // ---------------------------------------------------------------- a push that never returns

  /** The consumer is gone, the channel is full, and a goroutine waits to send. */
  ghost predicate Stuck(s: State) {
    && s.consumer.Ended? && !s.closed && |s.recordStream| == s.capacity
    && exists i :: 0 <= i < |s.workers| && s.workers[i].Sending?
  }

  lemma StuckStep(s: State, l: Label)
    requires Inv(s) && Stuck(s) && Enabled(s, l)
    ensures Stuck(Next(s, l))
  {
    var i :| 0 <= i < |s.workers| && s.workers[i].Sending?;
    if l.Close? { NobodyWaits(s); }
    OthersStay(s, l, i);
    assert Next(s, l).workers[i].Sending?;
  }

  /** Nothing gets such a push to return, neither further errors nor cancellation. */
  lemma {:induction false} StuckForever(s: State, more: seq<Label>)
    requires Inv(s) && Stuck(s) && Runs(s, more)
    ensures Stuck(Exec(s, more)) && !Exec(s, more).returned
    decreases |more|
  {
    if more != [] {
      StuckStep(s, more[0]);
      InvNext(s, more[0]);
      StuckForever(Next(s, more[0]), more[1..]);
    }
  }

  // ---------------------------------------------------------------- how to get there

  /** The producer is about to look at the next record and every goroutine so far has finished. */
  ghost predicate Tidy(s: State) {
    && s.producer == Looping && s.inUse == 0 && !s.closed && !s.panicked && s.capacity >= 1
    && |s.workers| <= |s.recs| && AllFinished(s)
  }

  /** Its slot is released; the goroutine counts itself off and finishes. */
  lemma CountOff(s0: State, ls: seq<Label>, s: State, i: nat, sent: bool) returns (ls': seq<Label>, s': State)
    requires Leads(s0, ls, s) && i < |s.workers| && i < |s.recs| && s.workers[i] == Released(sent, false)
    ensures Leads(s0, ls', s')
    ensures s' == s.(workers := s.workers[i := Finished(sent)], producersWG := s.producersWG - 1)
  {
    ls', s' := Then(s0, ls, s, Step(i));
    assert s'.workers == s.workers[i := Counted(sent, false)];
    ls', s' := Then(s0, ls', s', Step(i));
    assert s'.workers == s.workers[i := Finished(sent)];
  }

  /** The goroutine of an expired record sends nothing. */
  lemma SkipAndRelease(s0: State, ls: seq<Label>, s: State, i: nat) returns (ls': seq<Label>, s': State)
    requires Leads(s0, ls, s) && i < |s.workers| && i < |s.recs| && s.workers[i] == Started && Expired(s, i)
    ensures Leads(s0, ls', s')
    ensures s' == s.(workers := s.workers[i := Released(false, false)], inUse := s.inUse - 1)
  {
    ls', s' := Then(s0, ls, s, Step(i));
    assert s'.workers == s.workers[i := Returning(false, false)];
    ls', s' := Then(s0, ls', s', Step(i));
    assert s'.workers == s.workers[i := Released(false, false)];
  }

  /** What handling one more record leaves as it was. */
  ghost predicate OneMoreDone(s: State, s': State) {
    && Tidy(s') && |s'.workers| == |s.workers| + 1 && |s.workers| < |s.recs|
    && s'.recs == s.recs && s'.oldestAllowedTs == s.oldestAllowedTs && s'.capacity == s.capacity
    && s'.consumer == s.consumer && s'.cancelled == s.cancelled
    && |s'.recordStream| == |s.recordStream| + One(IsLive(s.recs[|s.workers|], s.oldestAllowedTs))
  }

  lemma SkipOne(s0: State, ls: seq<Label>, s: State) returns (ls': seq<Label>, s': State)
    requires Leads(s0, ls, s) && Tidy(s) && |s.workers| < |s.recs| && Expired(s, |s.workers|)
    ensures Leads(s0, ls', s') && OneMoreDone(s, s')
  {
    var i := |s.workers|;
    ls', s' := SpawnOne(s0, ls, s);
    ls', s' := SkipAndRelease(s0, ls', s', i);
    ls', s' := CountOff(s0, ls', s', i, false);
  }

  lemma SendOne(s0: State, ls: seq<Label>, s: State) returns (ls': seq<Label>, s': State)
    requires Leads(s0, ls, s) && Tidy(s) && |s.workers| < |s.recs| && !Expired(s, |s.workers|)
    requires |s.recordStream| < s.capacity
    ensures Leads(s0, ls', s') && OneMoreDone(s, s')
  {
    var i := |s.workers|;
    ls', s' := SpawnOne(s0, ls, s);
    ls', s' := ReadyToSend(s0, ls', s', i);
    ls', s' := SendAndRelease(s0, ls', s', i);
    ls', s' := CountOff(s0, ls', s', i, true);
  }

  /** With the consumer gone the channel fills up, and the next live record gets its goroutine stuck. */
  lemma {:induction false} FillUp(s0: State, ls: seq<Label>, s: State) returns (ls': seq<Label>, s': State)
    requires Leads(s0, ls, s) && Tidy(s) && s.consumer.Ended? && s.cancelled && |s.recordStream| <= s.capacity
    requires |s.recordStream| + LiveFrom(s.recs, s.oldestAllowedTs, |s.workers|) > s.capacity
    ensures Leads(s0, ls', s') && Stuck(s') && s'.producer.Left?
    ensures forall i :: 0 <= i < |s'.workers| ==> s'.workers[i].Finished? || s'.workers[i].Sending?
    decreases |s.recs| - |s.workers|
  {
    var i := |s.workers|;
    if Expired(s, i) {
      ls', s' := SkipOne(s0, ls, s);
      ls', s' := FillUp(s0, ls', s');
    } else if |s.recordStream| < s.capacity {
      ls', s' := SendOne(s0, ls, s);
      ls', s' := FillUp(s0, ls', s');
    } else {
      ls', s' := SpawnOne(s0, ls, s);
      ls', s' := ReadyToSend(s0, ls', s', i);
      ls', s' := Then(s0, ls', s', Leave);
      assert s'.workers[i].Sending?;
    }
  }

  /** The producer works through expired records until a live one has been sent. */
  lemma {:induction false} SendFirst(s0: State, ls: seq<Label>, s: State) returns (ls': seq<Label>, s': State)
    requires Leads(s0, ls, s) && Tidy(s) && s.recordStream == [] && LiveFrom(s.recs, s.oldestAllowedTs, |s.workers|) > 0
    ensures Leads(s0, ls', s') && Tidy(s') && |s'.recordStream| == 1 && s'.consumer == s.consumer
    ensures s'.recs == s.recs && s'.oldestAllowedTs == s.oldestAllowedTs && s'.capacity == s.capacity
    ensures LiveFrom(s'.recs, s'.oldestAllowedTs, |s'.workers|) + 1 == LiveFrom(s.recs, s.oldestAllowedTs, |s.workers|)
    decreases |s.recs| - |s.workers|
  {
    if Expired(s, |s.workers|) {
      ls', s' := SkipOne(s0, ls, s);
      ls', s' := SendFirst(s0, ls', s');
    } else {
      ls', s' := SendOne(s0, ls, s);
    }
  }

  /** Its row is received, and the consumer fails on it. */
  lemma FailFirst(s0: State, ls: seq<Label>, s: State) returns (ls': seq<Label>, s': State)
    requires Leads(s0, ls, s) && s.consumer.Receiving? && s.recordStream != []
    ensures Leads(s0, ls', s')
    ensures s' == s.(consumer := Ended, recordStream := s.recordStream[1..], cancelled := true)
  {
    ls', s' := Then(s0, ls, s, Receive);
    ls', s' := Then(s0, ls', s', FailAppend);
    ls', s' := Then(s0, ls', s', EndConsumer);
  }

  lemma StuckIsQuiescent(s: State)
    requires Inv(s) && Stuck(s) && s.producer.Left?
    requires forall i :: 0 <= i < |s.workers| ==> s.workers[i].Finished? || s.workers[i].Sending?
    ensures Quiescent(s) && !s.returned
  {
    if s.producersWG == 0 { NobodyWaits(s); }
  }

  // ---------------------------------------------------------------- when a batch can hang

  /** A push hangs: it can go no further, and no continuation returns, whatever else fails or is cancelled. */
  ghost predicate Hangs(s0: State, ls: seq<Label>) {
    && Runs(s0, ls) && Quiescent(Exec(s0, ls))
    && forall more :: Runs(Exec(s0, ls), more) ==> !Exec(Exec(s0, ls), more).returned
  }

  /** One append error can strand the push for ever when at least two records more than the channel holds want to be
      sent: one is lost with the error, the channel takes its capacity, and one waits. */
  lemma AppendErrorCanStrandThePush(recs: seq<Record>, oldestAllowedTs: nat, capacity: nat) returns (ls: seq<Label>)
    requires capacity >= 1 && Live(recs, oldestAllowedTs) > capacity + 1
    ensures OnlyAppendsFail(ls) && Hangs(Init(recs, oldestAllowedTs, capacity), ls)
  {
    var s0, s := Init(recs, oldestAllowedTs, capacity), Init(recs, oldestAllowedTs, capacity);
    ls, s := SendFirst(s0, [], s0);
    ls, s := FailFirst(s0, ls, s);
    ls, s := FillUp(s0, ls, s);
    InitOk(recs, oldestAllowedTs, capacity);
    HangsWhenStuck(s0, ls);
  }

  lemma HangsWhenStuck(s0: State, ls: seq<Label>)
    requires Inv(s0) && EndOk(s0) && Runs(s0, ls) && Stuck(Exec(s0, ls)) && Exec(s0, ls).producer.Left?
    requires var ws := Exec(s0, ls).workers; forall i :: 0 <= i < |ws| ==> ws[i].Finished? || ws[i].Sending?
    ensures Hangs(s0, ls)
  {
    AlwaysOk(s0, ls);
    StuckIsQuiescent(Exec(s0, ls));
    forall more | Runs(Exec(s0, ls), more) ensures !Exec(Exec(s0, ls), more).returned {
      StuckForever(Exec(s0, ls), more);
    }
  }

  /** A cancellation can do so when one record more than the channel holds wants to be sent. */
  lemma CancellationCanStrandThePush(recs: seq<Record>, oldestAllowedTs: nat, capacity: nat) returns (ls: seq<Label>)
    requires capacity >= 1 && Live(recs, oldestAllowedTs) > capacity
    ensures Hangs(Init(recs, oldestAllowedTs, capacity), ls)
  {
    var s0 := Init(recs, oldestAllowedTs, capacity);
    var s1 := Next(s0, CancelParent);
    var s2 := Next(s1, SeeCancelled);
    var s3 := Next(s2, EndConsumer);
    var more, s := FillUp(s3, [], s3);
    var first := [CancelParent, SeeCancelled, EndConsumer];
    assert first[1..] == [SeeCancelled, EndConsumer] && first[1..][1..] == [EndConsumer] && first[1..][1..][1..] == [];
    assert Runs(s0, first) && Exec(s0, first) == s3;
    ExecJoin(s0, first, more);
    ls := first + more;
    InitOk(recs, oldestAllowedTs, capacity);
    HangsWhenStuck(s0, ls);
  }

  /** With failures and cancellation at any point, every push that can go no further has returned exactly when the batch
      has no more live records than the channel has slots. */
  lemma EveryPushReturnsExactly(recs: seq<Record>, oldestAllowedTs: nat, capacity: nat)
    requires capacity >= 1
    ensures var s0 := Init(recs, oldestAllowedTs, capacity);
      (forall ls :: Runs(s0, ls) && Quiescent(Exec(s0, ls)) ==> Exec(s0, ls).returned)
        <==> Live(recs, oldestAllowedTs) <= capacity
  {
    var s0 := Init(recs, oldestAllowedTs, capacity);
    InitOk(recs, oldestAllowedTs, capacity);
    if Live(recs, oldestAllowedTs) <= capacity {
      forall ls | Runs(s0, ls) && Quiescent(Exec(s0, ls)) ensures Exec(s0, ls).returned {
        AlwaysOk(s0, ls);
        if !Exec(s0, ls).returned { HaltedIsCrowded(Exec(s0, ls)); }
      }
    } else {
      var ls := CancellationCanStrandThePush(recs, oldestAllowedTs, capacity);
      HangingHasNotReturned(s0, ls);
    }
  }

  /** When only appends can fail, one record more is harmless. */
  lemma EveryPushReturnsExactlyIfOnlyAppendsFail(recs: seq<Record>, oldestAllowedTs: nat, capacity: nat)
    requires capacity >= 1
    ensures var s0 := Init(recs, oldestAllowedTs, capacity);
      (forall ls :: Runs(s0, ls) && OnlyAppendsFail(ls) && Quiescent(Exec(s0, ls)) ==> Exec(s0, ls).returned)
        <==> Live(recs, oldestAllowedTs) <= capacity + 1
  {
    var s0 := Init(recs, oldestAllowedTs, capacity);
    InitOk(recs, oldestAllowedTs, capacity);
    if Live(recs, oldestAllowedTs) <= capacity + 1 {
      forall ls | Runs(s0, ls) && OnlyAppendsFail(ls) && Quiescent(Exec(s0, ls)) ensures Exec(s0, ls).returned {
        AlwaysOk(s0, ls);
        OnlyConsumerFailedAlways(s0, ls);
        if !Exec(s0, ls).returned { HaltedAfterAppendIsCrowded(Exec(s0, ls)); }
      }
    } else {
      var ls := AppendErrorCanStrandThePush(recs, oldestAllowedTs, capacity);
      HangingHasNotReturned(s0, ls);
    }
  }

  lemma HangingHasNotReturned(s0: State, ls: seq<Label>)
    requires Hangs(s0, ls)
    ensures !Exec(s0, ls).returned
  {
    assert Runs(Exec(s0, ls), []);
  }
}
