/** The tail sampler as the object that one caller drives: every statement that touches the shared tables is recorded
    as a step of the state machine, so that all that holds of its runs holds here. */
module TailSamplerProcessor {
  import opened TailSampler
  import opened TailSamplerProof
  import opened TailSamplerGroups

  type Policy = Trace -> Decision

  class Processor {
    const maxNumTraces: nat
    const numBatches: nat
    const policies: seq<Policy>
    var traces: seq<Trace>
    var idToTrace: map<TraceID, nat>
    var deleteChan: seq<TraceID>
    var numTracesOnMap: int
    var currentBatch: seq<TraceID>
    var batches: seq<seq<TraceID>>

    ghost var steps: seq<Label>
    ghost var pc: Worker
    ghost var ticker: Ticker

    ghost function St(): State
      reads this
    {
      State(maxNumTraces, traces, idToTrace, deleteChan, numTracesOnMap, [], currentBatch, batches, [pc], ticker)
    }

    /** The recorded steps lead from the initial state to this one. */
    ghost predicate Reached()
      reads this
    {
      var s0 := Init(maxNumTraces, numBatches, 1);
      Runs(s0, steps) && Exec(s0, steps) == St() && maxNumTraces >= 1
    }

    ghost predicate Valid()
      reads this
    { Reached() && pc.Idle? && ticker.Waiting? }

    constructor (maxNumTraces: nat, numBatches: nat, policies: seq<Policy>)
      requires maxNumTraces >= 1 && numBatches >= 1
      ensures Valid() && traces == [] && idToTrace == map[] && deleteChan == []
    {
      this.maxNumTraces, this.numBatches, this.policies := maxNumTraces, numBatches, policies;
      traces, idToTrace, deleteChan, numTracesOnMap, currentBatch := [], map[], [], 0, [];
      batches := seq(numBatches, _ => []);
      steps, pc, ticker := [], Idle, Waiting;
      new;
      assert Init(maxNumTraces, numBatches, 1).batches == batches;
      assert Init(maxNumTraces, numBatches, 1).workers == [Idle];
    }

    /** Records that the state went from `before` to the present one by `l`. */
    ghost method Did(before: State, l: Label)
      requires maxNumTraces >= 1
      requires var s0 := Init(maxNumTraces, numBatches, 1); Runs(s0, steps) && Exec(s0, steps) == before
      requires Enabled(before, l) && Next(before, l) == St()
      modifies this`steps
      ensures Reached()
    {
      ExecSnoc(Init(maxNumTraces, numBatches, 1), steps, l);
      steps := steps + [l];
    }

    lemma Facts()
      requires Reached()
      ensures RefsOk(St()) && IndexOk(St())
    {
      InitIndex(maxNumTraces, numBatches, 1);
      IndexAlways(Init(maxNumTraces, numBatches, 1), steps);
    }

    /** What the policies say about a trace, in order. */
    function AnswersTo(trace: Trace): seq<Decision> {
      seq(|policies|, i requires 0 <= i < |policies| => policies[i](trace))
    }

    lemma VerdictOfPolicies(trace: Trace)
      ensures Verdict(AnswersTo(trace)) == NotSampled <==>
        exists i :: 0 <= i < |policies| && policies[i](trace) == NotSampled
                 && forall j :: 0 <= j < i ==> policies[j](trace) != Sampled
    {
      var answers := AnswersTo(trace);
      assert forall i :: 0 <= i < |policies| ==> answers[i] == policies[i](trace);
    }

    /** The policies in order, up to the first that says Sampled or NotSampled. */
    method MakeDecision(trace: Trace) returns (finalDecision: Decision)
      ensures finalDecision == Verdict(AnswersTo(trace))
      ensures finalDecision == Sampled || finalDecision == NotSampled
      ensures finalDecision == NotSampled <==>
        exists i :: 0 <= i < |policies| && policies[i](trace) == NotSampled
                 && forall j :: 0 <= j < i ==> policies[j](trace) != Sampled
    {
      VerdictOfPolicies(trace);
      finalDecision := NoResult;
      ghost var answers := AnswersTo(trace);
      var i := 0;
      while i < |policies|
        invariant 0 <= i <= |policies|
        invariant finalDecision == NoResult
        invariant Verdict(answers) == Verdict(answers[i..])
      {
        var decision := policies[i](trace);
        if decision == Sampled || decision == NotSampled {
          finalDecision := decision;
          break;
        }
        assert answers[i..][1..] == answers[i + 1..];
        i := i + 1;
      }
      if finalDecision == NoResult {
        finalDecision := Sampled;
      }
    }

    /** Enters a new trace: stored in the table, added to the current decision batch, counted. */
    method Register(id: TraceID, spans: multiset<Span>) returns (h: nat)
      requires Valid() && id !in idToTrace
      modifies this
      ensures Reached() && ticker.Waiting? && pc == ToPost(h, id, spans)
      ensures h == |old(traces)| && traces == old(traces) + [NewTrace(id, spans)]
      ensures idToTrace == old(idToTrace)[id := h] && currentBatch == old(currentBatch) + [id]
      ensures deleteChan == old(deleteChan) && batches == old(batches)
    {
      h := StoreNew(id, spans);
      AddToCurrentBatch(h, id, spans);
      CountTrace(h, id, spans);
    }

    /** The table of traces takes the new one. */
    method StoreNew(id: TraceID, spans: multiset<Span>) returns (h: nat)
      requires Valid() && id !in idToTrace
      modifies this`traces, this`idToTrace, this`pc, this`steps
      ensures Reached() && pc == ToBatch(h, id, spans)
      ensures h == |old(traces)| && traces == old(traces) + [NewTrace(id, spans)]
      ensures idToTrace == old(idToTrace)[id := h]
    {
      ghost var s := St();
      h := |traces|;
      traces, idToTrace := traces + [NewTrace(id, spans)], idToTrace[id := h];
      pc := ToBatch(h, id, spans);
      assert [Idle][0 := pc] == [pc];
      Did(s, Arrive(0, id, spans));
    }

    method CountTrace(h: nat, id: TraceID, spans: multiset<Span>)
      requires Reached() && pc == ToCount(h, id, spans)
      modifies this`numTracesOnMap, this`pc, this`steps
      ensures Reached() && pc == ToPost(h, id, spans) && numTracesOnMap == old(numTracesOnMap) + 1
    {
      ghost var s := St();
      numTracesOnMap := numTracesOnMap + 1;
      pc := ToPost(h, id, spans);
      assert [ToCount(h, id, spans)][0 := pc] == [pc];
      Did(s, Advance(0));
    }

    /** The id is sent to the batcher, which adds it to the current batch. */
    method AddToCurrentBatch(h: nat, id: TraceID, spans: multiset<Span>)
      requires Reached() && pc == ToBatch(h, id, spans)
      modifies this`currentBatch, this`pc, this`steps
      ensures Reached() && pc == ToCount(h, id, spans) && currentBatch == old(currentBatch) + [id]
    {
      ghost var s := St();
      pc := ToCount(h, id, spans);
      ghost var sent := St().(pendingIds := [id]);
      assert [ToBatch(h, id, spans)][0 := pc] == [pc];
      assert s.pendingIds + [id] == [id];
      ExecSnoc(Init(maxNumTraces, numBatches, 1), steps, Advance(0));
      steps := steps + [Advance(0)];
      currentBatch := currentBatch + [id];
      Did(sent, FillBatch);
    }

    /** Takes the trace off the table. The id always is on it. */
    method DropTrace(h: nat, id: TraceID, spans: multiset<Span>, victim: TraceID)
      requires Reached() && pc == ToDrop(h, id, spans, victim)
      modifies this`idToTrace, this`numTracesOnMap, this`pc, this`steps
      ensures Reached() && pc == ToPost(h, id, spans)
      ensures victim in old(idToTrace) && idToTrace == old(idToTrace) - {victim}
      ensures numTracesOnMap == old(numTracesOnMap) - 1
    {
      Facts();
      DroppedIdIsOnTable(St(), 0);
      if victim in idToTrace {
        ghost var s := St();
        idToTrace := idToTrace - {victim};
        pc := ToUncount(h, id, spans);
        assert [ToDrop(h, id, spans, victim)][0 := pc] == [pc];
        Did(s, Advance(0));
        s := St();
        numTracesOnMap := numTracesOnMap - 1;
        pc := ToPost(h, id, spans);
        assert [ToUncount(h, id, spans)][0 := pc] == [pc];
        Did(s, Advance(0));
      }
    }

    /** The queue is full: its oldest id is taken off and its trace dropped. */
    method EvictOldest(h: nat, id: TraceID, spans: multiset<Span>)
      requires Reached() && pc == ToPost(h, id, spans) && |deleteChan| >= maxNumTraces
      modifies this`idToTrace, this`deleteChan, this`numTracesOnMap, this`pc, this`steps
      ensures Reached() && pc == ToPost(h, id, spans)
      ensures old(deleteChan[0]) in old(idToTrace) && idToTrace == old(idToTrace) - {old(deleteChan[0])}
      ensures deleteChan == old(deleteChan)[1..]
    {
      ghost var s := St();
      pc := ToPop(h, id, spans);
      assert [ToPost(h, id, spans)][0 := pc] == [pc];
      Did(s, Advance(0));
      s := St();
      var victim := deleteChan[0];
      deleteChan := deleteChan[1..];
      pc := ToDrop(h, id, spans, victim);
      assert [ToPop(h, id, spans)][0 := pc] == [pc];
      Did(s, Advance(0));
      DropTrace(h, id, spans, victim);
    }

    /** Queues the id for eviction, first evicting the oldest trace if the queue is full. */
    method Post(h: nat, id: TraceID, spans: multiset<Span>)
      requires Reached() && pc == ToPost(h, id, spans)
      modifies this`idToTrace, this`deleteChan, this`numTracesOnMap, this`pc, this`steps
      ensures Reached() && pc == AtLock(h, spans)
      ensures if |old(deleteChan)| < maxNumTraces
        then deleteChan == old(deleteChan) + [id] && idToTrace == old(idToTrace)
        else deleteChan == old(deleteChan)[1..] + [id] && idToTrace == old(idToTrace) - {old(deleteChan)[0]}
    {
      Facts();
      var postDeletion := false;
      while !postDeletion
        invariant Reached() && pc == if postDeletion then AtLock(h, spans) else ToPost(h, id, spans)
        invariant !postDeletion ==>
          || (deleteChan == old(deleteChan) && idToTrace == old(idToTrace))
          || (|old(deleteChan)| == maxNumTraces
              && deleteChan == old(deleteChan)[1..] && idToTrace == old(idToTrace) - {old(deleteChan)[0]})
        invariant postDeletion ==>
          if |old(deleteChan)| < maxNumTraces
          then deleteChan == old(deleteChan) + [id] && idToTrace == old(idToTrace)
          else deleteChan == old(deleteChan)[1..] + [id] && idToTrace == old(idToTrace) - {old(deleteChan)[0]}
        decreases !postDeletion, |deleteChan|
      {
        if |deleteChan| < maxNumTraces {
          ghost var s := St();
          deleteChan := deleteChan + [id];
          pc := AtLock(h, spans);
          assert [ToPost(h, id, spans)][0 := pc] == [pc];
          Did(s, Advance(0));
          postDeletion := true;
        } else {
          EvictOldest(h, id, spans);
        }
      }
    }

    /** Under the trace's lock: spans of an undecided trace are kept, late spans of a sampled one are forwarded at
        once, those of a trace that is not sampled are dropped. */
    method Deliver(h: nat, spans: multiset<Span>)
      requires Reached() && pc == AtLock(h, spans)
      modifies this`traces, this`pc, this`steps
      ensures Reached() && pc.Idle? && h < |old(traces)|
      ensures var t := old(traces)[h]; traces == old(traces)[h :=
        match t.decision
        case Unspecified => t.(received := t.received + spans)
        case Sampled => t.(forwarded := t.forwarded + spans)
        case _ => t]
    {
      Facts();
      assert St().workers[0].h < |traces|;
      ghost var s := St();
      var finalDecision := traces[h].decision;
      if finalDecision == Unspecified {
        traces := traces[h := traces[h].(received := traces[h].received + spans)];
        pc := Idle;
        assert [AtLock(h, spans)][0 := pc] == [pc];
        Did(s, Advance(0));
      } else if finalDecision == Sampled {
        pc := Late(h, spans);
        assert [AtLock(h, spans)][0 := pc] == [pc];
        Did(s, Advance(0));
        ForwardLate(h, spans);
      } else {
        pc := Idle;
        assert [AtLock(h, spans)][0 := pc] == [pc];
        Did(s, Advance(0));
      }
    }

    method ForwardLate(h: nat, spans: multiset<Span>)
      requires Reached() && pc == Late(h, spans) && h < |traces|
      modifies this`traces, this`pc, this`steps
      ensures Reached() && pc.Idle?
      ensures traces == old(traces)[h := old(traces)[h].(forwarded := old(traces)[h].forwarded + spans)]
    {
      ghost var s := St();
      traces := traces[h := traces[h].(forwarded := traces[h].forwarded + spans)];
      pc := Idle;
      assert [Late(h, spans)][0 := pc] == [pc];
      Did(s, Advance(0));
    }

    method LoadTrace(id: TraceID, spans: multiset<Span>) returns (h: nat)
      requires Valid() && id in idToTrace
      modifies this`traces, this`pc, this`steps
      ensures Reached() && ticker.Waiting? && h == idToTrace[id] < |old(traces)| && pc == AtLock(h, spans)
      ensures traces == old(traces)[h := old(traces)[h].(arrived := old(traces)[h].arrived + spans)]
    {
      Facts();
      ghost var s := St();
      h := idToTrace[id];
      traces := traces[h := traces[h].(arrived := traces[h].arrived + spans)];
      pc := AtLock(h, spans);
      assert [Idle][0 := pc] == [pc];
      Did(s, Arrive(0, id, spans));
    }

    /** A trace that is not on the table. */
    method AdmitNew(id: TraceID, spans: multiset<Span>)
      requires Valid() && id !in idToTrace
      modifies this
      ensures Valid() && batches == old(batches)
      ensures traces == old(traces) + [Trace(id, spans, Unspecified, spans, multiset{})]
      ensures currentBatch == old(currentBatch) + [id]
      ensures if |old(deleteChan)| < maxNumTraces
        then deleteChan == old(deleteChan) + [id] && idToTrace == old(idToTrace)[id := |old(traces)|]
        else deleteChan == old(deleteChan)[1..] + [id]
             && idToTrace == old(idToTrace)[id := |old(traces)|] - {old(deleteChan)[0]}
    {
      var h := Register(id, spans);
      Post(h, id, spans);
      Deliver(h, spans);
      assert multiset{} + spans == spans;
    }

    ghost function Now(): Tables
      reads this
    { Tables(traces, idToTrace, deleteChan, currentBatch) }

    /** One iteration of the loop of `processTraces`: the spans of one trace. */
    method ProcessGroup(id: TraceID, spans: multiset<Span>)
      requires Valid()
      modifies this
      ensures Valid() && batches == old(batches)
      ensures Now() == GroupEffect(maxNumTraces, old(Now()), id, spans)
    {
      if id in idToTrace {
        var h := LoadTrace(id, spans);
        Deliver(h, spans);
      } else {
        AdmitNew(id, spans);
      }
    }

    /** The spans of one batch, grouped by trace; the groups are taken in any order. Each has its whole effect, and each
        trace has been handed exactly its spans. */
    method ProcessTraces(idToSpans: Groups) returns (ghost order: seq<TraceID>)
      requires Valid()
      modifies this
      ensures Valid() && batches == old(batches)
      ensures Distinct(order) && (forall x :: x in order <==> x in idToSpans)
      ensures Now() == Effects(maxNumTraces, old(Now()), order, idToSpans)
      ensures forall x, sp :: ArrivedFor(traces, x, sp)
                == old(ArrivedFor(traces, x, sp)) + if x in idToSpans then idToSpans[x][sp] else 0
      ensures Distinct(deleteChan) && (forall x :: x in deleteChan <==> x in idToTrace)
      ensures numTracesOnMap == |idToTrace| <= maxNumTraces
    {
      Facts();
      ghost var start := Now();
      order := [];
      var rest := idToSpans.Keys;
      while rest != {}
        invariant Valid() && rest <= idToSpans.Keys && batches == old(batches)
        invariant Distinct(order) && forall x :: x in order <==> x in idToSpans && x !in rest
        invariant Now() == Effects(maxNumTraces, start, order, idToSpans)
      {
        var id :| id in rest;
        EffectsSnoc(maxNumTraces, start, order, id, idToSpans);
        ProcessGroup(id, idToSpans[id]);
        order := order + [id];
        rest := rest - {id};
      }
      forall x, sp ensures ArrivedFor(traces, x, sp)
        == ArrivedFor(start.traces, x, sp) + if x in idToSpans then idToSpans[x][sp] else 0
      {
        GroupsArrive(maxNumTraces, start, order, idToSpans, x, sp);
      }
      Agreement();
    }

    method CloseCurrentAndTakeFirstBatch() returns (batch: seq<TraceID>)
      requires Valid() && batches != []
      modifies this`batches, this`currentBatch, this`ticker, this`steps
      ensures Reached() && ticker == Batch(batch) && batch == old(batches)[0]
      ensures batches == old(batches)[1..] + [old(currentBatch)] && currentBatch == []
    {
      ghost var s := St();
      batch := batches[0];
      batches, currentBatch := batches[1..] + [currentBatch], [];
      ticker := Batch(batch);
      Did(s, TakeBatch);
    }

    /** A trace entry once the policies have been asked about it. */
    function AfterDecision(t: Trace): Trace {
      var d := Verdict(AnswersTo(t));
      t.(decision := d, forwarded := if d == Sampled then t.forwarded + t.received else t.forwarded)
    }

    /** The entries once the ticker is through with the ids of `batch`, one after the other. */
    function AfterBatch(ts: seq<Trace>, table: map<TraceID, nat>, batch: seq<TraceID>): (r: seq<Trace>)
      ensures |r| == |ts|
    {
      if batch == [] then ts
      else
        var last := |batch| - 1;
        var r := AfterBatch(ts, table, batch[..last]);
        if batch[last] in table && table[batch[last]] < |r|
        then r[table[batch[last]] := AfterDecision(r[table[batch[last]]])] else r
    }

    /** An entry whose id is in the batch once is decided by the policies' verdict on what it was, and forwarded exactly
        when that is Sampled; an entry that no id of the batch has on the table is left alone. */
    lemma {:induction false} BatchDecides(ts: seq<Trace>, table: map<TraceID, nat>, batch: seq<TraceID>, h: nat)
      requires h < |ts| && forall x :: x in table ==> table[x] < |ts| && ts[table[x]].id == x
      requires forall i, j :: 0 <= i < j < |batch| ==> batch[i] != batch[j]
      ensures AfterBatch(ts, table, batch)[h] ==
        if ts[h].id in batch && ts[h].id in table && table[ts[h].id] == h then AfterDecision(ts[h]) else ts[h]
    {
      if batch != [] {
        var last := |batch| - 1;
        BatchDecides(ts, table, batch[..last], h);
        assert batch == batch[..last] + [batch[last]];
      }
    }

    /** Entries of no id of the batch are left alone, whether or not its ids are different. */
    lemma {:induction false} BatchLeaves(ts: seq<Trace>, table: map<TraceID, nat>, batch: seq<TraceID>, h: nat)
      requires h < |ts| && forall x :: x in batch && x in table ==> table[x] != h
      ensures AfterBatch(ts, table, batch)[h] == ts[h]
    {
      if batch != [] {
        var last := |batch| - 1;
        assert batch[last] in batch && forall x :: x in batch[..last] ==> x in batch;
        BatchLeaves(ts, table, batch[..last], h);
      }
    }

    /** The ticker closes the current batch, takes the oldest one and decides its traces: one is not sampled exactly
        when some policy says so of what it holds and none before says otherwise; what a sampled one holds is forwarded.
        */
    method SamplingPolicyOnTick()
      requires Valid() && batches != []
      modifies this
      ensures Valid() && idToTrace == old(idToTrace) && deleteChan == old(deleteChan)
      ensures batches == old(batches)[1..] + [old(currentBatch)] && currentBatch == []
      ensures traces == AfterBatch(old(traces), idToTrace, old(batches)[0])
      ensures Distinct(old(batches)[0]) ==> forall x :: x in old(batches)[0] && x in idToTrace ==>
        && idToTrace[x] < |old(traces)|
        && var t := old(traces)[idToTrace[x]];
           if exists i :: 0 <= i < |policies| && policies[i](t) == NotSampled
                       && forall j :: 0 <= j < i ==> policies[j](t) != Sampled
           then traces[idToTrace[x]] == t.(decision := NotSampled)
           else traces[idToTrace[x]] == t.(decision := Sampled, forwarded := t.forwarded + t.received)
      ensures |traces| == |old(traces)|
      ensures forall h :: 0 <= h < |traces| ==>
        (forall x :: x in old(batches)[0] && x in idToTrace ==> idToTrace[x] != h) ==> traces[h] == old(traces)[h]
    {
      Facts();
      ghost var before := traces;
      var batch := CloseCurrentAndTakeFirstBatch();
      DecideBatch(batch);
      ghost var s := St();
      ticker := Waiting;
      Did(s, EndTick);
      if Distinct(batch) {
        forall x | x in batch && x in idToTrace ensures traces[idToTrace[x]] == AfterDecision(before[idToTrace[x]]) {
          BatchDecides(before, idToTrace, batch, idToTrace[x]);
        }
        forall x | x in batch && x in idToTrace { VerdictOfPolicies(before[idToTrace[x]]); }
      }
      forall h | 0 <= h < |traces| && forall x :: x in batch && x in idToTrace ==> idToTrace[x] != h
        ensures traces[h] == before[h]
      {
        BatchLeaves(before, idToTrace, batch, h);
      }
    }

    method DecideBatch(batch: seq<TraceID>)
      requires Reached() && pc.Idle? && ticker == Batch(batch)
      modifies this`traces, this`ticker, this`steps
      ensures Reached() && ticker == Batch([])
      ensures traces == AfterBatch(old(traces), idToTrace, batch)
    {
      var i := 0;
      while i < |batch|
        invariant 0 <= i <= |batch|
        invariant Reached() && ticker == Batch(batch[i..])
        invariant traces == AfterBatch(old(traces), idToTrace, batch[..i])
      {
        assert batch[i..] == [batch[i]] + batch[i + 1..];
        assert batch[..i + 1][..i] == batch[..i];
        DecideTrace(batch[i], batch[i + 1..]);
        i := i + 1;
      }
      assert batch[..|batch|] == batch;
    }

    /** One iteration of the tick: the trace is decided, and forwarded if it is sampled. */
    method DecideTrace(id: TraceID, ghost rest: seq<TraceID>)
      requires Reached() && pc.Idle? && ticker == Batch([id] + rest)
      modifies this`traces, this`ticker, this`steps
      ensures Reached() && ticker == Batch(rest)
      ensures id !in idToTrace ==> traces == old(traces)
      ensures id in idToTrace ==>
        && idToTrace[id] < |old(traces)|
        && traces == old(traces)[idToTrace[id] := AfterDecision(old(traces)[idToTrace[id]])]
    {
      assert id in idToTrace ==> idToTrace[id] < |traces| by { Facts(); }
      ghost var s := St();
      assert ([id] + rest)[1..] == rest;
      if id in idToTrace {
        ticker := Evaluating(idToTrace[id], id, rest);
        Did(s, LoadNext);
        Evaluate(idToTrace[id], id, rest);
      } else {
        ticker := Batch(rest);
        Did(s, LoadNext);
      }
    }

    method Evaluate(h: nat, id: TraceID, ghost rest: seq<TraceID>)
      requires Reached() && h < |traces| && ticker == Evaluating(h, id, rest)
      modifies this`traces, this`ticker, this`steps
      ensures Reached() && ticker == Batch(rest)
      ensures traces == old(traces)[h := AfterDecision(old(traces)[h])]
    {
      ghost var s := St();
      var trace := traces[h];
      var decision := MakeDecision(trace);
      traces := traces[h := trace.(decision := decision)];
      ticker := if decision == Sampled then Forwarding(h, trace.received, rest) else Batch(rest);
      Did(s, Decide(AnswersTo(trace)));
      if decision == Sampled {
        ForwardHeld(h, trace.received, rest);
      }
    }

    method ForwardHeld(h: nat, spans: multiset<Span>, ghost rest: seq<TraceID>)
      requires Reached() && h < |traces| && ticker == Forwarding(h, spans, rest)
      modifies this`traces, this`ticker, this`steps
      ensures Reached() && ticker == Batch(rest)
      ensures traces == old(traces)[h := old(traces)[h].(forwarded := old(traces)[h].forwarded + spans)]
    {
      ghost var s := St();
      traces := traces[h := traces[h].(forwarded := traces[h].forwarded + spans)];
      ticker := Batch(rest);
      Did(s, ForwardSampled);
    }

    /** Between arrivals the table, the eviction queue and the counter agree. */
    lemma Agreement()
      requires Valid()
      ensures Distinct(deleteChan) && (forall x :: x in deleteChan <==> x in idToTrace)
      ensures numTracesOnMap == |idToTrace| <= maxNumTraces
    {
      Facts();
      QuietIndex(St());
    }
  }
}
