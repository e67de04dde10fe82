/** Consuming a claim of a Kafka partition: when messages are marked and committed, and how consumption is paused while
    the next component is short of memory. */
module KafkaClaim {
  import opened PData

  /** What the next component answers. */
  datatype Result = Success | HighMemory | Failure

  /** A claimed message: whether it unmarshals, the answer to the first call, and what the retry loop meets then: an
      answer for each tick (Some), or the end of the session (None). When that sequence is used up, the loop waits. */
  datatype Message = Message(offset: nat, unmarshals: bool, first: Result, retries: seq<Option<Result>>)

  /** A call of the memory limiter returns the last answer or the error of the ended session, or is still waiting. */
  datatype Outcome = Answered(r: Result) | SessionEnded | Waiting

  /** What the group and the session get to see, and the calls of the next component. */
  datatype Effect = Mark(offset: nat) | Commit | PauseAll | ResumeAll | Consume(offset: nat, r: Result)

  datatype Marking = Marking(after: bool, onError: bool, autocommit: bool)

  datatype Verdict = Next | Returned(ok: bool) | InProgress

  // ---------------------------------------------------------------- what happens, as a sequence of effects

  function Retry(offset: nat, retries: seq<Option<Result>>): (seq<Effect>, Outcome) {
    if retries == [] then ([], Waiting)
    else if retries[0].None? then ([], SessionEnded)
    else
      var r := retries[0].value;
      if r == HighMemory then
        var (es, o) := Retry(offset, retries[1..]);
        ([Consume(offset, r)] + es, o)
      else ([Consume(offset, r), ResumeAll], Answered(r))
  }

  function Limited(m: Message): (seq<Effect>, Outcome) {
    if m.first != HighMemory then ([Consume(m.offset, m.first)], Answered(m.first))
    else
      var (es, o) := Retry(m.offset, m.retries);
      ([Consume(m.offset, HighMemory), PauseAll] + es, o)
  }

  function MarkIf(b: bool, m: Message): seq<Effect> { if b then [Mark(m.offset)] else [] }

  function CommitIf(b: bool): seq<Effect> { if b then [Commit] else [] }

  function ClaimOne(c: Marking, m: Message): (seq<Effect>, Verdict) {
    var before := MarkIf(!c.after, m);
    var failed := MarkIf(c.after && c.onError, m);
    if !m.unmarshals then (before + failed, Returned(false))
    else
      var (es, o) := Limited(m);
      if o == Waiting then (before + es, InProgress)
      else if o == Answered(Success) then (before + es + MarkIf(c.after, m) + CommitIf(!c.autocommit), Next)
      else (before + es + failed, Returned(false))
  }

  /** `events` are the messages of the claim; None ends the session, the end of the sequence the claim. */
  function Claim(c: Marking, events: seq<Option<Message>>): (seq<Effect>, Verdict) {
    if events == [] || events[0].None? then (CommitIf(!c.autocommit), Returned(true))
    else
      var (es, v) := ClaimOne(c, events[0].value);
      if v == Next then
        var (rest, w) := Claim(c, events[1..]);
        (es + rest, w)
      else (es + CommitIf(v.Returned? && !c.autocommit), v)
  }

  lemma RetryUnfolds(offset: nat, retries: seq<Option<Result>>, i: nat, done: seq<Effect>)
    requires i < |retries|
    ensures var (es, o) := Retry(offset, retries[i..]);
      if retries[i].None? then done + es == done && o == SessionEnded
      else if retries[i].value == HighMemory then
        && done + es == (done + [Consume(offset, HighMemory)]) + Retry(offset, retries[i + 1..]).0
        && o == Retry(offset, retries[i + 1..]).1
      else done + es == done + [Consume(offset, retries[i].value), ResumeAll] && o == Answered(retries[i].value)
  {
    assert retries[i..][1..] == retries[i + 1..];
  }

  lemma ClaimUnfolds(c: Marking, events: seq<Option<Message>>, i: nat, done: seq<Effect>)
    requires i < |events| && events[i].Some?
    ensures var (es, v) := ClaimOne(c, events[i].value);
      if v == Next then
        && done + Claim(c, events[i..]).0 == (done + (es + CommitIf(false))) + Claim(c, events[i + 1..]).0
        && Claim(c, events[i..]).1 == Claim(c, events[i + 1..]).1
      else
        && done + Claim(c, events[i..]).0 == done + (es + CommitIf(v.Returned? && !c.autocommit))
        && Claim(c, events[i..]).1 == v
  {
    assert events[i..][1..] == events[i + 1..];
  }

  lemma ClaimEnds(c: Marking, events: seq<Option<Message>>, i: nat)
    requires i <= |events| && (i < |events| ==> events[i].None?)
    ensures Claim(c, events[i..]) == (CommitIf(!c.autocommit), Returned(true))
  {}

  // ---------------------------------------------------------------- the handler

  class Handler {
    const c: Marking
    ghost var log: seq<Effect>

    constructor (c: Marking)
      ensures this.c == c && log == []
    {
      this.c := c;
      log := [];
    }

    method WithMemoryLimiter(m: Message) returns (o: Outcome)
      modifies this
      ensures log == old(log) + Limited(m).0 && o == Limited(m).1
    {
      log := log + [Consume(m.offset, m.first)];
      if m.first != HighMemory { return Answered(m.first); }
      log := log + [PauseAll];
      ghost var done := [Consume(m.offset, m.first), PauseAll];
      assert done + Retry(m.offset, m.retries).0 == Limited(m).0 && m.retries[0..] == m.retries;
      var i := 0;
      while i < |m.retries|
        invariant 0 <= i <= |m.retries|
        invariant log == old(log) + done
        invariant Limited(m) == (done + Retry(m.offset, m.retries[i..]).0, Retry(m.offset, m.retries[i..]).1)
      {
        RetryUnfolds(m.offset, m.retries, i, done);
        if m.retries[i].None? { return SessionEnded; }
        var r := m.retries[i].value;
        log := log + [Consume(m.offset, r)];
        if r != HighMemory {
          log := log + [ResumeAll];
          assert log == old(log) + (done + [Consume(m.offset, r), ResumeAll]);
          return Answered(r);
        }
        done := done + [Consume(m.offset, r)];
        i := i + 1;
      }
      o := Waiting;
    }

    method MarkMessage(m: Message)
      modifies this
      ensures log == old(log) + [Mark(m.offset)]
    {
      log := log + [Mark(m.offset)];
    }

    /** One round of the claim loop. */
    method Take(m: Message) returns (v: Verdict)
      modifies this
      ensures log == old(log) + ClaimOne(c, m).0 && v == ClaimOne(c, m).1
    {
      if !c.after { MarkMessage(m); }
      ghost var before := MarkIf(!c.after, m);
      if !m.unmarshals {
        if c.after && c.onError { MarkMessage(m); }
        assert log == old(log) + (before + MarkIf(c.after && c.onError, m));
        return Returned(false);
      }
      var o := WithMemoryLimiter(m);
      ghost var so := before + Limited(m).0;
      assert log == old(log) + so;
      if o == Waiting { return InProgress; }
      v := Settle(m, o == Answered(Success));
      assert log == old(log) + (so + if v == Next then MarkIf(c.after, m) + CommitIf(!c.autocommit)
                                     else MarkIf(c.after && c.onError, m));
      assert v == Next ==>
        so + (MarkIf(c.after, m) + CommitIf(!c.autocommit)) == so + MarkIf(c.after, m) + CommitIf(!c.autocommit);
    }

    /** What is marked and committed once the limiter has returned. */
    method Settle(m: Message, ok: bool) returns (v: Verdict)
      modifies this
      ensures v == if ok then Next else Returned(false)
      ensures log == old(log) + if ok then MarkIf(c.after, m) + CommitIf(!c.autocommit)
                                else MarkIf(c.after && c.onError, m)
    {
      if !ok {
        if c.after && c.onError { MarkMessage(m); }
        return Returned(false);
      }
      if c.after { MarkMessage(m); }
      if !c.autocommit { log := log + [Commit]; }
      v := Next;
    }

    /** One round, and the deferred commit when it is the last one. */
    method Round(m: Message) returns (v: Verdict)
      modifies this
      ensures v == ClaimOne(c, m).1
      ensures log == old(log) + (ClaimOne(c, m).0 + CommitIf(v.Returned? && !c.autocommit))
    {
      v := Take(m);
      End(v);
    }

    /** The messages before `i` are done with and the rest of the claim is still to come. */
    ghost predicate Pending(start: seq<Effect>, events: seq<Option<Message>>, i: nat)
      requires i <= |events|
      reads this
    {
      var (es, v) := Claim(c, events[i..]);
      log + es == start + Claim(c, events).0 && v == Claim(c, events).1
    }

    method Advance(events: seq<Option<Message>>, i: nat, ghost start: seq<Effect>) returns (v: Verdict)
      requires i < |events| && events[i].Some? && Pending(start, events, i)
      modifies this
      ensures v == Next ==> Pending(start, events, i + 1)
      ensures v != Next ==> log == start + Claim(c, events).0 && v == Claim(c, events).1
    {
      ClaimUnfolds(c, events, i, log);
      v := Round(events[i].value);
    }

    method ConsumeClaim(events: seq<Option<Message>>) returns (v: Verdict)
      modifies this
      ensures log == old(log) + Claim(c, events).0 && v == Claim(c, events).1
    {
      var i := 0;
      assert events[0..] == events;
      while i < |events| && events[i].Some?
        invariant 0 <= i <= |events| && Pending(old(log), events, i)
      {
        v := Advance(events, i, old(log));
        if v != Next { return; }
        i := i + 1;
      }
      ClaimEnds(c, events, i);
      v := Returned(true);
      End(v);
    }

    /** The deferred commit. */
    method End(v: Verdict)
      modifies this
      ensures log == old(log) + CommitIf(v.Returned? && !c.autocommit)
    {
      if v.Returned? && !c.autocommit { log := log + [Commit]; }
    }
  }

  // ---------------------------------------------------------------- backpressure

  function Count(es: seq<Effect>, e: Effect): nat {
    if es == [] then 0 else Count(es[..|es| - 1], e) + if es[|es| - 1] == e then 1 else 0
  }

  lemma {:induction false} CountJoin(a: seq<Effect>, b: seq<Effect>, e: Effect)
    ensures Count(a + b, e) == Count(a, e) + Count(b, e)
  {
    if b == [] {
      assert a + b == a;
    } else {
      assert (a + b)[..|a + b| - 1] == a + b[..|b| - 1];
      CountJoin(a, b[..|b| - 1], e);
    }
  }

  /** The answers of the next component among the effects. */
  function Answers(es: seq<Effect>): seq<Result> {
    if es == [] then [] else (if es[0].Consume? then [es[0].r] else []) + Answers(es[1..])
  }

  /** The retry loop: every answer but the last is that memory is high; it resumes unless the session ended first. */
  lemma {:induction false} RetryBalances(offset: nat, retries: seq<Option<Result>>)
    ensures var (es, o) := Retry(offset, retries);
      && Count(es, PauseAll) == 0
      && Count(es, ResumeAll) == (if o.Answered? then 1 else 0)
      && (o.Answered? ==> o.r != HighMemory && Answers(es) != [] && Answers(es)[|Answers(es)| - 1] == o.r)
      && (!o.Answered? ==> forall k :: 0 <= k < |Answers(es)| ==> Answers(es)[k] == HighMemory)
  {
    if retries != [] && retries[0].Some? {
      var r := retries[0].value;
      var (es, o) := Retry(offset, retries);
      if r == HighMemory {
        RetryBalances(offset, retries[1..]);
        var rest := Retry(offset, retries[1..]).0;
        CountJoin([Consume(offset, r)], rest, PauseAll);
        CountJoin([Consume(offset, r)], rest, ResumeAll);
        assert es[1..] == rest;
      } else {
        CountJoin([Consume(offset, r)], [ResumeAll], PauseAll);
        CountJoin([Consume(offset, r)], [ResumeAll], ResumeAll);
        assert es == [Consume(offset, r)] + [ResumeAll];
        assert es[1..] == [ResumeAll];
      }
    }
  }

  lemma {:induction false} AnswersJoin(a: seq<Effect>, b: seq<Effect>)
    ensures Answers(a + b) == Answers(a) + Answers(b)
  {
    if a == [] {
      assert a + b == b;
    } else {
      assert (a + b)[0] == a[0] && (a + b)[1..] == a[1..] + b;
      AnswersJoin(a[1..], b);
    }
  }

  lemma OneCall(offset: nat, r: Result)
    ensures Answers([Consume(offset, r)]) == [r]
    ensures Count([Consume(offset, r)], PauseAll) == 0 && Count([Consume(offset, r)], ResumeAll) == 0
  {
    assert [Consume(offset, r)][1..] == [] && [Consume(offset, r)][..0] == [];
  }

  lemma OnePause()
    ensures Answers([PauseAll]) == [] && Count([PauseAll], PauseAll) == 1 && Count([PauseAll], ResumeAll) == 0
  {
    assert [PauseAll][1..] == [] && [PauseAll][..0] == [];
  }

  /** A call, a pause, and the retry loop. */
  lemma LimitedParts(m: Message)
    requires m.first == HighMemory
    ensures var (es, rest) := (Limited(m).0, Retry(m.offset, m.retries).0);
      && Count(es, PauseAll) == 1 + Count(rest, PauseAll) && Count(es, ResumeAll) == Count(rest, ResumeAll)
      && Answers(es) == [HighMemory] + Answers(rest)
  {
    var first, rest := [Consume(m.offset, HighMemory)], Retry(m.offset, m.retries).0;
    OneCall(m.offset, HighMemory);
    OnePause();
    assert Limited(m).0 == first + [PauseAll] + rest;
    CountJoin(first + [PauseAll], rest, PauseAll);
    CountJoin(first + [PauseAll], rest, ResumeAll);
    CountJoin(first, [PauseAll], PauseAll);
    CountJoin(first, [PauseAll], ResumeAll);
    AnswersJoin(first + [PauseAll], rest);
    AnswersJoin(first, [PauseAll]);
  }

  /** The limiter pauses only after an answer that memory is high, resumes as often as it pauses unless the session
      ended or it still waits, and succeeds exactly when the last call of the next component did. */
  lemma LimiterBalances(m: Message)
    ensures var (es, o) := Limited(m);
      && Count(es, PauseAll) == (if m.first == HighMemory then 1 else 0)
      && (o.Answered? <==> Count(es, ResumeAll) == Count(es, PauseAll))
      && (!o.Answered? ==> Count(es, ResumeAll) == 0)
      && Answers(es) != []
      && (o == Answered(Success) <==> Answers(es)[|Answers(es)| - 1] == Success)
  {
    if m.first == HighMemory {
      LimitedParts(m);
      RetryBalances(m.offset, m.retries);
    } else {
      OneCall(m.offset, m.first);
    }
  }

  // ---------------------------------------------------------------- the calls, one by one

  /** The first `n` ticks meet the answer that memory is high, and the next one, if there is one, something else. */
  predicate HighUntil(retries: seq<Option<Result>>, n: nat) {
    && n <= |retries| && (forall i :: 0 <= i < n ==> retries[i] == Some(HighMemory))
    && (n < |retries| ==> retries[n] != Some(HighMemory))
  }

  /** A call and a pause, a call on every tick while memory is high, and then: a last call and a resumption, or the end
      of the session, or more waiting. */
  ghost predicate Loops(m: Message, es: seq<Effect>, o: Outcome, n: nat) {
    && HighUntil(m.retries, n) && |es| >= n + 2 && es[0] == Consume(m.offset, HighMemory) && es[1] == PauseAll
    && (forall i :: 2 <= i < n + 2 ==> es[i] == Consume(m.offset, HighMemory))
    && if n < |m.retries| && m.retries[n].Some?
       then es[n + 2..] == [Consume(m.offset, m.retries[n].value), ResumeAll] && o == Answered(m.retries[n].value)
       else |es| == n + 2 && o == if n < |m.retries| then SessionEnded else Waiting
  }

  lemma {:induction false} RetryExactly(offset: nat, retries: seq<Option<Result>>) returns (n: nat)
    ensures var (es, o) := Retry(offset, retries);
      && HighUntil(retries, n) && |es| >= n && (forall i :: 0 <= i < n ==> es[i] == Consume(offset, HighMemory))
      && if n < |retries| && retries[n].Some?
         then es[n..] == [Consume(offset, retries[n].value), ResumeAll] && o == Answered(retries[n].value)
         else |es| == n && o == if n < |retries| then SessionEnded else Waiting
  {
    n := 0;
    if retries != [] && retries[0] == Some(HighMemory) {
      n := RetryExactly(offset, retries[1..]);
      var (rest, _) := Retry(offset, retries[1..]);
      var es := [Consume(offset, HighMemory)] + rest;
      assert es[n + 1..] == rest[n..];
      assert forall i :: 1 <= i < |retries| ==> retries[i] == retries[1..][i - 1];
      n := n + 1;
    }
  }

  /** One call is all there is, unless it is answered that memory is high. */
  lemma LimitedExactly(m: Message) returns (n: nat)
    ensures var (es, o) := Limited(m);
      if m.first == HighMemory then Loops(m, es, o, n)
      else es == [Consume(m.offset, m.first)] && o == Answered(m.first)
  {
    n := 0;
    if m.first == HighMemory {
      n := RetryExactly(m.offset, m.retries);
      var rest := Retry(m.offset, m.retries).0;
      var es := [Consume(m.offset, HighMemory), PauseAll] + rest;
      assert es[n + 2..] == rest[n..] && forall i :: 2 <= i < n + 2 ==> es[i] == rest[i - 2];
    }
  }

  /** A message is delivered when the first call succeeds, or memory is high until a call succeeds. */
  lemma DeliversExactly(m: Message)
    ensures Delivers(m) <==> m.unmarshals && (m.first == Success || (m.first == HighMemory && SucceedsLater(m.retries)))
  {
    var n := LimitedExactly(m);
    if m.first == HighMemory { SameHighUntil(m.retries, n); }
  }

  ghost predicate SucceedsLater(retries: seq<Option<Result>>) {
    exists n: nat :: n < |retries| && HighUntil(retries, n) && retries[n] == Some(Success)
  }

  lemma SameHighUntil(retries: seq<Option<Result>>, n: nat)
    requires HighUntil(retries, n)
    ensures forall k: nat :: HighUntil(retries, k) ==> k == n
  {}

  /** What one message brings about: the mark comes first, or else after the calls of a delivered message, or of a
      failed one that is to be marked on error; a delivered message is committed at once without autocommit. The claim
      goes on after a delivered message, waits where the calls do, and returns an error otherwise. */
  lemma OneExactly(c: Marking, m: Message)
    ensures var (es, v) := ClaimOne(c, m);
      && es == (if c.after then [] else [Mark(m.offset)])
             + (if m.unmarshals then Limited(m).0 else [])
             + (if c.after && (v == Next || (c.onError && v == Returned(false))) then [Mark(m.offset)] else [])
             + (if v == Next && !c.autocommit then [Commit] else [])
      && v == if Delivers(m) then Next
              else if m.unmarshals && Limited(m).1 == Waiting then InProgress
              else Returned(false)
  {
    var before, calls, after := OneInParts(c, m);
    var mark := if c.after && (ClaimOne(c, m).1 == Next || (c.onError && ClaimOne(c, m).1 == Returned(false)))
                then [Mark(m.offset)] else [];
    var commit := if ClaimOne(c, m).1 == Next && !c.autocommit then [Commit] else [];
    assert after == mark + commit;
    assert before + (calls + (mark + commit)) == before + calls + mark + commit;
  }

  function OfEvent(c: Marking, event: Option<Message>): seq<Effect> {
    if event.Some? then ClaimOne(c, event.value).0 else []
  }

  /** The effects of the first messages, one after the other. */
  function InTurn(c: Marking, events: seq<Option<Message>>, n: nat): seq<Effect>
    requires n <= |events|
  { if n == 0 then [] else OfEvent(c, events[0]) + InTurn(c, events[1..], n - 1) }

  lemma ClaimDelivers(c: Marking, events: seq<Option<Message>>)
    requires events != [] && events[0].Some? && Delivers(events[0].value)
    ensures Claim(c, events).0 == OfEvent(c, events[0]) + Claim(c, events[1..]).0
    ensures Claim(c, events).1 == Claim(c, events[1..]).1
  {
    OneExactly(c, events[0].value);
  }

  lemma ClaimStops(c: Marking, events: seq<Option<Message>>)
    requires events != [] && events[0].Some? && !Delivers(events[0].value)
    ensures Claim(c, events).1 == ClaimOne(c, events[0].value).1 != Next
    ensures Claim(c, events).0 == OfEvent(c, events[0]) + Final(c, Claim(c, events).1)
  {
    OneExactly(c, events[0].value);
  }

  /** A claim that does not wait commits at the end, unless autocommit is on. */
  function Final(c: Marking, v: Verdict): seq<Effect> { if v != InProgress && !c.autocommit then [Commit] else [] }

  /** A claim takes its messages in turn up to the first that is not delivered, and then commits. */
  lemma {:induction false} ClaimExactly(c: Marking, events: seq<Option<Message>>)
    ensures var n := Leading(events);
      var (es, v) := Claim(c, events);
      && es == InTurn(c, events, Taken(events)) + Final(c, v)
      && v == if n == |events| || events[n].None? then Returned(true) else ClaimOne(c, events[n].value).1
  {
    if events != [] && events[0].Some? {
      var one, v := OfEvent(c, events[0]), Claim(c, events).1;
      if Delivers(events[0].value) {
        ClaimDelivers(c, events);
        ClaimExactly(c, events[1..]);
        var rest := InTurn(c, events[1..], Taken(events[1..]));
        assert Taken(events) == Taken(events[1..]) + 1;
        assert one + (rest + Final(c, v)) == one + rest + Final(c, v);
      } else {
        ClaimStops(c, events);
        assert Taken(events) == 1 && one + InTurn(c, events[1..], 0) == one;
      }
    }
  }

  // ---------------------------------------------------------------- marking

  function Marks(es: seq<Effect>): seq<nat> {
    if es == [] then []
    else Marks(es[..|es| - 1]) + if es[|es| - 1].Mark? then [es[|es| - 1].offset] else []
  }

  lemma {:induction false} MarksJoin(a: seq<Effect>, b: seq<Effect>)
    ensures Marks(a + b) == Marks(a) + Marks(b)
  {
    if b == [] {
      assert a + b == a;
    } else {
      assert (a + b)[..|a + b| - 1] == a + b[..|b| - 1];
      MarksJoin(a, b[..|b| - 1]);
    }
  }

  predicate Delivers(m: Message) { m.unmarshals && Limited(m).1 == Answered(Success) }

  /** How many messages at the front are delivered. */
  function Leading(events: seq<Option<Message>>): (n: nat)
    ensures n <= |events|
    ensures forall i :: 0 <= i < n ==> events[i].Some? && Delivers(events[i].value)
    ensures n < |events| && events[n].Some? ==> !Delivers(events[n].value)
  {
    if events == [] || events[0].None? || !Delivers(events[0].value) then 0 else 1 + Leading(events[1..])
  }

  /** How many messages are taken from the claim: those, and the one that fails. */
  function Taken(events: seq<Option<Message>>): nat {
    var n := Leading(events);
    if n < |events| && events[n].Some? then n + 1 else n
  }

  function Offsets(events: seq<Option<Message>>, n: nat): (os: seq<nat>)
    requires n <= |events|
    ensures |os| == n
  {
    seq(n, i requires 0 <= i < n => if events[i].Some? then events[i].value.offset else 0)
  }

  lemma {:induction false} NoMarks(es: seq<Effect>)
    requires forall i :: 0 <= i < |es| ==> !es[i].Mark?
    ensures Marks(es) == []
  {
    if es != [] { NoMarks(es[..|es| - 1]); }
  }

  lemma {:induction false} RetryHasNoMarks(offset: nat, retries: seq<Option<Result>>)
    ensures forall i :: 0 <= i < |Retry(offset, retries).0| ==> !Retry(offset, retries).0[i].Mark?
    ensures Retry(offset, retries).1 == Answered(Success) ==> Consume(offset, Success) in Retry(offset, retries).0
  {
    if retries != [] { RetryHasNoMarks(offset, retries[1..]); }
  }

  lemma LimitedHasNoMarks(m: Message, p: seq<Effect>)
    requires p <= Limited(m).0
    ensures Marks(p) == []
    ensures Limited(m).1 == Answered(Success) ==> Consume(m.offset, Success) in Limited(m).0
  {
    RetryHasNoMarks(m.offset, m.retries);
    NoMarks(p);
  }

  /** The effects of one message: a mark before, the calls, a mark after, a commit. */
  lemma OneInParts(c: Marking, m: Message) returns (before: seq<Effect>, calls: seq<Effect>, after: seq<Effect>)
    ensures var (es, v) := ClaimOne(c, m);
      && es == before + (calls + after)
      && before == MarkIf(!c.after, m)
      && calls == (if m.unmarshals then Limited(m).0 else [])
      && after == MarkIf(c.after && (v == Next || (c.onError && v.Returned?)), m) + CommitIf(v == Next && !c.autocommit)
      && (v == Next <==> Delivers(m))
  {
    var (es, v) := ClaimOne(c, m);
    before, calls := MarkIf(!c.after, m), if m.unmarshals then Limited(m).0 else [];
    after := MarkIf(c.after && (v == Next || (c.onError && v.Returned?)), m) + CommitIf(v == Next && !c.autocommit);
    assert es == before + (calls + after);
  }

  lemma PrefixOfJoin(p: seq<Effect>, a: seq<Effect>, b: seq<Effect>)
    requires p <= a + b
    ensures p <= a || (p == a + p[|a|..] && p[|a|..] <= b)
  {
    assert forall i :: 0 <= i < |p| ==> p[i] == (a + b)[i];
    if |p| > |a| {
      assert forall i :: 0 <= i < |a| ==> p[i] == a[i];
      assert forall i :: 0 <= i < |p| - |a| ==> p[|a|..][i] == b[i];
    }
  }

  /** One message with After and without OnError: marked only once it is delivered, never when it is not. */
  lemma MarkAfterOne(c: Marking, m: Message, p: seq<Effect>)
    requires c.after && !c.onError && p <= ClaimOne(c, m).0
    ensures Marks(p) == [] || (Delivers(m) && Marks(p) == [m.offset] && Consume(m.offset, Success) in p)
    ensures !Delivers(m) ==> Marks(p) == []
  {
    var before, calls, after := OneInParts(c, m);
    PrefixOfJoin(p, before, calls + after);
    assert before == [] && p <= calls + after;
    PrefixOfJoin(p, calls, after);
    if p <= calls {
      if m.unmarshals { LimitedHasNoMarks(m, p); }
    } else {
      var q := p[|calls|..];
      if m.unmarshals { LimitedHasNoMarks(m, calls); }
      MarksJoin(calls, q);
      ShortMarks(q, m.offset);
    }
  }

  lemma ShortMarks(q: seq<Effect>, offset: nat)
    requires |q| > 0 && (q[0] == Mark(offset) || !q[0].Mark?) && |q| <= 2 && (|q| == 2 ==> !q[1].Mark?)
    ensures Marks(q) == if q[0].Mark? then [offset] else []
  {
    assert q[..|q| - 1] == if |q| == 1 then [] else [q[0]];
    assert [q[0]][..0] == [];
  }

  lemma OffsetsCons(events: seq<Option<Message>>, k: nat)
    requires events != [] && events[0].Some? && k < |events|
    ensures Offsets(events, k + 1) == [events[0].value.offset] + Offsets(events[1..], k)
  {}

  /** The marked messages of `es` are the first `k` of the claim, and each has been delivered. */
  ghost predicate MarksDelivered(es: seq<Effect>, events: seq<Option<Message>>, k: nat) {
    && k <= Leading(events) && Marks(es) == Offsets(events, k)
    && forall i :: 0 <= i < k ==> Consume(events[i].value.offset, Success) in es
  }

  lemma ClaimInParts(c: Marking, events: seq<Option<Message>>) returns (rest: seq<Effect>)
    requires events != [] && events[0].Some?
    ensures var (es, v) := ClaimOne(c, events[0].value);
      && Claim(c, events).0 == es + rest
      && (v == Next ==> (rest, Claim(c, events).1) == Claim(c, events[1..]))
      && (v != Next ==> rest == CommitIf(v.Returned? && !c.autocommit) && Claim(c, events).1 == v)
  {
    var (es, v) := ClaimOne(c, events[0].value);
    rest := if v == Next then Claim(c, events[1..]).0 else CommitIf(v.Returned? && !c.autocommit);
  }

  /** With After and without OnError, at every moment of a claim the marked messages are a prefix of the claimed ones,
      each of them delivered, and none at or past the first failure. A moment is a prefix of the effects. */
  lemma {:induction false} MarkedIsDelivered(c: Marking, events: seq<Option<Message>>, p: seq<Effect>) returns (k: nat)
    requires c.after && !c.onError && p <= Claim(c, events).0
    ensures MarksDelivered(p, events, k)
    decreases |events|, 1
  {
    k := 0;
    if events == [] || events[0].None? {
      NoMarks(p);
    } else {
      var m := events[0].value;
      var one := ClaimOne(c, m).0;
      var rest := ClaimInParts(c, events);
      var _, _, _ := OneInParts(c, m);
      OffsetsCons(events, 0);
      PrefixOfJoin(p, one, rest);
      if p <= one {
        MarkAfterOne(c, m, p);
        k := if Marks(p) == [] then 0 else 1;
      } else {
        k := MarkedBeyond(c, events, one, rest, p[|one|..]);
      }
    }
  }

  lemma {:induction false} MarkedBeyond(c: Marking, events: seq<Option<Message>>, one: seq<Effect>, rest: seq<Effect>,
                                        more: seq<Effect>)
    returns (k: nat)
    requires c.after && !c.onError && events != [] && events[0].Some? && one == ClaimOne(c, events[0].value).0
    requires more <= rest
    requires var v := ClaimOne(c, events[0].value).1;
      if v == Next then rest == Claim(c, events[1..]).0 else rest == CommitIf(v.Returned? && !c.autocommit)
    ensures MarksDelivered(one + more, events, k)
    decreases |events|, 0
  {
    var m := events[0].value;
    MarksOfOne(c, m);
    MarkAfterOne(c, m, one);
    MarksJoin(one, more);
    if Delivers(m) {
      k := MarkedIsDelivered(c, events[1..], more);
      DeliveredCons(events, one, more, k);
      k := k + 1;
    } else {
      NoMarks(more);
      k := 0;
    }
  }

  lemma DeliveredCons(events: seq<Option<Message>>, one: seq<Effect>, more: seq<Effect>, k: nat)
    requires events != [] && events[0].Some? && Delivers(events[0].value) && MarksDelivered(more, events[1..], k)
    requires Marks(one) == [events[0].value.offset] && Consume(events[0].value.offset, Success) in one
    requires Marks(one + more) == Marks(one) + Marks(more)
    ensures MarksDelivered(one + more, events, k + 1)
  {
    OffsetsCons(events, k);
    forall i | 0 <= i < k + 1 ensures Consume(events[i].value.offset, Success) in one + more {
      if i > 0 { assert Consume(events[1..][i - 1].value.offset, Success) in more; }
    }
  }

  // ---------------------------------------------------------------- all settings

  /** How many messages a claim with this verdict marks: the delivered ones, and the one that fails as well unless
      marking is after delivery and not on error. One that still waits is marked only when marking comes first. */
  function MarkCount(c: Marking, events: seq<Option<Message>>, v: Verdict): (n: nat)
    ensures n <= |events|
  { if !c.after || (c.onError && v.Returned? && !v.ok) then Taken(events) else Leading(events) }

  lemma MarkCountCons(c: Marking, events: seq<Option<Message>>, v: Verdict)
    requires events != [] && events[0].Some?
    ensures Delivers(events[0].value) ==>
      Offsets(events, MarkCount(c, events, v)) ==
        [events[0].value.offset] + Offsets(events[1..], MarkCount(c, events[1..], v))
    ensures !Delivers(events[0].value) ==>
      Offsets(events, MarkCount(c, events, v)) ==
        if !c.after || (c.onError && v.Returned? && !v.ok) then [events[0].value.offset] else []
  {
    OffsetsCons(events, 0);
    if Delivers(events[0].value) { OffsetsCons(events, MarkCount(c, events[1..], v)); }
  }

  /** What a whole claim marks: that many messages, in order from the first. */
  lemma {:induction false} MarksExactly(c: Marking, events: seq<Option<Message>>)
    ensures Marks(Claim(c, events).0) == Offsets(events, MarkCount(c, events, Claim(c, events).1))
  {
    if events == [] || events[0].None? {
      NoMarks(Claim(c, events).0);
    } else {
      var m := events[0].value;
      var rest := ClaimInParts(c, events);
      MarksOfOne(c, m);
      MarkCountCons(c, events, Claim(c, events).1);
      if Delivers(m) { MarksExactly(c, events[1..]); } else { NoMarks(rest); }
      calc {
        Marks(Claim(c, events).0);
      == { MarksJoin(ClaimOne(c, m).0, rest); }
        Marks(ClaimOne(c, m).0) + Marks(rest);
      == Offsets(events, MarkCount(c, events, Claim(c, events).1));
      }
    }
  }

  lemma MarksOfOne(c: Marking, m: Message)
    ensures var (es, v) := ClaimOne(c, m);
      && (v == Next <==> Delivers(m)) && (v.Returned? ==> !v.ok)
      && Marks(es) == if !c.after || v == Next || (c.onError && v.Returned?) then [m.offset] else []
  {
    var before, calls, after := OneInParts(c, m);
    if m.unmarshals { LimitedHasNoMarks(m, calls); }
    MarksJoin(before, calls + after);
    MarksJoin(calls, after);
    if after != [] { ShortMarks(after, m.offset); }
    if before != [] { ShortMarks(before, m.offset); }
  }

  /** Without autocommit a claim that returns has committed last, after everything it marked; with autocommit it never
      commits itself. */
  lemma {:induction false} CommitsLast(c: Marking, events: seq<Option<Message>>)
    ensures var (es, v) := Claim(c, events);
      && (!c.autocommit && v.Returned? ==> es != [] && es[|es| - 1] == Commit)
      && (c.autocommit ==> Commit !in es)
  {
    if events != [] && events[0].Some? {
      var rest := ClaimInParts(c, events);
      var before, calls, after := OneInParts(c, events[0].value);
      RetryHasNoCommit(events[0].value.offset, events[0].value.retries);
      if ClaimOne(c, events[0].value).1 == Next { CommitsLast(c, events[1..]); }
    }
  }

  lemma {:induction false} RetryHasNoCommit(offset: nat, retries: seq<Option<Result>>)
    ensures Commit !in Retry(offset, retries).0
  {
    if retries != [] { RetryHasNoCommit(offset, retries[1..]); }
  }
}
