/** What eviction before the decision means for a trace, in every run: when it cannot happen, what is lost when it does,
    and how often spans are forwarded. */
module TailSamplerEviction {
  import opened Sums
  import opened TailSampler
  import opened TailSamplerProof
  import opened TailSamplerDelivery

  // ---------------------------------------------------------------- when nothing is evicted

  /** Only ids of `ids` arrive. */
  ghost predicate IdsIn(ls: seq<Label>, ids: set<TraceID>) {
    forall i :: 0 <= i < |ls| && ls[i].Arrive? ==> ls[i].id in ids
  }

  predicate Evicting(w: Worker) { w.ToPop? || w.ToDrop? || w.ToUncount? }

  /** The table holds ids of `ids` only, has room for all of them, and no goroutine is evicting. */
  ghost predicate Roomy(s: State, ids: set<TraceID>) {
    && RefsOk(s) && IndexOk(s) && s.idToTrace.Keys <= ids && |ids| <= s.maxNumTraces
    && forall i :: 0 <= i < |s.workers| ==> !Evicting(s.workers[i])
  }

  /** The id about to be queued is on the table and not in the queue yet, so the queue has a place for it. */
  lemma QueueHasRoom(s: State, w: nat, ids: set<TraceID>)
    requires Roomy(s, ids) && w < |s.workers| && s.workers[w].ToPost?
    ensures |s.deleteChan| < s.maxNumTraces
  {
    var q, id := s.deleteChan, s.workers[w].id;
    forall x ensures Occ(q, x) <= One(x in s.idToTrace) {
      assert Indexed(s, x);
      TotalNonNegative(s.workers, HoldsId(x));
    }
    TotalAtLeast(s.workers, w, HoldsId(id));
    assert Indexed(s, id);
    OccPositive(q, id);
    var queued := set x | x in q;
    forall x | x in queued ensures x in s.idToTrace { OccPositive(q, x); }
    forall i, j | 0 <= i < j < |q| ensures q[i] != q[j] { OccAt(q, i); }
    SameSize(q, queued);
    SubsetSize(queued + {id}, ids);
  }

  lemma RoomyStep(s: State, l: Label, ids: set<TraceID>, x: TraceID)
    requires Roomy(s, ids) && Enabled(s, l) && (l.Arrive? ==> l.id in ids)
    ensures Roomy(Next(s, l), ids) && Keeps(s, l, x)
  {
    RefsStep(s, l);
    IndexStep(s, l);
    TableGrowsByArrivals(s, l);
    if l.Advance? && s.workers[l.w].ToPost? { QueueHasRoom(s, l.w, ids); }
    NobodyEvicts(s, l);
  }

  lemma TableGrowsByArrivals(s: State, l: Label)
    requires Enabled(s, l)
    ensures Next(s, l).idToTrace.Keys <= s.idToTrace.Keys + (if l.Arrive? then {l.id} else {})
    ensures Next(s, l).maxNumTraces == s.maxNumTraces
  {}

  lemma NobodyEvicts(s: State, l: Label)
    requires Enabled(s, l) && forall i :: 0 <= i < |s.workers| ==> !Evicting(s.workers[i])
    requires l.Advance? && s.workers[l.w].ToPost? ==> |s.deleteChan| < s.maxNumTraces
    ensures var ws := Next(s, l).workers; forall i :: 0 <= i < |ws| ==> !Evicting(ws[i])
  {
    if l.Advance? { assert !Evicting(NextPc(s, l.w)); }
  }

  lemma {:induction false} RoomyAlways(s: State, ls: seq<Label>, ids: set<TraceID>, x: TraceID)
    requires Roomy(s, ids) && Runs(s, ls) && IdsIn(ls, ids)
    ensures RunKeeps(s, ls, x)
    decreases |ls|
  {
    if ls != [] {
      RoomyStep(s, ls[0], ids, x);
      assert IdsIn(ls[1..], ids);
      RoomyAlways(Next(s, ls[0]), ls[1..], ids, x);
    }
  }

  /** While no more different traces arrive than the table is configured for, none is evicted undecided: the proviso of
      `ExactlyOnce` holds for every trace. */
  lemma FewTracesAreNeverEvicted(maxNumTraces: nat, numBatches: nat, numWorkers: nat, ls: seq<Label>,
                                 ids: set<TraceID>, x: TraceID)
    requires Runs(Init(maxNumTraces, numBatches, numWorkers), ls) && IdsIn(ls, ids) && |ids| <= maxNumTraces
    ensures RunKeeps(Init(maxNumTraces, numBatches, numWorkers), ls, x)
  {
    InitIndex(maxNumTraces, numBatches, numWorkers);
    RoomyAlways(Init(maxNumTraces, numBatches, numWorkers), ls, ids, x);
  }

  // ---------------------------------------------------------------- what is lost

  /** Nothing of an undecided entry has been forwarded or is about to be. */
  ghost predicate Untouched(s: State, h: nat) {
    && h < |s.traces| && s.traces[h].decision == Unspecified && s.traces[h].forwarded == multiset{}
    && !(s.ticker.Forwarding? && s.ticker.h == h)
    && forall i :: 0 <= i < |s.workers| && s.workers[i].Late? ==> s.workers[i].h != h
  }

  ghost predicate UndecidedUntouched(s: State) {
    forall h :: 0 <= h < |s.traces| && s.traces[h].decision == Unspecified ==> Untouched(s, h)
  }

  lemma UntouchedStep(s: State, l: Label, h: nat)
    requires RefsOk(s) && Enabled(s, l) && h < |s.traces| && Untouched(s, h)
    requires !(l.Decide? && s.ticker.h == h)
    ensures Untouched(Next(s, l), h)
  {
    if l.Advance? {
      UntouchedAdvance(s, l.w, h);
    } else if l.Arrive? {
      assert |Next(s, l).traces| >= |s.traces|;
    }
  }

  lemma UntouchedAdvance(s: State, w: nat, h: nat)
    requires RefsOk(s) && Enabled(s, Advance(w)) && h < |s.traces| && Untouched(s, h)
    ensures Untouched(Advanced(s, w), h)
  {
    forall x: Span ensures Effect(s, w).traces[h].forwarded[x] == 0 { CarriedAdvance(s, w, h, x); }
    CarriedAdvance(s, w, h, 0);
    assert NextPc(s, w).Late? ==> NextPc(s, w).h != h;
  }

  lemma UndecidedUntouchedStep(s: State, l: Label)
    requires RefsOk(s) && UndecidedUntouched(s) && Enabled(s, l)
    ensures UndecidedUntouched(Next(s, l))
  {
    var s' := Next(s, l);
    forall h | 0 <= h < |s'.traces| && s'.traces[h].decision == Unspecified ensures Untouched(s', h) {
      if h < |s.traces| {
        DecisionsStay(s, l, h);
        UntouchedStep(s, l, h);
      } else {
        NewIsUntouched(s, l, h);
      }
    }
  }

  /** Only a verdict decides, and no step undoes a decision. */
  lemma DecisionsStay(s: State, l: Label, h: nat)
    requires RefsOk(s) && Enabled(s, l) && h < |s.traces|
    ensures h < |Next(s, l).traces|
    ensures Next(s, l).traces[h].decision ==
              if l.Decide? && s.ticker.h == h then Verdict(l.answers) else s.traces[h].decision
  {
    if l.Advance? { CarriedAdvance(s, l.w, h, 0); }
  }

  lemma NewIsUntouched(s: State, l: Label, h: nat)
    requires RefsOk(s) && Enabled(s, l) && |s.traces| <= h < |Next(s, l).traces|
    ensures Untouched(Next(s, l), h)
  {
    if !l.Arrive? { OnlyArrivalsAllocate(s, l); }
  }

  lemma {:induction false} UndecidedUntouchedAlways(s: State, ls: seq<Label>)
    requires RefsOk(s) && UndecidedUntouched(s) && Runs(s, ls)
    ensures RefsOk(Exec(s, ls)) && UndecidedUntouched(Exec(s, ls))
    decreases |ls|
  {
    if ls != [] {
      RefsStep(s, ls[0]);
      UndecidedUntouchedStep(s, ls[0]);
      UndecidedUntouchedAlways(Next(s, ls[0]), ls[1..]);
    }
  }

  /** An untouched entry that is off the table and not with the ticker. */
  ghost predicate Lost(s: State, h: nat) {
    && Untouched(s, h)
    && (forall id :: id in s.idToTrace ==> s.idToTrace[id] != h)
    && !(s.ticker.Evaluating? && s.ticker.h == h)
  }

  lemma LostAdvance(s: State, w: nat, h: nat)
    requires Lost(s, h) && Enabled(s, Advance(w))
    ensures var s' := Advanced(s, w);
      && (forall id :: id in s'.idToTrace ==> s'.idToTrace[id] != h)
      && !(s'.ticker.Evaluating? && s'.ticker.h == h)
  {}

  lemma LostStep(s: State, l: Label, h: nat)
    requires RefsOk(s) && Lost(s, h) && Enabled(s, l)
    ensures Lost(Next(s, l), h)
  {
    UntouchedStep(s, l, h);
    if l.Advance? { LostAdvance(s, l.w, h); }
  }

  /** A lost entry stays undecided and nothing of it is ever forwarded, whatever happens next. */
  lemma {:induction false} LostForever(s: State, ls: seq<Label>, h: nat)
    requires RefsOk(s) && Lost(s, h) && Runs(s, ls)
    ensures Lost(Exec(s, ls), h)
    decreases |ls|
  {
    if ls != [] {
      RefsStep(s, ls[0]);
      LostStep(s, ls[0], h);
      LostForever(Next(s, ls[0]), ls[1..], h);
    }
  }

  /** In every run: the entry of a trace that is evicted undecided is lost, unless the ticker is evaluating it just
      then. In every continuation it stays undecided and none of its spans is forwarded. */
  lemma EvictedUndecidedIsLost(maxNumTraces: nat, numBatches: nat, numWorkers: nat, ls: seq<Label>, w: nat,
                               more: seq<Label>)
    requires Runs(Init(maxNumTraces, numBatches, numWorkers), ls)
    requires var s := Exec(Init(maxNumTraces, numBatches, numWorkers), ls);
      && Enabled(s, Advance(w)) && s.workers[w].ToDrop? && Undecided(s, s.workers[w].victim)
      && !(s.ticker.Evaluating? && s.ticker.h == s.idToTrace[s.workers[w].victim])
      && Runs(Next(s, Advance(w)), more)
    ensures var s := Exec(Init(maxNumTraces, numBatches, numWorkers), ls);
      var h, s' := s.idToTrace[s.workers[w].victim], Exec(Next(s, Advance(w)), more);
      h < |s'.traces| && s'.traces[h].decision == Unspecified && s'.traces[h].forwarded == multiset{}
  {
    var s0 := Init(maxNumTraces, numBatches, numWorkers);
    InitIndex(maxNumTraces, numBatches, numWorkers);
    UndecidedUntouchedAlways(s0, ls);
    var s := Exec(s0, ls);
    var h := s.idToTrace[s.workers[w].victim];
    UntouchedAdvance(s, w, h);
    RefsStep(s, Advance(w));
    LostForever(Next(s, Advance(w)), more, h);
  }

  // ---------------------------------------------------------------- how often spans are forwarded

  /** How often a run decides entry `h` as Sampled. */
  ghost function Verdicts(s: State, ls: seq<Label>, h: nat): nat
    requires Runs(s, ls)
    decreases |ls|
  {
    if ls == [] then 0 else VerdictBy(s, ls[0], h) + Verdicts(Next(s, ls[0]), ls[1..], h)
  }

  function VerdictBy(s: State, l: Label, h: nat): nat
    requires Enabled(s, l)
  { One(l.Decide? && s.ticker.h == h && Verdict(l.answers) == Sampled) }

  /** How many copies of `x` a run takes for late spans of entry `h`, to be forwarded at once. */
  ghost function LateCopies(s: State, ls: seq<Label>, h: nat, x: Span): nat
    requires Runs(s, ls)
    decreases |ls|
  {
    if ls == [] then 0 else LateTaken(s, ls[0], h, x) + LateCopies(Next(s, ls[0]), ls[1..], h, x)
  }

  function LateTaken(s: State, l: Label, h: nat, x: Span): nat
    requires Enabled(s, l)
  {
    if l.Advance? && s.workers[l.w].AtLock? && h < |s.traces| && s.traces[h].decision == Sampled
    then HeldBy(s.workers[l.w], h, x) else 0
  }

  function Times(d: nat, n: nat): nat { if d == 0 then 0 else Times(d - 1, n) + n }

  lemma {:induction false} TimesIsProduct(d: nat, n: nat)
    ensures Times(d, n) == d * n
  {
    if d > 0 {
      TimesIsProduct(d - 1, n);
      assert d * n == (d - 1) * n + n;
    }
  }

  /** `d` verdicts and `late` late copies account for all that was forwarded or is about to be. */
  ghost predicate Tallied(s: State, h: nat, x: Span, d: nat, late: nat) {
    if h < |s.traces| then
      && Out(s, h, x) == Times(d, s.traces[h].received[x]) + late
      && (s.traces[h].decision == Unspecified ==> d == 0)
    else d == 0 && late == 0
  }

  lemma TalliedAdvance(s: State, w: nat, h: nat, x: Span, d: nat, late: nat)
    requires RefsOk(s) && Enabled(s, Advance(w)) && h < |s.traces| && Tallied(s, h, x, d, late)
    ensures Tallied(Advanced(s, w), h, x, d, late + LateTaken(s, Advance(w), h, x))
  {
    TotalUpdate(s.workers, w, NextPc(s, w), Forwarders(h, x));
    CarriedAdvance(s, w, h, x);
  }

  lemma TalliedArrive(s: State, w: nat, id: TraceID, spans: multiset<Span>, h: nat, x: Span, d: nat, late: nat)
    requires RefsOk(s) && Enabled(s, Arrive(w, id, spans)) && Tallied(s, h, x, d, late)
    ensures Tallied(Arrived(s, w, id, spans), h, x, d, late)
  {
    var s' := Arrived(s, w, id, spans);
    TotalUpdate(s.workers, w, s'.workers[w], Forwarders(h, x));
    if h == |s.traces| { TotalZero(s.workers, Forwarders(h, x)); }
  }

  lemma TalliedRest(s: State, l: Label, h: nat, x: Span, d: nat, late: nat)
    requires RefsOk(s) && Enabled(s, l) && !l.Arrive? && !l.Advance? && h < |s.traces| && Tallied(s, h, x, d, late)
    ensures Tallied(Next(s, l), h, x, d + VerdictBy(s, l, h), late)
  {
    match l
    case Decide(_) =>
    case ForwardSampled =>
    case _ =>
  }

  lemma TalliedStep(s: State, l: Label, h: nat, x: Span, d: nat, late: nat)
    requires RefsOk(s) && Enabled(s, l) && Tallied(s, h, x, d, late)
    ensures Tallied(Next(s, l), h, x, d + VerdictBy(s, l, h), late + LateTaken(s, l, h, x))
  {
    if l.Arrive? {
      TalliedArrive(s, l.w, l.id, l.spans, h, x, d, late);
    } else if h >= |s.traces| {
      OnlyArrivalsAllocate(s, l);
    } else if l.Advance? {
      TalliedAdvance(s, l.w, h, x, d, late);
    } else {
      TalliedRest(s, l, h, x, d, late);
    }
  }

  lemma {:induction false} TalliedAlways(s: State, ls: seq<Label>, h: nat, x: Span, d: nat, late: nat)
    requires RefsOk(s) && Runs(s, ls) && Tallied(s, h, x, d, late)
    ensures Tallied(Exec(s, ls), h, x, d + Verdicts(s, ls, h), late + LateCopies(s, ls, h, x))
    decreases |ls|
  {
    if ls != [] {
      RefsStep(s, ls[0]);
      TalliedStep(s, ls[0], h, x, d, late);
      TalliedAlways(Next(s, ls[0]), ls[1..], h, x, d + VerdictBy(s, ls[0], h), late + LateTaken(s, ls[0], h, x));
    }
  }

  /** In every run, with evictions of any kind: once the work on an entry has settled, each span it held has been
      forwarded as often as the entry was decided Sampled, and each late copy once. */
  lemma ForwardedOncePerVerdict(maxNumTraces: nat, numBatches: nat, numWorkers: nat, ls: seq<Label>, h: nat, x: Span)
    requires Runs(Init(maxNumTraces, numBatches, numWorkers), ls)
    requires var s := Exec(Init(maxNumTraces, numBatches, numWorkers), ls); h < |s.traces| && Settled(s, h)
    ensures var s0 := Init(maxNumTraces, numBatches, numWorkers);
      var t := Exec(s0, ls).traces[h];
      t.forwarded[x] == Verdicts(s0, ls, h) * t.received[x] + LateCopies(s0, ls, h, x)
  {
    var s0 := Init(maxNumTraces, numBatches, numWorkers);
    InitIndex(maxNumTraces, numBatches, numWorkers);
    TalliedAlways(s0, ls, h, x, 0, 0);
    TimesIsProduct(Verdicts(s0, ls, h), Exec(s0, ls).traces[h].received[x]);
    TotalZero(Exec(s0, ls).workers, Forwarders(h, x));
  }

  /** So a span that was held is forwarded exactly once if and only if its entry is decided Sampled exactly once. */
  lemma HeldSpanForwardedOnceExactly(maxNumTraces: nat, numBatches: nat, numWorkers: nat, ls: seq<Label>, h: nat,
                                     x: Span)
    requires Runs(Init(maxNumTraces, numBatches, numWorkers), ls)
    requires var s := Exec(Init(maxNumTraces, numBatches, numWorkers), ls);
      h < |s.traces| && Settled(s, h) && s.traces[h].received[x] > 0
    ensures var s0 := Init(maxNumTraces, numBatches, numWorkers);
      var t := Exec(s0, ls).traces[h];
      t.forwarded[x] - LateCopies(s0, ls, h, x) == t.received[x] <==> Verdicts(s0, ls, h) == 1
  {
    var s0 := Init(maxNumTraces, numBatches, numWorkers);
    ForwardedOncePerVerdict(maxNumTraces, numBatches, numWorkers, ls, h, x);
    SameProduct(Verdicts(s0, ls, h), Exec(s0, ls).traces[h].received[x]);
  }

  lemma SameProduct(d: nat, n: nat)
    requires n > 0
    ensures d * n == n <==> d == 1
  {
    if d > 1 { assert d * n == n + (d - 1) * n; }
  }
}
