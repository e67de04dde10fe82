/** What the spans of a batch, grouped by trace, do to the tables of the tail sampler. */
module TailSamplerGroups {
  import opened Sums
  import opened TailSampler

  datatype Tables = Tables(traces: seq<Trace>, idToTrace: map<TraceID, nat>, deleteChan: seq<TraceID>,
                           currentBatch: seq<TraceID>)

  /** A trace entry after spans for it were handed in, by what has been decided about it. */
  function WithSpans(t: Trace, spans: multiset<Span>): Trace {
    var t := t.(arrived := t.arrived + spans);
    match t.decision
    case Unspecified => t.(received := t.received + spans)
    case Sampled => t.(forwarded := t.forwarded + spans)
    case _ => t
  }

  /** Every id on the table has its own entry. */
  ghost predicate TablesOk(t: Tables) {
    forall id :: id in t.idToTrace ==> t.idToTrace[id] < |t.traces| && t.traces[t.idToTrace[id]].id == id
  }

  /** The spans of one trace, known or new; a full queue gives up its oldest id for a new one. */
  function GroupEffect(max: nat, t: Tables, id: TraceID, spans: multiset<Span>): Tables {
    if id in t.idToTrace then
      var h := t.idToTrace[id];
      if h < |t.traces| then t.(traces := t.traces[h := WithSpans(t.traces[h], spans)]) else t
    else
      var traces := t.traces + [Trace(id, spans, Unspecified, spans, multiset{})];
      var table := t.idToTrace[id := |t.traces|];
      if |t.deleteChan| < max || t.deleteChan == [] then
        Tables(traces, table, t.deleteChan + [id], t.currentBatch + [id])
      else
        Tables(traces, table - {t.deleteChan[0]}, t.deleteChan[1..] + [id], t.currentBatch + [id])
  }

  type Groups = map<TraceID, multiset<Span>>

  /** The groups of `order`, one after the other. */
  function Effects(max: nat, t: Tables, order: seq<TraceID>, groups: Groups): Tables
    requires forall id :: id in order ==> id in groups
  {
    if order == [] then t
    else
      var last := |order| - 1;
      GroupEffect(max, Effects(max, t, order[..last], groups), order[last], groups[order[last]])
  }

  lemma EffectsSnoc(max: nat, t: Tables, order: seq<TraceID>, id: TraceID, groups: Groups)
    requires (forall x :: x in order ==> x in groups) && id in groups
    ensures Effects(max, t, order + [id], groups) == GroupEffect(max, Effects(max, t, order, groups), id, groups[id])
  {
    assert (order + [id])[..|order|] == order;
  }

  // ---------------------------------------------------------------- every span is taken in once

  ghost function CopiesFor(x: TraceID, sp: Span): Trace -> int {
    (t: Trace) => if t.id == x then t.arrived[sp] else 0
  }

  /** How many copies of `sp` were handed in for trace `x`, over all entries it has had. */
  ghost function ArrivedFor(traces: seq<Trace>, x: TraceID, sp: Span): int { Total(traces, CopiesFor(x, sp)) }

  lemma GroupKeepsTables(max: nat, t: Tables, id: TraceID, spans: multiset<Span>)
    requires TablesOk(t)
    ensures TablesOk(GroupEffect(max, t, id, spans))
  {}

  lemma GroupArrives(max: nat, t: Tables, id: TraceID, spans: multiset<Span>, x: TraceID, sp: Span)
    requires TablesOk(t)
    ensures ArrivedFor(GroupEffect(max, t, id, spans).traces, x, sp)
         == ArrivedFor(t.traces, x, sp) + if id == x then spans[sp] else 0
  {
    if id in t.idToTrace {
      var h := t.idToTrace[id];
      TotalUpdate(t.traces, h, WithSpans(t.traces[h], spans), CopiesFor(x, sp));
    } else {
      TotalSnoc(t.traces, Trace(id, spans, Unspecified, spans, multiset{}), CopiesFor(x, sp));
    }
  }

  /** Handed in for each trace: the spans of its group if it is among those of `order`, and nothing else. */
  lemma {:induction false} GroupsArrive(max: nat, t: Tables, order: seq<TraceID>, groups: Groups, x: TraceID, sp: Span)
    requires TablesOk(t) && (forall id :: id in order ==> id in groups)
    requires forall i, j :: 0 <= i < j < |order| ==> order[i] != order[j]
    ensures TablesOk(Effects(max, t, order, groups))
    ensures ArrivedFor(Effects(max, t, order, groups).traces, x, sp)
         == ArrivedFor(t.traces, x, sp) + if x in order then groups[x][sp] else 0
  {
    if order != [] {
      var last := |order| - 1;
      GroupsArrive(max, t, order[..last], groups, x, sp);
      GroupKeepsTables(max, Effects(max, t, order[..last], groups), order[last], groups[order[last]]);
      GroupArrives(max, Effects(max, t, order[..last], groups), order[last], groups[order[last]], x, sp);
      assert order == order[..last] + [order[last]];
    }
  }
}
