/** Steps and queue together: in which request a span and its parent travel. */
module Delivery {
  import opened Options
  import opened Seqs
  import opened SpanModel
  import opened ParentFirst
  import opened StepTrace
  import opened StepFlush
  import opened StepRuns
  import opened StepDelivery
  import opened RunOrder
  import QM = QueueModel
  import QR = QueueRuns
  import MO = MergeOrder

  /** One trace of a client, and the client's queue. */
  datatype Pipeline = Pipeline(w: World, q: QR.QState)

  /** `Foreign` is any other report of the same client; the queue moves are those of its own
      protocol. A `close` may mark the queue closed at any point, also where it never would. */
  datatype Act =
    | OnTrace(ev: Event)
    | Foreign(entry: Entry)
    | RequestSettles(i: nat)
    | DrainEnds(i: nat)
    | Woken
    | Closes

  ghost predicate Allowed(p: Pipeline, a: Act) {
    match a
    case OnTrace(ev) => Legal(p.w, ev)
    case Foreign(e) => e.traceId != Some(p.w.st.traceId)
    case RequestSettles(i) => i < |p.q.drains| && p.q.drains[i].Sending?
    case DrainEnds(i) => i < |p.q.drains| && p.q.drains[i].Finishing?
    case Woken => p.q.buffer != []
    case Closes => true
  }

  function EnqueueAll(q: QR.QState, entries: seq<Entry>): QR.QState {
    if entries == [] then q else QR.Enqueue(EnqueueAll(q, entries[..|entries| - 1]), entries[|entries| - 1])
  }

  /** Whatever an event hands over is enqueued at once, in order. */
  ghost function Do(p: Pipeline, a: Act, maxSpans: nat): Pipeline
    requires Allowed(p, a)
  {
    match a
    case OnTrace(ev) =>
      var w' := Next(p.w, ev, maxSpans);
      Pipeline(w', EnqueueAll(p.q, NewReports(p.w, ev, maxSpans)))
    case Foreign(e) => p.(q := QR.Enqueue(p.q, e))
    case RequestSettles(i) => p.(q := QR.Settle(p.q, i))
    case DrainEnds(i) => p.(q := QR.Finally(p.q, i))
    case Woken => p.(q := QR.Wake(p.q))
    case Closes => p.(q := QR.Closed(p.q))
  }

  /** The reports that an event hands to the queue. */
  ghost function NewReports(w: World, ev: Event, maxSpans: nat): seq<Entry>
    requires Legal(w, ev)
  {
    match ev
    case Open(_, _, _) => []
    case Close(id, payload) => CloseReports(w.st, StepSpan(w.st, id, w.under[id], payload), maxSpans)
    case Report(e) => if Takes(w.st, e.spans) then [] else [e]
  }

  lemma NewReportsLogged(w: World, ev: Event, maxSpans: nat)
    requires Legal(w, ev)
    ensures Next(w, ev, maxSpans).log == w.log + NewReports(w, ev, maxSpans)
  {
  }

  ghost predicate IsPipelineRun(ps: seq<Pipeline>, acts: seq<Act>, maxSpans: nat) {
    && |ps| == |acts| + 1
    && (exists traceId, name, ctx :: ps[0].w == Start(traceId, name, ctx))
    && (exists maxBatch, maxQueued :: ps[0].q == QR.NewQueue(maxBatch, maxQueued))
    && (forall i :: 0 <= i < |acts| ==> Allowed(ps[i], acts[i]) && ps[i + 1] == Do(ps[i], acts[i], maxSpans))
  }

  // ---- the spans of one trace among the items of all ----

  function TraceSpans(items: seq<QM.Item>, traceId: Id): seq<Span> {
    if items == [] then []
    else
      var front, last := TraceSpans(items[..|items| - 1], traceId), items[|items| - 1];
      if last.traceId == Some(traceId) then front + [last.span] else front
  }

  lemma {:induction false} TraceSpansConcat(a: seq<QM.Item>, b: seq<QM.Item>, traceId: Id)
    ensures TraceSpans(a + b, traceId) == TraceSpans(a, traceId) + TraceSpans(b, traceId)
  {
    if b == [] {
      assert a + b == a;
    } else {
      var front := b[..|b| - 1];
      TraceSpansConcat(a, front, traceId);
      assert (a + b)[..|a + b| - 1] == a + front && (a + b)[|a + b| - 1] == b[|b| - 1];
    }
  }

  lemma {:induction false} TraceSpansMember(items: seq<QM.Item>, traceId: Id, s: Span)
    ensures s in TraceSpans(items, traceId) <==> exists x :: x in items && x.traceId == Some(traceId) && x.span == s
  {
    if items != [] {
      var front, last := items[..|items| - 1], items[|items| - 1];
      TraceSpansMember(front, traceId, s);
      assert items == front + [last];
    }
  }

  lemma {:induction false} EntryTraceSpans(e: Entry, n: nat, traceId: Id)
    requires n <= |e.spans|
    ensures TraceSpans(QM.ItemsOfEntry(e)[..n], traceId) == if e.traceId == Some(traceId) then e.spans[..n] else []
  {
    if n > 0 {
      EntryTraceSpans(e, n - 1, traceId);
      assert QM.ItemsOfEntry(e)[..n][..n - 1] == QM.ItemsOfEntry(e)[..n - 1];
      assert e.spans[..n] == e.spans[..n - 1] + [e.spans[n - 1]];
    }
  }

  lemma AcceptedEntry(accepted: seq<Entry>, e: Entry, traceId: Id)
    ensures TraceSpans(QM.Items(accepted + [e]), traceId) ==
      TraceSpans(QM.Items(accepted), traceId) + (if e.traceId == Some(traceId) then e.spans else [])
  {
    QM.ItemsSnoc(accepted, e);
    TraceSpansConcat(QM.Items(accepted), QM.ItemsOfEntry(e), traceId);
    EntryTraceSpans(e, |e.spans|, traceId);
    assert QM.ItemsOfEntry(e)[..|e.spans|] == QM.ItemsOfEntry(e) && e.spans[..|e.spans|] == e.spans;
  }

  // ---- what the queue has seen of the trace ----

  ghost predicate OnlyTrace(log: seq<Entry>, traceId: Id) {
    forall e :: e in log ==> e.traceId == Some(traceId)
  }

  /** The queue has let in exactly what the trace's log says, in that order, up to the point
      where it was closed. */
  ghost predicate InStep(p: Pipeline) {
    && QR.QInv(p.q)
    && OnlyTrace(p.w.log, p.w.st.traceId)
    && Seen(p.q, p.w.st.traceId) <= SpansOf(p.w.log)
    && (!p.q.closed ==> Seen(p.q, p.w.st.traceId) == SpansOf(p.w.log))
  }

  ghost function Seen(q: QR.QState, traceId: Id): seq<Span> {
    TraceSpans(QM.Items(q.accepted), traceId)
  }

  lemma {:induction false} EnqueueAllKeeps(q: QR.QState, entries: seq<Entry>, traceId: Id)
    requires QR.QInv(q) && OnlyTrace(entries, traceId)
    ensures QR.QInv(EnqueueAll(q, entries)) && EnqueueAll(q, entries).closed == q.closed
    ensures Seen(EnqueueAll(q, entries), traceId) == Seen(q, traceId) + (if q.closed then [] else SpansOf(entries))
  {
    if entries != [] {
      var front, last := entries[..|entries| - 1], entries[|entries| - 1];
      var q' := EnqueueAll(q, front);
      EnqueueAllKeeps(q, front, traceId);
      assert last in entries;
      EnqueueSeen(q', last, traceId);
      if !q.closed { Assoc(Seen(q, traceId), SpansOf(front), last.spans); }
    }
  }

  lemma EnqueueSeen(q: QR.QState, e: Entry, traceId: Id)
    requires QR.QInv(q)
    ensures QR.QInv(QR.Enqueue(q, e)) && QR.Enqueue(q, e).closed == q.closed
    ensures Seen(QR.Enqueue(q, e), traceId) ==
      Seen(q, traceId) + (if !q.closed && e.traceId == Some(traceId) then e.spans else [])
  {
    if !q.closed {
      EnqueueAccepts(q, e);
      AcceptedEntry(q.accepted, e, traceId);
    }
  }

  lemma EnqueueAccepts(q: QR.QState, e: Entry)
    requires QR.QInv(q) && !q.closed
    ensures QR.QInv(QR.Enqueue(q, e)) && !QR.Enqueue(q, e).closed && QR.Enqueue(q, e).accepted == q.accepted + [e]
  {
    QR.EnqueueKeeps(q, e);
  }

  lemma {:induction false} RiderEntriesTrace(traceId: Id, riders: seq<Rider>)
    ensures OnlyTrace(RiderEntries(traceId, riders), traceId)
  {
    if riders != [] { RiderEntriesTrace(traceId, riders[..|riders| - 1]); }
  }

  lemma NewReportsOnTrace(w: World, ev: Event, maxSpans: nat)
    requires Legal(w, ev)
    ensures OnlyTrace(NewReports(w, ev, maxSpans), w.st.traceId)
    ensures Next(w, ev, maxSpans).st.traceId == w.st.traceId
  {
    match ev
    case Open(_, _, _) =>
    case Close(id, payload) =>
      var span := StepSpan(w.st, id, w.under[id], payload);
      ClosedFrame(w.st, span, maxSpans);
      RiderEntriesTrace(w.st.traceId, ReadyRiders(Recorded(w.st, span, maxSpans)));
    case Report(e) => RoutedFrame(w.st, e, maxSpans);
  }

  lemma DoKeepsInStep(p: Pipeline, a: Act, maxSpans: nat)
    requires InStep(p) && Allowed(p, a)
    ensures InStep(Do(p, a, maxSpans))
  {
    match a
    case OnTrace(ev) =>
      var more := NewReports(p.w, ev, maxSpans);
      NewReportsOnTrace(p.w, ev, maxSpans);
      NewReportsLogged(p.w, ev, maxSpans);
      EnqueueAllKeeps(p.q, more, p.w.st.traceId);
      SpansOfConcat(p.w.log, more);
    case Foreign(e) =>
      EnqueueSeen(p.q, e, p.w.st.traceId);
    case RequestSettles(i) => QR.SettleKeeps(p.q, i);
    case DrainEnds(i) => QR.FinallyKeeps(p.q, i);
    case Woken => QR.WakeKeeps(p.q);
    case Closes =>
  }

  // ---- a parent that is a step is always due ----

  ghost predicate StepParentsDue(w: World) {
    forall s :: s in w.recorded && s.parent.Some? && s.parent.value in w.under ==> s.id in w.due
  }

  lemma NextKeepsStepParentsDue(w: World, ev: Event, maxSpans: nat)
    requires StepParentsDue(w) && Legal(w, ev)
    ensures StepParentsDue(Next(w, ev, maxSpans))
  {
    if ev.Report? {
      var e, w' := ev.entry, Next(w, ev, maxSpans);
      forall s | s in e.spans && s.parent.Some? && s.parent.value in w.under ensures s.id in w'.due {
        assert s.id in DueIn(Known(w) + Ids(e.spans), e.spans);
      }
    }
  }

  // ---- the theorem ----

  /** No entry was shed. */
  ghost predicate NothingDropped(q: QR.QState) {
    forall g :: g in q.gone ==> !g.dropped
  }

  lemma {:induction false} AllSent(gone: seq<QR.Gone>)
    requires forall g :: g in gone ==> !g.dropped
    ensures QR.SentEntries(gone) == QR.Entries(gone)
  {
    if gone != [] {
      assert gone[|gone| - 1] in gone;
      AllSent(gone[..|gone| - 1]);
    }
  }

  lemma {:induction false} FlattenPrefix(batches: seq<seq<Entry>>, r: nat)
    requires r <= |batches|
    ensures exists rest :: QR.Flatten(batches) == QR.Flatten(batches[..r]) + rest
    decreases |batches|
  {
    if r == |batches| {
      assert batches[..r] == batches;
      assert QR.Flatten(batches) == QR.Flatten(batches[..r]) + [];
    } else {
      var front := batches[..|batches| - 1];
      FlattenPrefix(front, r);
      assert front[..r] == batches[..r];
      var rest :| QR.Flatten(front) == QR.Flatten(batches[..r]) + rest;
      assert QR.Flatten(batches) == QR.Flatten(batches[..r]) + (rest + batches[|batches| - 1]);
    }
  }

  lemma {:induction false} FlattenMember(batches: seq<seq<Entry>>, x: QM.Item)
    requires x in QM.Items(QR.Flatten(batches))
    ensures exists r :: 0 <= r < |batches| && x in QM.Items(batches[r])
  {
    var front, last := batches[..|batches| - 1], batches[|batches| - 1];
    QM.ItemsConcat(QR.Flatten(front), last);
    if x in QM.Items(last) {
      assert x in QM.Items(batches[|batches| - 1]);
    } else {
      FlattenMember(front, x);
      var r :| 0 <= r < |front| && x in QM.Items(front[r]);
      assert batches[r] == front[r];
    }
  }

  /** What the first r batches hold of the trace. */
  ghost function Taken(q: QR.QState, r: nat, traceId: Id): seq<Span>
    requires r <= |q.batches|
  {
    TraceSpans(QM.Items(QR.Flatten(q.batches[..r])), traceId)
  }

  lemma SeenSplits(q: QR.QState, traceId: Id)
    requires QR.QInv(q) && NothingDropped(q)
    ensures Seen(q, traceId)
      == TraceSpans(QM.Items(QR.Flatten(q.batches)), traceId) + TraceSpans(QM.Items(q.buffer), traceId)
  {
    AllSent(q.gone);
    TraceSpansConcat(QM.Items(QR.Flatten(q.batches)), QM.Items(q.buffer), traceId);
  }

  lemma TakenPrefix(q: QR.QState, r: nat, traceId: Id) returns (rest: seq<Span>)
    requires r <= |q.batches|
    ensures TraceSpans(QM.Items(QR.Flatten(q.batches)), traceId) == Taken(q, r, traceId) + rest
  {
    FlattenPrefix(q.batches, r);
    var more :| QR.Flatten(q.batches) == QR.Flatten(q.batches[..r]) + more;
    QM.ItemsConcat(QR.Flatten(q.batches[..r]), more);
    TraceSpansConcat(QM.Items(QR.Flatten(q.batches[..r])), QM.Items(more), traceId);
    rest := TraceSpans(QM.Items(more), traceId);
  }

  /** What the first r requests carry of the trace is a prefix of the trace's log. */
  lemma SentPrefix(p: Pipeline, r: nat)
    requires InStep(p) && NothingDropped(p.q) && r <= |p.q.batches|
    ensures Taken(p.q, r, p.w.st.traceId) <= SpansOf(p.w.log)
  {
    SeenSplits(p.q, p.w.st.traceId);
    var rest := TakenPrefix(p.q, r, p.w.st.traceId);
  }

  /** Request r carries the span s under the trace. */
  ghost predicate Carries(p: Pipeline, r: nat, s: Span) {
    r < |p.q.requests| &&
    exists e :: e in p.q.requests[r] && e.traceId == Some(p.w.st.traceId) && s in e.spans
  }

  lemma {:induction false} ItemsMember(entries: seq<Entry>, traceId: Id, s: Span)
    ensures (exists e :: e in entries && e.traceId == Some(traceId) && s in e.spans)
      <==> s in TraceSpans(QM.Items(entries), traceId)
  {
    if entries != [] {
      var front, last := entries[..|entries| - 1], entries[|entries| - 1];
      assert entries == front + [last];
      ItemsMember(front, traceId, s);
      AcceptedEntry(front, last, traceId);
    }
  }

  lemma SameItemsSameSpans(a: seq<QM.Item>, b: seq<QM.Item>, traceId: Id, s: Span)
    requires multiset(a) == multiset(b)
    ensures s in TraceSpans(a, traceId) <==> s in TraceSpans(b, traceId)
  {
    TraceSpansMember(a, traceId, s);
    TraceSpansMember(b, traceId, s);
    assert forall x :: x in a <==> x in multiset(a);
    assert forall x :: x in b <==> x in multiset(b);
  }

  /** Merging changes nothing about which spans a request carries. */
  lemma CarriedInBatch(p: Pipeline, r: nat, s: Span)
    requires QR.QInv(p.q) && r < |p.q.batches|
    ensures Carries(p, r, s) <==> s in TraceSpans(QM.Items(p.q.batches[r]), p.w.st.traceId)
  {
    ItemsMember(p.q.requests[r], p.w.st.traceId, s);
    QM.MergeKeepsItems(p.q.batches[r]);
    SameItemsSameSpans(QM.Items(p.q.requests[r]), QM.Items(p.q.batches[r]), p.w.st.traceId, s);
  }

  lemma TakenNext(q: QR.QState, r: nat, traceId: Id)
    requires r < |q.batches|
    ensures Taken(q, r + 1, traceId) == Taken(q, r, traceId) + TraceSpans(QM.Items(q.batches[r]), traceId)
  {
    assert q.batches[..r + 1][..r] == q.batches[..r];
    QM.ItemsConcat(QR.Flatten(q.batches[..r]), q.batches[r]);
    TraceSpansConcat(QM.Items(QR.Flatten(q.batches[..r])), QM.Items(q.batches[r]), traceId);
  }

  /** Whatever the first r batches hold of the trace, one of those requests carries. */
  lemma {:induction false} TakenCarried(p: Pipeline, r: nat, s: Span) returns (r': nat)
    requires QR.QInv(p.q) && r <= |p.q.batches| && s in Taken(p.q, r, p.w.st.traceId)
    ensures r' < r && Carries(p, r', s)
    decreases r
  {
    assert p.q.batches[..0] == [];
    assert r > 0;
    TakenNext(p.q, r - 1, p.w.st.traceId);
    CarriedInBatch(p, r - 1, s);
    if s in Taken(p.q, r - 1, p.w.st.traceId) {
      r' := TakenCarried(p, r - 1, s);
    } else {
      r' := r - 1;
    }
  }

  lemma CarriedTaken(p: Pipeline, r: nat, s: Span)
    requires QR.QInv(p.q) && Carries(p, r, s)
    ensures r < |p.q.batches| && s in Taken(p.q, r + 1, p.w.st.traceId)
  {
    CarriedInBatch(p, r, s);
    TakenNext(p.q, r, p.w.st.traceId);
  }

  ghost predicate ParentCarried(p: Pipeline, r: nat, s: Span)
    requires s.parent.Some?
  {
    exists r': nat, t :: r' <= r && Carries(p, r', t) && t.id == s.parent.value
  }

  /** A span never travels before its parent does. */
  lemma ParentTravelsFirst(p: Pipeline, due: set<Id>, r: nat, s: Span)
    requires InStep(p) && NothingDropped(p.q) && Follows(due, {}, SpansOf(p.w.log))
    requires Carries(p, r, s) && s.parent.Some? && s.id in due
    ensures ParentCarried(p, r, s)
  {
    CarriedTaken(p, r, s);
    SentPrefix(p, r + 1);
    var t := ParentInPrefix(Taken(p.q, r + 1, p.w.st.traceId), SpansOf(p.w.log), due, s);
    var r' := TakenCarried(p, r + 1, t);
  }

  /** A prefix of a list in order has the parent of each of its spans. */
  lemma ParentInPrefix(sent: seq<Span>, log: seq<Span>, due: set<Id>, s: Span) returns (t: Span)
    requires sent <= log && Follows(due, {}, log) && s in sent && s.id in due && s.parent.Some?
    ensures t in sent && t.id == s.parent.value
  {
    var k :| 0 <= k < |sent| && sent[k] == s;
    assert log[k] == s && ParentAhead({}, log, k);
    var j :| 0 <= j < k && log[j].id == s.parent.value;
    assert sent[j] == log[j];
    t := sent[j];
  }

  lemma DoKeepsTrace(p: Pipeline, a: Act, maxSpans: nat)
    requires Allowed(p, a) && Inv(p.w) && Steady(p.w) && StepParentsDue(p.w)
    ensures var w' := Do(p, a, maxSpans).w; Inv(w') && Steady(w') && StepParentsDue(w')
  {
    if a.OnTrace? {
      NextKeeps(p.w, a.ev, maxSpans);
      NextKeepsSteady(p.w, a.ev, maxSpans);
      NextKeepsStepParentsDue(p.w, a.ev, maxSpans);
    }
  }

  lemma StartsInStep(ps: seq<Pipeline>, acts: seq<Act>, maxSpans: nat)
    requires IsPipelineRun(ps, acts, maxSpans)
    ensures InStep(ps[0]) && Inv(ps[0].w) && Steady(ps[0].w) && StepParentsDue(ps[0].w)
  {
    var traceId, name, ctx :| ps[0].w == Start(traceId, name, ctx);
    StartOk(traceId, name, ctx);
  }

  lemma PipelineFront(ps: seq<Pipeline>, acts: seq<Act>, maxSpans: nat)
    requires IsPipelineRun(ps, acts, maxSpans) && acts != []
    ensures IsPipelineRun(ps[..|acts|], acts[..|acts| - 1], maxSpans)
  {
    assert ps[..|acts|][0] == ps[0];
  }

  /** In every joint run the queue has let in exactly the trace's reports, in order, up to the
      point where it was closed. */
  lemma {:induction false} RunsStayInStep(ps: seq<Pipeline>, acts: seq<Act>, maxSpans: nat)
    requires IsPipelineRun(ps, acts, maxSpans)
    ensures var p := ps[|acts|];
      InStep(p) && Inv(p.w) && Steady(p.w) && StepParentsDue(p.w)
  {
    if acts == [] {
      StartsInStep(ps, acts, maxSpans);
    } else {
      var n := |acts| - 1;
      var p, a := ps[n], acts[n];
      PipelineFront(ps, acts, maxSpans);
      RunsStayInStep(ps[..n + 1], acts[..n], maxSpans);
      assert ps[n + 1] == Do(p, a, maxSpans);
      DoKeepsInStep(p, a, maxSpans);
      DoKeepsTrace(p, a, maxSpans);
    }
  }

  /** Every event on the trace meets its condition. */
  ghost predicate TracePlaced(ps: seq<Pipeline>, acts: seq<Act>, maxSpans: nat)
    requires IsPipelineRun(ps, acts, maxSpans)
    decreases |acts|
  {
    acts == [] ||
    (var n := |acts| - 1;
     PipelineFront(ps, acts, maxSpans);
     TracePlaced(ps[..n + 1], acts[..n], maxSpans) && ActPlaced(ps[n], acts[n], maxSpans))
  }

  ghost predicate ActPlaced(p: Pipeline, a: Act, maxSpans: nat)
    requires Allowed(p, a)
  {
    a.OnTrace? ==> StepPlaced(p.w, a.ev, maxSpans)
  }

  lemma DoKeepsOrderIff(p: Pipeline, a: Act, maxSpans: nat)
    requires Allowed(p, a) && Inv(p.w) && Steady(p.w)
    ensures var w' := Do(p, a, maxSpans).w;
      Follows(Owed(w'), {}, SpansOf(w'.log)) <==> Follows(Owed(p.w), {}, SpansOf(p.w.log)) && ActPlaced(p, a, maxSpans)
  {
    if a.OnTrace? { NextFollowsIff(p.w, a.ev, maxSpans); }
  }

  /** The trace's spans are handed to the queue with every known parent that was not refused
      ahead if and only if every event met its condition. */
  lemma {:induction false} HandedInOrderIff(ps: seq<Pipeline>, acts: seq<Act>, maxSpans: nat)
    requires IsPipelineRun(ps, acts, maxSpans)
    ensures Follows(Owed(ps[|acts|].w), {}, SpansOf(ps[|acts|].w.log)) <==> TracePlaced(ps, acts, maxSpans)
  {
    if acts != [] {
      var n := |acts| - 1;
      PipelineFront(ps, acts, maxSpans);
      RunsStayInStep(ps[..n + 1], acts[..n], maxSpans);
      assert ps[n + 1] == Do(ps[n], acts[n], maxSpans) && ps[..n + 1][n] == ps[n];
      DoKeepsOrderIff(ps[n], acts[n], maxSpans);
      HandedInOrderIff(ps[..n + 1], acts[..n], maxSpans);
    }
  }

  /** End to end. In every run of steps, reports and queue in which nothing was shed and every
      event met its condition, wherever the queue is closed: whenever a request carries a span
      whose parent is a step of the trace, or was recorded by the time the span was, and was not
      itself refused over the span limit, the parent travels in the same request or in an
      earlier one. The batch cap, and with it the split points, are arbitrary. */
  lemma ParentsNeverLate(ps: seq<Pipeline>, acts: seq<Act>, maxSpans: nat, r: nat, s: Span)
    requires IsPipelineRun(ps, acts, maxSpans) && TracePlaced(ps, acts, maxSpans)
    requires NothingDropped(ps[|acts|].q) && Carries(ps[|acts|], r, s)
    requires s.parent.Some? && s.parent.value !in Ids(ps[|acts|].w.refused)
    requires s.parent.value in ps[|acts|].w.under || s.id in ps[|acts|].w.due
    ensures ParentCarried(ps[|acts|], r, s)
  {
    var p := ps[|acts|];
    RunsStayInStep(ps, acts, maxSpans);
    HandedInOrderIff(ps, acts, maxSpans);
    CarriedIsRecorded(p, r, s);
    OwedIs(p.w, s);
    ParentTravelsFirst(p, Owed(p.w), r, s);
  }

  ghost predicate WellPlacedReports(ps: seq<Pipeline>, acts: seq<Act>)
    requires |ps| == |acts| + 1
    decreases |acts|
  {
    acts == [] ||
    (var n := |acts| - 1;
     WellPlacedReports(ps[..n + 1], acts[..n]) && (acts[n].OnTrace? ==> Placed(ps[n].w, acts[n].ev)))
  }

  lemma CleanStep(p: Pipeline, a: Act, maxSpans: nat)
    requires Allowed(p, a) && Inv(p.w) && Do(p, a, maxSpans).w.refused == [] && (a.OnTrace? ==> Placed(p.w, a.ev))
    ensures p.w.refused == []
    ensures Clean(p.w) ==> Clean(Do(p, a, maxSpans).w)
  {
    if a.OnTrace? {
      RefusedStays(p.w, a.ev, maxSpans);
      if Clean(p.w) { NextKeepsClean(p.w, a.ev, maxSpans); }
    }
  }

  lemma StartsClean(ps: seq<Pipeline>, acts: seq<Act>, maxSpans: nat)
    requires IsPipelineRun(ps, acts, maxSpans)
    ensures Clean(ps[0].w)
  {
    var traceId, name, ctx :| ps[0].w == Start(traceId, name, ctx);
  }

  lemma {:induction false} WellPlacedIsClean(ps: seq<Pipeline>, acts: seq<Act>, maxSpans: nat)
    requires IsPipelineRun(ps, acts, maxSpans) && ps[|acts|].w.refused == [] && WellPlacedReports(ps, acts)
    ensures Clean(ps[|acts|].w)
  {
    if acts == [] {
      StartsClean(ps, acts, maxSpans);
    } else {
      var n := |acts| - 1;
      PipelineFront(ps, acts, maxSpans);
      RunsStayInStep(ps[..n + 1], acts[..n], maxSpans);
      assert ps[n + 1] == Do(ps[n], acts[n], maxSpans) && ps[..n + 1][n] == ps[n];
      CleanStep(ps[n], acts[n], maxSpans);
      WellPlacedIsClean(ps[..n + 1], acts[..n], maxSpans);
    }
  }

  /** Well-placed reports meet the condition: a check on each report when it is made. */
  lemma WellPlacedIsPlaced(ps: seq<Pipeline>, acts: seq<Act>, maxSpans: nat)
    requires IsPipelineRun(ps, acts, maxSpans) && ps[|acts|].w.refused == [] && WellPlacedReports(ps, acts)
    ensures TracePlaced(ps, acts, maxSpans)
  {
    WellPlacedIsClean(ps, acts, maxSpans);
    CleanOwes(ps[|acts|].w);
    HandedInOrderIff(ps, acts, maxSpans);
  }

  // ---- the entries of one request ----

  /** Entry k of request r carries the span s under the trace. */
  ghost predicate InEntry(p: Pipeline, r: nat, k: nat, s: Span) {
    && r < |p.q.requests| && k < |p.q.requests[r]|
    && p.q.requests[r][k].traceId == Some(p.w.st.traceId) && s in p.q.requests[r][k].spans
  }

  /** In the batch, an entry with the key of `a` comes before any with the key of `b`. */
  ghost predicate OpensBefore(batch: seq<Entry>, a: Entry, b: Entry) {
    exists i :: 0 <= i < |batch| && QM.SameKey(batch[i], a) && forall j :: 0 <= j <= i ==> !QM.SameKey(batch[j], b)
  }

  /** The parent is in an earlier request, or in an entry of the same one that stands after
      the span's own exactly if the batch opened the span's key first. */
  ghost predicate ParentPlaced(p: Pipeline, r: nat, k: nat, s: Span)
    requires InEntry(p, r, k, s) && s.parent.Some? && r < |p.q.batches|
  {
    || (exists r', t :: 0 <= r' < r && Carries(p, r', t) && t.id == s.parent.value)
    || (exists l: nat, t :: InEntry(p, r, l, t) && t.id == s.parent.value &&
          (k < l <==> OpensBefore(p.q.batches[r], p.q.requests[r][k], p.q.requests[r][l])))
  }

  lemma EntryOrder(batch: seq<Entry>, k: nat, l: nat)
    requires k < |QM.Merged(batch)| && l < |QM.Merged(batch)|
    requires QM.Merged(batch)[k].traceId.Some? && QM.Merged(batch)[l].traceId.Some?
    ensures k < l <==> OpensBefore(batch, QM.Merged(batch)[k], QM.Merged(batch)[l])
  {
    var a, b := QM.Merged(batch)[k], QM.Merged(batch)[l];
    QM.MergedFromBatch(batch, k);
    QM.MergedFromBatch(batch, l);
    var i :| 0 <= i < |batch| && QM.SameKey(batch[i], a);
    var j :| 0 <= j < |batch| && QM.SameKey(batch[j], b);
    MO.ChildAheadIff(batch, i, j, k, l);
    var f, g := MO.FirstOf(batch, i), MO.FirstOf(batch, j);
    assert forall x :: 0 <= x < |batch| ==> (QM.SameKey(batch[x], batch[i]) <==> QM.SameKey(batch[x], a));
    assert forall x :: 0 <= x < |batch| ==> (QM.SameKey(batch[x], batch[j]) <==> QM.SameKey(batch[x], b));
    assert QM.SameKey(batch[f], a) && QM.SameKey(batch[g], b);
  }

  /** End to end, entry by entry: a server that takes the entries of a request one after the
      other meets a child before its parent exactly where a merge put the child's entry first. */
  lemma EntriesInOrderIff(ps: seq<Pipeline>, acts: seq<Act>, maxSpans: nat, r: nat, k: nat, s: Span)
    requires IsPipelineRun(ps, acts, maxSpans) && TracePlaced(ps, acts, maxSpans)
    requires NothingDropped(ps[|acts|].q) && InEntry(ps[|acts|], r, k, s)
    requires s.parent.Some? && s.parent.value !in Ids(ps[|acts|].w.refused)
    requires s.parent.value in ps[|acts|].w.under || s.id in ps[|acts|].w.due
    ensures r < |ps[|acts|].q.batches| && ParentPlaced(ps[|acts|], r, k, s)
  {
    var p := ps[|acts|];
    RunsStayInStep(ps, acts, maxSpans);
    assert p.q.requests[r][k] in p.q.requests[r];
    ParentsNeverLate(ps, acts, maxSpans, r, s);
    var r': nat, t :| r' <= r && Carries(p, r', t) && t.id == s.parent.value;
    if r' == r {
      var e :| e in p.q.requests[r] && e.traceId == Some(p.w.st.traceId) && t in e.spans;
      var l :| 0 <= l < |p.q.requests[r]| && p.q.requests[r][l] == e;
      EntryOrder(p.q.batches[r], k, l);
      assert InEntry(p, r, l, t);
    }
  }

  lemma CarriedIsRecorded(p: Pipeline, r: nat, s: Span)
    requires InStep(p) && Inv(p.w) && NothingDropped(p.q) && Carries(p, r, s)
    ensures s in p.w.recorded
  {
    CarriedTaken(p, r, s);
    SentPrefix(p, r + 1);
    assert s in SpansOf(p.w.log);
    PartsOfAccounted(p.w.recorded, Buffered(p.w.st), SpansOf(p.w.log), p.w.refused);
    assert s in Buffered(p.w.st) + SpansOf(p.w.log) + p.w.refused;
  }
}
