/** A legal, well-placed run whose last request puts a child's entry before its parent's. */
module MergeExample {
  import opened Options
  import opened SpanModel
  import opened Ancestry
  import opened ParentFirst
  import opened StepTrace
  import opened StepFlush
  import opened StepRuns
  import opened StepDelivery
  import opened RunOrder
  import opened OrderExamples
  import opened Delivery
  import QM = QueueModel
  import QR = QueueRuns
  import MO = MergeOrder

  // ---- the trace ----

  /** A span under nothing, the span of step 2, and a span under that step. */
  const FIRST: Span := Span(3, None, 0, "")
  const STEP: Span := Span(2, Some(1), 0, "")
  const CHILD: Span := Span(4, Some(2), 0, "")

  function Rides(s: Span): Entry {
    Entry(Some(0), Some(true), None, None, None, None, [s])
  }

  lemma ListsAcyclic(all: seq<Span>)
    requires all == [ROOT, FIRST] || all == [ROOT, FIRST, STEP] || all == [ROOT, FIRST, STEP, CHILD]
    ensures UniqueIds(all) && Acyclic(all)
  {
    LinksKeys(all);
    assert Up(Links(all), None, 0).None?;
    LinksOf(all, ROOT);
    GroundedStep(Links(all), 1);
    if |all| > 2 {
      LinksOf(all, STEP);
      GroundedStep(Links(all), 2);
    }
  }

  /** After the first rider's report, which nothing holds back. */
  ghost predicate FirstSent(w: World) {
    && w.recorded == [ROOT, FIRST] && w.refused == []
    && w.steps == [1, 2] && w.under == map[1 := None, 2 := Some(1)]
    && w.st.spans == [] && w.st.riders == [] && w.st.open == {2} && w.st.sent
    && w.st.parents == {} && w.st.droppedIds == {} && w.st.traceId == 0
  }

  lemma FirstIsSent(w: World, maxSpans: nat)
    requires RootSent(w)
    ensures Legal(w, Report(Rides(FIRST))) && Placed(w, Report(Rides(FIRST))) && !Takes(w.st, [FIRST])
    ensures FirstSent(ReportNext(w, Rides(FIRST), maxSpans))
  {
    assert w.recorded + [FIRST] == [ROOT, FIRST];
    ListsAcyclic([ROOT, FIRST]);
    FirstNotTaken(w.st);
  }

  lemma FirstNotTaken(st: TraceState)
    requires st.sent && st.riders == []
    ensures !Takes(st, [FIRST]) && WellPlaced(st, Rides(FIRST))
  {
    HangsNowhere(Links(Buffered(st) + [FIRST]), st.open);
    assert NamesNoLater([FIRST]);
  }

  /** After step 2 was closed: nothing is open, so nothing is registered. */
  ghost predicate StepSent(w: World) {
    && w.recorded == [ROOT, FIRST, STEP] && w.refused == []
    && w.steps == [1, 2] && w.under == map[1 := None, 2 := Some(1)]
    && w.st.riders == [] && !w.st.registered && w.st.sent && w.st.traceId == 0
  }

  /** Closing step 2 on an otherwise empty trace. */
  lemma StepFlushed(st: TraceState, maxSpans: nat)
    requires st.spans == [] && st.riders == [] && st.open == {2} && st.sent && st.traceId == 0
    requires st.parents == {} && st.droppedIds == {} && maxSpans > 0
    ensures Keeps(st, STEP, false, maxSpans)
    ensures var reports := CloseReports(st, STEP, maxSpans);
      |reports| == 1 && reports[0].traceId == Some(0) && reports[0].capture.None? && reports[0].spans == [STEP]
    ensures var st' := Closed(st, STEP, maxSpans);
      st'.riders == [] && !st'.registered && st'.sent && st'.traceId == 0
  {
    var rec := Recorded(st, STEP, maxSpans);
    assert rec.spans == [STEP] && rec.riders == [] && rec.open == {};
    StepNotHeld(rec.open);
    OneSpanSent(rec, STEP);
    OneSpanSent(rec.(registered := true), STEP);
  }

  lemma StepNotHeld(open: set<Id>)
    requires open == {}
    ensures !Held(Links([STEP]), open, STEP)
  {
    LinksKeys([STEP]);
    HangsStep(Links([STEP]), open, 1);
  }

  lemma StepIsSent(w: World, maxSpans: nat)
    requires FirstSent(w) && maxSpans > 0
    ensures Legal(w, Close(2, "")) && StepSent(CloseNext(w, 2, "", maxSpans))
    ensures StepSpan(w.st, 2, w.under[2], "") == STEP
  {
    StepFlushed(w.st, maxSpans);
    assert [ROOT, FIRST] + [STEP] == [ROOT, FIRST, STEP];
  }

  lemma ChildIsSent(w: World, maxSpans: nat)
    requires StepSent(w)
    ensures Legal(w, Report(Rides(CHILD))) && Placed(w, Report(Rides(CHILD))) && !Takes(w.st, [CHILD])
    ensures ReportNext(w, Rides(CHILD), maxSpans).refused == []
  {
    assert [ROOT, FIRST, STEP] + [CHILD] == [ROOT, FIRST, STEP, CHILD];
    ListsAcyclic([ROOT, FIRST, STEP, CHILD]);
  }

  // ---- the queue ----

  /** One request is in flight, the buffer waits, and nothing was shed. */
  ghost predicate Waits(q: QR.QState, buffer: seq<Entry>) {
    && q.buffer == buffer && q.drains == [QR.Sending(0)] && q.draining == Some(0) && !q.closed
    && q.maxBatch == 200 && q.maxQueued == 2000 && |q.requests| == 1 && NothingDropped(q)
  }

  lemma FirstIsInFlight(e: Entry)
    requires |e.spans| <= 200
    ensures Waits(QR.Enqueue(QR.NewQueue(200, 2000), e), [])
  {
    QR.FirstEnqueueSends(e);
    assert [] + [e] == [e] && [e][0..] == [e] && [e][..0] == [] && [e][1..] == [];
    assert QM.ShedCount([e], 2000) == 0;
    assert QM.Cut([e], 200, true).0 == [e] + [];
    assert [e][..0] == [] && QR.AsGone([e], false) == [QR.Gone(e, false)];
  }

  lemma NextWaits(q: QR.QState, buffer: seq<Entry>, e: Entry)
    requires Waits(q, buffer) && QM.Total(buffer) + |e.spans| < 200
    ensures Waits(QR.Enqueue(q, e), buffer + [e]) && QM.Total(buffer + [e]) < 200
  {
    var grown := buffer + [e];
    QM.TotalSnoc(buffer, e);
    assert QM.ShedCount(grown, 2000) == 0;
    assert grown[0..] == grown && QR.AsGone(grown[..0], true) == [];
  }

  lemma {:induction false} CutTakesAll(buffer: seq<Entry>, room: nat, first: bool)
    requires QM.Total(buffer) < room
    ensures QM.Cut(buffer, room, first) == (buffer, [])
  {
    if buffer != [] {
      CutTakesAll(buffer[1..], room - |buffer[0].spans|, false);
      assert [buffer[0]] + buffer[1..] == buffer;
    }
  }

  lemma SettleSendsAll(q: QR.QState, buffer: seq<Entry>)
    requires Waits(q, buffer) && buffer != [] && QM.Total(buffer) < 200
    ensures var q' := QR.Settle(q, 0); |q'.requests| == 2 && q'.requests[1] == QM.Merged(buffer) && NothingDropped(q')
  {
    CutTakesAll(buffer, 200, true);
    SentNotDropped(buffer);
  }

  lemma {:induction false} SentNotDropped(batch: seq<Entry>)
    ensures forall g :: g in QR.AsGone(batch, false) ==> !g.dropped
  {
    if batch != [] { SentNotDropped(batch[..|batch| - 1]); }
  }

  // ---- both ----

  lemma ActGoesOn(ps: seq<Pipeline>, acts: seq<Act>, a: Act, maxSpans: nat)
    requires IsPipelineRun(ps, acts, maxSpans) && Allowed(ps[|acts|], a)
    requires WellPlacedReports(ps, acts) && (a.OnTrace? ==> Placed(ps[|acts|].w, a.ev))
    ensures IsPipelineRun(ps + [Do(ps[|acts|], a, maxSpans)], acts + [a], maxSpans)
    ensures WellPlacedReports(ps + [Do(ps[|acts|], a, maxSpans)], acts + [a])
  {
    var ps', acts' := ps + [Do(ps[|acts|], a, maxSpans)], acts + [a];
    assert ps'[0] == ps[0];
    forall i | 0 <= i < |acts| + 1 ensures Allowed(ps'[i], acts'[i]) && ps'[i + 1] == Do(ps'[i], acts'[i], maxSpans) {
      if i < |acts| { assert ps'[i] == ps[i] && ps'[i + 1] == ps[i + 1]; }
    }
    assert ps'[..|acts'|] == ps && acts'[..|acts|] == acts;
  }

  ghost predicate At(ps: seq<Pipeline>, acts: seq<Act>, maxSpans: nat) {
    IsPipelineRun(ps, acts, maxSpans) && WellPlacedReports(ps, acts)
  }

  lemma ThenAct(ps: seq<Pipeline>, acts: seq<Act>, a: Act, maxSpans: nat)
    returns (ps': seq<Pipeline>, acts': seq<Act>)
    requires At(ps, acts, maxSpans) && Allowed(ps[|acts|], a) && (a.OnTrace? ==> Placed(ps[|acts|].w, a.ev))
    ensures At(ps', acts', maxSpans) && ps'[|acts'|] == Do(ps[|acts|], a, maxSpans)
  {
    ActGoesOn(ps, acts, a, maxSpans);
    ps', acts' := ps + [Do(ps[|acts|], a, maxSpans)], acts + [a];
  }

  lemma EnqueueOne(q: QR.QState, e: Entry)
    ensures EnqueueAll(q, [e]) == QR.Enqueue(q, e) && EnqueueAll(q, []) == q
  {
    assert [e][..0] == [];
  }

  lemma UpToRoot(maxSpans: nat) returns (ps: seq<Pipeline>, acts: seq<Act>)
    ensures At(ps, acts, maxSpans) && RootSent(ps[|acts|].w) && Waits(ps[|acts|].q, [])
  {
    var q := QR.NewQueue(200, 2000);
    var w0 := Start(0, "", NOTHING);
    ps, acts := [Pipeline(w0, q)], [];
    assert IsPipelineRun(ps, acts, maxSpans);
    TwoOpenIs();
    var a1 := OnTrace(Open(1, None, NOTHING));
    var p1 := Do(ps[0], a1, maxSpans);
    ps, acts := ThenAct(ps, acts, a1, maxSpans);
    var a2 := OnTrace(Open(2, Some(1), NOTHING));
    var p2 := Do(p1, a2, maxSpans);
    ps, acts := ThenAct(ps, acts, a2, maxSpans);
    assert p2 == Pipeline(TwoOpen(), q);
    ps, acts := ThenRoot(ps, acts, maxSpans);
  }

  lemma ThenRoot(ps: seq<Pipeline>, acts: seq<Act>, maxSpans: nat) returns (ps': seq<Pipeline>, acts': seq<Act>)
    requires At(ps, acts, maxSpans) && ps[|acts|] == Pipeline(TwoOpen(), QR.NewQueue(200, 2000))
    ensures At(ps', acts', maxSpans) && RootSent(ps'[|acts'|].w) && Waits(ps'[|acts'|].q, [])
  {
    var p, a := ps[|acts|], OnTrace(Close(1, ""));
    RootClosed(p.w, maxSpans);
    ps', acts' := ThenAct(ps, acts, a, maxSpans);
    var log := CloseNext(p.w, 1, "", maxSpans).log;
    TwoOpenIs();
    NewReportsLogged(p.w, a.ev, maxSpans);
    assert log == [log[0]] && NewReports(p.w, a.ev, maxSpans) == log;
    EnqueueOne(p.q, log[0]);
    FirstIsInFlight(log[0]);
  }

  lemma ThenReport(ps: seq<Pipeline>, acts: seq<Act>, buffer: seq<Entry>, e: Entry, maxSpans: nat)
    returns (ps': seq<Pipeline>, acts': seq<Act>)
    requires At(ps, acts, maxSpans) && Waits(ps[|acts|].q, buffer) && QM.Total(buffer) + |e.spans| < 200
    requires Legal(ps[|acts|].w, Report(e)) && Placed(ps[|acts|].w, Report(e)) && !Takes(ps[|acts|].w.st, e.spans)
    ensures At(ps', acts', maxSpans) && ps'[|acts'|].w == ReportNext(ps[|acts|].w, e, maxSpans)
    ensures Waits(ps'[|acts'|].q, buffer + [e]) && QM.Total(buffer + [e]) < 200
  {
    var p, a := ps[|acts|], OnTrace(Report(e));
    ps', acts' := ThenAct(ps, acts, a, maxSpans);
    EnqueueOne(p.q, e);
    NextWaits(p.q, buffer, e);
  }

  lemma StepReported(w: World, maxSpans: nat) returns (main: Entry)
    requires FirstSent(w) && maxSpans > 0
    ensures Legal(w, Close(2, "")) && StepSent(Next(w, Close(2, ""), maxSpans))
    ensures NewReports(w, Close(2, ""), maxSpans) == [main]
    ensures main.traceId == Some(0) && main.capture.None? && main.spans == [STEP]
  {
    StepIsSent(w, maxSpans);
    StepFlushed(w.st, maxSpans);
    main := CloseReports(w.st, STEP, maxSpans)[0];
  }

  lemma ThenStep(ps: seq<Pipeline>, acts: seq<Act>, buffer: seq<Entry>, maxSpans: nat)
    returns (ps': seq<Pipeline>, acts': seq<Act>, main: Entry)
    requires At(ps, acts, maxSpans) && Waits(ps[|acts|].q, buffer) && QM.Total(buffer) < 199
    requires FirstSent(ps[|acts|].w) && maxSpans > 0
    ensures At(ps', acts', maxSpans) && StepSent(ps'[|acts'|].w)
    ensures Waits(ps'[|acts'|].q, buffer + [main]) && QM.Total(buffer + [main]) < 200
    ensures main.traceId == Some(0) && main.capture.None? && main.spans == [STEP]
  {
    var p, a := ps[|acts|], OnTrace(Close(2, ""));
    main := StepReported(p.w, maxSpans);
    ps', acts' := ThenAct(ps, acts, a, maxSpans);
    EnqueueOne(p.q, main);
    NextWaits(p.q, buffer, main);
  }

  /** The request in flight settles, and the next one carries what waited. */
  lemma ThenSettle(ps: seq<Pipeline>, acts: seq<Act>, buffer: seq<Entry>, maxSpans: nat)
    returns (ps': seq<Pipeline>, acts': seq<Act>)
    requires At(ps, acts, maxSpans) && Waits(ps[|acts|].q, buffer) && buffer != [] && QM.Total(buffer) < 200
    ensures At(ps', acts', maxSpans) && ps'[|acts'|].w == ps[|acts|].w
    ensures var q := ps'[|acts'|].q; |q.requests| == 2 && q.requests[1] == QM.Merged(buffer) && NothingDropped(q)
  {
    var p, a := ps[|acts|], RequestSettles(0);
    ps', acts' := ThenAct(ps, acts, a, maxSpans);
    SettleSendsAll(p.q, buffer);
  }

  lemma ThreeWaiting(maxSpans: nat) returns (ps: seq<Pipeline>, acts: seq<Act>, main: Entry)
    requires maxSpans > 0
    ensures At(ps, acts, maxSpans) && ps[|acts|].w.refused == [] && ps[|acts|].w.st.traceId == 0
    ensures Waits(ps[|acts|].q, [Rides(FIRST)] + [main] + [Rides(CHILD)])
    ensures QM.Total([Rides(FIRST)] + [main] + [Rides(CHILD)]) < 200
    ensures main.traceId == Some(0) && main.capture.None? && main.spans == [STEP]
  {
    ps, acts := UpToRoot(maxSpans);
    FirstIsSent(ps[|acts|].w, maxSpans);
    ps, acts := ThenReport(ps, acts, [], Rides(FIRST), maxSpans);
    assert [] + [Rides(FIRST)] == [Rides(FIRST)];
    QM.TotalSnoc([], Rides(FIRST));
    ps, acts, main := ThenStep(ps, acts, [Rides(FIRST)], maxSpans);
    QM.TotalSnoc([Rides(FIRST)], main);
    ChildIsSent(ps[|acts|].w, maxSpans);
    ps, acts := ThenReport(ps, acts, [Rides(FIRST)] + [main], Rides(CHILD), maxSpans);
  }

  lemma RidersGoFirst(p: Pipeline, main: Entry)
    requires main.traceId == Some(0) && main.capture.None? && main.spans == [STEP] && p.w.st.traceId == 0
    requires |p.q.requests| == 2
    requires p.q.requests[1] == QM.Merged([Rides(FIRST)] + [main] + [Rides(CHILD)])
    ensures InEntry(p, 1, 0, CHILD) && InEntry(p, 1, 1, STEP)
  {
    assert [Rides(FIRST)] + [main] + [Rides(CHILD)] == [Rides(FIRST), main, Rides(CHILD)];
    MO.RiderOvertakesMain(Rides(FIRST), main, Rides(CHILD));
    var both := QM.Join(Rides(FIRST), Rides(CHILD));
    assert p.q.requests[1][0] == both && p.q.requests[1][1] == main;
    assert both.traceId == Some(0) && both.spans == [FIRST] + [CHILD] && both.spans[1] == CHILD;
    assert main.spans[0] == STEP;
  }

  /** The run: rider, main report and rider wait behind the request in flight; the next
      request has the riders' entry first, and in it the child of the main report's span. */
  lemma ChildEntryFirst(maxSpans: nat) returns (ps: seq<Pipeline>, acts: seq<Act>)
    requires maxSpans > 0
    ensures IsPipelineRun(ps, acts, maxSpans) && TracePlaced(ps, acts, maxSpans)
    ensures ps[|acts|].w.refused == [] && NothingDropped(ps[|acts|].q)
    ensures InEntry(ps[|acts|], 1, 0, CHILD) && InEntry(ps[|acts|], 1, 1, STEP) && CHILD.parent == Some(STEP.id)
  {
    var main;
    ps, acts, main := ThreeWaiting(maxSpans);
    var buffer := [Rides(FIRST)] + [main] + [Rides(CHILD)];
    ps, acts := ThenSettle(ps, acts, buffer, maxSpans);
    WellPlacedIsPlaced(ps, acts, maxSpans);
    RidersGoFirst(ps[|acts|], main);
  }
}
