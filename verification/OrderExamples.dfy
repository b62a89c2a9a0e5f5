/** Runs that show why the conditions on reports are there. */
module OrderExamples {
  import opened Options
  import opened SpanModel
  import opened Ancestry
  import opened ParentFirst
  import opened StepTrace
  import opened StepFlush
  import opened StepRuns
  import opened StepDelivery
  import opened FlushOrder
  import opened RunOrder

  const NOTHING: Context := Context([], map[], "")

  function Plain(spans: seq<Span>): Entry {
    Entry(Some(0), None, None, None, None, None, spans)
  }

  /** The world after the root 1 was opened and 2 under it. */
  ghost function TwoOpen(): World {
    OpenNext(OpenNext(Start(0, "", NOTHING), 1, None, NOTHING), 2, Some(1), NOTHING)
  }

  lemma TwoOpenIs()
    ensures Legal(Start(0, "", NOTHING), Open(1, None, NOTHING))
    ensures Legal(OpenNext(Start(0, "", NOTHING), 1, None, NOTHING), Open(2, Some(1), NOTHING))
    ensures var w := TwoOpen();
      && w.steps == [1, 2] && w.under == map[1 := None, 2 := Some(1)] && w.recorded == [] && w.log == []
      && w.refused == [] && w.due == {}
      && w.st.open == {1, 2} && Buffered(w.st) == [] && w.st.spans == [] && w.st.riders == []
        && !w.st.sent && w.st.registered
  {
  }

  lemma SiftOne(links: LinkMap, open: set<Id>, s: Span)
    ensures Sift(links, open, [s], Held(links, open, s)) == [s] && Sift(links, open, [s], !Held(links, open, s)) == []
  {
    assert [s][..0] == [];
    assert Sift(links, open, [], true) == [] && Sift(links, open, [], false) == [];
  }

  lemma OneSpan(s: Span)
    requires s.parent != Some(s.id)
    ensures UniqueIds([s]) && Acyclic([s]) && Ordered([s]) == [s]
  {
    LinksKeys([s]);
    assert Up(Links([s]), None, 0).None?;
    if s.parent.Some? { GroundedStep(Links([s]), s.parent.value); }
    OrderedKeeps([s]);
    assert multiset(Ordered([s])) == multiset([s]);
    assert |multiset(Ordered([s]))| == 1;
    assert Ordered([s])[0] in multiset(Ordered([s]));
  }

  /** A trace that holds one span, not held back, sends just that. */
  lemma OneSpanSent(rec: TraceState, s: Span)
    requires rec.spans == [s] && rec.riders == [] && s.parent != Some(s.id) && !Held(Links([s]), rec.open, s)
    ensures FlushReports(rec) == [MainEntry(rec, !rec.sent, [s])] && SpansOf(FlushReports(rec)) == [s]
    ensures FlushState(rec).spans == [] && FlushState(rec).riders == []
  {
    assert Buffered(rec) == [s];
    SiftOne(Links(Buffered(rec)), rec.open, s);
    OneSpan(s);
    FlushReportsParts(rec);
    assert RiderEntries(rec.traceId, ReadyRiders(rec)) == [];
  }

  const ROOT: Span := Span(1, None, 0, "")

  /** The world once the root was closed: its span is sent, 2 stays open. */
  ghost predicate RootSent(w: World) {
    && w.recorded == [ROOT] && w.refused == []
    && |w.log| == 1 && w.log[0].traceId == Some(0) && w.log[0].capture.None? && w.log[0].spans == [ROOT]
    && w.steps == [1, 2] && w.under == map[1 := None, 2 := Some(1)]
    && w.st.spans == [] && w.st.riders == [] && w.st.open == {2} && w.st.sent && w.st.registered
    && w.st.parents == {} && w.st.droppedIds == {} && w.st.traceId == 0
  }

  lemma RootClosed(w: World, maxSpans: nat)
    requires w == TwoOpen()
    ensures Legal(w, Close(1, "")) && RootSent(CloseNext(w, 1, "", maxSpans))
  {
    TwoOpenIs();
    var rec := Recorded(w.st, ROOT, maxSpans);
    assert rec.spans == [ROOT] && rec.riders == [] && rec.open == {2};
    HangsNowhere(Links([ROOT]), rec.open);
    OneSpanSent(rec, ROOT);
    OneSpanSent(rec.(registered := true), ROOT);
    assert [] + FlushReports(rec) == FlushReports(rec);
  }

  // ---- a report only partly held ----

  /** One span under the open step 2, which is held; one under nothing, which is not; and a
      later one under that. */
  const HELD: Span := Span(3, Some(2), 0, "")
  const FREE: Span := Span(4, None, 0, "")
  const LATE: Span := Span(5, Some(4), 0, "")

  lemma SpansAcyclic(all: seq<Span>)
    requires all == [HELD, FREE] || all == [ROOT, HELD, FREE] || all == [ROOT, HELD, FREE, LATE] ||
      all == [ROOT, LATE, FREE]
    ensures UniqueIds(all) && Acyclic(all)
  {
    LinksKeys(all);
    assert Up(Links(all), None, 0).None?;
    GroundedStep(Links(all), 2);
    LinksOf(all, FREE);
    GroundedStep(Links(all), 4);
  }

  lemma PartlyLegal(w: World)
    requires RootSent(w)
    ensures Legal(w, Report(Plain([HELD, FREE])))
  {
    assert [ROOT] + [HELD, FREE] == [ROOT, HELD, FREE];
    SpansAcyclic([ROOT, HELD, FREE]);
  }

  lemma PartlyTaken(st: TraceState)
    requires st.registered && 2 in st.open
    ensures Takes(st, [HELD, FREE])
  {
    HangsStep(Links(Buffered(st) + [HELD, FREE]), st.open, 2);
    assert Held(Links(Buffered(st) + [HELD, FREE]), st.open, HELD);
    assert HELD in [HELD, FREE];
  }

  /** What the root holds then: the two spans, neither refused. */
  ghost predicate PartlyHeld(w: World) {
    && w.recorded == [ROOT, HELD, FREE] && w.refused == [] && SpansOf(w.log) == [ROOT]
    && w.steps == [1, 2] && w.under == map[1 := None, 2 := Some(1)]
    && multiset(Buffered(w.st)) == multiset([HELD, FREE]) && w.st.open == {2} && w.st.sent && w.st.traceId == 0
  }

  lemma {:induction false} RoomForAll(st: TraceState, spans: seq<Span>, maxSpans: nat)
    requires st.droppedIds == {} && |Buffered(st)| < maxSpans
    ensures KeepAll(st, spans, maxSpans).1 == spans && Refused(st, spans, maxSpans) == []
    ensures KeepAll(st, spans, maxSpans).0.droppedIds == {}
  {
    if spans != [] {
      RoomForAll(st, spans[..|spans| - 1], maxSpans);
      KeepAllFrame(st, spans[..|spans| - 1], maxSpans);
    }
  }

  /** An empty root takes a whole report when there is room. */
  lemma TakesWhole(st: TraceState, spans: seq<Span>, maxSpans: nat)
    requires st.spans == [] && st.riders == [] && st.droppedIds == {} && maxSpans > 0
    requires UniqueIds(spans) && Acyclic(spans)
    ensures Refused(st, Arranged(spans), maxSpans) == []
    ensures multiset(Buffered(Routed(st, Plain(spans), maxSpans))) == multiset(spans)
  {
    OrderedKeeps(spans);
    var list := Ordered(spans);
    assert Arranged(spans) == list;
    RoomForAll(st, list, maxSpans);
    RoutedBuffer(st, Plain(spans), maxSpans);
    assert st.spans + list + RiderSpans(st.riders) == list;
  }

  /** What taking a report leaves alone, and what it adds. */
  ghost predicate TookWhole(w: World, w': World, spans: seq<Span>) {
    && w'.recorded == w.recorded + spans && w'.refused == w.refused && w'.log == w.log
    && w'.steps == w.steps && w'.under == w.under
    && multiset(Buffered(w'.st)) == multiset(spans)
    && w'.st.open == w.st.open && w'.st.sent == w.st.sent && w'.st.traceId == w.st.traceId
  }

  lemma WorldTakes(w: World, spans: seq<Span>, maxSpans: nat)
    requires w.st.spans == [] && w.st.riders == [] && w.st.droppedIds == {} && maxSpans > 0
    requires UniqueIds(spans) && Acyclic(spans) && Takes(w.st, spans)
    ensures TookWhole(w, ReportNext(w, Plain(spans), maxSpans), spans)
  {
    TakesWhole(w.st, spans, maxSpans);
    RoutedFrame(w.st, Plain(spans), maxSpans);
  }

  lemma PartlyHeldIs(w: World, w': World)
    requires RootSent(w) && TookWhole(w, w', [HELD, FREE])
    ensures PartlyHeld(w')
  {
    assert [ROOT] + [HELD, FREE] == [ROOT, HELD, FREE];
    assert w.log == [w.log[0]] && [w.log[0]][..0] == [] && [] + [ROOT] == [ROOT];
  }

  lemma LateIsLegal(w: World)
    requires PartlyHeld(w)
    ensures Legal(w, Report(Plain([LATE])))
  {
    assert [ROOT, HELD, FREE] + [LATE] == [ROOT, HELD, FREE, LATE];
    SpansAcyclic([ROOT, HELD, FREE, LATE]);
  }

  lemma LateIsEarly(w: World)
    requires PartlyHeld(w)
    ensures !DirectPlaced(w, Plain([LATE]))
  {
    assert FREE in [HELD, FREE] && FREE in multiset(Buffered(w.st));
    assert [LATE][..0] == [] && [LATE][0] == LATE;
  }

  lemma FreeNotHeld(all: seq<Span>, open: set<Id>)
    requires UniqueIds(all) && FREE in all && 4 !in open
    ensures !Held(Links(all), open, FREE) && !Held(Links(all), open, LATE)
  {
    LinksOf(all, FREE);
    HangsNowhere(Links(all), open);
    HangsStep(Links(all), open, 4);
  }

  lemma LateNotHeld(st: TraceState)
    requires multiset(Buffered(st)) == multiset([HELD, FREE]) && st.open == {2} && st.sent
    ensures !Takes(st, [LATE])
  {
    var buffer := Buffered(st);
    assert |multiset(buffer)| == 2;
    assert buffer[0] in multiset(buffer) && buffer[1] in multiset(buffer) && buffer == [buffer[0], buffer[1]];
    assert multiset(buffer) == multiset{buffer[0], buffer[1]};
    var all := buffer + [LATE];
    assert FREE in [HELD, FREE] && FREE in multiset(buffer);
    assert UniqueIds(all);
    FreeNotHeld(all, st.open);
  }

  lemma RootSentRun(maxSpans: nat) returns (ws: seq<World>, evs: seq<Event>)
    ensures IsRun(ws, evs, maxSpans) && RootSent(ws[|evs|])
  {
    var w0 := Start(0, "", NOTHING);
    ws, evs := [w0], [];
    TwoOpenIs();
    RunGoesOn(ws, evs, Open(1, None, NOTHING), maxSpans);
    var w1 := OpenNext(w0, 1, None, NOTHING);
    ws, evs := ws + [w1], evs + [Open(1, None, NOTHING)];
    RunGoesOn(ws, evs, Open(2, Some(1), NOTHING), maxSpans);
    var w2 := OpenNext(w1, 2, Some(1), NOTHING);
    ws, evs := ws + [w2], evs + [Open(2, Some(1), NOTHING)];
    RootClosed(w2, maxSpans);
    RunGoesOn(ws, evs, Close(1, ""), maxSpans);
    ws, evs := ws + [CloseNext(w2, 1, "", maxSpans)], evs + [Close(1, "")];
  }

  lemma PartlyNext(w: World, maxSpans: nat)
    requires RootSent(w) && maxSpans > 0
    ensures Legal(w, Report(Plain([HELD, FREE])))
    ensures PartlyHeld(ReportNext(w, Plain([HELD, FREE]), maxSpans))
  {
    PartlyLegal(w);
    PartlyTaken(w.st);
    SpansAcyclic([HELD, FREE]);
    WorldTakes(w, [HELD, FREE], maxSpans);
    PartlyHeldIs(w, ReportNext(w, Plain([HELD, FREE]), maxSpans));
  }

  lemma PartlyHeldRun(maxSpans: nat) returns (ws: seq<World>, evs: seq<Event>)
    requires maxSpans > 0
    ensures IsRun(ws, evs, maxSpans) && PartlyHeld(ws[|evs|])
  {
    ws, evs := RootSentRun(maxSpans);
    var w, e := ws[|evs|], Plain([HELD, FREE]);
    PartlyNext(w, maxSpans);
    RunGoesOn(ws, evs, Report(e), maxSpans);
    ws, evs := ws + [ReportNext(w, e, maxSpans)], evs + [Report(e)];
  }

  /** A report of which only a part hangs under an open step waits as a whole. What hangs
      under the other part is then sent first, although nothing was refused. */
  lemma PartlyHeldFails(maxSpans: nat) returns (ws: seq<World>, evs: seq<Event>)
    requires maxSpans > 0
    ensures IsRun(ws, evs, maxSpans) && ws[|evs|].refused == []
    ensures !Follows(Owed(ws[|evs|]), {}, SpansOf(ws[|evs|].log))
  {
    ws, evs := PartlyHeldRun(maxSpans);
    var w := ws[|evs|];
    LateIsLegal(w);
    LateNotHeld(w.st);
    LateIsEarly(w);
    MissedMeansLate(ws, evs, Report(Plain([LATE])), maxSpans);
    RunGoesOn(ws, evs, Report(Plain([LATE])), maxSpans);
    ws, evs := ws + [ReportNext(w, Plain([LATE]), maxSpans)], evs + [Report(Plain([LATE]))];
  }

  // ---- a report with a child first ----

  lemma ChildFirstLegal(w: World)
    requires RootSent(w)
    ensures Legal(w, Report(Plain([LATE, FREE])))
  {
    assert [ROOT] + [LATE, FREE] == [ROOT, LATE, FREE];
    SpansAcyclic([ROOT, LATE, FREE]);
  }

  lemma ChildFirstNotHeld(st: TraceState)
    requires Buffered(st) == [] && st.open == {2} && st.sent
    ensures !Takes(st, [LATE, FREE])
  {
    var spans := [LATE, FREE];
    assert Buffered(st) + spans == spans && spans[1] == FREE;
    FreeNotHeld(spans, st.open);
  }

  lemma ChildFirstIsEarly(w: World)
    ensures !DirectPlaced(w, Plain([LATE, FREE]))
  {
    var spans := [LATE, FREE];
    assert spans[..0] == [] && spans[0] == LATE && FREE in spans;
  }

  /** A report that no root takes is not put parents first: one with a child first goes out
      child first, although nothing waits and nothing was refused. */
  lemma ChildFirstFails(maxSpans: nat) returns (ws: seq<World>, evs: seq<Event>)
    ensures IsRun(ws, evs, maxSpans) && ws[|evs|].refused == []
    ensures !Follows(Owed(ws[|evs|]), {}, SpansOf(ws[|evs|].log))
  {
    ws, evs := RootSentRun(maxSpans);
    var w, e := ws[|evs|], Plain([LATE, FREE]);
    ChildFirstLegal(w);
    ChildFirstNotHeld(w.st);
    ChildFirstIsEarly(w);
    MissedMeansLate(ws, evs, Report(e), maxSpans);
    RunGoesOn(ws, evs, Report(e), maxSpans);
    ws, evs := ws + [ReportNext(w, e, maxSpans)], evs + [Report(e)];
  }
}
