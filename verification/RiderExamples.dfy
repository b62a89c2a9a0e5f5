/** Runs in which a rider's span is overtaken by a span that points at it. */
module RiderExamples {
  import opened Options
  import opened SpanModel
  import opened Ancestry
  import opened ParentFirst
  import opened StepTrace
  import opened StepFlush
  import opened StepRuns
  import opened StepDelivery
  import opened FlushOrder
  import opened RunOrder
  import opened OrderExamples

  function Rides(spans: seq<Span>): Entry {
    Entry(Some(0), Some(true), None, None, None, None, spans)
  }

  /** Steps 1 and 2 are open, nothing was sent or refused, and this is buffered. */
  ghost predicate Gathered(w: World, recorded: seq<Span>, spans: seq<Span>, riders: seq<Rider>) {
    && w.steps == [1, 2] && w.under == map[1 := None, 2 := Some(1)] && w.recorded == recorded
    && w.log == [] && w.refused == []
    && w.st.open == {1, 2} && !w.st.sent && w.st.registered && w.st.traceId == 0
    && w.st.droppedIds == {} && w.st.dropped == 0 && w.st.spans == spans && w.st.riders == riders
  }

  lemma TwoOpenRun(maxSpans: nat) returns (ws: seq<World>, evs: seq<Event>)
    ensures IsRun(ws, evs, maxSpans) && Gathered(ws[|evs|], [], [], [])
  {
    var w0 := Start(0, "", NOTHING);
    ws, evs := [w0], [];
    TwoOpenIs();
    RunGoesOn(ws, evs, Open(1, None, NOTHING), maxSpans);
    var w1 := OpenNext(w0, 1, None, NOTHING);
    ws, evs := ws + [w1], evs + [Open(1, None, NOTHING)];
    RunGoesOn(ws, evs, Open(2, Some(1), NOTHING), maxSpans);
    ws, evs := ws + [OpenNext(w1, 2, Some(1), NOTHING)], evs + [Open(2, Some(1), NOTHING)];
  }

  /** A report of the examples: all its spans are taken. */
  ghost predicate Fits(w: World, e: Entry, maxSpans: nat) {
    && e.traceId == Some(0) && UniqueIds(e.spans) && UniqueIds(w.recorded + e.spans) && Acyclic(w.recorded + e.spans)
    && (forall s :: s in e.spans ==> s.id !in {1, 2}) && |Buffered(w.st)| < maxSpans
  }

  lemma TraceTakes(st: TraceState, e: Entry, maxSpans: nat)
    requires st.droppedIds == {} && UniqueIds(e.spans) && |Buffered(st)| < maxSpans
    ensures Refused(st, Arranged(e.spans), maxSpans) == []
    ensures var list, st' := Ordered(e.spans), Routed(st, e, maxSpans);
      && st'.spans == (if e.capture.Some? then st.spans else st.spans + list)
      && st'.riders == (if e.capture.Some? then st.riders + [Rider(e.capture.value, list)] else st.riders)
  {
    RoomForAll(st, Ordered(e.spans), maxSpans);
    KeepAllFrame(st, Ordered(e.spans), maxSpans);
  }

  lemma WorldGathers(w: World, recorded: seq<Span>, spans: seq<Span>, riders: seq<Rider>, e: Entry, maxSpans: nat)
    requires Gathered(w, recorded, spans, riders) && Fits(w, e, maxSpans)
    ensures Legal(w, Report(e))
    ensures
      var list, w' := Ordered(e.spans), ReportNext(w, e, maxSpans);
      && w'.due == w.due + DueIn(Known(w) + Ids(e.spans), e.spans)
      && Gathered(w', recorded + e.spans, if e.capture.Some? then spans else spans + list,
                  if e.capture.Some? then riders + [Rider(e.capture.value, list)] else riders)
  {
    TraceTakes(w.st, e, maxSpans);
    RoutedFrame(w.st, e, maxSpans);
  }

  lemma ThenReport(ws: seq<World>, evs: seq<Event>, recorded: seq<Span>, spans: seq<Span>, riders: seq<Rider>,
                   e: Entry, maxSpans: nat)
    returns (ws': seq<World>, evs': seq<Event>)
    requires IsRun(ws, evs, maxSpans) && Gathered(ws[|evs|], recorded, spans, riders) && Fits(ws[|evs|], e, maxSpans)
    ensures IsRun(ws', evs', maxSpans)
    ensures
      var list, w' := Ordered(e.spans), ws'[|evs'|];
      && w'.due == ws[|evs|].due + DueIn(Known(ws[|evs|]) + Ids(e.spans), e.spans)
      && Gathered(w', recorded + e.spans, if e.capture.Some? then spans else spans + list,
                  if e.capture.Some? then riders + [Rider(e.capture.value, list)] else riders)
  {
    WorldGathers(ws[|evs|], recorded, spans, riders, e, maxSpans);
    RunGoesOn(ws, evs, Report(e), maxSpans);
    ws', evs' := ws + [ReportNext(ws[|evs|], e, maxSpans)], evs + [Report(e)];
  }

  /** What closing the root sends, when the flush hands s over ahead of its parent. */
  lemma RootCloseLate(w: World, recorded: seq<Span>, spans: seq<Span>, riders: seq<Rider>, maxSpans: nat, s: Span)
    requires Inv(w) && Gathered(w, recorded, spans, riders)
    requires s in recorded && s.id in w.due && s.parent.Some?
    requires !Follows({s.id}, {}, SpansOf(FlushReports(Recorded(w.st, ROOT, maxSpans))))
    ensures Legal(w, Close(1, ""))
    ensures var w' := CloseNext(w, 1, "", maxSpans); w'.refused == [] && !Follows(Owed(w'), {}, SpansOf(w'.log))
  {
    var w' := CloseNext(w, 1, "", maxSpans);
    assert StepSpan(w.st, 1, w.under[1], "") == ROOT;
    NextKeeps(w, Close(1, ""), maxSpans);
    assert w'.log == FlushReports(Recorded(w.st, ROOT, maxSpans));
    OwedIs(w', s);
    if Follows(Owed(w'), {}, SpansOf(w'.log)) {
      FollowsNewDue(Owed(w'), {s.id}, {}, SpansOf(w'.log));
      assert false;
    }
  }

  lemma ThenClose(ws: seq<World>, evs: seq<Event>, recorded: seq<Span>, spans: seq<Span>, riders: seq<Rider>,
                  maxSpans: nat, s: Span)
    returns (ws': seq<World>, evs': seq<Event>)
    requires IsRun(ws, evs, maxSpans) && Gathered(ws[|evs|], recorded, spans, riders)
    requires s in recorded && s.id in ws[|evs|].due && s.parent.Some?
    requires !Follows({s.id}, {}, SpansOf(FlushReports(Recorded(ws[|evs|].st, ROOT, maxSpans))))
    ensures IsRun(ws', evs', maxSpans) && ws'[|evs'|].refused == []
    ensures !Follows(Owed(ws'[|evs'|]), {}, SpansOf(ws'[|evs'|].log))
  {
    RunsKeepInv(ws, evs, maxSpans);
    RootCloseLate(ws[|evs|], recorded, spans, riders, maxSpans, s);
    RunGoesOn(ws, evs, Close(1, ""), maxSpans);
    ws', evs' := ws + [CloseNext(ws[|evs|], 1, "", maxSpans)], evs + [Close(1, "")];
  }

  // ---- a main span under a rider's ----

  lemma FamilyAcyclic(all: seq<Span>)
    requires all == [FREE] || all == [FREE, LATE] || all == [HELD, FREE] || all == [HELD, FREE, LATE]
    ensures UniqueIds(all) && Acyclic(all)
  {
    LinksKeys(all);
    assert Up(Links(all), None, 0).None?;
    GroundedStep(Links(all), 2);
    if FREE in all { LinksOf(all, FREE); }
    GroundedStep(Links(all), 4);
  }

  lemma LateOvertakes(rec: TraceState, rider: Rider)
    requires Sound(rec) && Acyclic(Buffered(rec)) && LATE in rec.spans && rec.riders == [rider] && rec.open == {2}
    requires FREE in rider.spans
    ensures !Follows({5}, {}, SpansOf(FlushReports(rec)))
  {
    assert rider == rec.riders[0];
    RiderSpansMember(rec.riders, FREE);
    FreeNotHeld(Buffered(rec), rec.open);
    SiftMember(Links(Buffered(rec)), rec.open, rec.spans, false, LATE);
    MainOvertakesRider(rec, {}, LATE, FREE);
  }

  /** When the root closes, LATE is ready and FREE waits on a rider. */
  lemma LateIsReady(w: World, maxSpans: nat)
    requires Inv(w) && Gathered(w, [FREE, LATE], [LATE], [Rider(true, [FREE])])
    ensures !Follows({5}, {}, SpansOf(FlushReports(Recorded(w.st, ROOT, maxSpans))))
  {
    var rec := Recorded(w.st, ROOT, maxSpans);
    RecordedSound(w, ROOT, maxSpans);
    assert rec.spans == [LATE, ROOT] && rec.riders == [Rider(true, [FREE])] && rec.open == {2};
    assert rec.spans[0] == LATE && FREE in [FREE];
    LateOvertakes(rec, Rider(true, [FREE]));
  }

  /** A rider's span, then a main span under it, then the root is closed: the main report
      goes first, and with it the child. */
  lemma MainGoesFirst(maxSpans: nat) returns (ws: seq<World>, evs: seq<Event>)
    requires maxSpans > 1
    ensures IsRun(ws, evs, maxSpans) && ws[|evs|].refused == []
    ensures !Follows(Owed(ws[|evs|]), {}, SpansOf(ws[|evs|].log))
  {
    ws, evs := RiderThenMain(maxSpans);
    RunsKeepInv(ws, evs, maxSpans);
    LateIsReady(ws[|evs|], maxSpans);
    ws, evs := ThenClose(ws, evs, [FREE, LATE], [LATE], [Rider(true, [FREE])], maxSpans, LATE);
  }

  lemma RiderAlone(maxSpans: nat) returns (ws: seq<World>, evs: seq<Event>)
    requires maxSpans > 1
    ensures IsRun(ws, evs, maxSpans) && Gathered(ws[|evs|], [FREE], [], [Rider(true, [FREE])])
  {
    ws, evs := TwoOpenRun(maxSpans);
    FamilyAcyclic([FREE]);
    OneSpan(FREE);
    assert [] + [FREE] == [FREE] && [] + [Rider(true, [FREE])] == [Rider(true, [FREE])];
    ws, evs := ThenReport(ws, evs, [], [], [], Rides([FREE]), maxSpans);
  }

  lemma RiderThenMain(maxSpans: nat) returns (ws: seq<World>, evs: seq<Event>)
    requires maxSpans > 1
    ensures IsRun(ws, evs, maxSpans) && 5 in ws[|evs|].due
    ensures Gathered(ws[|evs|], [FREE, LATE], [LATE], [Rider(true, [FREE])])
  {
    ws, evs := RiderAlone(maxSpans);
    FamilyAcyclic([FREE, LATE]);
    OneSpan(LATE);
    assert [FREE] + [LATE] == [FREE, LATE] && [] + [LATE] == [LATE];
    BufferedOne(ws[|evs|].st, FREE);
    LateIsDue(ws[|evs|], [FREE]);
    ws, evs := ThenReport(ws, evs, [FREE], [], [Rider(true, [FREE])], Plain([LATE]), maxSpans);
  }

  lemma BufferedOne(st: TraceState, s: Span)
    requires st.spans == [] && st.riders == [Rider(true, [s])]
    ensures |Buffered(st)| == 1
  {
    RiderSpansAppend([], Rider(true, [s]));
    assert [] + [Rider(true, [s])] == [Rider(true, [s])];
  }

  lemma LateIsDue(w: World, recorded: seq<Span>)
    requires w.recorded == recorded && FREE in recorded
    ensures 5 in DueIn(Known(w) + Ids([LATE]), [LATE])
  {
    assert LATE in [LATE];
    assert FREE.id in Ids(recorded);
  }

  // ---- a rider under a held one ----

  lemma LateNotWithHeld(rec: TraceState, held: Rider, late: Rider)
    requires Sound(rec) && rec.riders == [held, late] && rec.open == {2}
    requires HELD in held.spans && FREE in held.spans && late.spans == [LATE]
    ensures AnyHeld(Links(Buffered(rec)), rec.open, held.spans)
    ensures late in ReadyRiders(rec)
  {
    var links := Links(Buffered(rec));
    assert rec.riders[0] == held && rec.riders[1] == late;
    RiderSpansMember(rec.riders, FREE);
    FreeNotHeld(Buffered(rec), rec.open);
    HangsStep(links, rec.open, 2);
    assert Held(links, rec.open, HELD);
    SiftRidersMember(links, rec.open, rec.riders, false, late);
  }

  /** When the root closes, the rider with LATE is ready and the one with FREE is held. */
  lemma LateRides(w: World, list: seq<Span>, maxSpans: nat)
    requires Inv(w) && Gathered(w, [HELD, FREE, LATE], [], [Rider(true, list), Rider(true, [LATE])])
    requires HELD in list && FREE in list
    ensures !Follows({5}, {}, SpansOf(FlushReports(Recorded(w.st, ROOT, maxSpans))))
  {
    var rec := Recorded(w.st, ROOT, maxSpans);
    var held, late := Rider(true, list), Rider(true, [LATE]);
    RecordedSound(w, ROOT, maxSpans);
    assert rec.riders == [held, late] && rec.open == {2};
    LateNotWithHeld(rec, held, late);
    var k :| 0 <= k < |ReadyRiders(rec)| && ReadyRiders(rec)[k] == late;
    assert held == rec.riders[0];
    RiderOvertakesRider(rec, {}, k, LATE, held, FREE);
  }

  /** A rider partly held, then a rider under the part that is not, then the root is closed:
      the second rider goes, and the first stays. */
  lemma RiderGoesFirst(maxSpans: nat) returns (ws: seq<World>, evs: seq<Event>)
    requires maxSpans > 2
    ensures IsRun(ws, evs, maxSpans) && ws[|evs|].refused == []
    ensures !Follows(Owed(ws[|evs|]), {}, SpansOf(ws[|evs|].log))
  {
    ws, evs := RiderThenRider(maxSpans);
    var list := Ordered([HELD, FREE]);
    RunsKeepInv(ws, evs, maxSpans);
    FamilyAcyclic([HELD, FREE]);
    OrderedKeeps([HELD, FREE]);
    LateRides(ws[|evs|], list, maxSpans);
    ws, evs := ThenClose(ws, evs, [HELD, FREE, LATE], [], [Rider(true, list), Rider(true, [LATE])], maxSpans, LATE);
  }

  lemma RiderTaken(maxSpans: nat) returns (ws: seq<World>, evs: seq<Event>)
    requires maxSpans > 2
    ensures IsRun(ws, evs, maxSpans)
    ensures UniqueIds([HELD, FREE]) && Gathered(ws[|evs|], [HELD, FREE], [], [Rider(true, Ordered([HELD, FREE]))])
  {
    var spans := [HELD, FREE];
    ws, evs := TwoOpenRun(maxSpans);
    FamilyAcyclic(spans);
    assert [] + spans == spans && [] + [Rider(true, Ordered(spans))] == [Rider(true, Ordered(spans))];
    ws, evs := ThenReport(ws, evs, [], [], [], Rides(spans), maxSpans);
  }

  lemma RiderThenRider(maxSpans: nat) returns (ws: seq<World>, evs: seq<Event>)
    requires maxSpans > 2
    ensures IsRun(ws, evs, maxSpans) && 5 in ws[|evs|].due
    ensures UniqueIds([HELD, FREE])
    ensures Gathered(ws[|evs|], [HELD, FREE, LATE], [],
                     [Rider(true, Ordered([HELD, FREE])), Rider(true, [LATE])])
  {
    ws, evs := RiderTaken(maxSpans);
    FamilyAcyclic([HELD, FREE]);
    FamilyAcyclic([HELD, FREE, LATE]);
    var list := Ordered([HELD, FREE]);
    OrderedKeeps([HELD, FREE]);
    OneSpan(LATE);
    assert [HELD, FREE] + [LATE] == [HELD, FREE, LATE];
    assert [Rider(true, list)] + [Rider(true, [LATE])] == [Rider(true, list), Rider(true, [LATE])];
    BufferedTwo(ws[|evs|].st, list);
    LateIsDue(ws[|evs|], [HELD, FREE]);
    ws, evs := ThenReport(ws, evs, [HELD, FREE], [], [Rider(true, list)], Rides([LATE]), maxSpans);
  }

  lemma BufferedTwo(st: TraceState, list: seq<Span>)
    requires st.spans == [] && st.riders == [Rider(true, list)] && multiset(list) == multiset([HELD, FREE])
    ensures |Buffered(st)| == 2
  {
    RiderSpansAppend([], Rider(true, list));
    assert [] + [Rider(true, list)] == [Rider(true, list)];
    assert |multiset(list)| == |multiset([HELD, FREE])| == 2;
  }
}
