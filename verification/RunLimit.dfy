/** The span limit over whole runs on a trace. */
module RunLimit {
  import opened Options
  import opened SpanModel
  import opened ParentFirst
  import opened StepTrace
  import opened StepFlush
  import opened StepLimit
  import opened StepRuns

  // ---- the offers of a run ----

  function AsOffers(spans: seq<Span>, room: bool): (offers: seq<Offer>)
    ensures |offers| == |spans| && forall i :: 0 <= i < |spans| ==> offers[i] == Offer(spans[i], false, room)
  {
    seq(|spans|, i requires 0 <= i < |spans| => Offer(spans[i], false, room))
  }

  /** The calls of `keep` that an event makes, in order. */
  ghost function OffersOf(w: World, ev: Event, maxSpans: nat): seq<Offer>
    requires Legal(w, ev)
  {
    var room := |Buffered(w.st)| < maxSpans;
    match ev
    case Open(_, _, _) => []
    case Close(id, payload) =>
      var span := StepSpan(w.st, id, w.under[id], payload);
      [Offer(span, span.parent.None?, room)]
    case Report(e) => if Takes(w.st, e.spans) then AsOffers(Arranged(e.spans), room) else []
  }

  /** The spans of reports that no root took. */
  ghost function DirectOf(w: World, ev: Event): seq<Span> {
    if ev.Report? && !Takes(w.st, ev.entry.spans) then ev.entry.spans else []
  }

  ghost function RunOffers(ws: seq<World>, evs: seq<Event>, maxSpans: nat): seq<Offer>
    requires IsRun(ws, evs, maxSpans)
    decreases |evs|
  {
    if evs == [] then []
    else
      var n := |evs| - 1;
      RunFront(ws, evs, maxSpans);
      RunOffers(ws[..n + 1], evs[..n], maxSpans) + OffersOf(ws[n], evs[n], maxSpans)
  }

  ghost function RunDirect(ws: seq<World>, evs: seq<Event>): seq<Span>
    requires |ws| == |evs| + 1
    decreases |evs|
  {
    if evs == [] then []
    else var n := |evs| - 1; RunDirect(ws[..n + 1], evs[..n]) + DirectOf(ws[n], evs[n])
  }

  /** The spans that were not kept, in order, and those that were. */
  function RefusedOf(offers: seq<Offer>, n: nat): seq<Span>
    requires n <= |offers|
  {
    if n == 0 then []
    else if KeptAt(offers, n - 1) then RefusedOf(offers, n - 1)
    else RefusedOf(offers, n - 1) + [offers[n - 1].span]
  }

  lemma {:induction false} AfterPrefix(offers: seq<Offer>, more: seq<Offer>, n: nat)
    requires n <= |offers|
    ensures After(offers + more, n) == After(offers, n) && RefusedOf(offers + more, n) == RefusedOf(offers, n)
  {
    if n > 0 { AfterPrefix(offers, more, n - 1); }
  }

  /** What a root remembers and what was refused are what its offers come to. */
  ghost predicate Matches(notes: Notes, refused: seq<Span>, offers: seq<Offer>) {
    notes == After(offers, |offers|) && refused == RefusedOf(offers, |offers|)
  }

  lemma OneMore(notes: Notes, refused: seq<Span>, offers: seq<Offer>, o: Offer)
    requires Matches(notes, refused, offers)
    ensures Matches(Noted(notes, o), if Accepts(notes, o) then refused else refused + [o.span], offers + [o])
  {
    AfterPrefix(offers, [o], |offers|);
    assert (offers + [o])[|offers|] == o;
    assert KeptAt(offers + [o], |offers|) <==> Accepts(notes, o);
  }

  function NotesOf(st: TraceState): Notes {
    Notes(st.parents, st.droppedIds)
  }

  lemma AsOffersSnoc(offers: seq<Offer>, spans: seq<Span>, room: bool)
    requires spans != []
    ensures offers + AsOffers(spans, room) ==
      offers + AsOffers(spans[..|spans| - 1], room) + [Offer(spans[|spans| - 1], false, room)]
  {
  }

  lemma KeepMatches(st: TraceState, refused: seq<Span>, offers: seq<Offer>, span: Span, always: bool, maxSpans: nat)
    requires Matches(NotesOf(st), refused, offers)
    ensures Matches(NotesOf(Keep(st, span, always, maxSpans)),
                    if Keeps(st, span, always, maxSpans) then refused else refused + [span],
                    offers + [Offer(span, always, |Buffered(st)| < maxSpans)])
  {
    KeepIsOffer(st, span, always, maxSpans);
    OneMore(NotesOf(st), refused, offers, Offer(span, always, |Buffered(st)| < maxSpans));
  }

  lemma {:induction false} FilterMatches(st: TraceState, refused: seq<Span>, offers: seq<Offer>,
    spans: seq<Span>, maxSpans: nat)
    requires Matches(NotesOf(st), refused, offers)
    ensures Matches(NotesOf(KeepAll(st, spans, maxSpans).0), refused + Refused(st, spans, maxSpans),
                    offers + AsOffers(spans, |Buffered(st)| < maxSpans))
  {
    var room := |Buffered(st)| < maxSpans;
    if spans == [] {
      assert offers + AsOffers(spans, room) == offers;
    } else {
      var front, last := spans[..|spans| - 1], spans[|spans| - 1];
      FilterMatches(st, refused, offers, front, maxSpans);
      KeepAllFrame(st, front, maxSpans);
      AsOffersSnoc(offers, spans, room);
      KeepMatches(KeepAll(st, front, maxSpans).0, refused + Refused(st, front, maxSpans),
                  offers + AsOffers(front, room), last, false, maxSpans);
      assert refused + Refused(st, front, maxSpans) + [last] == refused + (Refused(st, front, maxSpans) + [last]);
    }
  }

  /** An event offers its spans to `keep` and nothing else changes what is remembered. */
  lemma NextMatches(w: World, ev: Event, maxSpans: nat, offers: seq<Offer>)
    requires Legal(w, ev) && Matches(NotesOf(w.st), w.refused, offers)
    ensures var w' := Next(w, ev, maxSpans); Matches(NotesOf(w'.st), w'.refused, offers + OffersOf(w, ev, maxSpans))
  {
    match ev
    case Open(_, _, _) =>
      assert offers + [] == offers;
    case Close(id, payload) =>
      var span := StepSpan(w.st, id, w.under[id], payload);
      KeepMatches(w.st.(open := w.st.open - {id}), w.refused, offers, span, span.parent.None?, maxSpans);
    case Report(e) =>
      if Takes(w.st, e.spans) {
        FilterMatches(w.st, w.refused, offers, Arranged(e.spans), maxSpans);
      } else {
        assert offers + [] == offers;
      }
  }

  /** The calls of `keep` in a run form one sequence of offers that starts from empty notes. */
  lemma {:induction false} RunMatches(ws: seq<World>, evs: seq<Event>, maxSpans: nat)
    requires IsRun(ws, evs, maxSpans)
    ensures Matches(NotesOf(ws[|evs|].st), ws[|evs|].refused, RunOffers(ws, evs, maxSpans))
    ensures RootOnlyAlways(RunOffers(ws, evs, maxSpans))
  {
    if evs != [] {
      var n := |evs| - 1;
      RunFront(ws, evs, maxSpans);
      RunMatches(ws[..n + 1], evs[..n], maxSpans);
      assert ws[..n + 1][n] == ws[n] && ws[n + 1] == Next(ws[n], evs[n], maxSpans);
      NextMatches(ws[n], evs[n], maxSpans, RunOffers(ws[..n + 1], evs[..n], maxSpans));
    }
  }

  // ---- what was recorded was offered or sent straight on ----

  function SpansOffered(offers: seq<Offer>): set<Span> {
    set o | o in offers :: o.span
  }

  lemma NextOffered(w: World, ev: Event, maxSpans: nat, s: Span)
    requires Inv(w) && Legal(w, ev) && s in Next(w, ev, maxSpans).recorded
    ensures s in w.recorded || s in SpansOffered(OffersOf(w, ev, maxSpans)) || s in DirectOf(w, ev)
  {
    match ev
    case Open(_, _, _) =>
    case Close(id, payload) =>
      var offers := OffersOf(w, ev, maxSpans);
      assert offers[0] in offers;
    case Report(e) =>
      if s in e.spans && Takes(w.st, e.spans) {
        var offers := OffersOf(w, ev, maxSpans);
        ReportSubs(w, e);
        OrderedKeeps(e.spans);
        var i :| 0 <= i < |Arranged(e.spans)| && Arranged(e.spans)[i] == s;
        assert offers[i] in offers;
      }
  }

  lemma ReportSubs(w: World, e: Entry)
    requires Legal(w, Report(e))
    ensures UniqueIds(e.spans) && Acyclic(e.spans)
  {
    UniqueConcat(w.recorded, e.spans);
    AcyclicSub(w.recorded + e.spans, e.spans);
  }

  lemma {:induction false} RecordedOffered(ws: seq<World>, evs: seq<Event>, maxSpans: nat, s: Span)
    requires IsRun(ws, evs, maxSpans) && s in ws[|evs|].recorded
    ensures s in SpansOffered(RunOffers(ws, evs, maxSpans)) || s in RunDirect(ws, evs)
  {
    if evs != [] {
      var n := |evs| - 1;
      RunFront(ws, evs, maxSpans);
      RunsKeepInv(ws[..n + 1], evs[..n], maxSpans);
      assert ws[..n + 1][n] == ws[n] && ws[n + 1] == Next(ws[n], evs[n], maxSpans);
      NextOffered(ws[n], evs[n], maxSpans, s);
      if s in ws[n].recorded { RecordedOffered(ws[..n + 1], evs[..n], maxSpans, s); }
    }
  }

  // ---- orphans in runs ----

  lemma {:induction false} RefusedAt(offers: seq<Offer>, n: nat, s: Span)
    requires n <= |offers|
    ensures s in RefusedOf(offers, n) <==> exists j :: 0 <= j < n && offers[j].span == s && !KeptAt(offers, j)
  {
    if n > 0 { RefusedAt(offers, n - 1, s); }
  }

  /** Among the offered spans, one that was kept has its parent among the refused. */
  ghost predicate KeptUnder(offers: seq<Offer>, refused: seq<Span>) {
    exists i, t :: 0 <= i < |offers| && KeptAt(offers, i) && t in refused && offers[i].span.parent == Some(t.id)
  }

  lemma KeptUnderIff(offers: seq<Offer>)
    ensures KeptUnder(offers, RefusedOf(offers, |offers|)) <==> HasKeptOrphan(offers)
  {
    var refused := RefusedOf(offers, |offers|);
    if KeptUnder(offers, refused) {
      var i, t :| 0 <= i < |offers| && KeptAt(offers, i) && t in refused && offers[i].span.parent == Some(t.id);
      RefusedAt(offers, |offers|, t);
      var j :| 0 <= j < |offers| && offers[j].span == t && !KeptAt(offers, j);
      assert KeptOrphan(offers, i, j);
    }
    if HasKeptOrphan(offers) {
      var i: nat, j: nat :| KeptOrphan(offers, i, j);
      RefusedAt(offers, |offers|, offers[j].span);
      assert offers[j].span in refused;
    }
  }

  /** In a run a kept span has a refused parent exactly if one was let in regardless. */
  lemma RunOrphansIff(ws: seq<World>, evs: seq<Event>, maxSpans: nat)
    requires IsRun(ws, evs, maxSpans)
    ensures var offers := RunOffers(ws, evs, maxSpans);
      KeptUnder(offers, ws[|evs|].refused) <==> exists i :: 0 <= i < |offers| && LetInRegardless(offers, i)
  {
    RunMatches(ws, evs, maxSpans);
    KeptUnderIff(RunOffers(ws, evs, maxSpans));
    OrphansIff(RunOffers(ws, evs, maxSpans));
  }

  lemma OfferedUnderRefused(offers: seq<Offer>, s: Span, t: Span)
    requires InnermostFirst(offers) && RootOnlyAlways(offers) && s in SpansOffered(offers)
    requires t in RefusedOf(offers, |offers|) && s.parent == Some(t.id)
    ensures s in RefusedOf(offers, |offers|)
  {
    var o :| o in offers && o.span == s;
    var i :| 0 <= i < |offers| && offers[i] == o;
    RefusedAt(offers, |offers|, t);
    var j :| 0 <= j < |offers| && offers[j].span == t && !KeptAt(offers, j);
    NoOrphansInnermostFirst(offers);
    assert !KeptOrphan(offers, i, j);
    RefusedAt(offers, |offers|, s);
  }

  /** If no span is offered both after its parent and after one of its own children, every
      recorded span whose parent was refused was refused too, or went past the roots. */
  lemma NoOrphansInRuns(ws: seq<World>, evs: seq<Event>, maxSpans: nat, s: Span, t: Span)
    requires IsRun(ws, evs, maxSpans) && InnermostFirst(RunOffers(ws, evs, maxSpans))
    requires s in ws[|evs|].recorded && t in ws[|evs|].refused && s.parent == Some(t.id)
    ensures s in ws[|evs|].refused || s in RunDirect(ws, evs)
  {
    RunMatches(ws, evs, maxSpans);
    RecordedOffered(ws, evs, maxSpans, s);
    if s in SpansOffered(RunOffers(ws, evs, maxSpans)) {
      OfferedUnderRefused(RunOffers(ws, evs, maxSpans), s, t);
    }
  }
}
