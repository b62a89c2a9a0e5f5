/** Exactly which runs on a trace hand over every known parent ahead of its children. */
module RunOrder {
  import opened Options
  import opened SpanModel
  import opened Ancestry
  import opened ParentFirst
  import opened StepTrace
  import opened StepFlush
  import opened StepRuns
  import opened StepDelivery
  import opened FlushOrder

  // ---- what an event must meet ----

  /** The ids of the spans that have a parent to follow: it was known when they were
      recorded, and `keep` did not refuse it. */
  ghost function Owed(w: World): set<Id> {
    set s | s in w.recorded && s.id in w.due && s.parent.Some? && s.parent.value !in Ids(w.refused) :: s.id
  }

  /** A report sent straight on names no open step, no span that still waits and no later
      span of its own. */
  ghost predicate DirectPlaced(w: World, e: Entry) {
    forall k :: 0 <= k < |e.spans| && e.spans[k].parent.Some? && e.spans[k].parent.value !in Ids(e.spans[..k]) ==>
      e.spans[k].parent.value !in w.st.open + Ids(Buffered(w.st)) + Ids(e.spans)
  }

  /** The condition on one event, checkable before it: a flush must be placed, and so must a
      report that no root takes. Anything else only waits. */
  ghost predicate StepPlaced(w: World, ev: Event, maxSpans: nat)
    requires Legal(w, ev)
  {
    match ev
    case Open(_, _, _) => true
    case Close(id, payload) =>
      var span := StepSpan(w.st, id, w.under[id], payload);
      var rec := Recorded(w.st, span, maxSpans);
      Flushes(rec, span) ==> FlushPlaced(rec, Owed(CloseNext(w, id, payload, maxSpans)), SentIds(w.log))
    case Report(e) => !Takes(w.st, e.spans) ==> DirectPlaced(w, e)
  }

  // ---- due parents are known, and a step with a kept child is kept ----

  ghost predicate ParentKnown(known: set<Id>, due: set<Id>, s: Span) {
    s.id in due && s.parent.Some? ==> s.parent.value in known
  }

  ghost predicate DueKnown(w: World) {
    && w.due <= Ids(w.recorded)
    && forall s :: s in w.recorded ==> ParentKnown(Known(w), w.due, s)
  }

  /** What is under an open step was refused, or that step is noted and will be kept. */
  ghost predicate KidsNoted(w: World) {
    forall s :: s in w.recorded && s.parent.Some? && s.parent.value in w.st.open && s !in w.refused ==>
      s.parent.value in w.st.parents
  }

  ghost predicate Steady(w: World) {
    DueKnown(w) && KidsNoted(w)
  }

  lemma CloseKeepsDueKnown(w: World, id: Id, payload: string, maxSpans: nat)
    requires Inv(w) && DueKnown(w) && Legal(w, Close(id, payload))
    ensures DueKnown(CloseNext(w, id, payload, maxSpans))
  {
    var span, w' := StepSpan(w.st, id, w.under[id], payload), CloseNext(w, id, payload, maxSpans);
    IdsSnoc(w.recorded, span);
    var i :| 0 <= i < |w.steps| && w.steps[i] == id;
    assert ParentOpenedBefore(w.steps, w.under, i);
    if i > 0 {
      var j :| 0 <= j < i && w.steps[j] == w.under[id].value;
      assert ParentOpenedBefore(w.steps, w.under, j);
    }
    assert Known(w) <= Known(w');
    forall s | s in w'.recorded ensures ParentKnown(Known(w'), w'.due, s) {
      if s in w.recorded {
        assert ParentKnown(Known(w), w.due, s);
        assert s.id in Ids(w.recorded);
      }
    }
  }

  lemma ReportKeepsDueKnown(w: World, e: Entry, maxSpans: nat)
    requires DueKnown(w) && Legal(w, Report(e))
    ensures DueKnown(ReportNext(w, e, maxSpans))
  {
    var w' := ReportNext(w, e, maxSpans);
    var due' := w'.due;
    IdsConcat(w.recorded, e.spans);
    assert due' <= w.due + Ids(e.spans);
    forall s | s in w'.recorded ensures ParentKnown(Known(w'), due', s) {
      NewestSpan(w, e, s);
      if s in w.recorded {
        assert ParentKnown(Known(w), w.due, s);
      } else {
        DueOfReport(w, e, s);
      }
    }
  }

  /** Spans of a report have ids of their own. */
  lemma NewestSpan(w: World, e: Entry, s: Span)
    requires Legal(w, Report(e)) && s in w.recorded + e.spans
    ensures s in w.recorded ==> s.id !in Ids(e.spans)
    ensures s in e.spans ==> s.id !in Ids(w.recorded)
  {
    NewIds(w, e);
  }

  lemma NewIds(w: World, e: Entry)
    requires Legal(w, Report(e))
    ensures Known(w) !! Ids(e.spans)
  {
    var all := w.recorded + e.spans;
    forall t, u | t in w.recorded && u in e.spans ensures t.id != u.id {
      var i :| 0 <= i < |w.recorded| && w.recorded[i] == t;
      var j :| 0 <= j < |e.spans| && e.spans[j] == u;
      assert all[i] == t && all[|w.recorded| + j] == u;
    }
  }

  /** A span of a report is due exactly if its parent is known or in the report. */
  lemma DueOfReport(w: World, e: Entry, s: Span)
    requires w.due <= Ids(w.recorded) && Legal(w, Report(e)) && s in e.spans
    ensures s.id in w.due + DueIn(Known(w) + Ids(e.spans), e.spans) <==>
      s.parent.Some? && s.parent.value in Known(w) + Ids(e.spans)
  {
    NewestSpan(w, e, s);
    UniqueConcat(w.recorded, e.spans);
    if s.id in DueIn(Known(w) + Ids(e.spans), e.spans) {
      var t :| t in e.spans && t.parent.Some? && t.parent.value in Known(w) + Ids(e.spans) && t.id == s.id;
      SameIdSameSpan(e.spans, s, t);
    }
  }

  lemma {:induction false} KeepAllNotes(st: TraceState, spans: seq<Span>, maxSpans: nat, s: Span)
    ensures st.parents <= KeepAll(st, spans, maxSpans).0.parents
    ensures s in spans && s.parent.Some? && s !in Refused(st, spans, maxSpans) ==>
      s.parent.value in KeepAll(st, spans, maxSpans).0.parents
  {
    if spans != [] {
      var front, last := spans[..|spans| - 1], spans[|spans| - 1];
      assert spans == front + [last];
      KeepAllNotes(st, front, maxSpans, s);
    }
  }

  /** A report under an open step is never sent straight on. */
  lemma DirectNamesNoStep(w: World, e: Entry, s: Span)
    requires Inv(w) && Legal(w, Report(e)) && !Takes(w.st, e.spans) && s in e.spans && s.parent.Some?
    ensures s.parent.value !in w.st.open
  {
    NotTakenNotHeld(w, e, s);
    HangsStep(Links(Buffered(w.st) + e.spans), w.st.open, s.parent.value);
  }

  lemma ReportKeepsKidsNoted(w: World, e: Entry, maxSpans: nat)
    requires Inv(w) && KidsNoted(w) && Legal(w, Report(e))
    ensures KidsNoted(ReportNext(w, e, maxSpans))
  {
    var w' := ReportNext(w, e, maxSpans);
    if Takes(w.st, e.spans) { RoutedFrame(w.st, e, maxSpans); }
    forall s | s in w'.recorded && s.parent.Some? && s.parent.value in w.st.open && s !in w'.refused
      ensures s.parent.value in w'.st.parents
    {
      if Takes(w.st, e.spans) {
        ArrangedKeeps(w.recorded, e.spans);
        KeepAllNotes(w.st, Arranged(e.spans), maxSpans, s);
      } else if s in e.spans {
        DirectNamesNoStep(w, e, s);
      }
    }
  }

  lemma OpenKeepsSteady(w: World, id: Id, parent: Option<Id>, ctx: Context)
    requires Steady(w) && Legal(w, Open(id, parent, ctx))
    ensures Steady(OpenNext(w, id, parent, ctx))
  {
    var w' := OpenNext(w, id, parent, ctx);
    assert Known(w) <= Known(w');
    forall s | s in w'.recorded ensures ParentKnown(Known(w'), w'.due, s) {
      assert ParentKnown(Known(w), w.due, s);
    }
  }

  lemma CloseKeepsKidsNoted(w: World, id: Id, payload: string, maxSpans: nat)
    requires KidsNoted(w) && Legal(w, Close(id, payload))
    ensures KidsNoted(CloseNext(w, id, payload, maxSpans))
  {
    var span, w' := StepSpan(w.st, id, w.under[id], payload), CloseNext(w, id, payload, maxSpans);
    ClosedFrame(w.st, span, maxSpans);
    assert w'.st.parents ==
      if Keeps(w.st, span, span.parent.None?, maxSpans) then w.st.parents + ParentSet(span) else w.st.parents;
  }

  lemma NextKeepsSteady(w: World, ev: Event, maxSpans: nat)
    requires Inv(w) && Steady(w) && Legal(w, ev)
    ensures Steady(Next(w, ev, maxSpans))
  {
    match ev
    case Open(id, parent, ctx) => OpenKeepsSteady(w, id, parent, ctx);
    case Close(id, payload) =>
      CloseKeepsDueKnown(w, id, payload, maxSpans);
      CloseKeepsKidsNoted(w, id, payload, maxSpans);
    case Report(e) =>
      ReportKeepsDueKnown(w, e, maxSpans);
      ReportKeepsKidsNoted(w, e, maxSpans);
  }

  // ---- where a known span is ----

  /** Each recorded id is in one place: buffered, sent or refused. */
  lemma ThreePlaces(recorded: seq<Span>, buffered: seq<Span>, sent: seq<Span>, refused: seq<Span>)
    requires Accounted(recorded, buffered, sent, refused)
    ensures Ids(recorded) == Ids(buffered) + Ids(sent) + Ids(refused)
    ensures Ids(buffered) !! Ids(sent) + Ids(refused) && Ids(sent) !! Ids(refused)
  {
    PartsOfAccounted(recorded, buffered, sent, refused);
    IdsConcat(buffered, sent);
    IdsConcat(buffered + sent, refused);
    assert forall s :: s in buffered + sent + refused <==> s in recorded;
    UniqueApart(buffered + sent, refused);
    UniqueConcat(buffered + sent, refused);
    UniqueApart(buffered, sent);
  }

  lemma UniqueApart(a: seq<Span>, b: seq<Span>)
    requires UniqueIds(a + b)
    ensures Ids(a) !! Ids(b)
  {
    forall s, t | s in a && t in b ensures s.id != t.id {
      var i :| 0 <= i < |a| && a[i] == s;
      var j :| 0 <= j < |b| && b[j] == t;
      assert (a + b)[i] == s && (a + b)[|a| + j] == t;
    }
  }

  /** A known id is that of an open step or of a span that is buffered, sent or refused, and
      what is open or buffered is neither sent nor refused. */
  lemma KnownPlaces(w: World)
    requires Inv(w)
    ensures Known(w) == w.st.open + Ids(Buffered(w.st)) + SentIds(w.log) + Ids(w.refused)
    ensures w.st.open + Ids(Buffered(w.st)) !! SentIds(w.log) + Ids(w.refused)
  {
    ThreePlaces(w.recorded, Buffered(w.st), SpansOf(w.log), w.refused);
  }

  // ---- who is owed a parent ----

  lemma OwedIs(w: World, s: Span)
    requires UniqueIds(w.recorded) && s in w.recorded
    ensures s.id in Owed(w) <==> s.id in w.due && s.parent.Some? && s.parent.value !in Ids(w.refused)
  {
    if s.id in Owed(w) {
      var t :| t in w.recorded && t.id in w.due && t.parent.Some? && t.parent.value !in Ids(w.refused) && t.id == s.id;
      SameIdSameSpan(w.recorded, s, t);
    }
  }

  lemma SentIsRecorded(w: World, s: Span)
    requires Inv(w) && s in SpansOf(w.log)
    ensures s in w.recorded && s !in w.refused
  {
    PartsOfAccounted(w.recorded, Buffered(w.st), SpansOf(w.log), w.refused);
    assert s in Buffered(w.st) + SpansOf(w.log) + w.refused;
    ThreePlaces(w.recorded, Buffered(w.st), SpansOf(w.log), w.refused);
    assert s.id in SentIds(w.log);
    assert s in w.refused ==> s.id in Ids(w.refused);
  }

  /** A step whose child was not refused is not refused either. */
  lemma CloseRefusesNoParent(w: World, id: Id, payload: string, maxSpans: nat, s: Span)
    requires KidsNoted(w) && Legal(w, Close(id, payload)) && s in w.recorded && s !in w.refused && s.parent.Some?
    ensures var w' := CloseNext(w, id, payload, maxSpans);
      s.parent.value in Ids(w.refused) <==> s.parent.value in Ids(w'.refused)
  {
    IdsSnoc(w.refused, StepSpan(w.st, id, w.under[id], payload));
  }

  /** Nor does a report bring the parent of a span that was due before. */
  lemma ReportRefusesNoParent(w: World, e: Entry, maxSpans: nat, s: Span)
    requires Legal(w, Report(e)) && s.parent.Some? && s.parent.value in Known(w)
    ensures var w' := ReportNext(w, e, maxSpans);
      s.parent.value in Ids(w.refused) <==> s.parent.value in Ids(w'.refused)
  {
    NewIds(w, e);
    if Takes(w.st, e.spans) {
      ArrangedKeeps(w.recorded, e.spans);
      RefusedIds(w.st, Arranged(e.spans), maxSpans);
      IdsConcat(w.refused, Refused(w.st, Arranged(e.spans), maxSpans));
      assert Ids(Arranged(e.spans)) == Ids(e.spans);
    }
  }

  lemma DueStays(w: World, ev: Event, maxSpans: nat, s: Span)
    requires Inv(w) && DueKnown(w) && Legal(w, ev) && s in w.recorded
    ensures s in Next(w, ev, maxSpans).recorded && (s.id in w.due <==> s.id in Next(w, ev, maxSpans).due)
  {
    assert s.id in Ids(w.recorded);
    if ev.Report? { NewIds(w, ev.entry); }
  }

  /** Whether a sent span is owed its parent was settled when it was recorded. */
  lemma OwedStays(w: World, ev: Event, maxSpans: nat, s: Span)
    requires Inv(w) && Steady(w) && Legal(w, ev) && s in SpansOf(w.log)
    ensures s.id in Owed(w) <==> s.id in Owed(Next(w, ev, maxSpans))
  {
    NextKeeps(w, ev, maxSpans);
    SentIsRecorded(w, s);
    DueStays(w, ev, maxSpans, s);
    OwedIs(w, s);
    OwedIs(Next(w, ev, maxSpans), s);
    assert ParentKnown(Known(w), w.due, s);
    if s.parent.Some? && s.id in w.due {
      match ev
      case Open(_, _, _) =>
      case Close(id, payload) => CloseRefusesNoParent(w, id, payload, maxSpans, s);
      case Report(e) => ReportRefusesNoParent(w, e, maxSpans, s);
    }
  }

  lemma RefusedIds(st: TraceState, spans: seq<Span>, maxSpans: nat)
    ensures Ids(Refused(st, spans, maxSpans)) <= Ids(spans)
  {
    KeepAllConserves(st, spans, maxSpans);
    var kept := KeepAll(st, spans, maxSpans).1;
    forall s | s in Refused(st, spans, maxSpans) ensures s in spans {
      assert s in multiset(kept) + multiset(Refused(st, spans, maxSpans));
      assert s in multiset(spans);
    }
  }

  /** So the log so far is in order for the new debts exactly if it was for the old ones. */
  lemma LogStays(w: World, ev: Event, maxSpans: nat)
    requires Inv(w) && Steady(w) && Legal(w, ev)
    ensures Follows(Owed(Next(w, ev, maxSpans)), {}, SpansOf(w.log)) <==> Follows(Owed(w), {}, SpansOf(w.log))
  {
    forall s | s in SpansOf(w.log) ensures s.id in Owed(w) <==> s.id in Owed(Next(w, ev, maxSpans)) {
      OwedStays(w, ev, maxSpans, s);
    }
    SameDue(Owed(w), Owed(Next(w, ev, maxSpans)), {}, SpansOf(w.log));
  }

  lemma SameDue(due: set<Id>, due': set<Id>, before: set<Id>, list: seq<Span>)
    requires forall s :: s in list ==> (s.id in due <==> s.id in due')
    ensures Follows(due, before, list) <==> Follows(due', before, list)
  {
    if Follows(due, before, list) { FollowsNewDue(due, due', before, list); }
    if Follows(due', before, list) { FollowsNewDue(due', due, before, list); }
  }

  lemma LogGrows(due: set<Id>, log: seq<Entry>, more: seq<Entry>)
    ensures Follows(due, {}, SpansOf(log + more)) <==>
      Follows(due, {}, SpansOf(log)) && Follows(due, SentIds(log), SpansOf(more))
  {
    SpansOfConcat(log, more);
    FollowsConcatIff(due, {}, SpansOf(log), SpansOf(more));
    assert {} + Ids(SpansOf(log)) == SentIds(log);
  }

  // ---- a report sent straight on ----

  /** Such a span is owed its parent exactly if that is known and not refused, or in the report. */
  lemma OwedDirect(w: World, e: Entry, maxSpans: nat, s: Span)
    requires Inv(w) && Steady(w) && Legal(w, Report(e)) && !Takes(w.st, e.spans) && s in e.spans
    ensures s.id in Owed(ReportNext(w, e, maxSpans)) <==>
      s.parent.Some? && s.parent.value in w.st.open + Ids(Buffered(w.st)) + SentIds(w.log) + Ids(e.spans)
  {
    OwedIs(ReportNext(w, e, maxSpans), s);
    DueOfReport(w, e, s);
    NewIds(w, e);
    KnownPlaces(w);
    ThreePlaces(w.recorded, Buffered(w.st), SpansOf(w.log), w.refused);
  }

  lemma DirectFollowsIff(w: World, e: Entry, maxSpans: nat)
    requires Inv(w) && Steady(w) && Legal(w, Report(e)) && !Takes(w.st, e.spans)
    ensures Follows(Owed(ReportNext(w, e, maxSpans)), SentIds(w.log), e.spans) <==> DirectPlaced(w, e)
  {
    var owed, sent := Owed(ReportNext(w, e, maxSpans)), SentIds(w.log);
    KnownPlaces(w);
    NewIds(w, e);
    forall k | 0 <= k < |e.spans| && e.spans[k].parent.Some?
      ensures e.spans[k].id in owed ==>
        e.spans[k].parent.value in sent + w.st.open + Ids(Buffered(w.st)) + Ids(e.spans)
      ensures e.spans[k].parent.value in w.st.open + Ids(Buffered(w.st)) + Ids(e.spans) ==>
        e.spans[k].id in owed && e.spans[k].parent.value !in sent
      ensures ParentAhead(sent, e.spans, k) <==>
        e.spans[k].parent.value in sent || e.spans[k].parent.value in Ids(e.spans[..k])
    {
      OwedDirect(w, e, maxSpans, e.spans[k]);
      AheadIsInPrefix(sent, e.spans, k);
    }
  }

  lemma AheadIsInPrefix(sent: set<Id>, spans: seq<Span>, k: nat)
    requires k < |spans| && spans[k].parent.Some?
    ensures ParentAhead(sent, spans, k) <==>
      spans[k].parent.value in sent || spans[k].parent.value in Ids(spans[..k])
  {
    var p := spans[k].parent.value;
    if p in Ids(spans[..k]) {
      var t :| t in spans[..k] && t.id == p;
      var j :| 0 <= j < k && spans[..k][j] == t;
      assert spans[j].id == p;
    }
    if j :| 0 <= j < k && spans[j].id == p {
      assert spans[..k][j] in spans[..k];
    }
  }

  // ---- a flush ----

  lemma CloseAccounted(w: World, id: Id, payload: string, maxSpans: nat)
    requires Inv(w) && Legal(w, Close(id, payload))
    ensures var w', rec := CloseNext(w, id, payload, maxSpans),
                           Recorded(w.st, StepSpan(w.st, id, w.under[id], payload), maxSpans);
      && Accounted(w'.recorded, Buffered(rec), SpansOf(w.log), w'.refused)
      && StepsRecorded(w'.under, rec.open, w'.recorded)
  {
    var span := StepSpan(w.st, id, w.under[id], payload);
    RecordedSound(w, span, maxSpans);
    RecordAccounts(w, span, maxSpans);
    StepsRecordedClose(w.under, w.st.open, w.recorded, span);
  }

  /** At a flush, every owed parent of a buffered span is open, sent or buffered. */
  lemma FlushKnowsParents(w: World, id: Id, payload: string, maxSpans: nat)
    requires Inv(w) && Steady(w) && Legal(w, Close(id, payload))
    ensures var rec := Recorded(w.st, StepSpan(w.st, id, w.under[id], payload), maxSpans);
      ParentsKnown(rec, Owed(CloseNext(w, id, payload, maxSpans)), SentIds(w.log))
  {
    CloseAccounted(w, id, payload, maxSpans);
    CloseKeepsDueKnown(w, id, payload, maxSpans);
    OwedBuffered(CloseNext(w, id, payload, maxSpans),
                 Recorded(w.st, StepSpan(w.st, id, w.under[id], payload), maxSpans), w.log);
  }

  lemma OwedBuffered(w: World, rec: TraceState, log: seq<Entry>)
    requires Accounted(w.recorded, Buffered(rec), SpansOf(log), w.refused)
    requires DueKnown(w) && StepsRecorded(w.under, rec.open, w.recorded)
    ensures ParentsKnown(rec, Owed(w), SentIds(log))
  {
    ThreePlaces(w.recorded, Buffered(rec), SpansOf(log), w.refused);
    PartsOfAccounted(w.recorded, Buffered(rec), SpansOf(log), w.refused);
    forall s | s in Buffered(rec) && s.id in Owed(w) && s.parent.Some?
      ensures s.parent.value in rec.open + SentIds(log) + Ids(Buffered(rec))
    {
      assert s in Buffered(rec) + SpansOf(log) + w.refused;
      OwedIs(w, s);
      assert ParentKnown(Known(w), w.due, s);
    }
  }

  lemma CloseFollowsIff(w: World, id: Id, payload: string, maxSpans: nat)
    requires Inv(w) && Steady(w) && Legal(w, Close(id, payload))
    ensures var w' := CloseNext(w, id, payload, maxSpans);
      Follows(Owed(w'), {}, SpansOf(w'.log)) <==>
      Follows(Owed(w), {}, SpansOf(w.log)) && StepPlaced(w, Close(id, payload), maxSpans)
  {
    var span, owed := StepSpan(w.st, id, w.under[id], payload), Owed(CloseNext(w, id, payload, maxSpans));
    var rec := Recorded(w.st, span, maxSpans);
    LogStays(w, Close(id, payload), maxSpans);
    if Flushes(rec, span) {
      RecordedSound(w, span, maxSpans);
      FlushKnowsParents(w, id, payload, maxSpans);
      FlushFollowsIff(rec, owed, SentIds(w.log));
      LogGrows(owed, w.log, FlushReports(rec));
    } else {
      assert w.log + [] == w.log;
    }
  }

  lemma ReportFollowsIff(w: World, e: Entry, maxSpans: nat)
    requires Inv(w) && Steady(w) && Legal(w, Report(e))
    ensures var w' := ReportNext(w, e, maxSpans);
      Follows(Owed(w'), {}, SpansOf(w'.log)) <==>
      Follows(Owed(w), {}, SpansOf(w.log)) && StepPlaced(w, Report(e), maxSpans)
  {
    LogStays(w, Report(e), maxSpans);
    if !Takes(w.st, e.spans) {
      DirectFollowsIff(w, e, maxSpans);
      LogGrows(Owed(ReportNext(w, e, maxSpans)), w.log, [e]);
      SpansOfOne(e);
    }
  }

  /** One event keeps the order exactly if it meets its condition. */
  lemma NextFollowsIff(w: World, ev: Event, maxSpans: nat)
    requires Inv(w) && Steady(w) && Legal(w, ev)
    ensures var w' := Next(w, ev, maxSpans);
      Follows(Owed(w'), {}, SpansOf(w'.log)) <==> Follows(Owed(w), {}, SpansOf(w.log)) && StepPlaced(w, ev, maxSpans)
  {
    match ev
    case Open(_, _, _) => LogStays(w, ev, maxSpans);
    case Close(id, payload) => CloseFollowsIff(w, id, payload, maxSpans);
    case Report(e) => ReportFollowsIff(w, e, maxSpans);
  }

  // ---- runs ----

  ghost predicate AllStepsPlaced(ws: seq<World>, evs: seq<Event>, maxSpans: nat)
    requires IsRun(ws, evs, maxSpans)
  {
    forall i :: 0 <= i < |evs| ==> StepPlaced(ws[i], evs[i], maxSpans)
  }

  lemma RefusedStays(w: World, ev: Event, maxSpans: nat)
    requires Legal(w, ev) && Next(w, ev, maxSpans).refused == []
    ensures w.refused == []
  {
  }

  lemma {:induction false} RunsKeepSteady(ws: seq<World>, evs: seq<Event>, maxSpans: nat)
    requires IsRun(ws, evs, maxSpans)
    ensures Steady(ws[|evs|])
  {
    if evs != [] {
      var n := |evs| - 1;
      RunFront(ws, evs, maxSpans);
      RunsKeepInv(ws[..n + 1], evs[..n], maxSpans);
      RunsKeepSteady(ws[..n + 1], evs[..n], maxSpans);
      assert ws[n + 1] == Next(ws[n], evs[n], maxSpans);
      NextKeepsSteady(ws[n], evs[n], maxSpans);
    }
  }

  /** In a run, refusals or not, every known parent that was not refused reaches the queue
      ahead of its children if and only if each flush and each report sent straight on met
      its condition. */
  lemma {:induction false} RunFollowsIff(ws: seq<World>, evs: seq<Event>, maxSpans: nat)
    requires IsRun(ws, evs, maxSpans)
    ensures Follows(Owed(ws[|evs|]), {}, SpansOf(ws[|evs|].log)) <==> AllStepsPlaced(ws, evs, maxSpans)
  {
    if evs != [] {
      var n := |evs| - 1;
      RunFront(ws, evs, maxSpans);
      RunsKeepInv(ws[..n + 1], evs[..n], maxSpans);
      RunsKeepSteady(ws[..n + 1], evs[..n], maxSpans);
      assert ws[n + 1] == Next(ws[n], evs[n], maxSpans) && ws[..n + 1][n] == ws[n];
      RunFollowsIff(ws[..n + 1], evs[..n], maxSpans);
      NextFollowsIff(ws[n], evs[n], maxSpans);
      PlacedSnoc(ws, evs, maxSpans);
    }
  }

  lemma PlacedSnoc(ws: seq<World>, evs: seq<Event>, maxSpans: nat)
    requires IsRun(ws, evs, maxSpans) && evs != [] && IsRun(ws[..|evs|], evs[..|evs| - 1], maxSpans)
    ensures AllStepsPlaced(ws, evs, maxSpans) <==>
      AllStepsPlaced(ws[..|evs|], evs[..|evs| - 1], maxSpans) && StepPlaced(ws[|evs| - 1], evs[|evs| - 1], maxSpans)
  {
    var n := |evs| - 1;
    assert forall i :: 0 <= i < n ==> ws[..n + 1][i] == ws[i] && evs[..n][i] == evs[i];
  }

  lemma CleanOwes(w: World)
    requires Clean(w)
    ensures Follows(Owed(w), {}, SpansOf(w.log))
  {
    FollowsNewDue(w.due, Owed(w), {}, SpansOf(w.log));
  }

  /** With nothing refused, well-placed reports are enough. */
  lemma WellPlacedSuffices(ws: seq<World>, evs: seq<Event>, maxSpans: nat)
    requires IsRun(ws, evs, maxSpans) && ws[|evs|].refused == [] && AllPlaced(ws, evs)
    ensures AllStepsPlaced(ws, evs, maxSpans)
  {
    RunsKeepClean(ws, evs, maxSpans);
    CleanOwes(ws[|evs|]);
    RunFollowsIff(ws, evs, maxSpans);
  }

  lemma RunGoesOn(ws: seq<World>, evs: seq<Event>, ev: Event, maxSpans: nat)
    requires IsRun(ws, evs, maxSpans) && Legal(ws[|evs|], ev)
    ensures IsRun(ws + [Next(ws[|evs|], ev, maxSpans)], evs + [ev], maxSpans)
  {
    var ws' := ws + [Next(ws[|evs|], ev, maxSpans)];
    assert ws'[0] == ws[0];
    forall i | 0 <= i < |evs| + 1
      ensures Legal(ws'[i], (evs + [ev])[i]) && ws'[i + 1] == Next(ws'[i], (evs + [ev])[i], maxSpans) {
      if i < |evs| { assert ws'[i] == ws[i] && ws'[i + 1] == ws[i + 1]; }
    }
  }

  /** An event that misses its condition puts a child ahead of its parent. */
  lemma MissedMeansLate(ws: seq<World>, evs: seq<Event>, ev: Event, maxSpans: nat)
    requires IsRun(ws, evs, maxSpans) && Legal(ws[|evs|], ev) && !StepPlaced(ws[|evs|], ev, maxSpans)
    ensures var w := Next(ws[|evs|], ev, maxSpans); !Follows(Owed(w), {}, SpansOf(w.log))
  {
    RunsKeepInv(ws, evs, maxSpans);
    RunsKeepSteady(ws, evs, maxSpans);
    NextFollowsIff(ws[|evs|], ev, maxSpans);
  }
}
