/** What the reports of a run carry: whose payload flag, and which context. */
module RunReports {
  import opened Options
  import opened Seqs
  import opened SpanModel
  import opened ParentFirst
  import opened StepTrace
  import opened StepFlush
  import opened StepRuns
  import opened RunOrder

  lemma LastStep(ws: seq<World>, evs: seq<Event>, maxSpans: nat)
    requires IsRun(ws, evs, maxSpans) && evs != []
    ensures var n := |evs| - 1; Legal(ws[n], evs[n]) && ws[|evs|] == Next(ws[n], evs[n], maxSpans)
  {
    var i := |evs| - 1;
    assert ws[i + 1] == Next(ws[i], evs[i], maxSpans);
  }

  lemma LastSplit(ws: seq<World>, evs: seq<Event>)
    requires |ws| == |evs| + 1 && evs != []
    ensures var n := |evs| - 1; ws[..n + 1][n] == ws[n] && evs == evs[..n] + [evs[n]]
  {
  }

  // ---- the payload flag ----

  /** Event i reported the span with this payload flag. */
  ghost predicate ReportedAs(evs: seq<Event>, i: nat, s: Span, capture: bool) {
    i < |evs| && evs[i].Report? && s in evs[i].entry.spans && evs[i].entry.capture == Some(capture)
  }

  /** The flag of the last report of the span; None for a span that no report brought. */
  ghost function FlagOf(evs: seq<Event>, s: Span): Option<bool> {
    if evs == [] then None
    else
      var last := evs[|evs| - 1];
      if last.Report? && s in last.entry.spans then last.entry.capture else FlagOf(evs[..|evs| - 1], s)
  }

  ghost predicate WaitsFlagged(st: TraceState, evs: seq<Event>) {
    && (forall s :: s in st.spans ==> FlagOf(evs, s) == None)
    && (forall r, s :: r in st.riders && s in r.spans ==> FlagOf(evs, s) == Some(r.capture))
  }

  /** Whatever is buffered or sent goes under the flag it was reported with. */
  ghost predicate Flagged(w: World, evs: seq<Event>) {
    && WaitsFlagged(w.st, evs)
    && (forall e, s :: e in w.log && s in e.spans ==> FlagOf(evs, s) == e.capture)
  }

  lemma OldFlags(w: World, evs: seq<Event>, ev: Event, s: Span)
    requires Legal(w, ev) && s in w.recorded
    ensures FlagOf(evs + [ev], s) == FlagOf(evs, s)
  {
    assert (evs + [ev])[..|evs|] == evs;
    if ev.Report? && s in ev.entry.spans { NewestSpan(w, ev.entry, s); }
  }

  lemma NewFlag(evs: seq<Event>, e: Entry, s: Span)
    requires s in e.spans
    ensures FlagOf(evs + [Report(e)], s) == e.capture
  {
  }

  /** All that is buffered or sent was recorded. */
  lemma PlacesRecorded(w: World)
    requires Inv(w)
    ensures forall s :: s in w.st.spans ==> s in w.recorded
    ensures forall r, s :: r in w.st.riders && s in r.spans ==> s in w.recorded
    ensures forall e, s :: e in w.log && s in e.spans ==> s in w.recorded
  {
    PartsOfAccounted(w.recorded, Buffered(w.st), SpansOf(w.log), w.refused);
    forall s | s in Buffered(w.st) || s in SpansOf(w.log) ensures s in w.recorded {
      assert s in Buffered(w.st) + SpansOf(w.log) + w.refused;
    }
    forall r, s | r in w.st.riders && s in r.spans ensures s in Buffered(w.st) {
      RiderSpansMember(w.st.riders, s);
    }
    forall e, s | e in w.log && s in e.spans ensures s in SpansOf(w.log) {
      SpansOfMember(w.log, e, s);
    }
  }

  lemma {:induction false} SpansOfMember(log: seq<Entry>, e: Entry, s: Span)
    requires e in log && s in e.spans
    ensures s in SpansOf(log)
  {
    if e in log[..|log| - 1] { SpansOfMember(log[..|log| - 1], e, s); }
  }

  /** So the flags of what was there before an event are as they were. */
  lemma FlagsStay(w: World, evs: seq<Event>, ev: Event)
    requires Inv(w) && Flagged(w, evs) && Legal(w, ev)
    ensures Flagged(w, evs + [ev])
  {
    PlacesRecorded(w);
    forall s | s in w.recorded ensures FlagOf(evs + [ev], s) == FlagOf(evs, s) {
      OldFlags(w, evs, ev, s);
    }
  }

  lemma {:induction false} KeptAreOffered(st: TraceState, spans: seq<Span>, maxSpans: nat)
    ensures forall s :: s in KeepAll(st, spans, maxSpans).1 ==> s in spans
  {
    if spans != [] { KeptAreOffered(st, spans[..|spans| - 1], maxSpans); }
  }

  lemma RoutedFlagged(w: World, evs: seq<Event>, e: Entry, maxSpans: nat)
    requires Inv(w) && Flagged(w, evs) && Legal(w, Report(e)) && Takes(w.st, e.spans)
    ensures Flagged(ReportNext(w, e, maxSpans), evs + [Report(e)])
  {
    FlagsStay(w, evs, Report(e));
    KeptFlags(w, evs, e, maxSpans);
    KeepAllFrame(w.st, Arranged(e.spans), maxSpans);
    var kept := KeepAll(w.st, Arranged(e.spans), maxSpans).1;
    var w' := ReportNext(w, e, maxSpans);
    assert w'.log == w.log;
    if e.capture.Some? {
      assert w'.st.spans == w.st.spans && w'.st.riders == w.st.riders + [Rider(e.capture.value, kept)];
    } else {
      assert w'.st.spans == w.st.spans + kept && w'.st.riders == w.st.riders;
    }
  }

  lemma KeptFlags(w: World, evs: seq<Event>, e: Entry, maxSpans: nat)
    requires Legal(w, Report(e))
    ensures forall s :: s in KeepAll(w.st, Arranged(e.spans), maxSpans).1 ==>
      FlagOf(evs + [Report(e)], s) == e.capture
  {
    KeptAreOffered(w.st, Arranged(e.spans), maxSpans);
    ArrangedKeeps(w.recorded, e.spans);
    forall s | s in e.spans ensures FlagOf(evs + [Report(e)], s) == e.capture {
      NewFlag(evs, e, s);
    }
  }

  lemma DirectFlagged(w: World, evs: seq<Event>, e: Entry, maxSpans: nat)
    requires Inv(w) && Flagged(w, evs) && Legal(w, Report(e)) && !Takes(w.st, e.spans)
    ensures Flagged(ReportNext(w, e, maxSpans), evs + [Report(e)])
  {
    FlagsStay(w, evs, Report(e));
    forall s | s in e.spans ensures FlagOf(evs + [Report(e)], s) == e.capture {
      NewFlag(evs, e, s);
    }
  }

  /** Each entry of a flush is the main report, or a ready rider's own. */
  lemma FlushEntryOf(st: TraceState, e: Entry)
    requires e in FlushReports(st)
    ensures
      || (e.capture.None? && e.spans == Arranged(Ready(st)))
      || (exists r :: r in ReadyRiders(st) && e.capture == Some(r.capture) && e.spans == Arranged(r.spans))
  {
    if e in RiderEntries(st.traceId, ReadyRiders(st)) { RiderEntryOf(st.traceId, ReadyRiders(st), e); }
  }

  /** A flush takes each span under the flag it waited with. */
  lemma FlushFlags(st: TraceState, evs: seq<Event>, e: Entry, s: Span)
    requires Sound(st) && e in FlushReports(st) && s in e.spans && WaitsFlagged(st, evs)
    ensures FlagOf(evs, s) == e.capture
  {
    var links := Links(Buffered(st));
    SoundParts(st);
    FlushEntryOf(st, e);
    if e.capture.None? {
      OrderedSubset(Ready(st), s);
      SiftMember(links, st.open, st.spans, false, s);
    } else {
      var r :| r in ReadyRiders(st) && e.capture == Some(r.capture) && e.spans == Arranged(r.spans);
      SiftRidersMember(links, st.open, st.riders, false, r);
      OrderedSubset(r.spans, s);
    }
  }

  lemma OrderedSubset(spans: seq<Span>, s: Span)
    requires UniqueIds(spans) && s in Arranged(spans)
    ensures s in spans
  {
    OrderedReaches(spans, s);
  }

  lemma CloseFlagged(w: World, evs: seq<Event>, id: Id, payload: string, maxSpans: nat)
    requires Inv(w) && Flagged(w, evs) && Legal(w, Close(id, payload))
    requires FlagOf(evs, StepSpan(w.st, id, w.under[id], payload)) == None
    ensures Flagged(CloseNext(w, id, payload, maxSpans), evs + [Close(id, payload)])
  {
    var span, evs' := StepSpan(w.st, id, w.under[id], payload), evs + [Close(id, payload)];
    var rec := Recorded(w.st, span, maxSpans);
    FlagsStay(w, evs, Close(id, payload));
    assert evs'[..|evs|] == evs;
    RecordedFlags(w.st, evs', span, maxSpans);
    if Flushes(rec, span) {
      RecordedSoundly(w, span, maxSpans);
      FlushedFlags(rec, evs');
      StaysFlagged(rec, evs');
    }
  }

  lemma RecordedFlags(st: TraceState, evs: seq<Event>, span: Span, maxSpans: nat)
    requires WaitsFlagged(st, evs) && FlagOf(evs, span) == None
    ensures WaitsFlagged(Recorded(st, span, maxSpans), evs)
  {
  }

  lemma FlushedFlags(st: TraceState, evs: seq<Event>)
    requires Sound(st) && WaitsFlagged(st, evs)
    ensures forall e, s :: e in FlushReports(st) && s in e.spans ==> FlagOf(evs, s) == e.capture
  {
    forall e, s | e in FlushReports(st) && s in e.spans ensures FlagOf(evs, s) == e.capture {
      FlushFlags(st, evs, e, s);
    }
  }

  lemma RecordedSoundly(w: World, span: Span, maxSpans: nat)
    requires Inv(w) && span.id in w.st.open && span.parent == w.under[span.id]
    ensures Sound(Recorded(w.st, span, maxSpans))
  {
    CloseStaysAcyclic(w, span.id, span);
    RecordAccounts(w, span, maxSpans);
    PartsOfAccounted(w.recorded + [span], Buffered(Recorded(w.st, span, maxSpans)), SpansOf(w.log),
      if Keeps(w.st, span, span.parent.None?, maxSpans) then w.refused else w.refused + [span]);
  }

  lemma StaysFlagged(st: TraceState, evs: seq<Event>)
    requires WaitsFlagged(st, evs)
    ensures WaitsFlagged(FlushState(st), evs)
  {
    var links := Links(Buffered(st));
    forall s | s in FlushState(st).spans ensures s in st.spans {
      SiftMember(links, st.open, st.spans, true, s);
    }
    forall r | r in FlushState(st).riders ensures r in st.riders {
      SiftRidersMember(links, st.open, st.riders, true, r);
    }
  }

  lemma {:induction false} RunsKeepFlags(ws: seq<World>, evs: seq<Event>, maxSpans: nat)
    requires IsRun(ws, evs, maxSpans)
    ensures Flagged(ws[|evs|], evs) && Unreported(ws[|evs|], evs)
  {
    if evs != [] {
      var n := |evs| - 1;
      var w, before, ev := ws[n], evs[..n], evs[n];
      RunFront(ws, evs, maxSpans);
      LastStep(ws, evs, maxSpans);
      LastSplit(ws, evs);
      RunsKeepInv(ws[..n + 1], before, maxSpans);
      RunsKeepFlags(ws[..n + 1], before, maxSpans);
      NextUnreported(w, before, ev, maxSpans);
      NextFlagged(w, before, ev, maxSpans);
    }
  }

  /** What was not recorded was not reported either. */
  ghost predicate Unreported(w: World, evs: seq<Event>) {
    forall s :: s !in w.recorded ==> FlagOf(evs, s) == None
  }

  lemma NextUnreported(w: World, evs: seq<Event>, ev: Event, maxSpans: nat)
    requires Legal(w, ev) && Unreported(w, evs)
    ensures Unreported(Next(w, ev, maxSpans), evs + [ev])
  {
    assert (evs + [ev])[..|evs|] == evs;
  }

  lemma NextFlagged(w: World, evs: seq<Event>, ev: Event, maxSpans: nat)
    requires Inv(w) && Flagged(w, evs) && Legal(w, ev)
    requires Unreported(w, evs)
    ensures Flagged(Next(w, ev, maxSpans), evs + [ev])
  {
    match ev
    case Open(_, _, _) => FlagsStay(w, evs, ev);
    case Close(id, payload) =>
      UnrecordedStep(w, id, StepSpan(w.st, id, w.under[id], payload));
      CloseFlagged(w, evs, id, payload, maxSpans);
    case Report(e) =>
      if Takes(w.st, e.spans) {
        RoutedFlagged(w, evs, e, maxSpans);
      } else {
        DirectFlagged(w, evs, e, maxSpans);
      }
  }

  lemma UnrecordedStep(w: World, id: Id, span: Span)
    requires Inv(w) && id in w.st.open && span.id == id
    ensures span !in w.recorded
  {
    assert id !in Ids(w.recorded);
  }

  /** The span was reported with the flag exactly if that is what `FlagOf` says. */
  ghost predicate FlagTrue(evs: seq<Event>, s: Span, capture: bool) {
    FlagOf(evs, s) == Some(capture) <==> exists i: nat :: ReportedAs(evs, i, s, capture)
  }

  lemma FlagSnoc(w: World, evs: seq<Event>, ev: Event, s: Span, capture: bool)
    requires Legal(w, ev) && Unreported(w, evs)
    requires FlagTrue(evs, s, capture)
    ensures FlagTrue(evs + [ev], s, capture)
  {
    var n, all := |evs|, evs + [ev];
    assert all[..n] == evs;
    if ev.Report? && s in ev.entry.spans {
      NewestSpan(w, ev.entry, s);
      assert FlagOf(evs, s) == None;
      if ev.entry.capture == Some(capture) { assert ReportedAs(all, n, s, capture); }
    }
    if i: nat :| ReportedAs(all, i, s, capture) {
      if i < n { assert ReportedAs(evs, i, s, capture); }
    }
    if i: nat :| ReportedAs(evs, i, s, capture) {
      assert ReportedAs(all, i, s, capture);
    }
  }

  lemma {:induction false} FlagIsReported(ws: seq<World>, evs: seq<Event>, maxSpans: nat, s: Span, capture: bool)
    requires IsRun(ws, evs, maxSpans)
    ensures FlagTrue(evs, s, capture)
  {
    if evs != [] {
      var n := |evs| - 1;
      RunFront(ws, evs, maxSpans);
      LastStep(ws, evs, maxSpans);
      LastSplit(ws, evs);
      RunsKeepFlags(ws[..n + 1], evs[..n], maxSpans);
      FlagIsReported(ws[..n + 1], evs[..n], maxSpans, s, capture);
      FlagSnoc(ws[n], evs[..n], evs[n], s, capture);
    }
  }

  /** In every run each span travels under the payload flag of the report that brought it, and
      without one if that report set none or if it is a step's own span. */
  lemma FlagsAreKept(ws: seq<World>, evs: seq<Event>, maxSpans: nat, e: Entry, s: Span, capture: bool)
    requires IsRun(ws, evs, maxSpans) && e in ws[|evs|].log && s in e.spans
    ensures e.capture == Some(capture) <==> exists i: nat :: ReportedAs(evs, i, s, capture)
  {
    RunsKeepFlags(ws, evs, maxSpans);
    FlagIsReported(ws, evs, maxSpans, s, capture);
  }

  // ---- the context ----

  /** A report of the root carries the trace's id. A rider's has no context of its own; the
      main one has what the trace has, and the name if it is the first. */
  ghost predicate CarriesContext(st: TraceState, e: Entry) {
    && e.traceId == Some(st.traceId)
    && (if e.capture.Some? then e.name.None? && e.sessionId.None? && e.tags.None? && e.metadata.None?
        else
          && e.name == (if st.sent then None else Some(st.name))
          && OrEmpty(e.sessionId, "") == st.sessionId && e.sessionId != Some("")
          && OrEmpty(e.tags, []) == st.tags && e.tags != Some([])
          && OrEmpty(e.metadata, map[]) == st.metadata && e.metadata != Some(map[]))
  }

  function OrEmpty<T>(value: Option<T>, empty: T): T {
    if value.Some? then value.value else empty
  }

  lemma FlushContext(st: TraceState, e: Entry)
    requires e in FlushReports(st)
    ensures CarriesContext(st, e)
  {
    if e in RiderEntries(st.traceId, ReadyRiders(st)) { RiderEntryOf(st.traceId, ReadyRiders(st), e); }
  }

  /** What an event adds to the trace's context: a nested step's own, or a taken report's. */
  ghost function SessionOf(w: World, ev: Event): string {
    match ev
    case Open(_, parent, ctx) => if parent.Some? then ctx.sessionId else ""
    case Close(_, _) => ""
    case Report(e) => if Takes(w.st, e.spans) then OrEmpty(e.sessionId, "") else ""
  }

  ghost function TagsOf(w: World, ev: Event): seq<string> {
    match ev
    case Open(_, parent, ctx) => if parent.Some? then ctx.tags else []
    case Close(_, _) => []
    case Report(e) => if Takes(w.st, e.spans) then OrEmpty(e.tags, []) else []
  }

  ghost function MetadataOf(w: World, ev: Event): map<string, string> {
    match ev
    case Open(_, parent, ctx) => if parent.Some? then ctx.metadata else map[]
    case Close(_, _) => map[]
    case Report(e) => if Takes(w.st, e.spans) then OrEmpty(e.metadata, map[]) else map[]
  }

  /** The first of the list that is not empty; "" if all are. */
  ghost predicate IsFirstSession(list: seq<string>, session: string) {
    if session == "" then forall k :: 0 <= k < |list| ==> list[k] == ""
    else exists k :: 0 <= k < |list| && list[k] == session && forall j :: 0 <= j < k ==> list[j] == ""
  }

  /** Map k has the key, and no later one does. */
  ghost predicate LastWith(list: seq<map<string, string>>, k: nat, key: string) {
    k < |list| && key in list[k] && forall j :: k < j < |list| ==> key !in list[j]
  }

  /** Every key of any map of the list, with the value that came last. */
  ghost predicate IsOverlay(list: seq<map<string, string>>, all: map<string, string>) {
    && (forall k, key :: 0 <= k < |list| && key in list[k] ==> key in all)
    && (forall key :: key in all ==> exists k: nat :: LastWith(list, k, key) && list[k][key] == all[key])
  }

  function Flat(list: seq<seq<string>>): seq<string> {
    if list == [] then [] else Flat(list[..|list| - 1]) + list[|list| - 1]
  }

  /** All tags, each once, in order of first appearance. The opening step's own are taken as
      they are for as long as no others come. */
  ghost predicate IsTagUnion(list: seq<seq<string>>, tags: seq<string>) {
    FirstsInOrder(Flat(list), tags) ||
    (list != [] && tags == list[0] && forall k :: 1 <= k < |list| ==> list[k] == [])
  }

  lemma SessionSnoc(list: seq<string>, session: string, more: string)
    requires IsFirstSession(list, session)
    ensures IsFirstSession(list + [more], if session == "" then more else session)
  {
    var list' := list + [more];
    if session != "" {
      var k :| 0 <= k < |list| && list[k] == session && forall j :: 0 <= j < k ==> list[j] == "";
      assert list'[k] == session;
    } else if more != "" {
      assert list'[|list|] == more;
    }
  }

  lemma OverlaySnoc(list: seq<map<string, string>>, all: map<string, string>, more: map<string, string>)
    requires IsOverlay(list, all)
    ensures IsOverlay(list + [more], all + more)
  {
    var list' := list + [more];
    forall key | key in all + more
      ensures exists k: nat :: LastWith(list', k, key) && list'[k][key] == (all + more)[key]
    {
      if key in more {
        assert LastWith(list', |list|, key);
      } else {
        var k: nat :| LastWith(list, k, key) && list[k][key] == all[key];
        assert LastWith(list', k, key);
      }
    }
  }

  lemma FirstIndexIs(list: seq<string>, x: string, i: nat)
    requires i < |list| && list[i] == x && forall j :: 0 <= j < i ==> list[j] != x
    ensures FirstIndex(list, x) == i
  {
  }

  lemma FirstIndexConcat(a: seq<string>, b: seq<string>, x: string)
    requires x in a + b
    ensures FirstIndex(a + b, x) == if x in a then FirstIndex(a, x) else |a| + FirstIndex(b, x)
  {
    var i := if x in a then FirstIndex(a, x) else |a| + FirstIndex(b, x);
    assert (a + b)[i] == x;
    FirstIndexIs(a + b, x, i);
  }

  /** Taking each value once in two goes is the same as in one. */
  lemma FirstsCompose(list: seq<string>, tags: seq<string>, more: seq<string>, out: seq<string>)
    requires FirstsInOrder(list, tags) && FirstsInOrder(tags + more, out)
    ensures FirstsInOrder(list + more, out)
  {
    forall i | 0 <= i < |out| ensures out[i] in tags + more && out[i] in list + more {
      assert out[i] in out;
    }
    forall i, j | 0 <= i < j < |out| ensures FirstIndex(list + more, out[i]) < FirstIndex(list + more, out[j]) {
      FirstIndexConcat(tags, more, out[i]);
      FirstIndexConcat(tags, more, out[j]);
      FirstIndexConcat(list, more, out[i]);
      FirstIndexConcat(list, more, out[j]);
      if out[j] in tags {
        var a, b := FirstIndex(tags, out[i]), FirstIndex(tags, out[j]);
        assert tags[a] == out[i] && tags[b] == out[j];
      }
    }
  }

  lemma TagsSnoc(list: seq<seq<string>>, tags: seq<string>, more: seq<string>)
    requires list != [] && IsTagUnion(list, tags)
    ensures IsTagUnion(list + [more], if more != [] then Deduplicated(tags + more) else tags)
  {
    var list' := list + [more];
    assert list'[..|list|] == list;
    if more == [] {
      assert Flat(list') == Flat(list);
      assert list'[0] == list[0];
    } else {
      DeduplicatedIs(tags + more);
      if FirstsInOrder(Flat(list), tags) {
        FirstsCompose(Flat(list), tags, more, Deduplicated(tags + more));
      } else {
        FlatOfOne(list);
      }
    }
  }

  lemma {:induction false} FlatOfOne(list: seq<seq<string>>)
    requires list != [] && forall k :: 1 <= k < |list| ==> list[k] == []
    ensures Flat(list) == list[0]
  {
    if |list| > 1 { FlatOfOne(list[..|list| - 1]); }
  }

  // The contexts given up to event n, that of the opening step first.

  ghost function Sessions(ws: seq<World>, evs: seq<Event>, ctx: Context, n: nat): (list: seq<string>)
    requires |ws| == |evs| + 1 && n <= |evs|
    ensures |list| == n + 1
  {
    if n == 0 then [ctx.sessionId] else Sessions(ws, evs, ctx, n - 1) + [SessionOf(ws[n - 1], evs[n - 1])]
  }

  ghost function TagLists(ws: seq<World>, evs: seq<Event>, ctx: Context, n: nat): (list: seq<seq<string>>)
    requires |ws| == |evs| + 1 && n <= |evs|
    ensures |list| == n + 1
  {
    if n == 0 then [ctx.tags] else TagLists(ws, evs, ctx, n - 1) + [TagsOf(ws[n - 1], evs[n - 1])]
  }

  ghost function Metadatas(ws: seq<World>, evs: seq<Event>, ctx: Context, n: nat): (list: seq<map<string, string>>)
    requires |ws| == |evs| + 1 && n <= |evs|
    ensures |list| == n + 1
  {
    if n == 0 then [ctx.metadata] else Metadatas(ws, evs, ctx, n - 1) + [MetadataOf(ws[n - 1], evs[n - 1])]
  }

  /** The context of the second state is that of the first with this added. */
  ghost predicate Adds(st: TraceState, st': TraceState, session: string, tags: seq<string>,
                       metadata: map<string, string>)
  {
    && st'.traceId == st.traceId && st'.name == st.name
    && st'.sessionId == (if st.sessionId == "" then session else st.sessionId)
    && st'.metadata == st.metadata + metadata
    && st'.tags == (if tags != [] then Deduplicated(st.tags + tags) else st.tags)
  }

  lemma AddsNothing(st: TraceState, st': TraceState)
    requires SameContext(st', st)
    ensures Adds(st, st', "", [], map[])
  {
    assert st.metadata + map[] == st.metadata;
  }

  lemma RoutedContext(st: TraceState, e: Entry, maxSpans: nat)
    ensures Adds(st, Routed(st, e, maxSpans), OrEmpty(e.sessionId, ""), OrEmpty(e.tags, []), OrEmpty(e.metadata, map[]))
  {
    KeepAllFrame(st, Arranged(e.spans), maxSpans);
  }

  /** How one event changes the context. */
  lemma ContextNext(w: World, ev: Event, maxSpans: nat)
    requires Legal(w, ev)
    ensures Adds(w.st, Next(w, ev, maxSpans).st, SessionOf(w, ev), TagsOf(w, ev), MetadataOf(w, ev))
  {
    match ev
    case Open(id, parent, ctx) =>
      if parent.None? { AddsNothing(w.st, Opened(w.st, id)); }
    case Close(id, payload) =>
      var span := StepSpan(w.st, id, w.under[id], payload);
      ClosedContext(w.st, span, maxSpans);
      AddsNothing(w.st, Closed(w.st, span, maxSpans));
    case Report(e) =>
      if Takes(w.st, e.spans) { RoutedContext(w.st, e, maxSpans); } else { AddsNothing(w.st, w.st); }
  }

  ghost predicate SameContext(a: TraceState, b: TraceState) {
    && a.sessionId == b.sessionId && a.tags == b.tags && a.metadata == b.metadata
    && a.traceId == b.traceId && a.name == b.name
  }

  lemma FlushKeepsContext(st: TraceState)
    ensures SameContext(FlushState(st), st)
  {
  }

  lemma RecordedContext(st: TraceState, span: Span, maxSpans: nat)
    ensures SameContext(Recorded(st, span, maxSpans), st)
  {
  }

  lemma ClosedContext(st: TraceState, span: Span, maxSpans: nat)
    ensures SameContext(Closed(st, span, maxSpans), st)
  {
    RecordedContext(st, span, maxSpans);
    FlushKeepsContext(Recorded(st, span, maxSpans).(registered := true));
  }

  /** A trace with this id and name has, as its context, the first session given, all metadata
      with later values over earlier ones, and all tags. */
  ghost predicate ContextIs(st: TraceState, traceId: Id, name: string, sessions: seq<string>,
                            tagLists: seq<seq<string>>, metadatas: seq<map<string, string>>) {
    && st.traceId == traceId && st.name == name
    && IsFirstSession(sessions, st.sessionId) && IsTagUnion(tagLists, st.tags) && IsOverlay(metadatas, st.metadata)
  }

  ghost predicate HasContext(ws: seq<World>, evs: seq<Event>, traceId: Id, name: string, ctx: Context, n: nat)
    requires |ws| == |evs| + 1 && n <= |evs|
  {
    ContextIs(ws[n].st, traceId, name, Sessions(ws, evs, ctx, n), TagLists(ws, evs, ctx, n), Metadatas(ws, evs, ctx, n))
  }

  /** So it is in every state of a run that starts with a step of this name and context. */
  lemma {:induction false} RunContext(ws: seq<World>, evs: seq<Event>, maxSpans: nat,
                                      traceId: Id, name: string, ctx: Context, n: nat)
    requires IsRun(ws, evs, maxSpans) && ws[0] == Start(traceId, name, ctx) && n <= |evs|
    ensures HasContext(ws, evs, traceId, name, ctx, n)
  {
    if n == 0 {
      StartContext(traceId, name, ctx);
    } else {
      var w, ev := ws[n - 1], evs[n - 1];
      RunContext(ws, evs, maxSpans, traceId, name, ctx, n - 1);
      ContextSnoc(w, ev, maxSpans, traceId, name, Sessions(ws, evs, ctx, n - 1), TagLists(ws, evs, ctx, n - 1),
                  Metadatas(ws, evs, ctx, n - 1));
    }
  }

  lemma ContextSnoc(w: World, ev: Event, maxSpans: nat, traceId: Id, name: string,
                    sessions: seq<string>, tagLists: seq<seq<string>>, metadatas: seq<map<string, string>>)
    requires Legal(w, ev) && tagLists != [] && ContextIs(w.st, traceId, name, sessions, tagLists, metadatas)
    ensures ContextIs(Next(w, ev, maxSpans).st, traceId, name,
                      sessions + [SessionOf(w, ev)], tagLists + [TagsOf(w, ev)], metadatas + [MetadataOf(w, ev)])
  {
    ContextNext(w, ev, maxSpans);
    SessionSnoc(sessions, w.st.sessionId, SessionOf(w, ev));
    TagsSnoc(tagLists, w.st.tags, TagsOf(w, ev));
    OverlaySnoc(metadatas, w.st.metadata, MetadataOf(w, ev));
  }

  lemma StartContext(traceId: Id, name: string, ctx: Context)
    ensures ContextIs(Start(traceId, name, ctx).st, traceId, name, [ctx.sessionId], [ctx.tags], [ctx.metadata])
  {
    assert [ctx.sessionId][0] == ctx.sessionId;
    forall key | key in ctx.metadata ensures LastWith([ctx.metadata], 0, key) {}
  }

  /** In every run, whatever closing a step hands over carries the context that the steps and
      the taken reports gave the trace up to then. */
  lemma ContextIsCarried(ws: seq<World>, evs: seq<Event>, maxSpans: nat,
                         traceId: Id, name: string, ctx: Context, n: nat, e: Entry)
    requires IsRun(ws, evs, maxSpans) && ws[0] == Start(traceId, name, ctx) && n < |evs| && evs[n].Close?
    requires e in ws[n + 1].rootSends[|ws[n].rootSends|..]
    ensures exists st ::
      && CarriesContext(st, e) && st.sent == ws[n].st.sent
      && ContextIs(st, traceId, name, Sessions(ws, evs, ctx, n), TagLists(ws, evs, ctx, n), Metadatas(ws, evs, ctx, n))
  {
    var w, ev := ws[n], evs[n];
    var span := StepSpan(w.st, ev.id, w.under[ev.id], ev.payload);
    RunContext(ws, evs, maxSpans, traceId, name, ctx, n);
    assert ws[n + 1] == CloseNext(w, ev.id, ev.payload, maxSpans);
    assert ws[n + 1].rootSends[|w.rootSends|..] == CloseReports(w.st, span, maxSpans);
    FlushContext(Recorded(w.st, span, maxSpans), e);
  }

  /** What closing a step records: the step's own span, under the step it was opened in; the
      root's says how many spans were refused up to then. */
  lemma StepIsRecorded(w: World, id: Id, payload: string, maxSpans: nat)
    requires Inv(w) && Legal(w, Close(id, payload))
    ensures var w', root := CloseNext(w, id, payload, maxSpans), w.under[id].None?;
      w'.recorded == w.recorded + [Span(id, w.under[id], if root then |w.refused| else 0, payload)]
  {
  }
}
