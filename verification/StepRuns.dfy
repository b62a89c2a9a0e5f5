/** Every run of opens, closes and reports on one trace. */
module StepRuns {
  import opened Options
  import opened SpanModel
  import opened Ancestry
  import opened ParentFirst
  import opened StepTrace
  import opened StepFlush

  datatype Event =
    | Open(id: Id, parent: Option<Id>, ctx: Context)
    | Close(id: Id, payload: string)
    | Report(entry: Entry)

  /** The trace together with its history: the steps in opening order and whom each is
      under, every span recorded so far, those `keep` refused, the reports the root sent,
      and `log`, everything handed to the span queue for this trace. `due` holds the ids of
      the recorded spans whose parent was known when they were recorded: a step, a span
      recorded earlier, or another span of the same report. */
  datatype World = World(
    st: TraceState, steps: seq<Id>, under: map<Id, Option<Id>>,
    recorded: seq<Span>, refused: seq<Span>, due: set<Id>, rootSends: seq<Entry>, log: seq<Entry>)

  function Start(traceId: Id, name: string, ctx: Context): World {
    World(NewTrace(traceId, name, ctx), [], map[], [], [], {}, [], [])
  }

  ghost function Known(w: World): set<Id> {
    w.under.Keys + Ids(w.recorded)
  }

  ghost function DueIn(known: set<Id>, spans: seq<Span>): set<Id> {
    set s | s in spans && s.parent.Some? && s.parent.value in known :: s.id
  }

  ghost function OpenNext(w: World, id: Id, parent: Option<Id>, ctx: Context): World {
    w.(st := Opened(if parent.Some? then MergeContext(w.st, ctx) else w.st, id),
       steps := w.steps + [id], under := w.under[id := parent])
  }

  ghost function CloseNext(w: World, id: Id, payload: string, maxSpans: nat): World
    requires id in w.under
  {
    var span := StepSpan(w.st, id, w.under[id], payload);
    var reports := CloseReports(w.st, span, maxSpans);
    w.(st := Closed(w.st, span, maxSpans),
       recorded := w.recorded + [span],
       refused := if Keeps(w.st, span, span.parent.None?, maxSpans) then w.refused else w.refused + [span],
       due := w.due + {id},
       rootSends := w.rootSends + reports,
       log := w.log + reports)
  }

  /** A report goes to the root if that takes it, else straight to the queue. */
  ghost function ReportNext(w: World, e: Entry, maxSpans: nat): World {
    if Takes(w.st, e.spans) then
      w.(st := Routed(w.st, e, maxSpans),
         recorded := w.recorded + e.spans,
         refused := w.refused + Refused(w.st, Arranged(e.spans), maxSpans),
         due := w.due + DueIn(Known(w) + Ids(e.spans), e.spans))
    else
      w.(recorded := w.recorded + e.spans,
         due := w.due + DueIn(Known(w) + Ids(e.spans), e.spans),
         log := w.log + [e])
  }

  /** What the callers and the runtime guarantee: a fresh id for each step, a step steps
      under a step of the trace (the first under none), each step closed once, and reports
      whose span ids are new and whose links add no cycle. */
  ghost predicate Legal(w: World, ev: Event) {
    match ev
    case Open(id, parent, _) =>
      && id !in Known(w) && (forall s :: s in w.recorded ==> s.parent != Some(id))
      && (if w.steps == [] then parent.None? else parent.Some? && parent.value in w.under)
    case Close(id, _) => id in w.st.open && id in w.under
    case Report(e) =>
      && w.steps != [] && e.traceId == Some(w.st.traceId)
      && UniqueIds(w.recorded + e.spans) && Acyclic(w.recorded + e.spans)
      && (forall s :: s in e.spans ==> s.id !in w.under)
  }

  ghost function Next(w: World, ev: Event, maxSpans: nat): World
    requires Legal(w, ev)
  {
    match ev
    case Open(id, parent, ctx) => OpenNext(w, id, parent, ctx)
    case Close(id, payload) => CloseNext(w, id, payload, maxSpans)
    case Report(e) => ReportNext(w, e, maxSpans)
  }

  ghost predicate IsRun(ws: seq<World>, evs: seq<Event>, maxSpans: nat) {
    && |ws| == |evs| + 1
    && (exists traceId, name, ctx :: ws[0] == Start(traceId, name, ctx))
    && (forall i :: 0 <= i < |evs| ==> Legal(ws[i], evs[i]) && ws[i + 1] == Next(ws[i], evs[i], maxSpans))
  }

  // ---- what every run keeps ----

  /** A step is opened under one opened before it, the first under none. */
  ghost predicate ParentOpenedBefore(steps: seq<Id>, under: map<Id, Option<Id>>, i: nat) {
    && i < |steps| && steps[i] in under
    && (if i == 0 then under[steps[i]].None?
        else under[steps[i]].Some? && under[steps[i]].value in steps[..i])
  }

  ghost predicate StepTree(steps: seq<Id>, under: map<Id, Option<Id>>) {
    && (forall i :: 0 <= i < |steps| ==> ParentOpenedBefore(steps, under, i))
    && (forall id :: id in under ==> id in steps)
  }

  /** A step is open until its span is recorded, and its span names the step it is under. */
  ghost predicate StepsRecorded(under: map<Id, Option<Id>>, open: set<Id>, recorded: seq<Span>) {
    && (forall id :: id in open ==> id in under)
    && (forall id :: id in under ==> (id in open <==> id !in Ids(recorded)))
    && (forall s :: s in recorded && s.id in under ==> s.parent == under[s.id])
  }

  ghost predicate StepsOk(w: World) {
    && StepTree(w.steps, w.under)
    && StepsRecorded(w.under, w.st.open, w.recorded)
    && (w.st.sent <==> w.steps != [] && w.steps[0] !in w.st.open)
  }

  /** Each recorded span is in exactly one of buffered, sent and refused. */
  ghost predicate Accounted(recorded: seq<Span>, buffered: seq<Span>, sent: seq<Span>, refused: seq<Span>) {
    && UniqueIds(recorded) && Acyclic(recorded)
    && multiset(recorded) == multiset(buffered + sent + refused)
  }

  ghost predicate Conserved(w: World) {
    && Accounted(w.recorded, Buffered(w.st), SpansOf(w.log), w.refused)
    && w.st.dropped == |w.refused| && w.st.droppedIds == Ids(w.refused)
  }

  /** The trace is in `roots` exactly while it has open steps, and holds nothing otherwise. */
  ghost predicate Registered(st: TraceState) {
    && (st.registered <==> st.open != {})
    && (st.open == {} ==> st.spans == [] && st.riders == [])
  }

  /** The first report the root sends carries the trace's name, and no other does. */
  ghost predicate NamedOnce(st: TraceState, rootSends: seq<Entry>) {
    && (rootSends == [] <==> !st.sent)
    && (forall k :: 0 <= k < |rootSends| ==>
          rootSends[k].name == (if k == 0 then Some(st.name) else None))
  }

  ghost predicate Inv(w: World) {
    StepsOk(w) && Conserved(w) && Registered(w.st) && NamedOnce(w.st, w.rootSends)
  }

  // ---- opening ----

  lemma TreeGrows(steps: seq<Id>, under: map<Id, Option<Id>>, id: Id, parent: Option<Id>)
    requires StepTree(steps, under) && id !in under
    requires if steps == [] then parent.None? else parent.Some? && parent.value in under
    ensures StepTree(steps + [id], under[id := parent])
  {
    var steps', under' := steps + [id], under[id := parent];
    forall i | 0 <= i < |steps'| ensures ParentOpenedBefore(steps', under', i) {
      if i < |steps| {
        assert ParentOpenedBefore(steps, under, i);
        assert steps'[..i] == steps[..i];
      } else {
        assert steps'[..i] == steps;
      }
    }
  }

  lemma OpenKeeps(w: World, id: Id, parent: Option<Id>, ctx: Context)
    requires Inv(w) && Legal(w, Open(id, parent, ctx))
    ensures Inv(OpenNext(w, id, parent, ctx))
  {
    TreeGrows(w.steps, w.under, id, parent);
    if w.steps != [] {
      assert ParentOpenedBefore(w.steps, w.under, 0);
    }
  }

  // ---- what conservation gives ----

  lemma PartsOfAccounted(recorded: seq<Span>, buffered: seq<Span>, sent: seq<Span>, refused: seq<Span>)
    requires Accounted(recorded, buffered, sent, refused)
    ensures UniqueIds(buffered + sent + refused)
    ensures UniqueIds(buffered) && Acyclic(buffered)
    ensures forall s :: s in buffered + sent + refused <==> s in recorded
  {
    UniqueSub(recorded, buffered + sent + refused);
    UniqueConcat(buffered + sent, refused);
    UniqueConcat(buffered, sent);
    forall s: Span ensures s in buffered + sent + refused <==> s in recorded {
      assert s in multiset(recorded) <==> s in multiset(buffered + sent + refused);
    }
    AcyclicSub(recorded, buffered);
  }

  /** The chain of parents above a step runs through ever earlier steps. */
  lemma {:induction false} StepGrounded(steps: seq<Id>, under: map<Id, Option<Id>>, links: LinkMap, i: nat)
    requires StepTree(steps, under) && i < |steps|
    requires forall id :: id in links && id in under ==> links[id] == under[id]
    ensures Grounded(links, Some(steps[i]))
    decreases i
  {
    GroundedStep(links, steps[i]);
    assert ParentOpenedBefore(steps, under, i);
    var p := under[steps[i]];
    if p.None? {
      assert Up(links, p, 0).None?;
    } else {
      var j :| 0 <= j < i && steps[j] == p.value;
      StepGrounded(steps, under, links, j);
    }
  }

  lemma CloseStaysAcyclic(w: World, id: Id, span: Span)
    requires StepsOk(w) && Conserved(w) && id in w.st.open
    requires span.id == id && span.parent == w.under[id]
    ensures UniqueIds(w.recorded + [span]) && Acyclic(w.recorded + [span])
  {
    var recorded' := w.recorded + [span];
    assert id !in Ids(w.recorded);
    assert UniqueIds(recorded');
    var links := Links(recorded');
    LinksKeys(recorded');
    forall x | x in links && x in w.under ensures links[x] == w.under[x] {
      var s :| s in recorded' && s.id == x;
      LinksOf(recorded', s);
    }
    if span.parent.None? {
      assert Up(links, span.parent, 0).None?;
    } else {
      var i :| 0 <= i < |w.steps| && w.steps[i] == id;
      assert ParentOpenedBefore(w.steps, w.under, i);
      var j :| 0 <= j < i && w.steps[j] == span.parent.value;
      StepGrounded(w.steps, w.under, links, j);
    }
    AcyclicAdd(w.recorded, span);
  }

  // ---- closing ----

  /** What closing does to the trace, apart from which spans leave. */
  lemma ClosedFrame(st: TraceState, span: Span, maxSpans: nat)
    ensures var st' := Closed(st, span, maxSpans);
      && st'.open == st.open - {span.id} && st'.name == st.name && st'.traceId == st.traceId
      && st'.sent == (st.sent || span.parent.None?)
      && (if st.sent || span.parent.None?
          then (st'.registered <==> st'.open != {}) && (st'.open == {} ==> st'.spans == [] && st'.riders == [])
          else st'.registered == st.registered)
      && (if Keeps(st, span, span.parent.None?, maxSpans)
          then st'.dropped == st.dropped && st'.droppedIds == st.droppedIds
          else st'.dropped == st.dropped + 1 && st'.droppedIds == st.droppedIds + {span.id})
  {
    var rec := Recorded(st, span, maxSpans);
    if rec.open == {} {
      FlushEmpties(rec.(registered := true));
    }
  }

  /** The buffer between recording the closing step's span and the flush. */
  lemma RecordedBuffer(st: TraceState, span: Span, maxSpans: nat)
    ensures var rec := Recorded(st, span, maxSpans);
      Buffered(rec) == if Keeps(st, span, span.parent.None?, maxSpans)
                       then st.spans + [span] + RiderSpans(st.riders) else Buffered(st)
  {
  }

  lemma Reaccount(recorded: seq<Span>, buffered: seq<Span>, sent: seq<Span>, refused: seq<Span>,
                  more: seq<Span>, buffered': seq<Span>, sent': seq<Span>, refused': seq<Span>)
    requires Accounted(recorded, buffered, sent, refused)
    requires UniqueIds(recorded + more) && Acyclic(recorded + more)
    requires multiset(buffered') + multiset(sent') + multiset(refused') ==
             multiset(buffered) + multiset(sent) + multiset(refused) + multiset(more)
    ensures Accounted(recorded + more, buffered', sent', refused')
  {
    assert multiset(buffered + sent + refused) == multiset(buffered) + multiset(sent) + multiset(refused);
    assert multiset(buffered' + sent' + refused') == multiset(buffered') + multiset(sent') + multiset(refused');
  }

  lemma AddBuffered(recorded: seq<Span>, a: seq<Span>, b: seq<Span>, sent: seq<Span>, refused: seq<Span>, span: Span)
    requires Accounted(recorded, a + b, sent, refused)
    requires UniqueIds(recorded + [span]) && Acyclic(recorded + [span])
    ensures Accounted(recorded + [span], a + [span] + b, sent, refused)
  {
    Inserted(a, [span], b);
    Reaccount(recorded, a + b, sent, refused, [span], a + [span] + b, sent, refused);
  }

  lemma AddRefused(recorded: seq<Span>, buffered: seq<Span>, sent: seq<Span>, refused: seq<Span>, span: Span)
    requires Accounted(recorded, buffered, sent, refused)
    requires UniqueIds(recorded + [span]) && Acyclic(recorded + [span])
    ensures Accounted(recorded + [span], buffered, sent, refused + [span])
  {
    Reaccount(recorded, buffered, sent, refused, [span], buffered, sent, refused + [span]);
  }

  /** Recording the closing step's span, before any flush. */
  lemma RecordAccounts(w: World, span: Span, maxSpans: nat)
    requires Conserved(w) && UniqueIds(w.recorded + [span]) && Acyclic(w.recorded + [span])
    ensures Accounted(w.recorded + [span], Buffered(Recorded(w.st, span, maxSpans)), SpansOf(w.log),
      if Keeps(w.st, span, span.parent.None?, maxSpans) then w.refused else w.refused + [span])
  {
    RecordedBuffer(w.st, span, maxSpans);
    if Keeps(w.st, span, span.parent.None?, maxSpans) {
      AddBuffered(w.recorded, w.st.spans, RiderSpans(w.st.riders), SpansOf(w.log), w.refused, span);
    } else {
      AddRefused(w.recorded, Buffered(w.st), SpansOf(w.log), w.refused, span);
    }
  }

  lemma Move(recorded: seq<Span>, buffered: seq<Span>, sent: seq<Span>, refused: seq<Span>,
    kept: seq<Span>, out: seq<Span>)
    requires Accounted(recorded, buffered, sent, refused)
    requires multiset(buffered) == multiset(kept) + multiset(out)
    ensures Accounted(recorded, kept, sent + out, refused)
  {
    assert multiset(buffered + sent + refused) == multiset(buffered) + multiset(sent) + multiset(refused);
    assert multiset(kept + (sent + out) + refused)
      == multiset(kept) + multiset(sent) + multiset(out) + multiset(refused);
  }

  lemma FlushAccounts(recorded: seq<Span>, st: TraceState, log: seq<Entry>, refused: seq<Span>)
    requires Accounted(recorded, Buffered(st), SpansOf(log), refused)
    ensures Accounted(recorded, Buffered(FlushState(st)), SpansOf(log + FlushReports(st)), refused)
  {
    PartsOfAccounted(recorded, Buffered(st), SpansOf(log), refused);
    FlushConserves(st);
    SpansOfConcat(log, FlushReports(st));
    Move(recorded, Buffered(st), SpansOf(log), refused, Buffered(FlushState(st)), SpansOf(FlushReports(st)));
  }

  lemma CloseAccounts(w: World, span: Span, maxSpans: nat)
    requires Conserved(w) && UniqueIds(w.recorded + [span]) && Acyclic(w.recorded + [span])
    ensures Accounted(w.recorded + [span], Buffered(Closed(w.st, span, maxSpans)),
      SpansOf(w.log + CloseReports(w.st, span, maxSpans)),
      if Keeps(w.st, span, span.parent.None?, maxSpans) then w.refused else w.refused + [span])
  {
    var rec := Recorded(w.st, span, maxSpans);
    RecordAccounts(w, span, maxSpans);
    if Flushes(rec, span) {
      FlushIgnoresRegistered(rec);
      FlushAccounts(w.recorded + [span], rec, w.log,
        if Keeps(w.st, span, span.parent.None?, maxSpans) then w.refused else w.refused + [span]);
    } else {
      assert w.log + [] == w.log;
    }
  }

  lemma StepsRecordedClose(under: map<Id, Option<Id>>, open: set<Id>, recorded: seq<Span>, span: Span)
    requires StepsRecorded(under, open, recorded) && span.id in open && span.parent == under[span.id]
    ensures StepsRecorded(under, open - {span.id}, recorded + [span])
  {
    IdsSnoc(recorded, span);
  }

  lemma CloseSteps(w: World, id: Id, payload: string, maxSpans: nat)
    requires Inv(w) && Legal(w, Close(id, payload))
    ensures StepsOk(CloseNext(w, id, payload, maxSpans))
  {
    var span := StepSpan(w.st, id, w.under[id], payload);
    ClosedFrame(w.st, span, maxSpans);
    StepsRecordedClose(w.under, w.st.open, w.recorded, span);
    var k :| 0 <= k < |w.steps| && w.steps[k] == id;
    assert ParentOpenedBefore(w.steps, w.under, k);
    assert ParentOpenedBefore(w.steps, w.under, 0);
  }

  lemma CloseConserves(w: World, id: Id, payload: string, maxSpans: nat)
    requires Inv(w) && Legal(w, Close(id, payload))
    ensures Conserved(CloseNext(w, id, payload, maxSpans))
  {
    var span := StepSpan(w.st, id, w.under[id], payload);
    CloseStaysAcyclic(w, id, span);
    ClosedFrame(w.st, span, maxSpans);
    CloseAccounts(w, span, maxSpans);
    IdsSnoc(w.refused, span);
  }

  lemma IdsSnoc(spans: seq<Span>, s: Span)
    ensures Ids(spans + [s]) == Ids(spans) + {s.id}
  {
    IdsConcat(spans, [s]);
    assert Ids([s]) == {s.id};
  }

  lemma CloseRegisters(w: World, id: Id, payload: string, maxSpans: nat)
    requires Inv(w) && Legal(w, Close(id, payload))
    ensures Registered(CloseNext(w, id, payload, maxSpans).st)
  {
    var span := StepSpan(w.st, id, w.under[id], payload);
    ClosedFrame(w.st, span, maxSpans);
    var k :| 0 <= k < |w.steps| && w.steps[k] == id;
    assert ParentOpenedBefore(w.steps, w.under, k);
    assert ParentOpenedBefore(w.steps, w.under, 0);
    if !w.st.sent && span.parent.Some? {
      assert w.steps[0] in w.st.open - {id};
    }
  }

  lemma CloseNames(w: World, id: Id, payload: string, maxSpans: nat)
    requires Inv(w) && Legal(w, Close(id, payload))
    ensures NamedOnce(Closed(w.st, StepSpan(w.st, id, w.under[id], payload), maxSpans),
      w.rootSends + CloseReports(w.st, StepSpan(w.st, id, w.under[id], payload), maxSpans))
  {
    var span := StepSpan(w.st, id, w.under[id], payload);
    ClosedFrame(w.st, span, maxSpans);
    CloseReportsNamed(w.st, span, maxSpans);
    NamedAppend(w.st, w.rootSends, CloseReports(w.st, span, maxSpans));
  }

  lemma CloseReportsNamed(st: TraceState, span: Span, maxSpans: nat)
    ensures var reports := CloseReports(st, span, maxSpans);
      && (forall k :: 0 <= k < |reports| ==> reports[k].name == if k == 0 && !st.sent then Some(st.name) else None)
      && (if !st.sent then reports == [] <==> span.parent.Some? else true)
  {
    FlushNames(Recorded(st, span, maxSpans));
  }

  lemma NamedAppend(st: TraceState, before: seq<Entry>, reports: seq<Entry>)
    requires NamedOnce(st, before)
    requires forall k :: 0 <= k < |reports| ==> reports[k].name == if k == 0 && !st.sent then Some(st.name) else None
    ensures forall k :: 0 <= k < |before + reports| ==>
      (before + reports)[k].name == if k == 0 then Some(st.name) else None
  {
  }

  lemma FlushNames(st: TraceState)
    ensures var reports := FlushReports(st);
      && (!st.sent ==> reports != [])
      && (forall k :: 0 <= k < |reports| ==> reports[k].name == if k == 0 && !st.sent then Some(st.name) else None)
  {
    RiderEntriesUnnamed(st.traceId, ReadyRiders(st));
  }

  lemma {:induction false} RiderEntriesUnnamed(traceId: Id, riders: seq<Rider>)
    ensures |RiderEntries(traceId, riders)| == |riders|
    ensures forall k :: 0 <= k < |riders| ==> RiderEntries(traceId, riders)[k].name == None
  {
    if riders != [] {
      RiderEntriesUnnamed(traceId, riders[..|riders| - 1]);
    }
  }

  // ---- reporting ----

  lemma RoutedFrame(st: TraceState, e: Entry, maxSpans: nat)
    ensures var st', refused := Routed(st, e, maxSpans), Refused(st, Arranged(e.spans), maxSpans);
      && st'.open == st.open && st'.sent == st.sent && st'.registered == st.registered
      && st'.name == st.name && st'.traceId == st.traceId
      && st'.dropped == st.dropped + |refused| && st'.droppedIds == st.droppedIds + Ids(refused)
  {
    KeepAllFrame(st, Arranged(e.spans), maxSpans);
    KeepAllCounts(st, Arranged(e.spans), maxSpans);
  }

  lemma RoutedBuffer(st: TraceState, e: Entry, maxSpans: nat)
    ensures var kept := KeepAll(st, Arranged(e.spans), maxSpans).1;
      Buffered(Routed(st, e, maxSpans)) ==
        if e.capture.Some? then st.spans + (RiderSpans(st.riders) + kept)
        else st.spans + kept + RiderSpans(st.riders)
  {
    KeepAllFrame(st, Arranged(e.spans), maxSpans);
    if e.capture.Some? {
      RiderSpansAppend(st.riders, Rider(e.capture.value, KeepAll(st, Arranged(e.spans), maxSpans).1));
    }
  }

  lemma StepsRecordedReport(under: map<Id, Option<Id>>, open: set<Id>, recorded: seq<Span>, more: seq<Span>)
    requires StepsRecorded(under, open, recorded) && forall s :: s in more ==> s.id !in under
    ensures StepsRecorded(under, open, recorded + more)
  {
    IdsConcat(recorded, more);
  }

  lemma RoutedCount(st: TraceState, e: Entry, maxSpans: nat)
    ensures multiset(Buffered(Routed(st, e, maxSpans))) ==
      multiset(Buffered(st)) + multiset(KeepAll(st, Arranged(e.spans), maxSpans).1)
  {
    RoutedBuffer(st, e, maxSpans);
    Inserted(st.spans, KeepAll(st, Arranged(e.spans), maxSpans).1, RiderSpans(st.riders));
  }

  lemma Inserted(a: seq<Span>, mid: seq<Span>, b: seq<Span>)
    ensures multiset(a + mid + b) == multiset(a + b) + multiset(mid)
    ensures multiset(a + (b + mid)) == multiset(a + b) + multiset(mid)
  {
  }

  lemma ArrangedKeeps(recorded: seq<Span>, spans: seq<Span>)
    requires UniqueIds(recorded + spans) && Acyclic(recorded + spans)
    ensures UniqueIds(spans) && Acyclic(spans)
    ensures multiset(Arranged(spans)) == multiset(spans)
    ensures forall s :: s in Arranged(spans) <==> s in spans
  {
    UniqueConcat(recorded, spans);
    AcyclicSub(recorded + spans, spans);
    OrderedKeeps(spans);
  }

  lemma RoutedAccounts(w: World, e: Entry, maxSpans: nat)
    requires Conserved(w) && UniqueIds(w.recorded + e.spans) && Acyclic(w.recorded + e.spans)
    ensures Accounted(w.recorded + e.spans, Buffered(Routed(w.st, e, maxSpans)), SpansOf(w.log),
                      w.refused + Refused(w.st, Arranged(e.spans), maxSpans))
  {
    ArrangedKeeps(w.recorded, e.spans);
    KeepAllConserves(w.st, Arranged(e.spans), maxSpans);
    RoutedCount(w.st, e, maxSpans);
    Reaccount(w.recorded, Buffered(w.st), SpansOf(w.log), w.refused, e.spans,
              Buffered(Routed(w.st, e, maxSpans)), SpansOf(w.log),
              w.refused + Refused(w.st, Arranged(e.spans), maxSpans));
  }

  lemma DirectAccounts(w: World, e: Entry)
    requires Conserved(w) && UniqueIds(w.recorded + e.spans) && Acyclic(w.recorded + e.spans)
    ensures Accounted(w.recorded + e.spans, Buffered(w.st), SpansOf(w.log + [e]), w.refused)
  {
    SpansOfConcat(w.log, [e]);
    SpansOfOne(e);
    Reaccount(w.recorded, Buffered(w.st), SpansOf(w.log), w.refused, e.spans,
              Buffered(w.st), SpansOf(w.log) + e.spans, w.refused);
  }

  lemma ReportKeeps(w: World, e: Entry, maxSpans: nat)
    requires Inv(w) && Legal(w, Report(e))
    ensures Inv(ReportNext(w, e, maxSpans))
  {
    StepsRecordedReport(w.under, w.st.open, w.recorded, e.spans);
    if Takes(w.st, e.spans) {
      RoutedFrame(w.st, e, maxSpans);
      RoutedAccounts(w, e, maxSpans);
      IdsConcat(w.refused, Refused(w.st, Arranged(e.spans), maxSpans));
    } else {
      DirectAccounts(w, e);
    }
  }

  // ---- all runs ----

  lemma StartOk(traceId: Id, name: string, ctx: Context)
    ensures Inv(Start(traceId, name, ctx))
  {
  }

  lemma NextKeeps(w: World, ev: Event, maxSpans: nat)
    requires Inv(w) && Legal(w, ev)
    ensures Inv(Next(w, ev, maxSpans))
  {
    match ev
    case Open(id, parent, ctx) => OpenKeeps(w, id, parent, ctx);
    case Close(id, payload) =>
      CloseSteps(w, id, payload, maxSpans);
      CloseConserves(w, id, payload, maxSpans);
      CloseRegisters(w, id, payload, maxSpans);
      CloseNames(w, id, payload, maxSpans);
    case Report(e) => ReportKeeps(w, e, maxSpans);
  }

  /** All but the last event of a run is a run. */
  lemma RunFront(ws: seq<World>, evs: seq<Event>, maxSpans: nat)
    requires IsRun(ws, evs, maxSpans) && evs != []
    ensures IsRun(ws[..|evs|], evs[..|evs| - 1], maxSpans)
  {
    assert ws[..|evs|][0] == ws[0];
  }

  /** In every run: steps and spans are accounted for, nothing is lost or doubled, the trace
      is registered exactly while a step is open, and one report carries the name. */
  lemma {:induction false} RunsKeepInv(ws: seq<World>, evs: seq<Event>, maxSpans: nat)
    requires IsRun(ws, evs, maxSpans)
    ensures Inv(ws[|evs|])
  {
    if evs == [] {
      var traceId, name, ctx :| ws[0] == Start(traceId, name, ctx);
      StartOk(traceId, name, ctx);
    } else {
      var n := |evs| - 1;
      assert IsRun(ws[..n + 1], evs[..n], maxSpans) by {
        assert ws[..n + 1][0] == ws[0];
      }
      RunsKeepInv(ws[..n + 1], evs[..n], maxSpans);
      NextKeeps(ws[n], evs[n], maxSpans);
    }
  }
}
