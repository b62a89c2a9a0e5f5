/** What one root step holds for its trace, and what each operation does to it. */
module StepTrace {
  import opened Options
  import opened SpanModel
  import opened Ancestry
  import opened ParentFirst
  import opened ReorderLoop

  /** A routed report that set `capturePayloads`: it travels as an entry of its own. */
  datatype Rider = Rider(capture: bool, spans: seq<Span>)

  /** `registered` says whether the trace is in the `roots` map. `sessionId` is "" where it
      is unset, and empty tags or metadata stand for unset ones, as the source tests them. */
  datatype TraceState = TraceState(
    traceId: Id, name: string, spans: seq<Span>, riders: seq<Rider>, open: set<Id>,
    parents: set<Id>, droppedIds: set<Id>, dropped: nat, sent: bool, registered: bool,
    sessionId: string, tags: seq<string>, metadata: map<string, string>)

  function RiderSpans(riders: seq<Rider>): seq<Span> {
    if riders == [] then [] else RiderSpans(riders[..|riders| - 1]) + riders[|riders| - 1].spans
  }

  /** Everything not sent yet, in the order the source goes through it. */
  function Buffered(st: TraceState): seq<Span> {
    st.spans + RiderSpans(st.riders)
  }

  // ---- trace context ----

  /** `[...new Set(list)]`: the first of each value, in order. */
  function Deduplicated(list: seq<string>): seq<string> {
    if list == [] then []
    else
      var front := Deduplicated(list[..|list| - 1]);
      if list[|list| - 1] in front then front else front + [list[|list| - 1]]
  }

  /** Where a value comes first. */
  function FirstIndex(list: seq<string>, x: string): (i: nat)
    requires x in list
    ensures i < |list| && list[i] == x && forall j :: 0 <= j < i ==> list[j] != x
  {
    if x in list[..|list| - 1] then FirstIndex(list[..|list| - 1], x) else |list| - 1
  }

  /** The values of the list, each once, in the order of first appearance. */
  ghost predicate FirstsInOrder(list: seq<string>, out: seq<string>) {
    && (forall x :: x in out <==> x in list)
    && (forall i, j :: 0 <= i < j < |out| ==> FirstIndex(list, out[i]) < FirstIndex(list, out[j]))
  }

  lemma {:induction false} DeduplicatedIs(list: seq<string>)
    ensures FirstsInOrder(list, Deduplicated(list))
  {
    if list != [] {
      var front, last := list[..|list| - 1], list[|list| - 1];
      DeduplicatedIs(front);
      assert list == front + [last];
      var out := Deduplicated(front);
      assert forall i :: 0 <= i < |out| ==> out[i] in out;
      assert forall x :: x in front ==> FirstIndex(list, x) == FirstIndex(front, x);
    }
  }

  /** The trace-level options of a step or a report; empty parts stand for absent ones. */
  datatype Context = Context(tags: seq<string>, metadata: map<string, string>, sessionId: string)

  function MergeContext(st: TraceState, ctx: Context): TraceState {
    st.(tags := if ctx.tags != [] then Deduplicated(st.tags + ctx.tags) else st.tags,
        metadata := st.metadata + ctx.metadata,
        sessionId := if st.sessionId == "" then ctx.sessionId else st.sessionId)
  }

  function ContextOf(e: Entry): Context {
    Context(if e.tags.Some? then e.tags.value else [],
            if e.metadata.Some? then e.metadata.value else map[],
            if e.sessionId.Some? then e.sessionId.value else "")
  }

  function NewTrace(traceId: Id, name: string, ctx: Context): TraceState {
    TraceState(traceId, name, [], [], {}, {}, {}, 0, false, false, ctx.sessionId, ctx.tags, ctx.metadata)
  }

  // ---- the span limit ----

  predicate Keeps(st: TraceState, span: Span, always: bool, maxSpans: nat) {
    || always
    || span.id in st.parents
    || (!(span.parent.Some? && span.parent.value in st.droppedIds) && |Buffered(st)| < maxSpans)
  }

  function ParentSet(span: Span): set<Id> {
    if span.parent.Some? then {span.parent.value} else {}
  }

  function Keep(st: TraceState, span: Span, always: bool, maxSpans: nat): TraceState {
    if Keeps(st, span, always, maxSpans) then st.(parents := st.parents + ParentSet(span))
    else st.(dropped := st.dropped + 1, droppedIds := st.droppedIds + {span.id})
  }

  /** Filtering a report through `keep`; nothing is pushed before the whole report was. */
  function KeepAll(st: TraceState, spans: seq<Span>, maxSpans: nat): (r: (TraceState, seq<Span>)) {
    if spans == [] then (st, [])
    else
      var (before, kept) := KeepAll(st, spans[..|spans| - 1], maxSpans);
      var last := spans[|spans| - 1];
      (Keep(before, last, false, maxSpans),
       if Keeps(before, last, false, maxSpans) then kept + [last] else kept)
  }

  // ---- holding back ----

  ghost predicate Held(links: LinkMap, open: set<Id>, s: Span) {
    Hangs(links, open, s.parent)
  }

  ghost predicate AnyHeld(links: LinkMap, open: set<Id>, spans: seq<Span>) {
    exists s :: s in spans && Held(links, open, s)
  }

  /** The spans of the list that are held back (`want`), or those that are not. */
  ghost function Sift(links: LinkMap, open: set<Id>, spans: seq<Span>, want: bool): seq<Span> {
    if spans == [] then []
    else
      var front, last := Sift(links, open, spans[..|spans| - 1], want), spans[|spans| - 1];
      if Held(links, open, last) == want then front + [last] else front
  }

  ghost function SiftRiders(links: LinkMap, open: set<Id>, riders: seq<Rider>, want: bool): seq<Rider> {
    if riders == [] then []
    else
      var front, last := SiftRiders(links, open, riders[..|riders| - 1], want), riders[|riders| - 1];
      if AnyHeld(links, open, last.spans) == want then front + [last] else front
  }

  // ---- flush ----

  /** `parentFirst`; where its loop does not end, no more than a value to name. */
  ghost function Arranged(spans: seq<Span>): seq<Span> {
    if UniqueIds(spans) then Ordered(spans) else if Ends(spans) then Emitted(spans) else spans
  }

  /** Every list that is put parents first on the way out has distinct ids. */
  ghost predicate Sound(st: TraceState) {
    UniqueIds(Buffered(st))
  }

  ghost function Ready(st: TraceState): seq<Span> {
    Sift(Links(Buffered(st)), st.open, st.spans, false)
  }

  ghost function ReadyRiders(st: TraceState): seq<Rider> {
    SiftRiders(Links(Buffered(st)), st.open, st.riders, false)
  }

  /** The loop ends on each list that a flush puts parents first. */
  ghost predicate ListsEnd(st: TraceState) {
    Ends(Ready(st)) && forall r :: r in ReadyRiders(st) ==> Ends(r.spans)
  }

  ghost function FlushState(st: TraceState): TraceState {
    var links := Links(Buffered(st));
    st.(spans := Sift(links, st.open, st.spans, true),
        riders := SiftRiders(links, st.open, st.riders, true),
        sent := true,
        registered := st.registered && st.open != {})
  }

  function MainEntry(st: TraceState, first: bool, spans: seq<Span>): Entry {
    Entry(Some(st.traceId), None,
          if first then Some(st.name) else None,
          if st.sessionId != "" then Some(st.sessionId) else None,
          if st.tags != [] then Some(st.tags) else None,
          if st.metadata != map[] then Some(st.metadata) else None,
          spans)
  }

  function RiderEntry(traceId: Id, capture: bool, spans: seq<Span>): Entry {
    Entry(Some(traceId), Some(capture), None, None, None, None, spans)
  }

  ghost function RiderEntries(traceId: Id, riders: seq<Rider>): seq<Entry> {
    if riders == [] then []
    else
      var last := riders[|riders| - 1];
      RiderEntries(traceId, riders[..|riders| - 1]) + [RiderEntry(traceId, last.capture, Arranged(last.spans))]
  }

  /** What a flush hands to the sink, in order: the main report, then the riders. */
  ghost function FlushReports(st: TraceState): seq<Entry> {
    var first, ready := !st.sent, Ready(st);
    (if first || ready != [] then [MainEntry(st, first, Arranged(ready))] else []) +
    RiderEntries(st.traceId, ReadyRiders(st))
  }

  // ---- the three operations ----

  function Opened(st: TraceState, id: Id): TraceState {
    st.(open := st.open + {id}, registered := true)
  }

  /** Whether `routeReport` takes a report with these spans (the trace id and the client
      being this root's). */
  ghost predicate Takes(st: TraceState, spans: seq<Span>) {
    st.registered && (st.sent ==> AnyHeld(Links(Buffered(st) + spans), st.open, spans))
  }

  ghost function Routed(st: TraceState, e: Entry, maxSpans: nat): TraceState {
    var (after, kept) := KeepAll(st, Arranged(e.spans), maxSpans);
    var filed := if e.capture.Some? then after.(riders := after.riders + [Rider(e.capture.value, kept)])
                 else after.(spans := after.spans + kept);
    MergeContext(filed, ContextOf(e))
  }

  /** The span a closing step records; the root's carries the count of refused spans. */
  function StepSpan(st: TraceState, id: Id, parent: Option<Id>, payload: string): Span {
    Span(id, parent, if parent.None? then st.dropped else 0, payload)
  }

  /** A closing step up to the point where the source decides whether to flush. */
  function Recorded(st: TraceState, span: Span, maxSpans: nat): TraceState {
    var closed := st.(open := st.open - {span.id});
    var kept := Keep(closed, span, span.parent.None?, maxSpans);
    if Keeps(closed, span, span.parent.None?, maxSpans) then kept.(spans := kept.spans + [span]) else kept
  }

  predicate Flushes(st: TraceState, span: Span) {
    span.parent.None? || st.sent
  }

  ghost function Closed(st: TraceState, span: Span, maxSpans: nat): TraceState {
    var rec := Recorded(st, span, maxSpans);
    if Flushes(rec, span) then FlushState(rec.(registered := true)) else rec
  }

  ghost function CloseReports(st: TraceState, span: Span, maxSpans: nat): seq<Entry> {
    var rec := Recorded(st, span, maxSpans);
    if Flushes(rec, span) then FlushReports(rec) else []
  }

  // ---- facts about sifting ----

  lemma {:induction false} SiftMember(links: LinkMap, open: set<Id>, spans: seq<Span>, want: bool, s: Span)
    ensures s in Sift(links, open, spans, want) <==> s in spans && Held(links, open, s) == want
  {
    if spans != [] {
      var front, last := spans[..|spans| - 1], spans[|spans| - 1];
      SiftMember(links, open, front, want, s);
      assert spans == front + [last];
    }
  }

  lemma {:induction false} SiftUnique(links: LinkMap, open: set<Id>, spans: seq<Span>, want: bool)
    requires UniqueIds(spans)
    ensures UniqueIds(Sift(links, open, spans, want))
  {
    if spans != [] {
      var front, last := spans[..|spans| - 1], spans[|spans| - 1];
      SiftUnique(links, open, front, want);
      forall s | s in Sift(links, open, front, want) ensures s.id != last.id {
        SiftMember(links, open, front, want, s);
      }
    }
  }

  lemma {:induction false} SiftSplits(links: LinkMap, open: set<Id>, spans: seq<Span>)
    ensures multiset(Sift(links, open, spans, true)) + multiset(Sift(links, open, spans, false)) == multiset(spans)
  {
    if spans != [] {
      var front, last := spans[..|spans| - 1], spans[|spans| - 1];
      SiftSplits(links, open, front);
      assert spans == front + [last];
    }
  }

  lemma {:induction false} SiftRidersMember(links: LinkMap, open: set<Id>, riders: seq<Rider>, want: bool, r: Rider)
    ensures r in SiftRiders(links, open, riders, want) <==> r in riders && AnyHeld(links, open, r.spans) == want
  {
    if riders != [] {
      var front, last := riders[..|riders| - 1], riders[|riders| - 1];
      SiftRidersMember(links, open, front, want, r);
      assert riders == front + [last];
    }
  }

  lemma {:induction false} SiftRidersSplit(links: LinkMap, open: set<Id>, riders: seq<Rider>)
    ensures multiset(RiderSpans(SiftRiders(links, open, riders, true))) +
            multiset(RiderSpans(SiftRiders(links, open, riders, false))) == multiset(RiderSpans(riders))
  {
    if riders != [] {
      var front, last := riders[..|riders| - 1], riders[|riders| - 1];
      SiftRidersSplit(links, open, front);
      var held := AnyHeld(links, open, last.spans);
      RiderSpansAppend(SiftRiders(links, open, front, held), last);
    }
  }

  lemma SiftRidersSnoc(links: LinkMap, open: set<Id>, front: seq<Rider>, last: Rider, want: bool)
    ensures SiftRiders(links, open, front + [last], want) ==
      if AnyHeld(links, open, last.spans) == want then SiftRiders(links, open, front, want) + [last]
      else SiftRiders(links, open, front, want)
  {
    assert (front + [last])[..|front|] == front;
  }

  lemma RiderSpansAppend(riders: seq<Rider>, r: Rider)
    ensures RiderSpans(riders + [r]) == RiderSpans(riders) + r.spans
  {
    assert (riders + [r])[..|riders|] == riders;
  }

  lemma {:induction false} RiderSpansMember(riders: seq<Rider>, s: Span)
    ensures s in RiderSpans(riders) <==> exists r :: r in riders && s in r.spans
  {
    if riders != [] {
      var front, last := riders[..|riders| - 1], riders[|riders| - 1];
      RiderSpansMember(front, s);
      assert riders == front + [last];
    }
  }

  lemma {:induction false} RiderUnique(riders: seq<Rider>, r: Rider)
    requires UniqueIds(RiderSpans(riders)) && r in riders
    ensures UniqueIds(r.spans)
  {
    var front, last := riders[..|riders| - 1], riders[|riders| - 1];
    assert riders == front + [last];
    var all, n := RiderSpans(riders), |RiderSpans(front)|;
    assert forall i :: 0 <= i < n ==> all[i] == RiderSpans(front)[i];
    assert forall i :: 0 <= i < |last.spans| ==> all[n + i] == last.spans[i];
    if r != last {
      RiderUnique(front, r);
    }
  }

  lemma UniqueConcat(a: seq<Span>, b: seq<Span>)
    requires UniqueIds(a + b)
    ensures UniqueIds(a) && UniqueIds(b) && forall s, t :: s in a && t in b ==> s.id != t.id
  {
    var all := a + b;
    assert forall i :: 0 <= i < |a| ==> all[i] == a[i];
    assert forall i :: 0 <= i < |b| ==> all[|a| + i] == b[i];
  }

  /** Distinct ids over the whole buffer make each list that is reordered distinct too. */
  lemma SoundParts(st: TraceState)
    requires Sound(st)
    ensures UniqueIds(Ready(st))
    ensures forall r :: r in ReadyRiders(st) ==> UniqueIds(r.spans)
  {
    UniqueConcat(st.spans, RiderSpans(st.riders));
    SiftUnique(Links(Buffered(st)), st.open, st.spans, false);
    forall r | r in ReadyRiders(st) ensures UniqueIds(r.spans) {
      SiftRidersMember(Links(Buffered(st)), st.open, st.riders, false, r);
      RiderUnique(st.riders, r);
    }
  }

  /** With distinct ids every list ends. */
  lemma SoundEnds(st: TraceState)
    requires Sound(st)
    ensures ListsEnd(st)
  {
    SoundParts(st);
    UniqueEnds(Ready(st));
    forall r | r in ReadyRiders(st) ensures Ends(r.spans) {
      UniqueEnds(r.spans);
    }
  }

  lemma FlushIgnoresRegistered(st: TraceState)
    ensures var reg := st.(registered := true);
      FlushReports(reg) == FlushReports(st) && Buffered(FlushState(reg)) == Buffered(FlushState(st))
        && Buffered(reg) == Buffered(st)
  {
  }

  /** Filtering changes nothing but the notes `keep` takes. */
  lemma {:induction false} KeepAllFrame(st: TraceState, spans: seq<Span>, maxSpans: nat)
    ensures var after := KeepAll(st, spans, maxSpans).0;
      after == st.(parents := after.parents, dropped := after.dropped, droppedIds := after.droppedIds)
  {
    if spans != [] {
      KeepAllFrame(st, spans[..|spans| - 1], maxSpans);
    }
  }
}
