/** The step machinery as it runs: roots that are updated in place, and the map that routes reports. */
module StepRegistry {
  import opened Options
  import opened SpanModel
  import opened Ancestry
  import opened OpenCheck
  import opened ParentFirst
  import opened ReorderLoop
  import opened StepTrace

  /** A report on its way to the span queue of the client `owner`. */
  datatype Enqueued = Enqueued(owner: Id, entry: Entry)

  function ToQueue(owner: Id, entries: seq<Entry>): (r: seq<Enqueued>)
    ensures |r| == |entries| && forall i :: 0 <= i < |entries| ==> r[i] == Enqueued(owner, entries[i])
  {
    seq(|entries|, i requires 0 <= i < |entries| => Enqueued(owner, entries[i]))
  }

  class Root {
    const traceId: Id
    const name: string
    const owner: Id
    /** The step that opened the trace. */
    ghost const rootStep: Id
    var spans: seq<Span>
    var riders: seq<Rider>
    var open: set<Id>
    var parents: set<Id>
    var droppedIds: set<Id>
    var dropped: nat
    var sent: bool
    var sessionId: string
    var tags: seq<string>
    var metadata: map<string, string>

    /** The value of the root, given whether the map of roots holds it. */
    function View(registered: bool): TraceState
      reads this
    {
      TraceState(traceId, name, spans, riders, open, parents, droppedIds, dropped, sent, registered,
                 sessionId, tags, metadata)
    }

    constructor (traceId: Id, name: string, owner: Id, ctx: Context, ghost rootStep: Id)
      ensures View(false) == NewTrace(traceId, name, ctx) && this.owner == owner && this.rootStep == rootStep
    {
      this.traceId, this.name, this.owner, this.rootStep := traceId, name, owner, rootStep;
      spans, riders, open, parents, droppedIds, dropped, sent := [], [], {}, {}, {}, 0, false;
      sessionId, tags, metadata := ctx.sessionId, ctx.tags, ctx.metadata;
    }

    method Merge(ctx: Context, ghost reg: bool)
      modifies this
      ensures View(reg) == MergeContext(old(View(reg)), ctx)
      ensures ctx.tags != [] ==> FirstsInOrder(old(tags) + ctx.tags, tags)
    {
      if ctx.tags != [] {
        DeduplicatedIs(tags + ctx.tags);
        tags := Deduplicated(tags + ctx.tags);
      }
      if ctx.metadata != map[] { metadata := metadata + ctx.metadata; }
      if ctx.sessionId != "" && sessionId == "" { sessionId := ctx.sessionId; }
    }

    method Keep(span: Span, always: bool, maxSpans: nat, ghost reg: bool) returns (kept: bool)
      modifies this
      ensures kept == Keeps(old(View(reg)), span, always, maxSpans)
      ensures View(reg) == StepTrace.Keep(old(View(reg)), span, always, maxSpans)
    {
      var buffered := |spans|;
      for i := 0 to |riders|
        invariant View(reg) == old(View(reg))
        invariant buffered == |spans| + |RiderSpans(riders[..i])|
      {
        buffered := buffered + |riders[i].spans|;
        RiderSpansAppend(riders[..i], riders[i]);
        assert riders[..i + 1] == riders[..i] + [riders[i]];
      }
      assert riders[..|riders|] == riders;
      if always || span.id in parents
         || (!(span.parent.Some? && span.parent.value in droppedIds) && buffered < maxSpans) {
        if span.parent.Some? { parents := parents + {span.parent.value}; }
        return true;
      }
      dropped := dropped + 1;
      droppedIds := droppedIds + {span.id};
      return false;
    }

    /** Closes the step on the root: its span joins the buffer, or is counted as refused. */
    method Record(span: Span, maxSpans: nat, ghost reg: bool)
      modifies this
      ensures View(reg) == Recorded(old(View(reg)), span, maxSpans)
    {
      open := open - {span.id};
      var kept := Keep(span, span.parent.None?, maxSpans, reg);
      if kept { spans := spans + [span]; }
    }

    method Filter(list: seq<Span>, maxSpans: nat, ghost reg: bool) returns (kept: seq<Span>)
      modifies this
      ensures (View(reg), kept) == KeepAll(old(View(reg)), list, maxSpans)
    {
      kept := [];
      for i := 0 to |list|
        invariant (View(reg), kept) == KeepAll(old(View(reg)), list[..i], maxSpans)
      {
        assert list[..i + 1][..i] == list[..i];
        var ok := Keep(list[i], false, maxSpans, reg);
        if ok { kept := kept + [list[i]]; }
      }
      assert list[..|list|] == list;
    }

    /** Puts a report the map routed here into the buffers. */
    method Take(e: Entry, maxSpans: nat, ghost reg: bool)
      requires Ends(e.spans)
      modifies this
      ensures View(reg) == Routed(old(View(reg)), e, maxSpans)
    {
      var ordered := Reorder(e.spans);
      var kept := Filter(ordered, maxSpans, reg);
      if e.capture.Some? {
        riders := riders + [Rider(e.capture.value, kept)];
      } else {
        spans := spans + kept;
      }
      Merge(ContextOf(e), reg);
    }

    method RiderReports(list: seq<Rider>) returns (out: seq<Entry>)
      requires forall r :: r in list ==> Ends(r.spans)
      ensures out == RiderEntries(traceId, list)
    {
      out := [];
      for i := 0 to |list|
        invariant out == RiderEntries(traceId, list[..i])
      {
        var spans := Reorder(list[i].spans);
        out := out + [RiderEntry(traceId, list[i].capture, spans)];
        assert list[..i + 1][..i] == list[..i];
      }
      assert list[..|list|] == list;
    }

    method Sift() returns (ready: seq<Span>, held: seq<Span>, readyRiders: seq<Rider>, heldRiders: seq<Rider>)
      ensures var links := Links(Buffered(View(true)));
        && ready == Ready(View(true)) && held == StepTrace.Sift(links, open, spans, true)
        && readyRiders == ReadyRiders(View(true)) && heldRiders == SiftRiders(links, open, riders, true)
    {
      var checker := new OpenChecker(open, spans + RiderSpans(riders));
      ready, held := SiftSpans(checker, spans);
      readyRiders, heldRiders := SiftRiderList(checker, riders);
    }

    method Flush(ghost reg: bool) returns (out: seq<Entry>)
      requires ListsEnd(View(reg))
      modifies this
      ensures View(reg && open != {}) == FlushState(old(View(reg)))
      ensures out == FlushReports(old(View(reg)))
    {
      var first := !sent;
      ghost var st := View(reg);
      var ready, held, readyRiders, heldRiders := Sift();
      riders := heldRiders;
      spans := held;
      sent := true;
      out := [];
      if first || ready != [] {
        var list := Reorder(ready);
        out := [MainEntry(View(false), first, list)];
      }
      var rest := RiderReports(readyRiders);
      out := out + rest;
    }
  }

  /** One pass of `heldBack` over the main spans. */
  method SiftSpans(checker: OpenChecker, spans: seq<Span>) returns (ready: seq<Span>, held: seq<Span>)
    requires checker.Valid()
    modifies checker
    ensures checker.Valid()
    ensures ready == Sift(checker.links, checker.open, spans, false)
    ensures held == Sift(checker.links, checker.open, spans, true)
  {
    ready, held := [], [];
    for i := 0 to |spans|
      invariant checker.Valid()
      invariant ready == Sift(checker.links, checker.open, spans[..i], false)
      invariant held == Sift(checker.links, checker.open, spans[..i], true)
    {
      assert spans[..i + 1][..i] == spans[..i];
      var back := checker.Check(spans[i]);
      if back { held := held + [spans[i]]; } else { ready := ready + [spans[i]]; }
    }
    assert spans[..|spans|] == spans;
  }

  method AnyBack(checker: OpenChecker, spans: seq<Span>) returns (any: bool)
    requires checker.Valid()
    modifies checker
    ensures checker.Valid() && any == AnyHeld(checker.links, checker.open, spans)
  {
    for i := 0 to |spans|
      invariant checker.Valid()
      invariant !AnyHeld(checker.links, checker.open, spans[..i])
    {
      var back := checker.Check(spans[i]);
      if back {
        assert Held(checker.links, checker.open, spans[i]);
        return true;
      }
      assert spans[..i + 1] == spans[..i] + [spans[i]];
    }
    assert spans[..|spans|] == spans;
    return false;
  }

  method SiftRiderList(checker: OpenChecker, riders: seq<Rider>) returns (ready: seq<Rider>, held: seq<Rider>)
    requires checker.Valid()
    modifies checker
    ensures checker.Valid()
    ensures ready == SiftRiders(checker.links, checker.open, riders, false)
    ensures held == SiftRiders(checker.links, checker.open, riders, true)
  {
    ready, held := [], [];
    for i := 0 to |riders|
      invariant checker.Valid()
      invariant ready == SiftRiders(checker.links, checker.open, riders[..i], false)
      invariant held == SiftRiders(checker.links, checker.open, riders[..i], true)
    {
      assert riders[..i + 1] == riders[..i] + [riders[i]];
      SiftRidersSnoc(checker.links, checker.open, riders[..i], riders[i], true);
      SiftRidersSnoc(checker.links, checker.open, riders[..i], riders[i], false);
      var back := AnyBack(checker, riders[i].spans);
      if back { held := held + [riders[i]]; } else { ready := ready + [riders[i]]; }
    }
    assert riders[..|riders|] == riders;
  }

  /** One step from open to close. */
  class OpenStep {
    const spanId: Id
    const parent: Option<Id>
    const root: Root
    var closed: bool

    /** Only the step that opened the trace is under no other, and an unclosed step is open. */
    ghost predicate Valid()
      reads this, root
    {
      && (parent.None? <==> spanId == root.rootStep)
      && (!closed ==> spanId in root.open)
    }

    constructor (spanId: Id, parent: Option<Id>, root: Root)
      ensures this.spanId == spanId && this.parent == parent && this.root == root && !closed
    {
      this.spanId, this.parent, this.root, this.closed := spanId, parent, root, false;
    }
  }

  ghost predicate IsNearest(frames: seq<OpenStep>, owner: Id, i: nat)
    requires i < |frames|
  {
    frames[i].root.owner == owner && forall j :: 0 <= j < i ==> frames[j].root.owner != owner
  }

  /** The innermost open step of `owner`'s client; `frames` is the context, innermost first. */
  method Nearest(frames: seq<OpenStep>, owner: Id) returns (frame: Option<OpenStep>)
    ensures frame.None? ==> forall f :: f in frames ==> f.root.owner != owner
    ensures frame.Some? ==> exists i :: 0 <= i < |frames| && frames[i] == frame.value && IsNearest(frames, owner, i)
  {
    var i := 0;
    while i < |frames| && frames[i].root.owner != owner
      invariant 0 <= i <= |frames|
      invariant forall j :: 0 <= j < i ==> frames[j].root.owner != owner
    {
      i := i + 1;
    }
    return if i < |frames| then Some(frames[i]) else None;
  }

  class Registry {
    const maxSpans: nat
    var roots: map<Id, Root>
    /** Calls to `enqueue` on the clients' span queues, in order. */
    var queued: seq<Enqueued>
    /** Every root ever made. */
    ghost var all: set<Root>

    predicate Holds(r: Root)
      reads this
    {
      r.traceId in roots && roots[r.traceId] == r
    }

    function View(r: Root): TraceState
      reads this, r
    {
      r.View(Holds(r))
    }

    /** No two roots share a trace id, and the map holds exactly the roots with open steps. */
    ghost predicate Valid()
      reads this, all
    {
      && (forall id :: id in roots ==> roots[id] in all && roots[id].traceId == id)
      && (forall r, s :: r in all && s in all && r.traceId == s.traceId ==> r == s)
      && (forall r :: r in all ==> (Holds(r) <==> r.open != {}))
      && (forall r :: r in all && !r.sent ==> r.rootStep in r.open)
    }

    constructor (maxSpans: nat)
      ensures Valid() && this.maxSpans == maxSpans && roots == map[] && queued == [] && all == {}
    {
      this.maxSpans, roots, queued, all := maxSpans, map[], [], {};
    }

    /** A step outside any step of the client opens a trace of its own. */
    method OpenRoot(traceId: Id, name: string, owner: Id, ctx: Context, spanId: Id) returns (step: OpenStep)
      requires Valid() && forall r :: r in all ==> r.traceId != traceId
      modifies this
      ensures Valid() && step.Valid() && fresh(step) && fresh(step.root) && all == old(all) + {step.root}
      ensures step.spanId == spanId && step.parent == None && !step.closed && step.root.owner == owner
      ensures View(step.root) == Opened(NewTrace(traceId, name, ctx), spanId)
      ensures queued == old(queued) && forall r :: r in old(all) ==> Holds(r) == old(Holds(r))
    {
      var root := new Root(traceId, name, owner, ctx, spanId);
      roots := roots[traceId := root];
      root.open := root.open + {spanId};
      all := all + {root};
      step := new OpenStep(spanId, None, root);
    }

    /** A step inside a step of the same client joins its trace, sent and gone or not. */
    method OpenNested(outer: OpenStep, ctx: Context, spanId: Id) returns (step: OpenStep)
      requires Valid() && outer.root in all && spanId != outer.root.rootStep
      modifies this, outer.root
      ensures Valid() && step.Valid() && fresh(step) && all == old(all)
      ensures step.spanId == spanId && step.parent == Some(outer.spanId) && !step.closed && step.root == outer.root
      ensures View(step.root) == Opened(MergeContext(old(View(outer.root)), ctx), spanId)
      ensures queued == old(queued) && forall r :: r in all && r != outer.root ==> Holds(r) == old(Holds(r))
    {
      var root := outer.root;
      root.Merge(ctx, Holds(root));
      if root.traceId !in roots { roots := roots[root.traceId := root]; }
      root.open := root.open + {spanId};
      step := new OpenStep(spanId, Some(outer.spanId), root);
    }

    /** Records the step's span and flushes if the step is the root or the root was sent. */
    method Close(step: OpenStep, payload: string)
      requires Valid() && step.Valid() && step.root in all
      requires !step.closed ==>
        var span := StepSpan(View(step.root), step.spanId, step.parent, payload);
        Flushes(View(step.root), span) ==> ListsEnd(Recorded(View(step.root), span, maxSpans))
      modifies this, step, step.root
      ensures Valid() && step.closed && all == old(all)
      ensures old(step.closed) ==>
        View(step.root) == old(View(step.root))
        && queued == old(queued) && roots == old(roots)
      ensures !old(step.closed) ==>
        var span := StepSpan(old(View(step.root)), step.spanId, step.parent, payload);
        && View(step.root) == Closed(old(View(step.root)), span, maxSpans)
        && queued == old(queued) + ToQueue(step.root.owner, CloseReports(old(View(step.root)), span, maxSpans))
      ensures forall r :: r in all && r != step.root ==> Holds(r) == old(Holds(r))
    {
      if step.closed { return; }
      step.closed := true;
      var span := Span(step.spanId, step.parent, if step.parent.None? then step.root.dropped else 0, payload);
      CloseOn(step.root, span);
    }

    method CloseOn(root: Root, span: Span)
      requires Valid() && root in all && span.id in root.open
      requires span.parent.None? <==> span.id == root.rootStep
      requires Flushes(View(root), span) ==> ListsEnd(Recorded(View(root), span, maxSpans))
      modifies this`roots, this`queued, root
      ensures Valid()
      ensures View(root) == Closed(old(View(root)), span, maxSpans)
      ensures queued == old(queued) + ToQueue(root.owner, CloseReports(old(View(root)), span, maxSpans))
      ensures forall r :: r in all && r != root ==> Holds(r) == old(Holds(r))
    {
      ghost var st := View(root);
      root.Record(span, maxSpans, Holds(root));
      assert View(root) == Recorded(st, span, maxSpans);
      if span.parent.None? || root.sent {
        FlushClosed(root);
      } else {
        assert root.rootStep in root.open;
        assert queued + ToQueue(root.owner, []) == queued;
      }
    }

    /** `Valid`, but for what a flush of this root is about to put right. */
    ghost predicate ValidBut(root: Root)
      reads this, all
    {
      && (forall id :: id in roots ==> roots[id] in all && roots[id].traceId == id)
      && (forall r, s :: r in all && s in all && r.traceId == s.traceId ==> r == s)
      && (forall r :: r in all && r != root ==> (Holds(r) <==> r.open != {}) && (!r.sent ==> r.rootStep in r.open))
    }

    /** The flush at the end of a close. */
    method FlushClosed(root: Root)
      requires root in all && ValidBut(root) && ListsEnd(View(root))
      modifies this`roots, this`queued, root
      ensures Valid()
      ensures View(root) == FlushState(old(View(root)).(registered := true))
      ensures queued == old(queued) + ToQueue(root.owner, FlushReports(old(View(root))))
      ensures forall r :: r in all && r != root ==> Holds(r) == old(Holds(r))
    {
      FlushRoot(root);
      forall r | r in all && r != root ensures Holds(r) == old(Holds(r)) {
        assert r.traceId != root.traceId;
      }
    }

    /** Back in the map if an earlier flush removed it, then out again if nothing is open. */
    method FlushRoot(root: Root)
      requires root in all && ListsEnd(View(root))
      requires forall id :: id in roots ==> roots[id].traceId == id
      modifies this`roots, this`queued, root
      ensures View(root) == FlushState(old(View(root)).(registered := true))
      ensures queued == old(queued) + ToQueue(root.owner, FlushReports(old(View(root))))
      ensures root.open == old(root.open) && root.sent
      ensures roots == if root.open == {} then old(roots) - {root.traceId} else old(roots)[root.traceId := root]
    {
      roots := roots[root.traceId := root];
      ghost var st := View(root);
      FlushIgnoresRegistered(old(View(root)));
      var out := root.Flush(true);
      if root.open == {} { roots := roots - {root.traceId}; }
      queued := queued + ToQueue(root.owner, out);
    }

    /** The root that a report of this client names, if the map holds one. */
    function RootFor(e: Entry, owner: Id): Option<Root>
      reads this
    {
      if e.traceId.Some? && e.traceId.value in roots && roots[e.traceId.value].owner == owner
      then Some(roots[e.traceId.value]) else None
    }

    ghost function RootsFor(e: Entry, owner: Id): set<Root>
      reads this
    {
      if RootFor(e, owner).Some? then {RootFor(e, owner).value} else {}
    }

    /** The reordering loop ends on the report, if a root takes it. */
    ghost predicate TakenEnds(e: Entry, owner: Id)
      reads this, RootsFor(e, owner)
    {
      RootFor(e, owner).Some? && Takes(View(RootFor(e, owner).value), e.spans) ==> Ends(e.spans)
    }

    /** A root that a report names takes it, or nothing changes. */
    method Offer(root: Root, e: Entry) returns (taken: bool)
      requires Holds(root) && (Takes(View(root), e.spans) ==> Ends(e.spans))
      modifies root
      ensures taken == old(Takes(View(root), e.spans))
      ensures View(root) == if taken then Routed(old(View(root)), e, maxSpans) else old(View(root))
    {
      if root.sent {
        var checker := new OpenChecker(root.open, root.spans + RiderSpans(root.riders) + e.spans);
        var any := AnyBack(checker, e.spans);
        if !any { return false; }
      }
      root.Take(e, maxSpans, true);
      return true;
    }

    /** A root in the map takes the report: it is that of the report's trace and of this client,
        and it has use for it. */
    ghost predicate TakenBy(e: Entry, owner: Id, root: Root)
      reads this, root
    {
      && e.traceId.Some? && e.traceId.value in roots && roots[e.traceId.value] == root
      && root.owner == owner && Takes(View(root), e.spans)
    }

    /** The source's `routeReport`. */
    method RouteReport(e: Entry, owner: Id) returns (taken: bool)
      requires Valid() && TakenEnds(e, owner)
      modifies RootsFor(e, owner)
      ensures Valid()
      ensures taken <==> exists root :: root in old(all) && old(TakenBy(e, owner, root))
      ensures forall r :: r in all ==>
        View(r) == if old(TakenBy(e, owner, r)) then Routed(old(View(r)), e, maxSpans) else old(View(r))
    {
      var found := RootFor(e, owner);
      if found.None? { return false; }
      ghost var st := View(found.value);
      taken := Offer(found.value, e);
      KeepAllFrame(st, Arranged(e.spans), maxSpans);
      assert taken ==> old(TakenBy(e, owner, found.value));
    }

    /** The source's `_report`: what no step takes goes to the queue at once. */
    method Report(e: Entry, owner: Id) returns (taken: bool)
      requires Valid() && TakenEnds(e, owner)
      modifies RootsFor(e, owner), this`queued
      ensures Valid()
      ensures taken <==> exists root :: root in old(all) && old(TakenBy(e, owner, root))
      ensures forall r :: r in all ==>
        View(r) == if old(TakenBy(e, owner, r)) then Routed(old(View(r)), e, maxSpans) else old(View(r))
      ensures queued == if taken then old(queued) else old(queued) + [Enqueued(owner, e)]
    {
      taken := RouteReport(e, owner);
      if !taken { queued := queued + [Enqueued(owner, e)]; }
    }
  }
}
