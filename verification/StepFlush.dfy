/** What a flush and a filtered report do to the spans they go through. */
module StepFlush {
  import opened Options
  import opened SpanModel
  import opened Ancestry
  import opened ParentFirst
  import opened StepTrace

  /** The spans of a list of reports, in order. */
  function SpansOf(log: seq<Entry>): seq<Span> {
    if log == [] then [] else SpansOf(log[..|log| - 1]) + log[|log| - 1].spans
  }

  lemma SpansOfOne(e: Entry)
    ensures SpansOf([e]) == e.spans
  {
    assert [e][..0] == [] && SpansOf([]) == [];
  }

  lemma {:induction false} SpansOfConcat(a: seq<Entry>, b: seq<Entry>)
    ensures SpansOf(a + b) == SpansOf(a) + SpansOf(b)
  {
    if b == [] {
      assert a + b == a;
    } else {
      assert (a + b)[..|a + b| - 1] == a + b[..|b| - 1];
      SpansOfConcat(a, b[..|b| - 1]);
    }
  }

  lemma UniqueSub(big: seq<Span>, small: seq<Span>)
    requires UniqueIds(big) && multiset(small) <= multiset(big)
    ensures UniqueIds(small) && forall s :: s in small ==> s in big
  {
    forall s | s in small ensures s in big {
      assert s in multiset(small);
    }
    forall i, j | 0 <= i < j < |small| ensures small[i].id != small[j].id {
      if small[i].id == small[j].id {
        SameIdSameSpan(big, small[i], small[j]);
        TwiceCounted(small, i, j);
        UniqueOnce(big, small[i]);
      }
    }
  }

  // ---- acyclic parts ----

  lemma {:induction false} GroundedFewer(links: LinkMap, fewer: LinkMap, node: Option<Id>, n: nat)
    requires forall id :: id in fewer ==> id in links && fewer[id] == links[id]
    requires Up(links, node, n).None?
    ensures Grounded(fewer, node)
    decreases n
  {
    if node.None? {
      assert Up(fewer, node, 0).None?;
    } else {
      GroundedStep(fewer, node.value);
      if node.value in fewer {
        GroundedFewer(links, fewer, links[node.value], n - 1);
      }
    }
  }

  lemma LinksSub(big: seq<Span>, small: seq<Span>)
    requires UniqueIds(big) && UniqueIds(small) && forall s :: s in small ==> s in big
    ensures forall id :: id in Links(small) ==> id in Links(big) && Links(small)[id] == Links(big)[id]
  {
    LinksKeys(small);
    forall id | id in Links(small) ensures id in Links(big) && Links(small)[id] == Links(big)[id] {
      var s :| s in small && s.id == id;
      LinksOf(small, s);
      LinksOf(big, s);
    }
  }

  lemma AcyclicSub(big: seq<Span>, small: seq<Span>)
    requires UniqueIds(big) && UniqueIds(small) && forall s :: s in small ==> s in big
    requires Acyclic(big)
    ensures Acyclic(small)
  {
    LinksSub(big, small);
    forall s | s in small ensures Grounded(Links(small), s.parent) {
      var n: nat :| Up(Links(big), s.parent, n).None?;
      GroundedFewer(Links(big), Links(small), s.parent, n);
    }
  }

  /** A span whose own chain ends cannot close a circle. */
  lemma AcyclicAdd(spans: seq<Span>, s: Span)
    requires UniqueIds(spans + [s]) && Acyclic(spans)
    requires Grounded(Links(spans + [s]), s.parent)
    ensures Acyclic(spans + [s])
  {
    var links, more := Links(spans), Links(spans + [s]);
    assert (spans + [s])[..|spans|] == spans;
    GroundedStep(more, s.id);
    forall t | t in spans + [s] ensures Grounded(more, t.parent) {
      if t in spans {
        var n: nat :| Up(links, t.parent, n).None?;
        GroundedMore(links, more, s.id, t.parent, n);
      }
    }
  }

  lemma {:induction false} GroundedMore(links: LinkMap, more: LinkMap, added: Id, node: Option<Id>, n: nat)
    requires added in more && more == links[added := more[added]]
    requires Grounded(more, Some(added)) && Up(links, node, n).None?
    ensures Grounded(more, node)
    decreases n
  {
    if node.None? {
      assert Up(more, node, 0).None?;
    } else if node.value != added {
      GroundedStep(more, node.value);
      if node.value in links {
        GroundedMore(links, more, added, links[node.value], n - 1);
      }
    }
  }

  lemma OrderedKeeps(spans: seq<Span>)
    requires UniqueIds(spans) && Acyclic(spans)
    ensures multiset(Ordered(spans)) == multiset(spans) && UniqueIds(Ordered(spans))
    ensures forall s :: s in Ordered(spans) <==> s in spans
  {
    PermutationIffAcyclic(spans);
    OrderedIsParentFirst(spans);
    ParentFirstSame(spans, Ordered(spans));
  }

  // ---- conservation in a flush ----

  lemma {:induction false} RiderEntriesSpans(traceId: Id, riders: seq<Rider>)
    requires forall r :: r in riders ==> UniqueIds(r.spans) && Acyclic(r.spans)
    ensures multiset(SpansOf(RiderEntries(traceId, riders))) == multiset(RiderSpans(riders))
  {
    if riders != [] {
      var front, last := riders[..|riders| - 1], riders[|riders| - 1];
      assert last in riders;
      RiderEntriesSpans(traceId, front);
      OrderedKeeps(last.spans);
      SpansOfConcat(RiderEntries(traceId, front), [RiderEntry(traceId, last.capture, Arranged(last.spans))]);
      assert SpansOf([RiderEntry(traceId, last.capture, Arranged(last.spans))]) == Ordered(last.spans);
    }
  }

  lemma FlushListsAcyclic(st: TraceState)
    requires Sound(st) && Acyclic(Buffered(st))
    ensures UniqueIds(Ready(st)) && Acyclic(Ready(st))
    ensures forall r :: r in ReadyRiders(st) ==> UniqueIds(r.spans) && Acyclic(r.spans)
  {
    SoundParts(st);
    forall s | s in Ready(st) ensures s in Buffered(st) {
      SiftMember(Links(Buffered(st)), st.open, st.spans, false, s);
    }
    AcyclicSub(Buffered(st), Ready(st));
    forall r | r in ReadyRiders(st) ensures Acyclic(r.spans) {
      SiftRidersMember(Links(Buffered(st)), st.open, st.riders, false, r);
      forall s | s in r.spans ensures s in Buffered(st) {
        RiderSpansMember(st.riders, s);
      }
      AcyclicSub(Buffered(st), r.spans);
    }
  }

  lemma FlushReportsParts(st: TraceState)
    requires Sound(st) && Acyclic(Buffered(st))
    ensures UniqueIds(Ready(st)) && forall r :: r in ReadyRiders(st) ==> UniqueIds(r.spans)
    ensures SpansOf(FlushReports(st)) ==
      Ordered(Ready(st)) + SpansOf(RiderEntries(st.traceId, ReadyRiders(st)))
  {
    FlushListsAcyclic(st);
    var ready := Ready(st);
    OrderedKeeps(ready);
    var main := if !st.sent || ready != [] then [MainEntry(st, !st.sent, Arranged(ready))] else [];
    assert SpansOf(main) == Ordered(ready) by {
      if main == [] { assert multiset(Ordered(ready)) == multiset{}; }
    }
    SpansOfConcat(main, RiderEntries(st.traceId, ReadyRiders(st)));
  }

  /** A flush loses and invents nothing: what was buffered is now either sent or still held. */
  lemma FlushConserves(st: TraceState)
    requires Sound(st) && Acyclic(Buffered(st))
    ensures multiset(Buffered(st)) ==
      multiset(Buffered(FlushState(st))) + multiset(SpansOf(FlushReports(st)))
  {
    var links := Links(Buffered(st));
    FlushReportsParts(st);
    FlushListsAcyclic(st);
    OrderedKeeps(Ready(st));
    RiderEntriesSpans(st.traceId, ReadyRiders(st));
    SiftSplits(links, st.open, st.spans);
    SiftRidersSplit(links, st.open, st.riders);
  }

  // ---- what a flush sends ----

  /** What is ready hangs under no open step; nor does its buffered parent. */
  lemma ReadyIsNotHeld(st: TraceState)
    requires Sound(st)
    ensures forall s :: s in Ready(st) ==> !Held(Links(Buffered(st)), st.open, s)
    ensures forall s, p :: s in Ready(st) && p in st.spans && s.parent == Some(p.id) ==> p in Ready(st)
    ensures forall r, s :: r in ReadyRiders(st) && s in r.spans ==> !Held(Links(Buffered(st)), st.open, s)
  {
    var links := Links(Buffered(st));
    forall s | s in Ready(st) ensures !Held(links, st.open, s) {
      SiftMember(links, st.open, st.spans, false, s);
    }
    forall s, p | s in Ready(st) && p in st.spans && s.parent == Some(p.id) ensures p in Ready(st) {
      LinksOf(Buffered(st), p);
      HangsStep(links, st.open, p.id);
      SiftMember(links, st.open, st.spans, false, p);
    }
    forall r, s | r in ReadyRiders(st) && s in r.spans ensures !Held(links, st.open, s) {
      SiftRidersMember(links, st.open, st.riders, false, r);
    }
  }

  lemma {:induction false} RiderEntryOf(traceId: Id, riders: seq<Rider>, e: Entry)
    requires e in RiderEntries(traceId, riders)
    ensures exists r :: r in riders && e == RiderEntry(traceId, r.capture, Arranged(r.spans))
  {
    var front, last := riders[..|riders| - 1], riders[|riders| - 1];
    assert last in riders;
    if e in RiderEntries(traceId, front) { RiderEntryOf(traceId, front, e); }
  }

  /** A main span goes with its buffered main parent, in the same report. */
  lemma MainParentIsSent(st: TraceState, s: Span, p: Span)
    requires Sound(st) && UniqueIds(Ready(st)) && s in Ordered(Ready(st)) && p in st.spans && s.parent == Some(p.id)
    ensures p in Ordered(Ready(st))
  {
    ReadyIsNotHeld(st);
    OrderedReaches(Ready(st), s);
    OrderedReaches(Ready(st), p);
    LinksOf(Ready(st), p);
    GroundedStep(Links(Ready(st)), p.id);
  }

  /** No report of a flush carries a span under an open step, and the main report carries the
      buffered main parent of each of its spans. */
  lemma FlushSendsNothingHeld(st: TraceState)
    requires Sound(st)
    ensures forall e, s :: e in FlushReports(st) && s in e.spans ==> !Held(Links(Buffered(st)), st.open, s)
    ensures forall e, s, p ::
      e in FlushReports(st) && e.capture.None? && s in e.spans && p in st.spans && s.parent == Some(p.id) ==>
      p in e.spans
  {
    ReadyIsNotHeld(st);
    SoundParts(st);
    forall e | e in FlushReports(st)
      ensures forall s :: s in e.spans ==> !Held(Links(Buffered(st)), st.open, s)
      ensures forall s, p :: e.capture.None? && s in e.spans && p in st.spans && s.parent == Some(p.id) ==> p in e.spans
    {
      if e in RiderEntries(st.traceId, ReadyRiders(st)) {
        RiderEntryOf(st.traceId, ReadyRiders(st), e);
        var r :| r in ReadyRiders(st) && e == RiderEntry(st.traceId, r.capture, Arranged(r.spans));
        forall s | s in e.spans ensures s in r.spans {
          OrderedReaches(r.spans, s);
        }
      } else {
        assert e == MainEntry(st, !st.sent, Ordered(Ready(st)));
        forall s | s in e.spans ensures s in Ready(st) {
          OrderedReaches(Ready(st), s);
        }
        forall s, p | s in e.spans && p in st.spans && s.parent == Some(p.id) ensures p in e.spans {
          MainParentIsSent(st, s, p);
        }
      }
    }
  }

  /** While a step is open every buffered main span anywhere below it stays buffered, and so
      does every rider that carries a span below it. */
  lemma OpenStepKeepsSubtree(st: TraceState, step: Id)
    requires Sound(st) && step in st.open
    ensures forall s :: s in st.spans && IsAncestor(Links(Buffered(st)), step, s) ==> s in FlushState(st).spans
    ensures forall r, s :: r in st.riders && s in r.spans && IsAncestor(Links(Buffered(st)), step, s) ==>
      r in FlushState(st).riders
  {
    var links := Links(Buffered(st));
    forall s | s in Buffered(st) && IsAncestor(links, step, s) ensures Held(links, st.open, s) {
      var n: nat :| Up(links, s.parent, n) == Some(step);
      assert OpenAt(links, st.open, s.parent, n);
    }
    forall s | s in st.spans && IsAncestor(links, step, s) ensures s in FlushState(st).spans {
      SiftMember(links, st.open, st.spans, true, s);
    }
    forall r, s | r in st.riders && s in r.spans && IsAncestor(links, step, s) ensures r in FlushState(st).riders {
      RiderSpansMember(st.riders, s);
      assert s in Buffered(st);
      SiftRidersMember(links, st.open, st.riders, true, r);
    }
  }

  /** With no step open, a flush empties both buffers. */
  lemma FlushEmpties(st: TraceState)
    requires st.open == {}
    ensures FlushState(st).spans == [] && FlushState(st).riders == []
  {
    var links, after := Links(Buffered(st)), FlushState(st);
    forall s: Span ensures !Held(links, st.open, s) {
      forall n: nat ensures !OpenAt(links, st.open, s.parent, n) {}
    }
    if after.spans != [] {
      SiftMember(links, st.open, st.spans, true, after.spans[0]);
    }
    if after.riders != [] {
      SiftRidersMember(links, st.open, st.riders, true, after.riders[0]);
    }
  }

  // ---- conservation in keep ----

  /** The spans of a filtered report that `keep` refused. */
  function Refused(st: TraceState, spans: seq<Span>, maxSpans: nat): seq<Span> {
    if spans == [] then []
    else
      var front, last := spans[..|spans| - 1], spans[|spans| - 1];
      var refused := Refused(st, front, maxSpans);
      if Keeps(KeepAll(st, front, maxSpans).0, last, false, maxSpans) then refused else refused + [last]
  }

  /** `dropped` counts the refused spans and `droppedIds` names them. */
  lemma {:induction false} KeepAllCounts(st: TraceState, spans: seq<Span>, maxSpans: nat)
    ensures var after, refused := KeepAll(st, spans, maxSpans).0, Refused(st, spans, maxSpans);
      after.dropped == st.dropped + |refused| && after.droppedIds == st.droppedIds + Ids(refused)
  {
    if spans != [] {
      var front, last := spans[..|spans| - 1], spans[|spans| - 1];
      KeepAllCounts(st, front, maxSpans);
      IdsConcat(Refused(st, front, maxSpans), [last]);
      assert Ids([last]) == {last.id};
    }
  }

  lemma {:induction false} KeepAllConserves(st: TraceState, spans: seq<Span>, maxSpans: nat)
    ensures multiset(KeepAll(st, spans, maxSpans).1) + multiset(Refused(st, spans, maxSpans)) == multiset(spans)
  {
    if spans != [] {
      var front, last := spans[..|spans| - 1], spans[|spans| - 1];
      KeepAllConserves(st, front, maxSpans);
      assert multiset(spans) == multiset(front) + multiset{last} by { assert spans == front + [last]; }
      var kept, refused := KeepAll(st, front, maxSpans).1, Refused(st, front, maxSpans);
      assert multiset(kept + [last]) == multiset(kept) + multiset{last};
      assert multiset(refused + [last]) == multiset(refused) + multiset{last};
    }
  }

  lemma {:induction false} KeepAllUnlessRefused(st: TraceState, spans: seq<Span>, maxSpans: nat)
    requires Refused(st, spans, maxSpans) == []
    ensures KeepAll(st, spans, maxSpans).1 == spans
  {
    if spans != [] {
      KeepAllUnlessRefused(st, spans[..|spans| - 1], maxSpans);
    }
  }
}
