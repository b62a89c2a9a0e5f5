/** Exactly when what a trace hands to the queue has every known parent ahead of its children. */
module FlushOrder {
  import opened Options
  import opened SpanModel
  import opened Ancestry
  import opened ParentFirst
  import opened StepTrace
  import opened StepFlush
  import opened StepRuns
  import opened StepDelivery

  // ---- one list ----

  lemma FollowsConcatIff(due: set<Id>, before: set<Id>, a: seq<Span>, b: seq<Span>)
    ensures Follows(due, before, a + b) <==> Follows(due, before, a) && Follows(due, before + Ids(a), b)
  {
    if Follows(due, before, a) && Follows(due, before + Ids(a), b) { FollowsConcat(due, before, a, b); }
    if Follows(due, before, a + b) { FollowsParts(due, before, a, b); }
  }

  lemma FollowsParts(due: set<Id>, before: set<Id>, a: seq<Span>, b: seq<Span>)
    requires Follows(due, before, a + b)
    ensures Follows(due, before, a) && Follows(due, before + Ids(a), b)
  {
    var all := a + b;
    forall k | 0 <= k < |a| && a[k].id in due && a[k].parent.Some? ensures ParentAhead(before, a, k) {
      assert all[k] == a[k] && ParentAhead(before, all, k);
    }
    forall k | 0 <= k < |b| && b[k].id in due && b[k].parent.Some? ensures ParentAhead(before + Ids(a), b, k) {
      assert all[|a| + k] == b[k] && ParentAhead(before, all, |a| + k);
      if b[k].parent.value !in before {
        var j :| 0 <= j < |a| + k && all[j].id == b[k].parent.value;
        if j < |a| {
          assert all[j] in a;
        } else {
          assert all[j] == b[j - |a|];
        }
      }
    }
  }

  lemma KnownParentsFollow(due: set<Id>, before: set<Id>, spans: seq<Span>)
    requires UniqueIds(spans) && Acyclic(spans) && AllIn(due, before + Ids(spans), spans)
    ensures Follows(due, before, Ordered(spans))
  {
    var out := Ordered(spans);
    OrderedKeeps(spans);
    OrderedIsParentFirst(spans);
    forall k | 0 <= k < |out| && out[k].id in due && out[k].parent.Some? ensures ParentAhead(before, out, k) {
      assert out[k] in spans;
      if out[k].parent.value in Ids(spans) { assert KeyOf(Ids(spans), out[k]) == out[k].parent; }
    }
  }

  lemma FollowsKnowsParents(due: set<Id>, before: set<Id>, out: seq<Span>)
    requires Follows(due, before, out)
    ensures AllIn(due, before + Ids(out), out)
  {
    forall s | s in out && s.id in due && s.parent.Some? ensures s.parent.value in before + Ids(out) {
      var k :| 0 <= k < |out| && out[k] == s;
      assert ParentAhead(before, out, k);
      if s.parent.value !in before {
        var j :| 0 <= j < k && out[j].id == s.parent.value;
        assert out[j] in out;
      }
    }
  }

  /** A list put parents first is in order exactly if each due parent is in it or before it. */
  lemma OrderedFollowsIff(due: set<Id>, before: set<Id>, spans: seq<Span>)
    requires UniqueIds(spans) && Acyclic(spans)
    ensures Follows(due, before, Ordered(spans)) <==> AllIn(due, before + Ids(spans), spans)
  {
    OrderedKeeps(spans);
    assert Ids(Ordered(spans)) == Ids(spans);
    if AllIn(due, before + Ids(spans), spans) { KnownParentsFollow(due, before, spans); }
    if Follows(due, before, Ordered(spans)) { FollowsKnowsParents(due, before, Ordered(spans)); }
  }

  // ---- the riders of a flush ----

  /** Each due parent of a rider's span is known before the riders, on the same rider or on
      one before it. */
  ghost predicate RidersReach(due: set<Id>, before: set<Id>, riders: seq<Rider>) {
    forall k :: 0 <= k < |riders| ==> RiderReaches(due, before, riders, k)
  }

  ghost predicate RiderReaches(due: set<Id>, before: set<Id>, riders: seq<Rider>, k: nat)
    requires k < |riders|
  {
    AllIn(due, before + Ids(RiderSpans(riders[..k + 1])), riders[k].spans)
  }

  lemma ReachesInFront(due: set<Id>, before: set<Id>, riders: seq<Rider>, r: Rider, k: nat)
    requires k < |riders|
    ensures RiderReaches(due, before, riders + [r], k) <==> RiderReaches(due, before, riders, k)
  {
    assert (riders + [r])[..k + 1] == riders[..k + 1];
  }

  lemma ReachesLast(due: set<Id>, before: set<Id>, riders: seq<Rider>, r: Rider)
    ensures RiderReaches(due, before, riders + [r], |riders|) <==>
      AllIn(due, before + Ids(RiderSpans(riders)) + Ids(r.spans), r.spans)
  {
    assert (riders + [r])[..|riders| + 1] == riders + [r];
    RiderSpansAppend(riders, r);
    IdsConcat(RiderSpans(riders), r.spans);
    assert before + Ids(RiderSpans(riders + [r])) == before + Ids(RiderSpans(riders)) + Ids(r.spans);
  }

  lemma ReachFront(due: set<Id>, before: set<Id>, riders: seq<Rider>, r: Rider)
    requires RidersReach(due, before, riders + [r])
    ensures RidersReach(due, before, riders)
  {
    forall k | 0 <= k < |riders| ensures RiderReaches(due, before, riders, k) {
      assert RiderReaches(due, before, riders + [r], k);
      ReachesInFront(due, before, riders, r, k);
    }
  }

  lemma ReachAll(due: set<Id>, before: set<Id>, riders: seq<Rider>, r: Rider)
    requires RidersReach(due, before, riders) && RiderReaches(due, before, riders + [r], |riders|)
    ensures RidersReach(due, before, riders + [r])
  {
    forall k | 0 <= k < |riders| + 1 ensures RiderReaches(due, before, riders + [r], k) {
      if k < |riders| { ReachesInFront(due, before, riders, r, k); }
    }
  }

  lemma RidersReachSnoc(due: set<Id>, before: set<Id>, riders: seq<Rider>, r: Rider)
    ensures RidersReach(due, before, riders + [r]) <==>
      RidersReach(due, before, riders) && AllIn(due, before + Ids(RiderSpans(riders)) + Ids(r.spans), r.spans)
  {
    ReachesLast(due, before, riders, r);
    if RidersReach(due, before, riders + [r]) {
      ReachFront(due, before, riders, r);
      assert RiderReaches(due, before, riders + [r], |riders|);
    } else if RidersReach(due, before, riders) && RiderReaches(due, before, riders + [r], |riders|) {
      ReachAll(due, before, riders, r);
    }
  }

  ghost predicate RidersOk(riders: seq<Rider>) {
    forall r :: r in riders ==> UniqueIds(r.spans) && Acyclic(r.spans)
  }

  lemma {:induction false} RiderEntriesIds(traceId: Id, riders: seq<Rider>)
    requires RidersOk(riders)
    ensures SentIds(RiderEntries(traceId, riders)) == Ids(RiderSpans(riders))
  {
    if riders != [] {
      var front, last := riders[..|riders| - 1], riders[|riders| - 1];
      assert riders == front + [last];
      RiderEntriesIds(traceId, front);
      EntriesAppend(traceId, front, last);
      RiderSpansAppend(front, last);
      IdsConcat(RiderSpans(front), last.spans);
      OrderedKeeps(last.spans);
      assert Ids(Ordered(last.spans)) == Ids(last.spans);
    }
  }

  lemma {:induction false} RidersFollowIff(traceId: Id, due: set<Id>, before: set<Id>, riders: seq<Rider>)
    requires RidersOk(riders)
    ensures Follows(due, before, SpansOf(RiderEntries(traceId, riders))) <==> RidersReach(due, before, riders)
  {
    if riders != [] {
      var front, last := riders[..|riders| - 1], riders[|riders| - 1];
      assert riders == front + [last];
      RidersFollowIff(traceId, due, before, front);
      EntriesAppend(traceId, front, last);
      RiderEntriesIds(traceId, front);
      FollowsConcatIff(due, before, SpansOf(RiderEntries(traceId, front)), Ordered(last.spans));
      OrderedFollowsIff(due, before + Ids(RiderSpans(front)), last.spans);
      RidersReachSnoc(due, before, front, last);
    }
  }

  // ---- a flush ----

  /** Each due parent of a buffered span is an open step, sent, or buffered itself. */
  ghost predicate ParentsKnown(st: TraceState, due: set<Id>, sent: set<Id>) {
    AllIn(due, st.open + sent + Ids(Buffered(st)), Buffered(st))
  }

  /** No due main span that is sent points at a rider's span that is not sent yet. */
  ghost predicate MainsPlaced(st: TraceState, due: set<Id>, sent: set<Id>) {
    forall s :: s in Ready(st) && s.id in due && s.parent.Some? && s.parent.value !in sent ==>
      s.parent.value !in Ids(RiderSpans(st.riders))
  }

  /** Each due parent of a span on rider k of those sent is a main span, on that rider, or on
      one of those sent before it. */
  ghost predicate RiderPlaced(st: TraceState, due: set<Id>, sent: set<Id>, k: nat)
    requires k < |ReadyRiders(st)|
  {
    forall s :: s in ReadyRiders(st)[k].spans && s.id in due && s.parent.Some? && s.parent.value !in sent ==>
      s.parent.value in Ids(st.spans) + Ids(RiderSpans(ReadyRiders(st)[..k + 1]))
  }

  ghost predicate FlushPlaced(st: TraceState, due: set<Id>, sent: set<Id>) {
    && MainsPlaced(st, due, sent)
    && (forall k :: 0 <= k < |ReadyRiders(st)| ==> RiderPlaced(st, due, sent, k))
  }

  /** A main span and a rider's span never have the same id. */
  lemma MainIsNoRiders(st: TraceState, s: Span, t: Span)
    requires Sound(st) && s in st.spans && t in RiderSpans(st.riders)
    ensures s.id != t.id
  {
    DisjointParts(st.spans, RiderSpans(st.riders), s, t);
  }

  /** The parent of a span that goes goes with it, if it is a main span. */
  lemma MainParentGoes(st: TraceState, s: Span)
    requires Sound(st) && s.parent.Some? && !Held(Links(Buffered(st)), st.open, s)
    requires s.parent.value in Ids(st.spans)
    ensures s.parent.value in Ids(Ready(st))
  {
    var q :| q in st.spans && q.id == s.parent.value;
    LinksOf(Buffered(st), q);
    HangsStep(Links(Buffered(st)), st.open, q.id);
    SiftMember(Links(Buffered(st)), st.open, st.spans, false, q);
  }

  lemma ReadyIds(st: TraceState)
    ensures Ids(Ready(st)) <= Ids(st.spans)
  {
    forall s | s in Ready(st) ensures s in st.spans {
      SiftMember(Links(Buffered(st)), st.open, st.spans, false, s);
    }
  }

  lemma MainsPlacedIff(st: TraceState, due: set<Id>, sent: set<Id>)
    requires Sound(st) && ParentsKnown(st, due, sent)
    ensures AllIn(due, sent + Ids(Ready(st)), Ready(st)) <==> MainsPlaced(st, due, sent)
  {
    var links := Links(Buffered(st));
    ReadyIds(st);
    IdsConcat(st.spans, RiderSpans(st.riders));
    forall s | s in Ready(st) && s.id in due && s.parent.Some? && s.parent.value !in sent
      ensures s.parent.value in Ids(Ready(st)) <==> s.parent.value !in Ids(RiderSpans(st.riders))
    {
      SiftMember(links, st.open, st.spans, false, s);
      NotOpenParent(st, s);
      if s.parent.value in Ids(st.spans) {
        MainParentGoes(st, s);
        var q :| q in st.spans && q.id == s.parent.value;
        forall t | t in RiderSpans(st.riders) ensures t.id != q.id {
          MainIsNoRiders(st, q, t);
        }
      }
    }
  }

  lemma RiderPlacedIff(st: TraceState, due: set<Id>, sent: set<Id>, k: nat)
    requires Sound(st) && k < |ReadyRiders(st)|
    ensures RiderReaches(due, sent + Ids(Ready(st)), ReadyRiders(st), k) <==> RiderPlaced(st, due, sent, k)
  {
    var links, r := Links(Buffered(st)), ReadyRiders(st)[k];
    ReadyIds(st);
    assert r in ReadyRiders(st);
    SiftRidersMember(links, st.open, st.riders, false, r);
    forall s | s in r.spans && s.parent.Some? && s.parent.value in Ids(st.spans)
      ensures s.parent.value in Ids(Ready(st))
    {
      assert !Held(links, st.open, s);
      MainParentGoes(st, s);
    }
  }

  /** What a flush hands over is in order exactly if no main span that goes points at a span
      on a rider, and no rider that goes points at a rider that stays or goes later. */
  lemma FlushFollowsIff(st: TraceState, due: set<Id>, sent: set<Id>)
    requires Sound(st) && Acyclic(Buffered(st)) && ParentsKnown(st, due, sent)
    ensures Follows(due, sent, SpansOf(FlushReports(st))) <==> FlushPlaced(st, due, sent)
  {
    FlushReportsParts(st);
    FlushListsAcyclic(st);
    OrderedKeeps(Ready(st));
    assert Ids(Ordered(Ready(st))) == Ids(Ready(st));
    FollowsConcatIff(due, sent, Ordered(Ready(st)), SpansOf(RiderEntries(st.traceId, ReadyRiders(st))));
    OrderedFollowsIff(due, sent, Ready(st));
    MainsPlacedIff(st, due, sent);
    RidersFollowIff(st.traceId, due, sent + Ids(Ready(st)), ReadyRiders(st));
    forall k | 0 <= k < |ReadyRiders(st)|
      ensures RiderReaches(due, sent + Ids(Ready(st)), ReadyRiders(st), k) <==> RiderPlaced(st, due, sent, k)
    {
      RiderPlacedIff(st, due, sent, k);
    }
  }

  // ---- how it goes wrong ----

  /** Why a main span must not point at a rider's span: a flush that sends it sends it ahead
      of that span, whatever else is buffered. */
  lemma MainOvertakesRider(st: TraceState, before: set<Id>, s: Span, t: Span)
    requires Sound(st) && Acyclic(Buffered(st)) && s in Ready(st) && t in RiderSpans(st.riders)
    requires s.parent == Some(t.id) && t.id !in before
    ensures !Follows({s.id}, before, SpansOf(FlushReports(st)))
  {
    SiftMember(Links(Buffered(st)), st.open, st.spans, false, s);
    OnlyParent(st, before, s, t);
    FlushFollowsIff(st, {s.id}, before);
    assert !MainsPlaced(st, {s.id}, before);
  }

  /** Why a rider must not point at a rider of several spans: if one of those is held, the
      others stay with it, and the first rider goes ahead of them. */
  lemma RiderOvertakesRider(st: TraceState, before: set<Id>, k: nat, s: Span, r: Rider, t: Span)
    requires Sound(st) && Acyclic(Buffered(st)) && k < |ReadyRiders(st)| && s in ReadyRiders(st)[k].spans
    requires r in st.riders && t in r.spans && AnyHeld(Links(Buffered(st)), st.open, r.spans)
    requires s.parent == Some(t.id) && t.id !in before
    ensures !Follows({s.id}, before, SpansOf(FlushReports(st)))
  {
    var links := Links(Buffered(st));
    assert ReadyRiders(st)[k] in ReadyRiders(st);
    SiftRidersMember(links, st.open, st.riders, false, ReadyRiders(st)[k]);
    RiderSpansMember(st.riders, s);
    RiderSpansMember(st.riders, t);
    OnlyParent(st, before, s, t);
    FlushFollowsIff(st, {s.id}, before);
    forall q | q in st.spans ensures q.id != t.id {
      MainIsNoRiders(st, q, t);
    }
    forall q | q in RiderSpans(ReadyRiders(st)[..k + 1]) ensures q.id != t.id {
      HeldStaysBehind(st, k + 1, q, r, t);
    }
    assert !RiderPlaced(st, {s.id}, before, k);
  }

  /** With one due span the parents of the rest do not matter. */
  lemma OnlyParent(st: TraceState, before: set<Id>, s: Span, t: Span)
    requires Sound(st) && s in Buffered(st) && t in Buffered(st) && s.parent == Some(t.id)
    ensures ParentsKnown(st, {s.id}, before)
  {
    forall q | q in Buffered(st) && q.id in {s.id} ensures q == s {
      SameIdSameSpan(Buffered(st), q, s);
    }
  }

  /** No span on a rider that goes has the id of a span on a rider that is held. */
  lemma HeldStaysBehind(st: TraceState, n: nat, q: Span, r: Rider, t: Span)
    requires Sound(st) && n <= |ReadyRiders(st)| && q in RiderSpans(ReadyRiders(st)[..n])
    requires r in st.riders && t in r.spans && AnyHeld(Links(Buffered(st)), st.open, r.spans)
    ensures q.id != t.id
  {
    RiderSpansMember(ReadyRiders(st)[..n], q);
    var r' :| r' in ReadyRiders(st)[..n] && q in r'.spans;
    SiftRidersMember(Links(Buffered(st)), st.open, st.riders, false, r');
    UniqueConcat(st.spans, RiderSpans(st.riders));
    TwoRiders(st.riders, r', r, q, t);
  }

  /** Spans of different riders have different ids. */
  lemma {:induction false} TwoRiders(riders: seq<Rider>, a: Rider, b: Rider, q: Span, t: Span)
    requires UniqueIds(RiderSpans(riders)) && a in riders && b in riders && a != b && q in a.spans && t in b.spans
    ensures q.id != t.id
  {
    var front, last := riders[..|riders| - 1], riders[|riders| - 1];
    assert riders == front + [last];
    UniqueConcat(RiderSpans(front), last.spans);
    if a != last && b != last {
      TwoRiders(front, a, b, q, t);
    } else {
      RiderSpansMember(front, if a == last then t else q);
      DisjointParts(RiderSpans(front), last.spans, if a == last then t else q, if a == last then q else t);
    }
  }

  lemma DisjointParts(a: seq<Span>, b: seq<Span>, s: Span, t: Span)
    requires UniqueIds(a + b) && s in a && t in b
    ensures s.id != t.id
  {
    var i :| 0 <= i < |a| && a[i] == s;
    var j :| 0 <= j < |b| && b[j] == t;
    assert (a + b)[i] == s && (a + b)[|a| + j] == t;
  }
}
