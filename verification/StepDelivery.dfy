/** In what order the spans of a trace reach the queue. */
module StepDelivery {
  import opened Options
  import opened SpanModel
  import opened Ancestry
  import opened ParentFirst
  import opened StepTrace
  import opened StepFlush
  import opened StepRuns

  /** Each span of `list` whose parent was due finds that parent in `before` or earlier in
      the list. */
  ghost predicate Follows(due: set<Id>, before: set<Id>, list: seq<Span>) {
    forall k :: 0 <= k < |list| && list[k].id in due && list[k].parent.Some? ==>
      ParentAhead(before, list, k)
  }

  ghost predicate ParentAhead(before: set<Id>, list: seq<Span>, k: nat)
    requires k < |list| && list[k].parent.Some?
  {
    list[k].parent.value in before || exists j :: 0 <= j < k && list[j].id == list[k].parent.value
  }

  lemma FollowsConcat(due: set<Id>, before: set<Id>, a: seq<Span>, b: seq<Span>)
    requires Follows(due, before, a) && Follows(due, before + Ids(a), b)
    ensures Follows(due, before, a + b)
  {
    var all := a + b;
    forall k | 0 <= k < |all| && all[k].id in due && all[k].parent.Some? ensures ParentAhead(before, all, k) {
      if k < |a| {
        assert ParentAhead(before, a, k);
        if all[k].parent.value !in before {
          var j :| 0 <= j < k && a[j].id == a[k].parent.value;
          assert all[j] == a[j];
        }
      } else {
        assert ParentAhead(before + Ids(a), b, k - |a|);
        if all[k].parent.value in Ids(a) {
          var s :| s in a && s.id == all[k].parent.value;
          var j :| 0 <= j < |a| && a[j] == s;
          assert all[j] == s;
        } else if all[k].parent.value !in before {
          var j :| 0 <= j < k - |a| && b[j].id == all[k].parent.value;
          assert all[|a| + j] == b[j];
        }
      }
    }
  }

  /** What a report must not do for the order to hold. It must not point at a span that
      waits on a rider, unless it is a rider itself and that rider carries only that span;
      once the root was sent, a report must be wholly under open steps or not at all; and a
      report that no root takes, which is sent as it is, must have its parents first. */
  ghost predicate WellPlaced(st: TraceState, e: Entry) {
    && (forall s, r, t :: s in e.spans && r in st.riders && t in r.spans && s.parent == Some(t.id) ==>
          e.capture.Some? && |r.spans| == 1)
    && (st.sent && e.capture.None? && AnyHeld(Links(Buffered(st) + e.spans), st.open, e.spans) ==>
          forall s :: s in e.spans ==> Held(Links(Buffered(st) + e.spans), st.open, s))
    && (!Takes(st, e.spans) ==> NamesNoLater(e.spans))
  }

  /** No span names itself or one that stands later in the list. */
  ghost predicate NamesNoLater(spans: seq<Span>) {
    forall i, j :: 0 <= i <= j < |spans| ==> spans[i].parent != Some(spans[j].id)
  }

  ghost predicate Placed(w: World, ev: Event) {
    ev.Report? ==> WellPlaced(w.st, ev.entry)
  }

  // ---- the invariant ----

  /** After the root was sent, only what hangs under an open step is still buffered. */
  ghost predicate HeldOk(st: TraceState) {
    st.sent ==>
      && (forall s :: s in st.spans ==> Held(Links(Buffered(st)), st.open, s))
      && (forall r :: r in st.riders ==> AnyHeld(Links(Buffered(st)), st.open, r.spans))
  }

  /** Where the parent of a buffered main span may be. */
  ghost function Base(st: TraceState, sent: set<Id>): set<Id> {
    st.open + sent + Ids(st.spans)
  }

  ghost predicate AllIn(due: set<Id>, base: set<Id>, spans: seq<Span>) {
    forall s :: s in spans && s.id in due && s.parent.Some? ==> s.parent.value in base
  }

  lemma AllInGrows(due: set<Id>, base: set<Id>, base': set<Id>, spans: seq<Span>)
    requires AllIn(due, base, spans) && base <= base'
    ensures AllIn(due, base', spans)
  {
  }

  /** The spans of riders that carry one span only. */
  ghost function Singles(riders: seq<Rider>): set<Id> {
    if riders == [] then {}
    else
      var last := riders[|riders| - 1];
      Singles(riders[..|riders| - 1]) + Single(last)
  }

  ghost predicate RidersIn(due: set<Id>, base: set<Id>, riders: seq<Rider>) {
    riders == [] ||
    (var front, last := riders[..|riders| - 1], riders[|riders| - 1];
     RidersIn(due, base, front) && AllIn(due, base + Ids(last.spans) + Singles(front), last.spans))
  }

  ghost predicate Waiting(st: TraceState, due: set<Id>, sent: set<Id>) {
    && AllIn(due, Base(st, sent), st.spans)
    && RidersIn(due, Base(st, sent), st.riders)
  }

  ghost function SentIds(log: seq<Entry>): set<Id> {
    Ids(SpansOf(log))
  }

  ghost predicate Clean(w: World) {
    && HeldOk(w.st)
    && Waiting(w.st, w.due, SentIds(w.log))
    && Follows(w.due, {}, SpansOf(w.log))
    && (forall r, s :: r in w.st.riders && s in r.spans ==> s.id !in w.under)
    && w.due <= Ids(w.recorded)
  }

  // ---- growing bases ----

  lemma {:induction false} RidersInGrows(due: set<Id>, base: set<Id>, due': set<Id>, base': set<Id>, riders: seq<Rider>)
    requires RidersIn(due, base, riders) && base <= base'
    requires forall s :: s in RiderSpans(riders) && s.id in due' ==> s.id in due
    ensures RidersIn(due', base', riders)
  {
    if riders != [] {
      RidersInGrows(due, base, due', base', riders[..|riders| - 1]);
    }
  }

  // ---- a flush ----

  /** Main spans that are not held, parents first, follow what was sent before. */
  lemma MainFollows(st: TraceState, due: set<Id>, sent: set<Id>)
    requires Sound(st) && Acyclic(Buffered(st))
    requires AllIn(due, Base(st, sent), st.spans)
    ensures UniqueIds(Ready(st)) && Acyclic(Ready(st))
    ensures Follows(due, sent, Ordered(Ready(st)))
  {
    FlushListsAcyclic(st);
    ReadyIsNotHeld(st);
    var ready := Ready(st);
    var out := Ordered(ready);
    OrderedKeeps(ready);
    OrderedIsParentFirst(ready);
    forall k | 0 <= k < |out| && out[k].id in due && out[k].parent.Some? ensures ParentAhead(sent, out, k) {
      var s := out[k];
      assert s in ready;
      SiftMember(Links(Buffered(st)), st.open, st.spans, false, s);
      var p := s.parent.value;
      NotOpenParent(st, s);
      if p !in sent {
        var q :| q in st.spans && q.id == p;
        assert q in ready;
        assert KeyOf(Ids(ready), s) == Some(p);
      }
    }
  }

  lemma NotOpenParent(st: TraceState, s: Span)
    requires s.parent.Some? && !Held(Links(Buffered(st)), st.open, s)
    ensures s.parent.value !in st.open
  {
    HangsStep(Links(Buffered(st)), st.open, s.parent.value);
  }

  /** A rider's spans, parents first, follow what the base, the ready main spans and the
      riders before it have brought. */
  lemma RiderFollows(st: TraceState, due: set<Id>, sent: set<Id>, before: set<Id>, r: Rider, singles: set<Id>)
    requires Sound(st) && Acyclic(Buffered(st)) && r in st.riders
    requires AllIn(due, Base(st, sent) + Ids(r.spans) + singles, r.spans)
    requires !AnyHeld(Links(Buffered(st)), st.open, r.spans)
    requires sent + Ids(Ready(st)) <= before
    requires forall t ::
      t in Buffered(st) && t.id in singles && !Held(Links(Buffered(st)), st.open, t) ==>
      t.id in before
    requires forall id :: id in singles ==> id in Ids(Buffered(st))
    ensures UniqueIds(r.spans) && Follows(due, before, Ordered(r.spans))
  {
    var links := Links(Buffered(st));
    UniqueConcat(st.spans, RiderSpans(st.riders));
    RiderUnique(st.riders, r);
    forall s | s in r.spans ensures s in Buffered(st) {
      RiderSpansMember(st.riders, s);
    }
    AcyclicSub(Buffered(st), r.spans);
    var out := Ordered(r.spans);
    OrderedKeeps(r.spans);
    OrderedIsParentFirst(r.spans);
    forall k | 0 <= k < |out| && out[k].id in due && out[k].parent.Some? ensures ParentAhead(before, out, k) {
      assert out[k] in r.spans;
      if out[k].parent.value in Ids(r.spans) {
        assert KeyOf(Ids(r.spans), out[k]) == out[k].parent;
      } else {
        RiderParentSent(st, sent, singles, out[k]);
      }
    }
  }

  /** The parent of a span that is not held, if it waits as a main span or alone on a rider,
      is not held either. */
  lemma RiderParentSent(st: TraceState, sent: set<Id>, singles: set<Id>, s: Span)
    requires Sound(st) && s.parent.Some? && !Held(Links(Buffered(st)), st.open, s)
    requires s.parent.value in Base(st, sent) + singles
    requires forall id :: id in singles ==> id in Ids(Buffered(st))
    ensures || s.parent.value in sent + Ids(Ready(st))
            || (exists t ::
                  t in Buffered(st) && t.id == s.parent.value && t.id in singles &&
                  !Held(Links(Buffered(st)), st.open, t))
  {
    var links, p := Links(Buffered(st)), s.parent.value;
    NotOpenParent(st, s);
    if p !in sent {
      var q :| q in Buffered(st) && q.id == p && (q in st.spans || p in singles);
      LinksOf(Buffered(st), q);
      HangsStep(links, st.open, p);
      if q in st.spans {
        SiftMember(links, st.open, st.spans, false, q);
      }
    }
  }

  lemma {:induction false} SinglesBuffered(riders: seq<Rider>)
    ensures forall id :: id in Singles(riders) ==> id in Ids(RiderSpans(riders))
  {
    if riders != [] {
      var front, last := riders[..|riders| - 1], riders[|riders| - 1];
      SinglesBuffered(front);
      IdsConcat(RiderSpans(front), last.spans);
      if |last.spans| == 1 { assert last.spans[0] in last.spans; }
    }
  }

  lemma CarriesItsSingle(traceId: Id, riders: seq<Rider>, r: Rider, t: Span)
    requires UniqueIds(r.spans) && Acyclic(r.spans) && t in r.spans
    ensures t.id in SentIds(RiderEntries(traceId, riders + [r]))
  {
    EntriesAppend(traceId, riders, r);
    OrderedKeeps(r.spans);
    assert t in Ordered(r.spans);
  }

  /** The single span of a rider that was sifted out as not held is among the sent ones. */
  lemma {:induction false} SinglesSent(st: TraceState, riders: seq<Rider>, traceId: Id, t: Span)
    requires Sound(st) && (forall r :: r in riders ==> UniqueIds(r.spans) && Acyclic(r.spans))
    requires (forall s :: s in RiderSpans(riders) ==> s in Buffered(st))
    requires t in Buffered(st) && t.id in Singles(riders) && !Held(Links(Buffered(st)), st.open, t)
    ensures t.id in SentIds(RiderEntries(traceId, SiftRiders(Links(Buffered(st)), st.open, riders, false)))
  {
    var links, front, last := Links(Buffered(st)), riders[..|riders| - 1], riders[|riders| - 1];
    assert riders == front + [last];
    var sifted := SiftRiders(links, st.open, front, false);
    if |last.spans| == 1 && last.spans[0].id == t.id {
      assert last.spans[0] in RiderSpans(riders);
      SameIdSameSpan(Buffered(st), last.spans[0], t);
      assert !AnyHeld(links, st.open, last.spans);
      CarriesItsSingle(traceId, sifted, last, t);
    } else {
      SinglesSent(st, front, traceId, t);
      if !AnyHeld(links, st.open, last.spans) {
        EntriesAppend(traceId, sifted, last);
      } else {
        assert SiftRiders(links, st.open, riders, false) == sifted;
      }
    }
  }

  lemma EntriesAppend(traceId: Id, riders: seq<Rider>, r: Rider)
    ensures SpansOf(RiderEntries(traceId, riders + [r])) == SpansOf(RiderEntries(traceId, riders)) + Arranged(r.spans)
    ensures SentIds(RiderEntries(traceId, riders + [r]))
      == SentIds(RiderEntries(traceId, riders)) + Ids(Arranged(r.spans))
  {
    assert (riders + [r])[..|riders|] == riders;
    var e := RiderEntry(traceId, r.capture, Arranged(r.spans));
    assert RiderEntries(traceId, riders + [r]) == RiderEntries(traceId, riders) + [e];
    SpansOfConcat(RiderEntries(traceId, riders), [e]);
    SpansOfOne(e);
    IdsConcat(SpansOf(RiderEntries(traceId, riders)), Arranged(r.spans));
  }

  lemma {:induction false} RidersFollow(st: TraceState, due: set<Id>, sent: set<Id>, riders: seq<Rider>)
    requires Sound(st) && Acyclic(Buffered(st))
    requires forall r :: r in riders ==> r in st.riders
    requires RidersIn(due, Base(st, sent), riders)
    ensures Follows(due, sent + Ids(Ready(st)),
      SpansOf(RiderEntries(st.traceId, SiftRiders(Links(Buffered(st)), st.open, riders, false))))
  {
    if riders != [] {
      var links, front, last := Links(Buffered(st)), riders[..|riders| - 1], riders[|riders| - 1];
      assert last in riders;
      RidersFollow(st, due, sent, front);
      var sifted := SiftRiders(links, st.open, front, false);
      if !AnyHeld(links, st.open, last.spans) {
        EntriesAppend(st.traceId, sifted, last);
        var done := SpansOf(RiderEntries(st.traceId, sifted));
        RiderPartsOk(st, front);
        SinglesBuffered(front);
        forall t | t in Buffered(st) && t.id in Singles(front) && !Held(links, st.open, t) ensures t.id in Ids(done) {
          SinglesSent(st, front, st.traceId, t);
        }
        RiderFollows(st, due, sent, sent + Ids(Ready(st)) + Ids(done), last, Singles(front));
        FollowsConcat(due, sent + Ids(Ready(st)), done, Ordered(last.spans));
      } else {
        assert SiftRiders(links, st.open, riders, false) == sifted;
      }
    }
  }

  lemma RiderPartsOk(st: TraceState, riders: seq<Rider>)
    requires Sound(st) && Acyclic(Buffered(st))
    requires forall r :: r in riders ==> r in st.riders
    ensures forall r :: r in riders ==> UniqueIds(r.spans) && Acyclic(r.spans)
    ensures forall s :: s in RiderSpans(riders) ==> s in Buffered(st)
  {
    UniqueConcat(st.spans, RiderSpans(st.riders));
    forall s | s in RiderSpans(riders) ensures s in Buffered(st) {
      RiderSpansMember(riders, s);
      RiderSpansMember(st.riders, s);
    }
    forall r | r in riders ensures UniqueIds(r.spans) && Acyclic(r.spans) {
      RiderUnique(st.riders, r);
      forall s | s in r.spans ensures s in Buffered(st) {
        RiderSpansMember(st.riders, s);
      }
      AcyclicSub(Buffered(st), r.spans);
    }
  }

  /** What a flush hands over follows what was handed over before. */
  lemma FlushFollows(st: TraceState, due: set<Id>, log: seq<Entry>)
    requires Sound(st) && Acyclic(Buffered(st)) && Waiting(st, due, SentIds(log))
    requires Follows(due, {}, SpansOf(log))
    ensures Follows(due, {}, SpansOf(log + FlushReports(st)))
  {
    FlushReportsParts(st);
    MainFollows(st, due, SentIds(log));
    OrderedKeeps(Ready(st));
    RidersFollow(st, due, SentIds(log), st.riders);
    var main, rest := Ordered(Ready(st)), SpansOf(RiderEntries(st.traceId, ReadyRiders(st)));
    assert Ids(main) == Ids(Ready(st));
    FollowsConcat(due, SentIds(log), main, rest);
    SpansOfConcat(log, FlushReports(st));
    assert {} + SentIds(log) == SentIds(log);
    FollowsConcat(due, {}, SpansOf(log), main + rest);
  }

  // ---- what stays after a flush ----

  lemma FlushKeepsHeldOk(st: TraceState)
    requires Sound(st) && st.open !! Ids(Buffered(st))
    ensures HeldOk(FlushState(st))
  {
    var st' := FlushState(st);
    var links, links' := Links(Buffered(st)), Links(Buffered(st'));
    FlushKeepsSub(st);
    LinksSub(Buffered(st), Buffered(st'));
    LinksKeys(Buffered(st));
    LinksKeys(Buffered(st'));
    forall id | id in links && id !in links' ensures !Hangs(links, st.open, Some(id)) {
      var t :| t in Buffered(st) && t.id == id;
      LinksOf(Buffered(st), t);
      if Held(links, st.open, t) { HeldStays(st, t); }
      HangsStep(links, st.open, id);
    }
    forall s | s in Buffered(st') && Held(links, st.open, s) ensures Held(links', st.open, s) {
      HangsShrinks(links, links', st.open, s.parent);
    }
    forall s | s in st'.spans ensures Held(links', st.open, s) {
      SiftMember(links, st.open, st.spans, true, s);
    }
    forall r | r in st'.riders ensures AnyHeld(links', st.open, r.spans) {
      SiftRidersMember(links, st.open, st.riders, true, r);
      var s :| s in r.spans && Held(links, st.open, s);
      RiderSpansMember(st'.riders, s);
    }
  }

  lemma HeldStays(st: TraceState, t: Span)
    requires t in Buffered(st) && Held(Links(Buffered(st)), st.open, t)
    ensures t in Buffered(FlushState(st))
  {
    var links := Links(Buffered(st));
    if t in st.spans {
      SiftMember(links, st.open, st.spans, true, t);
    } else {
      RiderSpansMember(st.riders, t);
      var r :| r in st.riders && t in r.spans;
      SiftRidersMember(links, st.open, st.riders, true, r);
      RiderSpansMember(FlushState(st).riders, t);
    }
  }

  lemma FlushKeepsSub(st: TraceState)
    requires Sound(st)
    ensures UniqueIds(Buffered(FlushState(st)))
    ensures forall s :: s in Buffered(FlushState(st)) ==> s in Buffered(st)
  {
    var links := Links(Buffered(st));
    SiftSplits(links, st.open, st.spans);
    SiftRidersSplit(links, st.open, st.riders);
    var st' := FlushState(st);
    assert multiset(Buffered(st')) == multiset(st'.spans) + multiset(RiderSpans(st'.riders));
    assert multiset(Buffered(st)) == multiset(st.spans) + multiset(RiderSpans(st.riders));
    UniqueSub(Buffered(st), Buffered(st'));
  }

  ghost function Single(r: Rider): set<Id> {
    if |r.spans| == 1 then {r.spans[0].id} else {}
  }

  lemma RidersSnoc(due: set<Id>, base: set<Id>, front: seq<Rider>, last: Rider)
    ensures Singles(front + [last]) == Singles(front) + Single(last)
    ensures RidersIn(due, base, front + [last]) <==>
      RidersIn(due, base, front) && AllIn(due, base + Ids(last.spans) + Singles(front), last.spans)
  {
    assert (front + [last])[..|front|] == front;
  }

  /** The ids that the riders sifted out as ready carry. */
  ghost function GoneIds(st: TraceState, riders: seq<Rider>): set<Id> {
    SentIds(RiderEntries(st.traceId, SiftRiders(Links(Buffered(st)), st.open, riders, false)))
  }

  ghost function HeldRiders(st: TraceState, riders: seq<Rider>): seq<Rider> {
    SiftRiders(Links(Buffered(st)), st.open, riders, true)
  }

  lemma SiftedSnoc(st: TraceState, front: seq<Rider>, last: Rider)
    requires Sound(st) && Acyclic(Buffered(st)) && last in st.riders
    ensures
      var held := AnyHeld(Links(Buffered(st)), st.open, last.spans);
      && HeldRiders(st, front + [last]) == HeldRiders(st, front) + (if held then [last] else [])
      && GoneIds(st, front + [last]) == GoneIds(st, front) + (if held then {} else Ids(last.spans))
  {
    var links := Links(Buffered(st));
    SiftRidersSnoc(links, st.open, front, last, true);
    SiftRidersSnoc(links, st.open, front, last, false);
    EntriesAppend(st.traceId, SiftRiders(links, st.open, front, false), last);
    ArrangedIds(st, last);
  }

  lemma ArrangedIds(st: TraceState, r: Rider)
    requires Sound(st) && Acyclic(Buffered(st)) && r in st.riders
    ensures Ids(Arranged(r.spans)) == Ids(r.spans)
  {
    RiderPartsOk(st, [r]);
    assert r in [r];
    OrderedKeeps(r.spans);
  }

  /** A rider's only span stays on a held rider or was sent. */
  lemma {:induction false} SiftedSingles(st: TraceState, riders: seq<Rider>)
    requires Sound(st) && Acyclic(Buffered(st))
    requires forall r :: r in riders ==> r in st.riders
    ensures Singles(riders) <= GoneIds(st, riders) + Singles(HeldRiders(st, riders))
  {
    if riders != [] {
      var front, last := riders[..|riders| - 1], riders[|riders| - 1];
      assert riders == front + [last] && last in riders;
      SiftedSingles(st, front);
      SiftedSnoc(st, front, last);
      RidersSnoc({}, {}, front, last);
      RidersSnoc({}, {}, HeldRiders(st, front), last);
      SingleIn(last);
    }
  }

  lemma SingleIn(r: Rider)
    ensures Single(r) <= Ids(r.spans)
  {
    if |r.spans| == 1 { assert r.spans[0] in r.spans; }
  }

  lemma {:induction false} SiftedRidersIn(st: TraceState, due: set<Id>, base: set<Id>, base': set<Id>,
    riders: seq<Rider>)
    requires Sound(st) && Acyclic(Buffered(st))
    requires forall r :: r in riders ==> r in st.riders
    requires RidersIn(due, base, riders) && base <= base' && GoneIds(st, riders) <= base'
    ensures RidersIn(due, base', HeldRiders(st, riders))
  {
    if riders != [] {
      var front, last := riders[..|riders| - 1], riders[|riders| - 1];
      assert riders == front + [last] && last in riders;
      SiftedSnoc(st, front, last);
      RidersSnoc(due, base, front, last);
      SiftedRidersIn(st, due, base, base', front);
      SiftedSingles(st, front);
      AllInGrows(due, base + Ids(last.spans) + Singles(front),
        base' + Ids(last.spans) + Singles(HeldRiders(st, front)), last.spans);
      RidersSnoc(due, base', HeldRiders(st, front), last);
    }
  }

  lemma FlushSentIds(st: TraceState, log: seq<Entry>)
    requires Sound(st) && Acyclic(Buffered(st))
    ensures SentIds(log + FlushReports(st)) == SentIds(log) + Ids(Ready(st)) + GoneIds(st, st.riders)
  {
    FlushReportsParts(st);
    FlushListsAcyclic(st);
    OrderedKeeps(Ready(st));
    SpansOfConcat(log, FlushReports(st));
    IdsConcat(SpansOf(log), SpansOf(FlushReports(st)));
    IdsConcat(Ordered(Ready(st)), SpansOf(RiderEntries(st.traceId, ReadyRiders(st))));
  }

  lemma FlushKeepsWaiting(st: TraceState, due: set<Id>, log: seq<Entry>)
    requires Sound(st) && Acyclic(Buffered(st)) && Waiting(st, due, SentIds(log))
    ensures Waiting(FlushState(st), due, SentIds(log + FlushReports(st)))
  {
    var st', links := FlushState(st), Links(Buffered(st));
    var base, base' := Base(st, SentIds(log)), Base(st', SentIds(log + FlushReports(st)));
    FlushSentIds(st, log);
    forall s | s in st.spans ensures s in st'.spans || s in Ready(st) {
      SiftMember(links, st.open, st.spans, true, s);
      SiftMember(links, st.open, st.spans, false, s);
    }
    assert base <= base';
    forall s | s in st'.spans ensures s in st.spans {
      SiftMember(links, st.open, st.spans, true, s);
    }
    SiftedRidersIn(st, due, base, base', st.riders);
  }

  // ---- one event ----

  lemma OpenKeepsClean(w: World, id: Id, parent: Option<Id>, ctx: Context)
    requires Inv(w) && Clean(w) && Legal(w, Open(id, parent, ctx))
    ensures Clean(OpenNext(w, id, parent, ctx))
  {
    var w' := OpenNext(w, id, parent, ctx);
    var links := Links(Buffered(w.st));
    assert Buffered(w'.st) == Buffered(w.st);
    forall s: Span | Held(links, w.st.open, s) ensures Held(links, w'.st.open, s) {
      HangsGrows(links, links, w.st.open, w'.st.open, s.parent);
    }
    RidersInGrows(w.due, Base(w.st, SentIds(w.log)), w.due, Base(w'.st, SentIds(w.log)), w.st.riders);
    PartsOfAccounted(w.recorded, Buffered(w.st), SpansOf(w.log), w.refused);
    forall r, s | r in w.st.riders && s in r.spans ensures s.id !in w'.under {
      RiderSpansMember(w.st.riders, s);
      assert s in Buffered(w.st) + SpansOf(w.log) + w.refused;
    }
  }

  /** Where a step that was ever opened is now, if nothing was refused. */
  lemma StepSomewhere(w: World, id: Id)
    requires Inv(w) && Clean(w) && w.refused == [] && id in w.under
    ensures id in Base(w.st, SentIds(w.log))
  {
    if id !in w.st.open {
      var s :| s in w.recorded && s.id == id;
      RecordedSomewhere(w, s);
      if s in RiderSpans(w.st.riders) {
        RiderSpansMember(w.st.riders, s);
      }
    }
  }

  lemma RecordedSomewhere(w: World, s: Span)
    requires Conserved(w) && w.refused == [] && s in w.recorded
    ensures s in w.st.spans || s in RiderSpans(w.st.riders) || s in SpansOf(w.log)
  {
    PartsOfAccounted(w.recorded, Buffered(w.st), SpansOf(w.log), w.refused);
    assert s in Buffered(w.st) + SpansOf(w.log) + w.refused;
  }

  lemma FollowsNewDue(due: set<Id>, due': set<Id>, before: set<Id>, list: seq<Span>)
    requires Follows(due, before, list)
    requires forall s :: s in list && s.id in due' ==> s.id in due
    ensures Follows(due', before, list)
  {
    forall k | 0 <= k < |list| && list[k].id in due' && list[k].parent.Some? ensures ParentAhead(before, list, k) {
      assert list[k] in list;
    }
  }

  /** The step that a step is under is open, waits as a main span or was sent. */
  lemma StepParentSomewhere(w: World, id: Id)
    requires Inv(w) && Clean(w) && w.refused == [] && id in w.st.open && w.under[id].Some?
    ensures w.under[id].value in Base(w.st, SentIds(w.log))
  {
    var k :| 0 <= k < |w.steps| && w.steps[k] == id;
    assert ParentOpenedBefore(w.steps, w.under, k);
    var j :| 0 <= j < k && w.steps[j] == w.under[id].value;
    assert ParentOpenedBefore(w.steps, w.under, j);
    StepSomewhere(w, w.under[id].value);
  }

  lemma RecordKeepsWaiting(w: World, span: Span, maxSpans: nat)
    requires Inv(w) && Clean(w) && w.refused == [] && span.id in w.st.open && span.parent == w.under[span.id]
    requires Keeps(w.st, span, span.parent.None?, maxSpans)
    ensures Waiting(Recorded(w.st, span, maxSpans), w.due + {span.id}, SentIds(w.log))
  {
    if span.parent.Some? { StepParentSomewhere(w, span.id); }
    OldSpansNotNew(w, span.id);
    var rec := Recorded(w.st, span, maxSpans);
    assert rec.open == w.st.open - {span.id} && rec.spans == w.st.spans + [span] && rec.riders == w.st.riders;
    WaitingWithStep(w.st, rec, w.due, SentIds(w.log), span);
  }

  lemma WaitingWithStep(st: TraceState, rec: TraceState, due: set<Id>, sent: set<Id>, span: Span)
    requires Waiting(st, due, sent) && (forall s :: s in Buffered(st) ==> s.id != span.id)
    requires rec.open == st.open - {span.id} && rec.spans == st.spans + [span] && rec.riders == st.riders
    requires span.parent.Some? ==> span.parent.value in Base(st, sent)
    ensures Waiting(rec, due + {span.id}, sent)
  {
    IdsSnoc(st.spans, span);
    assert Base(st, sent) <= Base(rec, sent);
    RidersInGrows(due, Base(st, sent), due + {span.id}, Base(rec, sent), st.riders);
  }

  lemma OldSpansNotNew(w: World, id: Id)
    requires Conserved(w) && id !in Ids(w.recorded)
    ensures forall s :: s in Buffered(w.st) ==> s.id != id
    ensures forall s :: s in SpansOf(w.log) ==> s.id != id
  {
    PartsOfAccounted(w.recorded, Buffered(w.st), SpansOf(w.log), w.refused);
    forall s | s in Buffered(w.st) || s in SpansOf(w.log) ensures s.id != id {
      assert s in Buffered(w.st) + SpansOf(w.log) + w.refused;
    }
  }

  lemma RecordedSound(w: World, span: Span, maxSpans: nat)
    requires Inv(w) && span.id in w.st.open && span.parent == w.under[span.id]
    ensures UniqueIds(w.recorded + [span]) && Acyclic(w.recorded + [span])
    ensures var rec := Recorded(w.st, span, maxSpans);
      Sound(rec) && Acyclic(Buffered(rec)) && rec.open !! Ids(Buffered(rec))
  {
    var rec := Recorded(w.st, span, maxSpans);
    CloseStaysAcyclic(w, span.id, span);
    RecordAccounts(w, span, maxSpans);
    var refused := if Keeps(w.st, span, span.parent.None?, maxSpans) then w.refused else w.refused + [span];
    PartsOfAccounted(w.recorded + [span], Buffered(rec), SpansOf(w.log), refused);
    forall s | s in Buffered(rec) ensures s.id !in rec.open {
      assert s in Buffered(rec) + SpansOf(w.log) + refused;
    }
  }

  lemma CloseFlushClean(st: TraceState, due: set<Id>, log: seq<Entry>)
    requires Sound(st) && Acyclic(Buffered(st)) && st.open !! Ids(Buffered(st))
    requires Waiting(st, due, SentIds(log)) && Follows(due, {}, SpansOf(log))
    ensures var st', log' := FlushState(st.(registered := true)), log + FlushReports(st);
      HeldOk(st') && Waiting(st', due, SentIds(log')) && Follows(due, {}, SpansOf(log'))
  {
    var reg := st.(registered := true);
    FlushIgnoresRegistered(st);
    FlushFollows(reg, due, log);
    FlushKeepsWaiting(reg, due, log);
    FlushKeepsHeldOk(reg);
  }

  lemma ClosedRiders(st: TraceState, span: Span, maxSpans: nat, r: Rider)
    requires r in Closed(st, span, maxSpans).riders
    ensures r in st.riders
  {
    var rec := Recorded(st, span, maxSpans);
    if Flushes(rec, span) {
      SiftRidersMember(Links(Buffered(rec)), rec.open, rec.riders, true, r);
    }
  }

  lemma ClosedOrder(w: World, span: Span, maxSpans: nat)
    requires Inv(w) && Clean(w) && w.refused == [] && span.id in w.st.open && span.parent == w.under[span.id]
    requires Keeps(w.st, span, span.parent.None?, maxSpans)
    ensures var st', log' := Closed(w.st, span, maxSpans), w.log + CloseReports(w.st, span, maxSpans);
      HeldOk(st') && Waiting(st', w.due + {span.id}, SentIds(log')) && Follows(w.due + {span.id}, {}, SpansOf(log'))
  {
    var rec := Recorded(w.st, span, maxSpans);
    RecordedSound(w, span, maxSpans);
    RecordKeepsWaiting(w, span, maxSpans);
    OldSpansNotNew(w, span.id);
    FollowsNewDue(w.due, w.due + {span.id}, {}, SpansOf(w.log));
    if Flushes(rec, span) {
      CloseFlushClean(rec, w.due + {span.id}, w.log);
    } else {
      assert w.log + [] == w.log;
    }
  }

  lemma CloseKeepsClean(w: World, id: Id, payload: string, maxSpans: nat)
    requires Inv(w) && Clean(w) && Legal(w, Close(id, payload))
    requires CloseNext(w, id, payload, maxSpans).refused == []
    ensures Clean(CloseNext(w, id, payload, maxSpans))
  {
    var span, w' := StepSpan(w.st, id, w.under[id], payload), CloseNext(w, id, payload, maxSpans);
    ClosedOrder(w, span, maxSpans);
    IdsSnoc(w.recorded, span);
    forall r, s | r in w'.st.riders && s in r.spans ensures s.id !in w'.under {
      ClosedRiders(w.st, span, maxSpans, r);
    }
  }

  // ---- a report that a root takes ----

  lemma ReportSubs(w: World, e: Entry)
    requires Inv(w) && Legal(w, Report(e))
    ensures forall s :: s in Buffered(w.st) ==> s in w.recorded
    ensures UniqueIds(Buffered(w.st) + e.spans)
    ensures forall s, t :: s in e.spans && (t in Buffered(w.st) || t in SpansOf(w.log)) ==> s.id != t.id
  {
    PartsOfAccounted(w.recorded, Buffered(w.st), SpansOf(w.log), w.refused);
    UniqueConcat(w.recorded, e.spans);
    forall t | t in Buffered(w.st) || t in SpansOf(w.log) ensures t in w.recorded {
      assert t in Buffered(w.st) + SpansOf(w.log) + w.refused;
    }
  }

  /** Putting a wholly held report into the buffer changes no link and unhooks nothing. */
  lemma LinksOfSame(a: seq<Span>, b: seq<Span>)
    requires UniqueIds(a) && UniqueIds(b) && forall s :: s in a <==> s in b
    ensures Links(a) == Links(b)
  {
    LinksSub(a, b);
    LinksSub(b, a);
  }

  lemma RoutedMembers(st: TraceState, e: Entry, maxSpans: nat, s: Span)
    requires Refused(st, Arranged(e.spans), maxSpans) == []
    requires forall t :: t in Arranged(e.spans) <==> t in e.spans
    ensures s in Buffered(Routed(st, e, maxSpans)) <==> s in Buffered(st) || s in e.spans
  {
    KeepAllUnlessRefused(st, Arranged(e.spans), maxSpans);
    RoutedBuffer(st, e, maxSpans);
  }

  /** The two buffers after taking a report of which nothing was refused. */
  lemma RoutedLists(st: TraceState, e: Entry, maxSpans: nat)
    requires Refused(st, Arranged(e.spans), maxSpans) == []
    ensures var st' := Routed(st, e, maxSpans);
      if e.capture.Some? then st'.spans == st.spans
        && st'.riders == st.riders + [Rider(e.capture.value, Arranged(e.spans))]
      else st'.spans == st.spans + Arranged(e.spans) && st'.riders == st.riders
  {
    KeepAllFrame(st, Arranged(e.spans), maxSpans);
    KeepAllUnlessRefused(st, Arranged(e.spans), maxSpans);
  }

  lemma RoutedLinks(w: World, e: Entry, maxSpans: nat)
    requires Inv(w) && Legal(w, Report(e)) && Refused(w.st, Arranged(e.spans), maxSpans) == []
    ensures Links(Buffered(Routed(w.st, e, maxSpans))) == Links(Buffered(w.st) + e.spans)
  {
    ArrangedKeeps(w.recorded, e.spans);
    ReportSubs(w, e);
    RoutedAccounts(w, e, maxSpans);
    PartsOfAccounted(w.recorded + e.spans, Buffered(Routed(w.st, e, maxSpans)), SpansOf(w.log),
                     w.refused + Refused(w.st, Arranged(e.spans), maxSpans));
    forall s: Span ensures s in Buffered(Routed(w.st, e, maxSpans)) <==> s in Buffered(w.st) + e.spans {
      RoutedMembers(w.st, e, maxSpans, s);
    }
    LinksOfSame(Buffered(Routed(w.st, e, maxSpans)), Buffered(w.st) + e.spans);
  }

  lemma MoreLinks(a: seq<Span>, b: seq<Span>)
    requires UniqueIds(a + b)
    ensures forall id :: id in Links(a) ==> id in Links(a + b) && Links(a + b)[id] == Links(a)[id]
  {
    UniqueConcat(a, b);
    LinksSub(a + b, a);
  }

  lemma StillHeld(links: LinkMap, links': LinkMap, open: set<Id>)
    requires forall id :: id in links ==> id in links' && links'[id] == links[id]
    ensures forall s: Span :: Held(links, open, s) ==> Held(links', open, s)
    ensures forall spans: seq<Span> :: AnyHeld(links, open, spans) ==> AnyHeld(links', open, spans)
  {
    forall s: Span | Held(links, open, s) ensures Held(links', open, s) {
      HangsGrows(links, links', open, open, s.parent);
    }
  }

  lemma RoutedHeldOk(w: World, e: Entry, maxSpans: nat)
    requires Inv(w) && Clean(w) && Legal(w, Report(e)) && WellPlaced(w.st, e) && Takes(w.st, e.spans)
    requires Refused(w.st, Arranged(e.spans), maxSpans) == []
    ensures HeldOk(Routed(w.st, e, maxSpans))
  {
    RoutedFrame(w.st, e, maxSpans);
    if w.st.sent {
      RoutedLinks(w, e, maxSpans);
      RoutedLists(w.st, e, maxSpans);
      ReportSubs(w, e);
      MoreLinks(Buffered(w.st), e.spans);
      ArrangedKeeps(w.recorded, e.spans);
      HeldOkWith(w.st, Routed(w.st, e, maxSpans), e, Arranged(e.spans));
    }
  }

  lemma HeldOkWith(st: TraceState, st': TraceState, e: Entry, list: seq<Span>)
    requires HeldOk(st) && st.sent && WellPlaced(st, e) && Takes(st, e.spans) && st'.open == st.open
    requires forall s :: s in list <==> s in e.spans
    requires Links(Buffered(st')) == Links(Buffered(st) + e.spans)
    requires forall id :: id in Links(Buffered(st)) ==>
      id in Links(Buffered(st')) && Links(Buffered(st'))[id] == Links(Buffered(st))[id]
    requires if e.capture.Some? then st'.spans == st.spans && st'.riders == st.riders + [Rider(e.capture.value, list)]
      else st'.spans == st.spans + list && st'.riders == st.riders
    ensures HeldOk(st')
  {
    var links' := Links(Buffered(st'));
    StillHeld(Links(Buffered(st)), links', st.open);
    forall s | s in st'.spans ensures Held(links', st.open, s) {
      assert s in st.spans || s in list;
    }
    forall r | r in st'.riders ensures AnyHeld(links', st.open, r.spans) {
      if r !in st.riders {
        var s :| s in e.spans && Held(links', st.open, s);
        assert s in r.spans;
      }
    }
  }

  lemma DueBases(w: World, e: Entry, s: Span)
    requires Inv(w) && Clean(w) && Legal(w, Report(e)) && WellPlaced(w.st, e) && w.refused == []
    requires s in e.spans && s.parent.Some? && s.parent.value in Known(w)
    ensures s.parent.value in Base(w.st, SentIds(w.log)) + (if e.capture.Some? then Singles(w.st.riders) else {})
  {
    var p := s.parent.value;
    if p in w.under {
      StepSomewhere(w, p);
    } else {
      var q :| q in w.recorded && q.id == p;
      RecordedSomewhere(w, q);
      if q in RiderSpans(w.st.riders) {
        RiderSpansMember(w.st.riders, q);
        var r :| r in w.st.riders && q in r.spans;
        SingleOf(w.st.riders, r, q);
      }
    }
  }

  lemma {:induction false} SingleOf(riders: seq<Rider>, r: Rider, q: Span)
    requires r in riders && q in r.spans && |r.spans| == 1
    ensures q.id in Singles(riders)
  {
    var front, last := riders[..|riders| - 1], riders[|riders| - 1];
    assert riders == front + [last];
    if r != last {
      SingleOf(front, r, q);
    }
  }

  lemma RoutedDue(w: World, e: Entry)
    requires Inv(w) && Clean(w) && Legal(w, Report(e)) && WellPlaced(w.st, e) && w.refused == []
    ensures var list := Arranged(e.spans);
      AllIn(w.due + DueIn(Known(w) + Ids(e.spans), e.spans),
            Base(w.st, SentIds(w.log)) + Ids(list) + (if e.capture.Some? then Singles(w.st.riders) else {}), list)
  {
    var list := Arranged(e.spans);
    ArrangedKeeps(w.recorded, e.spans);
    assert Ids(list) == Ids(e.spans);
    forall s | s in list && s.id in w.due + DueIn(Known(w) + Ids(e.spans), e.spans) && s.parent.Some?
      ensures s.parent.value in Base(w.st, SentIds(w.log)) + Ids(list)
        + (if e.capture.Some? then Singles(w.st.riders) else {})
    {
      NewDue(w, e, s);
      if s.parent.value !in Ids(e.spans) { DueBases(w, e, s); }
    }
  }

  lemma WaitingWith(st: TraceState, st': TraceState, due: set<Id>, due': set<Id>,
    sent: set<Id>, e: Entry, list: seq<Span>)
    requires Waiting(st, due, sent) && st'.open == st.open
    requires forall s :: s in Buffered(st) && s.id in due' ==> s.id in due
    requires AllIn(due', Base(st, sent) + Ids(list) + (if e.capture.Some? then Singles(st.riders) else {}), list)
    requires if e.capture.Some? then st'.spans == st.spans && st'.riders == st.riders + [Rider(e.capture.value, list)]
      else st'.spans == st.spans + list && st'.riders == st.riders
    ensures Waiting(st', due', sent)
  {
    IdsConcat(st.spans, list);
    RidersInGrows(due, Base(st, sent), due', Base(st', sent), st.riders);
    if e.capture.Some? {
      RidersSnoc(due', Base(st', sent), st.riders, Rider(e.capture.value, list));
    }
  }

  lemma RoutedWaiting(w: World, e: Entry, maxSpans: nat)
    requires Inv(w) && Clean(w) && Legal(w, Report(e)) && WellPlaced(w.st, e) && w.refused == []
    requires Refused(w.st, Arranged(e.spans), maxSpans) == []
    ensures Waiting(Routed(w.st, e, maxSpans), w.due + DueIn(Known(w) + Ids(e.spans), e.spans), SentIds(w.log))
  {
    var due' := w.due + DueIn(Known(w) + Ids(e.spans), e.spans);
    RoutedFrame(w.st, e, maxSpans);
    RoutedLists(w.st, e, maxSpans);
    NewDueOnly(w, e, due');
    RoutedDue(w, e);
    WaitingWith(w.st, Routed(w.st, e, maxSpans), w.due, due', SentIds(w.log), e, Arranged(e.spans));
  }

  lemma NewDueOnly(w: World, e: Entry, due': set<Id>)
    requires Inv(w) && Legal(w, Report(e)) && w.due <= due' <= w.due + Ids(e.spans)
    ensures forall s :: s in Buffered(w.st) && s.id in due' ==> s.id in w.due
    ensures forall s :: s in SpansOf(w.log) && s.id in due' ==> s.id in w.due
  {
    ReportSubs(w, e);
  }

  lemma NewDue(w: World, e: Entry, s: Span)
    requires Inv(w) && Clean(w) && Legal(w, Report(e)) && s in e.spans
    requires s.id in w.due + DueIn(Known(w) + Ids(e.spans), e.spans)
    ensures s.parent.Some? && s.parent.value in Known(w) + Ids(e.spans)
  {
    UniqueConcat(w.recorded, e.spans);
    assert s.id !in w.due;
    var t :| t in e.spans && t.parent.Some? && t.parent.value in Known(w) + Ids(e.spans) && t.id == s.id;
    SameIdSameSpan(e.spans, s, t);
  }

  lemma RoutedRiders(w: World, e: Entry, maxSpans: nat)
    requires Inv(w) && Clean(w) && Legal(w, Report(e)) && Refused(w.st, Arranged(e.spans), maxSpans) == []
    ensures forall r, s :: r in Routed(w.st, e, maxSpans).riders && s in r.spans ==> s.id !in w.under
  {
    RoutedLists(w.st, e, maxSpans);
    ArrangedKeeps(w.recorded, e.spans);
  }

  lemma DueRecorded(w: World, e: Entry, due': set<Id>)
    requires w.due <= Ids(w.recorded) && due' <= w.due + Ids(e.spans)
    ensures due' <= Ids(w.recorded + e.spans)
  {
    IdsConcat(w.recorded, e.spans);
  }

  lemma RoutedKeepsClean(w: World, e: Entry, maxSpans: nat)
    requires Inv(w) && Clean(w) && Legal(w, Report(e)) && WellPlaced(w.st, e) && Takes(w.st, e.spans)
    requires w.refused == [] && Refused(w.st, Arranged(e.spans), maxSpans) == []
    ensures Clean(ReportNext(w, e, maxSpans))
  {
    var due' := w.due + DueIn(Known(w) + Ids(e.spans), e.spans);
    RoutedHeldOk(w, e, maxSpans);
    RoutedWaiting(w, e, maxSpans);
    NewDueOnly(w, e, due');
    FollowsNewDue(w.due, due', {}, SpansOf(w.log));
    RoutedRiders(w, e, maxSpans);
    DueRecorded(w, e, due');
  }

  // ---- a report that goes straight to the queue ----

  /** A report that no root takes hangs under no open step. */
  lemma NotTakenNotHeld(w: World, e: Entry, s: Span)
    requires Inv(w) && Legal(w, Report(e)) && !Takes(w.st, e.spans) && s in e.spans
    ensures !Held(Links(Buffered(w.st) + e.spans), w.st.open, s)
  {
    var links := Links(Buffered(w.st) + e.spans);
    if !w.st.registered {
      forall n: nat ensures !OpenAt(links, w.st.open, s.parent, n) {}
    }
  }

  /** A span under a buffered one that is held is held. */
  lemma HeldThrough(st: TraceState, more: seq<Span>, s: Span, q: Span)
    requires UniqueIds(Buffered(st) + more) && q in Buffered(st) && s.parent == Some(q.id)
    requires Held(Links(Buffered(st)), st.open, q)
    ensures Held(Links(Buffered(st) + more), st.open, s)
  {
    UniqueConcat(Buffered(st), more);
    MoreLinks(Buffered(st), more);
    LinksOf(Buffered(st), q);
    HangsGrows(Links(Buffered(st)), Links(Buffered(st) + more), st.open, st.open, q.parent);
    HangsStep(Links(Buffered(st) + more), st.open, q.id);
  }

  /** So its known parents were all handed over already. */
  lemma DirectParentSent(w: World, e: Entry, s: Span)
    requires Inv(w) && Clean(w) && Legal(w, Report(e)) && WellPlaced(w.st, e) && !Takes(w.st, e.spans)
    requires w.refused == [] && s in e.spans && s.parent.Some? && s.parent.value in Known(w)
    ensures s.parent.value in SentIds(w.log)
  {
    NotTakenNotHeld(w, e, s);
    HangsStep(Links(Buffered(w.st) + e.spans), w.st.open, s.parent.value);
    ReportSubs(w, e);
    UniqueConcat(Buffered(w.st), e.spans);
    DueBases(w, e, s);
    if s.parent.value in Ids(w.st.spans) + Singles(w.st.riders) {
      var q := WaitingSpan(w.st, s.parent.value);
      if w.st.sent {
        BufferedHeld(w.st, q);
        HeldThrough(w.st, e.spans, s, q);
      }
    }
  }

  lemma WaitingSpan(st: TraceState, id: Id) returns (q: Span)
    requires id in Ids(st.spans) + Singles(st.riders)
    ensures q in Buffered(st) && q.id == id && (q in st.spans || q.id in Singles(st.riders))
  {
    if id in Ids(st.spans) {
      q :| q in st.spans && q.id == id;
    } else {
      SinglesBuffered(st.riders);
      q :| q in RiderSpans(st.riders) && q.id == id;
    }
  }

  /** Once the root was sent, a buffered main span is held, and so is a rider's only span. */
  lemma BufferedHeld(st: TraceState, q: Span)
    requires HeldOk(st) && st.sent && Sound(st) && q in Buffered(st)
    requires q in st.spans || q.id in Singles(st.riders)
    ensures Held(Links(Buffered(st)), st.open, q)
  {
    if q !in st.spans {
      var r := SingleFrom(st.riders, q.id);
      RiderSpansMember(st.riders, r.spans[0]);
      SameIdSameSpan(Buffered(st), r.spans[0], q);
      var s :| s in r.spans && Held(Links(Buffered(st)), st.open, s);
      assert s == r.spans[0];
    }
  }

  lemma {:induction false} SingleFrom(riders: seq<Rider>, id: Id) returns (r: Rider)
    requires id in Singles(riders)
    ensures r in riders && |r.spans| == 1 && r.spans[0].id == id
  {
    var front, last := riders[..|riders| - 1], riders[|riders| - 1];
    if id in Single(last) {
      return last;
    }
    r := SingleFrom(front, id);
  }

  lemma NewDueDirect(w: World, e: Entry, k: nat)
    requires Inv(w) && Clean(w) && Legal(w, Report(e)) && k < |e.spans|
    requires e.spans[k].id in w.due + DueIn(Known(w) + Ids(e.spans), e.spans)
    ensures e.spans[k].parent.Some? && e.spans[k].parent.value in Known(w) + Ids(e.spans)
  {
    UniqueConcat(w.recorded, e.spans);
    assert e.spans[k].id !in w.due;
    var s :| s in e.spans && s.parent.Some? && s.parent.value in Known(w) + Ids(e.spans) && s.id == e.spans[k].id;
    SameIdSameSpan(e.spans, s, e.spans[k]);
  }

  /** In a report that names no later span, a parent in the report stands ahead. */
  lemma NamedStandsAhead(spans: seq<Span>, k: nat)
    requires NamesNoLater(spans) && k < |spans|
    requires spans[k].parent.Some? && spans[k].parent.value in Ids(spans)
    ensures exists j :: 0 <= j < k && spans[j].id == spans[k].parent.value
  {
    var t :| t in spans && t.id == spans[k].parent.value;
    var j :| 0 <= j < |spans| && spans[j] == t;
    assert !(k <= j);
  }

  lemma DirectFollows(w: World, e: Entry)
    requires Inv(w) && Clean(w) && Legal(w, Report(e)) && WellPlaced(w.st, e) && !Takes(w.st, e.spans)
    requires w.refused == []
    ensures Follows(w.due + DueIn(Known(w) + Ids(e.spans), e.spans), SentIds(w.log), e.spans)
  {
    var due' := w.due + DueIn(Known(w) + Ids(e.spans), e.spans);
    forall k | 0 <= k < |e.spans| && e.spans[k].id in due' && e.spans[k].parent.Some?
      ensures ParentAhead(SentIds(w.log), e.spans, k)
    {
      NewDueDirect(w, e, k);
      if e.spans[k].parent.value in Known(w) {
        DirectParentSent(w, e, e.spans[k]);
      } else {
        NamedStandsAhead(e.spans, k);
      }
    }
  }

  lemma DirectLog(w: World, e: Entry, due': set<Id>)
    requires Follows(due', {}, SpansOf(w.log)) && Follows(due', SentIds(w.log), e.spans)
    ensures Follows(due', {}, SpansOf(w.log + [e])) && SentIds(w.log) <= SentIds(w.log + [e])
  {
    SpansOfConcat(w.log, [e]);
    SpansOfOne(e);
    assert {} + SentIds(w.log) == SentIds(w.log);
    FollowsConcat(due', {}, SpansOf(w.log), e.spans);
    IdsConcat(SpansOf(w.log), e.spans);
  }

  lemma DirectKeepsClean(w: World, e: Entry, maxSpans: nat)
    requires Inv(w) && Clean(w) && Legal(w, Report(e)) && WellPlaced(w.st, e) && !Takes(w.st, e.spans)
    requires w.refused == []
    ensures Clean(ReportNext(w, e, maxSpans))
  {
    var due', log' := w.due + DueIn(Known(w) + Ids(e.spans), e.spans), w.log + [e];
    assert DueIn(Known(w) + Ids(e.spans), e.spans) <= Ids(e.spans);
    DirectFollows(w, e);
    NewDueOnly(w, e, due');
    FollowsNewDue(w.due, due', {}, SpansOf(w.log));
    DirectLog(w, e, due');
    DueRecorded(w, e, due');
    RidersInGrows(w.due, Base(w.st, SentIds(w.log)), due', Base(w.st, SentIds(log')), w.st.riders);
  }

  // ---- all runs ----

  lemma NextKeepsClean(w: World, ev: Event, maxSpans: nat)
    requires Inv(w) && Clean(w) && Legal(w, ev) && Placed(w, ev)
    requires Next(w, ev, maxSpans).refused == []
    ensures Clean(Next(w, ev, maxSpans))
  {
    match ev
    case Open(id, parent, ctx) => OpenKeepsClean(w, id, parent, ctx);
    case Close(id, payload) => CloseKeepsClean(w, id, payload, maxSpans);
    case Report(e) =>
      if Takes(w.st, e.spans) {
        RoutedKeepsClean(w, e, maxSpans);
      } else {
        DirectKeepsClean(w, e, maxSpans);
      }
  }

  ghost predicate AllPlaced(ws: seq<World>, evs: seq<Event>)
    requires |ws| == |evs| + 1
  {
    forall i :: 0 <= i < |evs| ==> Placed(ws[i], evs[i])
  }

  lemma {:induction false} RunsKeepClean(ws: seq<World>, evs: seq<Event>, maxSpans: nat)
    requires IsRun(ws, evs, maxSpans) && AllPlaced(ws, evs) && ws[|evs|].refused == []
    ensures Clean(ws[|evs|])
  {
    if evs != [] {
      var n := |evs| - 1;
      var ws', evs' := ws[..n + 1], evs[..n];
      assert ws'[0] == ws[0];
      assert IsRun(ws', evs', maxSpans);
      RunsKeepInv(ws', evs', maxSpans);
      assert ws'[n] == ws[n] && ws[n + 1] == Next(ws[n], evs[n], maxSpans);
      RunsKeepClean(ws', evs', maxSpans);
      NextKeepsClean(ws[n], evs[n], maxSpans);
    }
  }
}
