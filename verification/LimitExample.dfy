/** A run in which the span limit separates a span from its parent. */
module LimitExample {
  import opened Options
  import opened SpanModel
  import opened Ancestry
  import opened ParentFirst
  import opened StepTrace
  import opened StepFlush
  import opened StepRuns
  import opened RunOrder
  import opened OrderExamples

  const GRANDCHILD: Span := Span(3, Some(2), 0, "")
  const TOP: Span := Span(1, None, 0, "")
  const MIDDLE: Span := Span(2, Some(1), 0, "")

  /** The step 9 is open, and reports were made of one span each. */
  ghost predicate Stands(w: World, recorded: seq<Span>, kept: seq<Span>, refused: seq<Span>, parents: set<Id>) {
    && w.steps == [9] && w.under == map[9 := None] && w.recorded == recorded && w.refused == refused
    && w.st.open == {9} && w.st.registered && !w.st.sent && w.st.traceId == 0
    && w.st.spans == kept && w.st.riders == [] && w.st.parents == parents && w.st.droppedIds == Ids(refused)
  }

  lemma ChainAcyclic(all: seq<Span>)
    requires all == [GRANDCHILD] || all == [GRANDCHILD, TOP] || all == [GRANDCHILD, TOP, MIDDLE]
    ensures UniqueIds(all) && Acyclic(all)
  {
    LinksKeys(all);
    assert Up(Links(all), None, 0).None?;
    GroundedStep(Links(all), 1);
    GroundedStep(Links(all), 2);
    if |all| == 3 {
      LinksOf(all, TOP);
      LinksOf(all, MIDDLE);
    }
  }

  /** Whether one more span is kept, with room for one in all. */
  ghost predicate Joins(kept: seq<Span>, refused: seq<Span>, parents: set<Id>, s: Span) {
    s.id in parents || (!(s.parent.Some? && s.parent.value in Ids(refused)) && kept == [])
  }

  lemma OneLegal(w: World, s: Span)
    requires w.steps == [9] && w.under == map[9 := None] && w.st.traceId == 0 && s.id != 9
    requires UniqueIds(w.recorded + [s]) && Acyclic(w.recorded + [s])
    ensures Legal(w, Report(Plain([s])))
  {
    assert [s][0] == s;
  }

  /** One more report of one span. */
  lemma OneMore(w: World, recorded: seq<Span>, kept: seq<Span>, refused: seq<Span>, parents: set<Id>, s: Span)
    requires Stands(w, recorded, kept, refused, parents) && s.parent != Some(s.id)
    ensures
      var w' := ReportNext(w, Plain([s]), 1);
      if Joins(kept, refused, parents, s) then Stands(w', recorded + [s], kept + [s], refused, parents + ParentSet(s))
      else Stands(w', recorded + [s], kept, refused + [s], parents)
  {
    assert Buffered(w.st) == kept + RiderSpans([]) == kept;
    assert Joins(kept, refused, parents, s) <==> Keeps(w.st, s, false, 1);
    OneReported(w, s);
    OneRouted(w.st, s);
    IdsSnoc(refused, s);
    assert refused + [] == refused;
  }

  lemma OneReported(w: World, s: Span)
    requires w.st.registered && !w.st.sent
    ensures var w' := ReportNext(w, Plain([s]), 1);
      && w'.st == Routed(w.st, Plain([s]), 1) && w'.recorded == w.recorded + [s]
      && w'.refused == w.refused + Refused(w.st, Arranged([s]), 1) && w'.steps == w.steps && w'.under == w.under
  {
    var e := Plain([s]);
    assert e.spans == [s] && Takes(w.st, e.spans);
  }

  lemma OneRouted(st: TraceState, s: Span)
    requires st.riders == [] && st.registered && !st.sent && s.parent != Some(s.id)
    ensures Refused(st, Arranged([s]), 1) == if Keeps(st, s, false, 1) then [] else [s]
    ensures var st' := Routed(st, Plain([s]), 1);
      && st'.riders == [] && st'.registered && !st'.sent && st'.traceId == st.traceId && st'.open == st.open
      && (if Keeps(st, s, false, 1)
          then st'.spans == st.spans + [s] && st'.parents == st.parents + ParentSet(s)
            && st'.droppedIds == st.droppedIds
          else st'.spans == st.spans && st'.parents == st.parents && st'.droppedIds == st.droppedIds + {s.id})
  {
    OneSpan(s);
    assert Arranged([s]) == [s] && [s][..0] == [];
    assert KeepAll(st, [], 1) == (st, []) && Refused(st, [], 1) == [];
    assert KeepAll(st, [s], 1).1 == if Keeps(st, s, false, 1) then [s] else [];
  }

  /** The grandchild takes the only place, its grandparent is refused, and the span between
      them is kept because a span that was kept names it: kept, with its parent refused. */
  lemma OrphanInRun() returns (ws: seq<World>, evs: seq<Event>)
    ensures IsRun(ws, evs, 1) && ws[|evs|].refused == [TOP] && Buffered(ws[|evs|].st) == [GRANDCHILD, MIDDLE]
    ensures MIDDLE.parent == Some(TOP.id)
  {
    ws, evs := StepOpened();
    ws, evs := Reported(ws, evs, [], [], [], {}, GRANDCHILD);
    assert Stands(ws[|evs|], [GRANDCHILD], [GRANDCHILD], [], {2});
    ws, evs := Reported(ws, evs, [GRANDCHILD], [GRANDCHILD], [], {2}, TOP);
    assert Stands(ws[|evs|], [GRANDCHILD, TOP], [GRANDCHILD], [TOP], {2});
    ws, evs := Reported(ws, evs, [GRANDCHILD, TOP], [GRANDCHILD], [TOP], {2}, MIDDLE);
    assert RiderSpans(ws[|evs|].st.riders) == [];
  }

  lemma StepOpened() returns (ws: seq<World>, evs: seq<Event>)
    ensures IsRun(ws, evs, 1) && Stands(ws[|evs|], [], [], [], {})
  {
    var w := Start(0, "", NOTHING);
    ws, evs := [w], [];
    RunGoesOn(ws, evs, Open(9, None, NOTHING), 1);
    ws, evs := ws + [OpenNext(w, 9, None, NOTHING)], evs + [Open(9, None, NOTHING)];
  }

  lemma Reported(
    ws: seq<World>, evs: seq<Event>,
    recorded: seq<Span>, kept: seq<Span>, refused: seq<Span>, parents: set<Id>, s: Span)
    returns (ws': seq<World>, evs': seq<Event>)
    requires IsRun(ws, evs, 1) && Stands(ws[|evs|], recorded, kept, refused, parents)
    requires recorded + [s] == [GRANDCHILD] || recorded + [s] == [GRANDCHILD, TOP] ||
      recorded + [s] == [GRANDCHILD, TOP, MIDDLE]
    ensures IsRun(ws', evs', 1)
    ensures
      var w' := ws'[|evs'|];
      if Joins(kept, refused, parents, s) then Stands(w', recorded + [s], kept + [s], refused, parents + ParentSet(s))
      else Stands(w', recorded + [s], kept, refused + [s], parents)
  {
    ChainAcyclic(recorded + [s]);
    assert s in recorded + [s];
    OneLegal(ws[|evs|], s);
    OneMore(ws[|evs|], recorded, kept, refused, parents, s);
    RunGoesOn(ws, evs, Report(Plain([s])), 1);
    ws', evs' := ws + [ReportNext(ws[|evs|], Plain([s]), 1)], evs + [Report(Plain([s]))];
  }
}
