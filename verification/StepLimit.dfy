/** Which spans survive once a trace has passed its span limit. */
module StepLimit {
  import opened Options
  import opened SpanModel
  import opened StepTrace

  /** One call of `keep`: the span, whether it is the root step's, and whether the buffer
      still had room. Flushes in between only change the room. */
  datatype Offer = Offer(span: Span, always: bool, room: bool)

  /** What `keep` remembers between calls. */
  datatype Notes = Notes(parents: set<Id>, droppedIds: set<Id>)

  predicate Orphaned(n: Notes, o: Offer) {
    o.span.parent.Some? && o.span.parent.value in n.droppedIds
  }

  predicate Accepts(n: Notes, o: Offer) {
    o.always || o.span.id in n.parents || (!Orphaned(n, o) && o.room)
  }

  function Noted(n: Notes, o: Offer): Notes {
    if Accepts(n, o) then n.(parents := n.parents + ParentSet(o.span))
    else n.(droppedIds := n.droppedIds + {o.span.id})
  }

  /** The notes after the first n offers of a run. */
  function After(offers: seq<Offer>, n: nat): Notes
    requires n <= |offers|
  {
    if n == 0 then Notes({}, {}) else Noted(After(offers, n - 1), offers[n - 1])
  }

  predicate KeptAt(offers: seq<Offer>, i: nat)
    requires i < |offers|
  {
    Accepts(After(offers, i), offers[i])
  }

  /** `keep` on a root is a step of such a run. */
  lemma KeepIsOffer(st: TraceState, span: Span, always: bool, maxSpans: nat)
    ensures var o, n := Offer(span, always, |Buffered(st)| < maxSpans), Notes(st.parents, st.droppedIds);
      && Keeps(st, span, always, maxSpans) == Accepts(n, o)
      && var st' := Keep(st, span, always, maxSpans); Notes(st'.parents, st'.droppedIds) == Noted(n, o)
  {
  }

  lemma {:induction false} NotesGrow(offers: seq<Offer>, i: nat, j: nat)
    requires i <= j <= |offers|
    ensures After(offers, i).parents <= After(offers, j).parents
    ensures After(offers, i).droppedIds <= After(offers, j).droppedIds
    decreases j
  {
    if i < j { NotesGrow(offers, i, j - 1); }
  }

  lemma {:induction false} DroppedWasRefused(offers: seq<Offer>, n: nat, id: Id)
    requires n <= |offers| && id in After(offers, n).droppedIds
    ensures exists j :: 0 <= j < n && offers[j].span.id == id && !KeptAt(offers, j)
  {
    if id in After(offers, n - 1).droppedIds {
      DroppedWasRefused(offers, n - 1, id);
    } else {
      assert offers[n - 1].span.id == id && !KeptAt(offers, n - 1);
    }
  }

  /** Offer i was kept although offer j, its parent, was refused. */
  ghost predicate KeptOrphan(offers: seq<Offer>, i: nat, j: nat) {
    && i < |offers| && j < |offers|
    && KeptAt(offers, i) && !KeptAt(offers, j) && offers[i].span.parent == Some(offers[j].span.id)
  }

  ghost predicate HasKeptOrphan(offers: seq<Offer>) {
    exists i, j :: KeptOrphan(offers, i, j)
  }

  /** At offer i the parent is already refused and yet the span is let in: it is the root's,
      or something kept before points at it. */
  predicate LetInRegardless(offers: seq<Offer>, i: nat)
    requires i < |offers|
  {
    var n := After(offers, i);
    Orphaned(n, offers[i]) && (offers[i].always || offers[i].span.id in n.parents)
  }

  /** A kept span's parent is never refused later, so orphans come from that branch only. */
  lemma OrphansIff(offers: seq<Offer>)
    ensures HasKeptOrphan(offers) <==> exists i :: 0 <= i < |offers| && LetInRegardless(offers, i)
  {
    if HasKeptOrphan(offers) {
      var i, j :| KeptOrphan(offers, i, j);
      ParentRefusedBefore(offers, i, j);
      assert LetInRegardless(offers, i);
    }
    if exists i :: 0 <= i < |offers| && LetInRegardless(offers, i) {
      var i :| 0 <= i < |offers| && LetInRegardless(offers, i);
      DroppedWasRefused(offers, i, offers[i].span.parent.value);
      var j :| 0 <= j < i && offers[j].span.id == offers[i].span.parent.value && !KeptAt(offers, j);
      assert KeptOrphan(offers, i, j);
    }
  }

  lemma ParentRefusedBefore(offers: seq<Offer>, i: nat, j: nat)
    requires KeptOrphan(offers, i, j)
    ensures offers[j].span.id in After(offers, i).droppedIds
  {
    if j < i {
      NotesGrow(offers, j + 1, i);
      assert offers[j].span.id in After(offers, j + 1).droppedIds;
    } else if i < j {
      assert offers[j].span.id in After(offers, i + 1).parents;
      NotesGrow(offers, i + 1, j);
    }
  }

  /** Spans are offered innermost first where it matters: none after both its parent and one
      of its own children. */
  ghost predicate InnermostFirst(offers: seq<Offer>) {
    forall i, j, k :: 0 <= j < i < |offers| && 0 <= k < i && offers[i].span.parent == Some(offers[j].span.id) ==>
      offers[k].span.parent != Some(offers[i].span.id)
  }

  /** Only a span without a parent is kept in any case. */
  ghost predicate RootOnlyAlways(offers: seq<Offer>) {
    forall o :: o in offers && o.always ==> o.span.parent.None?
  }

  lemma {:induction false} ParentsWereKept(offers: seq<Offer>, n: nat, id: Id)
    requires n <= |offers| && id in After(offers, n).parents
    ensures exists k :: 0 <= k < n && offers[k].span.parent == Some(id) && KeptAt(offers, k)
  {
    if id in After(offers, n - 1).parents {
      ParentsWereKept(offers, n - 1, id);
    } else {
      assert offers[n - 1].span.parent == Some(id) && KeptAt(offers, n - 1);
    }
  }

  lemma NoOrphansInnermostFirst(offers: seq<Offer>)
    requires InnermostFirst(offers) && RootOnlyAlways(offers)
    ensures !HasKeptOrphan(offers)
  {
    OrphansIff(offers);
    forall i | 0 <= i < |offers| ensures !LetInRegardless(offers, i) {
      if LetInRegardless(offers, i) {
        assert offers[i] in offers;
        DroppedWasRefused(offers, i, offers[i].span.parent.value);
        ParentsWereKept(offers, i, offers[i].span.id);
      }
    }
  }

  /** Without that order it fails: with room for one span, a grandchild is kept, its
      grandparent refused, and the span between the two is then kept. */
  lemma OrphanExample()
    ensures var offers := [Offer(Span(3, Some(2), 0, ""), false, true),
                           Offer(Span(1, None, 0, ""), false, false),
                           Offer(Span(2, Some(1), 0, ""), false, false)];
      KeptOrphan(offers, 2, 1)
  {
    var offers := [Offer(Span(3, Some(2), 0, ""), false, true),
                   Offer(Span(1, None, 0, ""), false, false),
                   Offer(Span(2, Some(1), 0, ""), false, false)];
    assert After(offers, 0) == Notes({}, {});
    assert After(offers, 1) == Notes({2}, {});
    assert After(offers, 2) == Notes({2}, {1});
  }
}
