/** Reordering a report so that each parent comes before its children. */
module ParentFirst {
  import opened Options
  import opened SpanModel
  import opened Ancestry

  /** The list a span is filed under: its parent if that is in the report, else the top level. */
  function KeyOf(ids: set<Id>, s: Span): Option<Id> {
    if s.parent.Some? && s.parent.value in ids then s.parent else None
  }

  /** The spans filed under `key`, in their order in `spans`. */
  function Filed(ids: set<Id>, spans: seq<Span>, key: Option<Id>): (kids: seq<Span>) {
    if spans == [] then []
    else
      var front, last := Filed(ids, spans[..|spans| - 1], key), spans[|spans| - 1];
      if KeyOf(ids, last) == key then front + [last] else front
  }

  /** Each span with a parent in the report comes after that parent. */
  ghost predicate ParentsPrecede(ids: set<Id>, out: seq<Span>) {
    forall j :: 0 <= j < |out| && KeyOf(ids, out[j]).Some? ==>
      exists i :: 0 <= i < j && out[i].id == KeyOf(ids, out[j]).value
  }

  /** Whatever stands between a span and one of its descendants is a descendant too. */
  ghost predicate SubtreesContiguous(links: LinkMap, out: seq<Span>, n: nat) {
    forall i, j, k :: 0 <= i < j < k < |out| && i < n && IsAncestor(links, out[i].id, out[k]) ==>
      IsAncestor(links, out[i].id, out[j])
  }

  /** What the reordering promises. The first clause says at once that nothing is lost or
      repeated and that siblings (top-level spans included) keep their order. */
  ghost predicate IsParentFirst(spans: seq<Span>, out: seq<Span>) {
    var ids := Ids(spans);
    && (forall key :: Filed(ids, out, key) == Filed(ids, spans, key))
    && ParentsPrecede(ids, out)
    && SubtreesContiguous(Links(spans), out, |out|)
  }

  /** No parent link of the report leads round in a circle. */
  ghost predicate Acyclic(spans: seq<Span>) {
    forall s :: s in spans ==> Grounded(Links(spans), s.parent)
  }

  // ---- filing ----

  lemma {:induction false} FiledConcat(ids: set<Id>, a: seq<Span>, b: seq<Span>, key: Option<Id>)
    ensures Filed(ids, a + b, key) == Filed(ids, a, key) + Filed(ids, b, key)
  {
    if b == [] {
      assert a + b == a;
    } else {
      var front := b[..|b| - 1];
      assert (a + b)[..|a + b| - 1] == a + front;
      FiledConcat(ids, a, front, key);
    }
  }

  lemma {:induction false} FiledMember(ids: set<Id>, spans: seq<Span>, key: Option<Id>, s: Span)
    ensures s in Filed(ids, spans, key) <==> s in spans && KeyOf(ids, s) == key
  {
    if spans != [] {
      var front, last := spans[..|spans| - 1], spans[|spans| - 1];
      FiledMember(ids, front, key, s);
      assert spans == front + [last];
    }
  }

  /** A list filed under one key is all of that key. */
  lemma {:induction false} FiledUniform(ids: set<Id>, list: seq<Span>, own: Option<Id>, key: Option<Id>)
    requires forall s :: s in list ==> KeyOf(ids, s) == own
    ensures Filed(ids, list, key) == if key == own then list else []
  {
    if list != [] {
      var front, last := list[..|list| - 1], list[|list| - 1];
      assert last in list;
      FiledUniform(ids, front, own, key);
    }
  }

  lemma {:induction false} FiledUnique(ids: set<Id>, spans: seq<Span>, key: Option<Id>)
    requires UniqueIds(spans)
    ensures UniqueIds(Filed(ids, spans, key))
  {
    if spans != [] {
      var front, last := spans[..|spans| - 1], spans[|spans| - 1];
      FiledUnique(ids, front, key);
      forall s | s in Filed(ids, front, key) ensures s.id != last.id {
        FiledMember(ids, front, key, s);
      }
    }
  }

  lemma {:induction false} FiledCount(ids: set<Id>, spans: seq<Span>, s: Span)
    ensures multiset(Filed(ids, spans, KeyOf(ids, s)))[s] == multiset(spans)[s]
  {
    if spans != [] {
      var front, last := spans[..|spans| - 1], spans[|spans| - 1];
      FiledCount(ids, front, s);
      assert spans == front + [last];
    }
  }

  /** Filing alike means holding the same spans. */
  lemma SamePiles(spans: seq<Span>, out: seq<Span>)
    requires forall key :: Filed(Ids(spans), out, key) == Filed(Ids(spans), spans, key)
    ensures multiset(out) == multiset(spans)
  {
    forall s: Span ensures multiset(out)[s] == multiset(spans)[s] {
      FiledCount(Ids(spans), spans, s);
      FiledCount(Ids(spans), out, s);
    }
  }

  // ---- the walk ----

  /** What holds between two rounds of the loop, `out` being what was emitted and `pend` the
      stack, top first. */
  ghost predicate WalkInv(spans: seq<Span>, out: seq<Span>, pend: seq<Span>) {
    && UniqueIds(spans) && UniqueIds(out + pend)
    && (forall s :: s in out + pend ==> s in spans)
    && FiledSoFar(spans, out, pend)
    && ParentsEmitted(Ids(spans), out, pend)
    && SubtreesContiguous(Links(spans), out + pend, |out|)
  }

  /** A pile is on the way exactly when its parent was emitted, and then it is whole. */
  ghost predicate FiledSoFar(spans: seq<Span>, out: seq<Span>, pend: seq<Span>) {
    forall key :: FiledAt(spans, out, pend, key)
  }

  ghost predicate FiledAt(spans: seq<Span>, out: seq<Span>, pend: seq<Span>, key: Option<Id>) {
    Filed(Ids(spans), out + pend, key) ==
      if key.None? || key.value in Ids(out) then Filed(Ids(spans), spans, key) else []
  }

  ghost predicate ParentsEmitted(ids: set<Id>, out: seq<Span>, pend: seq<Span>) {
    && ParentsPrecede(ids, out)
    && (forall s :: s in pend && KeyOf(ids, s).Some? ==> KeyOf(ids, s).value in Ids(out))
  }

  lemma WalkStarts(spans: seq<Span>)
    requires UniqueIds(spans)
    ensures WalkInv(spans, [], Filed(Ids(spans), spans, None))
  {
    var ids := Ids(spans);
    var tops := Filed(ids, spans, None);
    assert [] + tops == tops;
    FiledUnique(ids, spans, None);
    forall s | s in tops ensures s in spans && KeyOf(ids, s) == None {
      FiledMember(ids, spans, None, s);
    }
    forall key ensures Filed(ids, tops, key) == if key.None? then Filed(ids, spans, key) else [] {
      FiledUniform(ids, tops, None, key);
    }
  }

  ghost function Kids(spans: seq<Span>, s: Span): seq<Span> {
    Filed(Ids(spans), spans, Some(s.id))
  }

  /** Emitting the top of the stack and putting its children there keeps the invariant. */
  lemma WalkSteps(spans: seq<Span>, out: seq<Span>, pend: seq<Span>)
    requires WalkInv(spans, out, pend) && pend != []
    ensures WalkInv(spans, out + [pend[0]], Kids(spans, pend[0]) + pend[1..])
  {
    KidsFiled(spans, pend[0]);
    TopIsNew(spans, out, pend);
    ShapeStep(spans, out, pend);
    FiledStep(spans, out, pend);
    EmittedStep(Ids(spans), out, pend, Kids(spans, pend[0]));
    ContiguousStep(spans, out, pend);
  }

  lemma KidsFiled(spans: seq<Span>, x: Span)
    ensures forall s :: s in Kids(spans, x) ==> s in spans && KeyOf(Ids(spans), s) == Some(x.id)
  {
    forall s | s in Kids(spans, x) ensures s in spans && KeyOf(Ids(spans), s) == Some(x.id) {
      FiledMember(Ids(spans), spans, Some(x.id), s);
    }
  }

  lemma TopIsNew(spans: seq<Span>, out: seq<Span>, pend: seq<Span>)
    requires UniqueIds(out + pend) && pend != []
    ensures pend[0].id !in Ids(out)
  {
    forall s | s in out ensures s.id != pend[0].id {
      var i :| 0 <= i < |out| && out[i] == s;
      assert (out + pend)[i] == s && (out + pend)[|out|] == pend[0];
    }
  }

  lemma ShapeStep(spans: seq<Span>, out: seq<Span>, pend: seq<Span>)
    requires UniqueIds(spans) && UniqueIds(out + pend) && pend != []
    requires forall s :: s in out + pend ==> s in spans
    requires FiledSoFar(spans, out, pend) && pend[0].id !in Ids(out)
    ensures var all := out + [pend[0]] + (Kids(spans, pend[0]) + pend[1..]);
      UniqueIds(all) && forall s :: s in all ==> s in spans
  {
    var x, rest, kids := pend[0], pend[1..], Kids(spans, pend[0]);
    assert out + pend == out + [x] + rest;
    KidsFiled(spans, x);
    assert FiledAt(spans, out, pend, Some(x.id));
    KidsAreNew(spans, out + pend, x, kids);
    UniqueInsert(out + [x], kids, rest, out + pend);
    assert forall s :: s in out + [x] + (kids + rest) ==> s in out + pend || s in kids;
  }

  lemma FiledStep(spans: seq<Span>, out: seq<Span>, pend: seq<Span>)
    requires FiledSoFar(spans, out, pend) && pend != [] && pend[0].id !in Ids(out)
    ensures FiledSoFar(spans, out + [pend[0]], Kids(spans, pend[0]) + pend[1..])
  {
    forall key ensures FiledAt(spans, out + [pend[0]], Kids(spans, pend[0]) + pend[1..], key) {
      FiledStepAt(spans, out, pend, key);
    }
  }

  lemma FiledStepAt(spans: seq<Span>, out: seq<Span>, pend: seq<Span>, key: Option<Id>)
    requires pend != [] && pend[0].id !in Ids(out)
    requires FiledAt(spans, out, pend, key) && FiledAt(spans, out, pend, Some(pend[0].id))
    ensures FiledAt(spans, out + [pend[0]], Kids(spans, pend[0]) + pend[1..], key)
  {
    var x := pend[0];
    KidsFiled(spans, x);
    assert Ids(out + [x]) == Ids(out) + {x.id} by { IdsConcat(out, [x]); }
    assert out + pend == out + [x] + pend[1..];
    FiledInsert(Ids(spans), out + [x], Kids(spans, x), pend[1..], out + pend, Some(x.id), key);
  }

  lemma FiledInsert(ids: set<Id>, a: seq<Span>, mid: seq<Span>, b: seq<Span>, ab: seq<Span>,
    own: Option<Id>, key: Option<Id>)
    requires ab == a + b
    requires forall s :: s in mid ==> KeyOf(ids, s) == own
    requires Filed(ids, ab, own) == []
    ensures Filed(ids, a + (mid + b), key) == if key == own then mid else Filed(ids, ab, key)
  {
    FiledConcat3(ids, a, mid, b, key);
    FiledUniform(ids, mid, own, key);
    FiledConcat(ids, a, b, key);
    Surround(Filed(ids, a, key), mid, Filed(ids, b, key));
  }

  lemma Surround(a: seq<Span>, mid: seq<Span>, b: seq<Span>)
    ensures a + [] + b == a + b
    ensures a + b == [] ==> a + mid + b == mid
  {
    if a + b == [] {
      assert |a| + |b| == |a + b| == 0;
    }
  }

  lemma FiledConcat3(ids: set<Id>, a: seq<Span>, mid: seq<Span>, b: seq<Span>, key: Option<Id>)
    ensures Filed(ids, a + (mid + b), key) == Filed(ids, a, key) + Filed(ids, mid, key) + Filed(ids, b, key)
  {
    FiledConcat(ids, a, mid + b, key);
    FiledConcat(ids, mid, b, key);
  }

  lemma IdsConcat(a: seq<Span>, b: seq<Span>)
    ensures Ids(a + b) == Ids(a) + Ids(b)
  {
    assert forall s :: s in a + b <==> s in a || s in b;
  }

  lemma KidsAreNew(spans: seq<Span>, before: seq<Span>, x: Span, kids: seq<Span>)
    requires UniqueIds(spans) && kids == Kids(spans, x)
    requires forall s :: s in before ==> s in spans
    requires Filed(Ids(spans), before, Some(x.id)) == []
    ensures UniqueIds(kids)
    ensures forall s, t :: s in before && t in kids ==> s.id != t.id
  {
    FiledUnique(Ids(spans), spans, Some(x.id));
    forall s, t | s in before && t in kids ensures s.id != t.id {
      FiledMember(Ids(spans), spans, Some(x.id), t);
      FiledMember(Ids(spans), before, Some(x.id), t);
      if s.id == t.id { SameIdSameSpan(spans, s, t); }
    }
  }

  lemma UniqueInsert(a: seq<Span>, mid: seq<Span>, b: seq<Span>, ab: seq<Span>)
    requires ab == a + b && UniqueIds(ab) && UniqueIds(mid)
    requires forall s, t :: s in ab && t in mid ==> s.id != t.id
    ensures UniqueIds(a + (mid + b))
  {
    var all := a + (mid + b);
    forall i, j | 0 <= i < j < |all| ensures all[i].id != all[j].id {
      var i' := if i < |a| then i else if i < |a| + |mid| then -1 else i - |mid|;
      var j' := if j < |a| then j else if j < |a| + |mid| then -1 else j - |mid|;
      if i' >= 0 { assert ab[i'] == all[i]; } else { assert all[i] == mid[i - |a|]; }
      if j' >= 0 { assert ab[j'] == all[j]; } else { assert all[j] == mid[j - |a|]; }
    }
  }

  lemma EmittedStep(ids: set<Id>, out: seq<Span>, pend: seq<Span>, kids: seq<Span>)
    requires ParentsEmitted(ids, out, pend) && pend != []
    requires forall s :: s in kids ==> KeyOf(ids, s) == Some(pend[0].id)
    ensures ParentsEmitted(ids, out + [pend[0]], kids + pend[1..])
  {
    var x, rest, out' := pend[0], pend[1..], out + [pend[0]];
    IdsConcat(out, [x]);
    assert x in pend;
    forall j | 0 <= j < |out'| && KeyOf(ids, out'[j]).Some?
      ensures exists i :: 0 <= i < j && out'[i].id == KeyOf(ids, out'[j]).value
    {
      var p := KeyOf(ids, out'[j]).value;
      if j < |out| {
        var i :| 0 <= i < j && out[i].id == p;
        assert out'[i].id == p;
      } else {
        var i :| 0 <= i < |out| && out[i].id == p;
        assert out'[i].id == p;
      }
    }
    forall s | s in kids + rest && KeyOf(ids, s).Some? ensures KeyOf(ids, s).value in Ids(out') {
      assert x in [x];
      if s in rest { assert s in pend; }
    }
  }

  /** The proper ancestors of a span are its parent and that parent's ancestors. */
  lemma AncestorOfChild(spans: seq<Span>, a: Id, x: Span, s: Span)
    requires UniqueIds(spans) && x in spans && s.parent == Some(x.id)
    ensures IsAncestor(Links(spans), a, s) <==> a == x.id || IsAncestor(Links(spans), a, x)
  {
    LinksOf(spans, x);
    MeetsStep(Links(spans), a, x.id);
  }

  /** An ancestor that is in the report was emitted before anything under it. */
  lemma {:induction false} AncestorsEmitted(spans: seq<Span>, out: seq<Span>, pend: seq<Span>, a: Span, s: Span, n: nat)
    requires UniqueIds(spans) && ParentsEmitted(Ids(spans), out, pend)
    requires forall t :: t in out + pend ==> t in spans
    requires s in out + pend && a in spans && Up(Links(spans), s.parent, n) == Some(a.id)
    ensures a.id in Ids(out)
    decreases n
  {
    var ids := Ids(spans);
    LinksKeys(spans);
    assert a.id in ids;
    assert s in out || s in pend;
    if n == 0 {
      assert KeyOf(ids, s) == Some(a.id);
      if s in out {
        var j :| 0 <= j < |out| && out[j] == s;
        var i :| 0 <= i < j && out[i].id == a.id;
        assert out[i] in out;
      }
    } else {
      var p := s.parent.value;
      assert KeyOf(ids, s) == Some(p);
      assert p in Ids(out) by {
        if s in out {
          var j :| 0 <= j < |out| && out[j] == s;
          var i :| 0 <= i < j && out[i].id == p;
          assert out[i] in out;
        }
      }
      var q :| q in out && q.id == p;
      LinksOf(spans, q);
      AncestorsEmitted(spans, out, pend, a, q, n - 1);
    }
  }

  lemma ContiguousStep(spans: seq<Span>, out: seq<Span>, pend: seq<Span>)
    requires WalkInv(spans, out, pend) && pend != []
    ensures SubtreesContiguous(Links(spans), out + [pend[0]] + (Kids(spans, pend[0]) + pend[1..]), |out| + 1)
  {
    var links, after := Links(spans), out + [pend[0]] + (Kids(spans, pend[0]) + pend[1..]);
    forall i, j, k | 0 <= i < j < k < |after| && i < |out| + 1 && IsAncestor(links, after[i].id, after[k])
      ensures IsAncestor(links, after[i].id, after[j])
    {
      ContiguousAt(spans, out, pend, i, j, k);
    }
  }

  lemma ContiguousAt(spans: seq<Span>, out: seq<Span>, pend: seq<Span>, i: nat, j: nat, k: nat)
    requires WalkInv(spans, out, pend) && pend != []
    requires i < j < k < |out| + 1 + |Kids(spans, pend[0])| + |pend[1..]| && i < |out| + 1
    requires var after := out + [pend[0]] + (Kids(spans, pend[0]) + pend[1..]);
      IsAncestor(Links(spans), after[i].id, after[k])
    ensures var after := out + [pend[0]] + (Kids(spans, pend[0]) + pend[1..]);
      IsAncestor(Links(spans), after[i].id, after[j])
  {
    var links, x, m, n0 := Links(spans), pend[0], |Kids(spans, pend[0])|, |out| + 1;
    var before, after := out + pend, out + [x] + (Kids(spans, pend[0]) + pend[1..]);
    assert x in before && before[|out|] == x;
    // Where j and k stand before the children went in; a child stands for x itself.
    var j' := if j < n0 then j else if j < n0 + m then |out| else j - m;
    var k' := if k < n0 then k else if k < n0 + m then |out| else k - m;
    KidOrOld(spans, out, pend, after[i].id, j, j');
    KidOrOld(spans, out, pend, after[i].id, k, k');
    assert after[i] == before[i];
    if i == |out| {
      if k >= n0 + m {
        NothingUnderTopYet(spans, out, pend, before[k']);
      }
    } else if j' < k' {
      assert IsAncestor(links, before[i].id, before[j']);
    }
  }

  lemma NothingUnderTopYet(spans: seq<Span>, out: seq<Span>, pend: seq<Span>, s: Span)
    requires WalkInv(spans, out, pend) && pend != [] && s in out + pend
    ensures !IsAncestor(Links(spans), pend[0].id, s)
  {
    if IsAncestor(Links(spans), pend[0].id, s) {
      var n: nat :| Up(Links(spans), s.parent, n) == Some(pend[0].id);
      assert pend[0] in out + pend;
      AncestorsEmitted(spans, out, pend, pend[0], s, n);
      TopIsNew(spans, out, pend);
    }
  }

  /** For an ancestor other than x, a child of x counts as x. */
  lemma KidOrOld(spans: seq<Span>, out: seq<Span>, pend: seq<Span>, a: Id, j: nat, j': nat)
    requires UniqueIds(spans) && pend != [] && pend[0] in spans
    requires j < |out| + 1 + |Kids(spans, pend[0])| + |pend[1..]|
    requires var n0, m := |out| + 1, |Kids(spans, pend[0])|;
      j' == if j < n0 then j else if j < n0 + m then |out| else j - m
    ensures var x, kids := pend[0], Kids(spans, pend[0]);
      var before, after, n0 := out + pend, out + [x] + (kids + pend[1..]), |out| + 1;
      if n0 <= j < n0 + |kids|
      then IsAncestor(Links(spans), a, after[j]) <==> a == x.id || IsAncestor(Links(spans), a, before[j'])
      else after[j] == before[j']
  {
    var x, kids := pend[0], Kids(spans, pend[0]);
    var after, n0 := out + [x] + (kids + pend[1..]), |out| + 1;
    if n0 <= j < n0 + |kids| {
      assert after[j] == kids[j - n0];
      FiledMember(Ids(spans), spans, Some(x.id), after[j]);
      AncestorOfChild(spans, a, x, after[j]);
    }
  }

  lemma UniqueFits(spans: seq<Span>, list: seq<Span>)
    requires UniqueIds(list) && (forall s :: s in list ==> s in spans)
    ensures |list| <= |spans|
  {
    assert |multiset(list)| <= |multiset(spans)| by {
      forall s ensures multiset(list)[s] <= multiset(spans)[s] {
        UniqueOnce(list, s);
        assert s in list ==> s in multiset(spans);
      }
      assert multiset(list) <= multiset(spans);
      var more := multiset(spans) - multiset(list);
      assert multiset(spans) == multiset(list) + more;
    }
  }

  lemma {:induction false} UniqueOnce(list: seq<Span>, s: Span)
    requires UniqueIds(list)
    ensures multiset(list)[s] <= 1
  {
    if list != [] {
      var front, last := list[..|list| - 1], list[|list| - 1];
      UniqueOnce(front, s);
      assert list == front + [last];
      assert last !in front;
      assert last !in multiset(front);
    }
  }

  /** The emitted list: what the explicit stack produces from here on. */
  ghost function Walk(spans: seq<Span>, out: seq<Span>, pend: seq<Span>): seq<Span>
    requires WalkInv(spans, out, pend)
    decreases |spans| - |out|, |pend|
  {
    if pend == [] then out
    else
      WalkSteps(spans, out, pend);
      assert |out| < |spans| by { UniqueFits(spans, out + pend); }
      Walk(spans, out + [pend[0]], Kids(spans, pend[0]) + pend[1..])
  }

  /** The source's `parentFirst` as a function of the report. */
  ghost function Ordered(spans: seq<Span>): seq<Span>
    requires UniqueIds(spans)
  {
    WalkStarts(spans);
    Walk(spans, [], Filed(Ids(spans), spans, None))
  }

  lemma {:induction false} WalkEnds(spans: seq<Span>, out: seq<Span>, pend: seq<Span>)
    requires WalkInv(spans, out, pend)
    ensures WalkInv(spans, Walk(spans, out, pend), [])
    decreases |spans| - |out|, |pend|
  {
    if pend != [] {
      WalkSteps(spans, out, pend);
      UniqueFits(spans, out + pend);
      WalkEnds(spans, out + [pend[0]], Kids(spans, pend[0]) + pend[1..]);
    }
  }

  // ---- what the result is ----

  /** Exactly the spans whose chain of parents leaves the report are emitted: a span on or
      under a cycle is never reached. */
  lemma OrderedReaches(spans: seq<Span>, s: Span)
    requires UniqueIds(spans)
    ensures s in Ordered(spans) <==> s in spans && Grounded(Links(spans), s.parent)
  {
    var out := Ordered(spans);
    WalkStarts(spans);
    WalkEnds(spans, [], Filed(Ids(spans), spans, None));
    assert out + [] == out;
    if s in out {
      var j :| 0 <= j < |out| && out[j] == s;
      EmittedGrounded(spans, out, j);
    }
    if s in spans && Grounded(Links(spans), s.parent) {
      var n: nat :| Up(Links(spans), s.parent, n).None?;
      GroundedEmitted(spans, out, s, n);
    }
  }

  lemma {:induction false} EmittedGrounded(spans: seq<Span>, out: seq<Span>, j: nat)
    requires WalkInv(spans, out, []) && j < |out|
    ensures Grounded(Links(spans), out[j].parent)
    decreases j
  {
    var s, links := out[j], Links(spans);
    LinksKeys(spans);
    if s.parent.None? {
      assert Up(links, s.parent, 0).None?;
    } else {
      GroundedStep(links, s.parent.value);
      if s.parent.value in links {
        var i :| 0 <= i < j && out[i].id == s.parent.value;
        assert out[i] in out + [];
        LinksOf(spans, out[i]);
        EmittedGrounded(spans, out, i);
      }
    }
  }

  lemma {:induction false} GroundedEmitted(spans: seq<Span>, out: seq<Span>, s: Span, n: nat)
    requires WalkInv(spans, out, []) && s in spans && Up(Links(spans), s.parent, n).None?
    ensures s in out
    decreases n
  {
    var ids := Ids(spans);
    var key := KeyOf(ids, s);
    if key.Some? {
      var q :| q in spans && q.id == key.value;
      LinksOf(spans, q);
      GroundedEmitted(spans, out, q, n - 1);
    }
    assert FiledAt(spans, out, [], key) && out + [] == out;
    FiledMember(ids, spans, key, s);
    FiledMember(ids, out, key, s);
  }

  lemma OrderedIsParentFirst(spans: seq<Span>)
    requires UniqueIds(spans) && Acyclic(spans)
    ensures IsParentFirst(spans, Ordered(spans))
  {
    var out, ids := Ordered(spans), Ids(spans);
    WalkStarts(spans);
    WalkEnds(spans, [], Filed(ids, spans, None));
    assert out + [] == out;
    forall key ensures Filed(ids, out, key) == Filed(ids, spans, key) {
      assert FiledAt(spans, out, [], key);
      var pile := Filed(ids, spans, key);
      if key.Some? && key.value !in Ids(out) && pile != [] {
        FiledMember(ids, spans, key, pile[0]);
        var q :| q in spans && q.id == key.value;
        OrderedReaches(spans, q);
        assert false;
      }
    }
  }

  /** Nothing is lost exactly when the report has no cycle of parent links. */
  lemma PermutationIffAcyclic(spans: seq<Span>)
    requires UniqueIds(spans)
    ensures multiset(Ordered(spans)) == multiset(spans) <==> Acyclic(spans)
  {
    if Acyclic(spans) {
      OrderedIsParentFirst(spans);
      SamePiles(spans, Ordered(spans));
    } else {
      var s :| s in spans && !Grounded(Links(spans), s.parent);
      OrderedReaches(spans, s);
      assert s in multiset(spans) && s !in multiset(Ordered(spans));
    }
  }

  // ---- the promise leaves no choice ----

  lemma {:induction false} AncestorPrecedes(spans: seq<Span>, out: seq<Span>, a: Id, j: nat, n: nat)
    requires UniqueIds(spans) && ParentsPrecede(Ids(spans), out)
    requires forall s :: s in out ==> s in spans
    requires j < |out| && a in Ids(spans) && Up(Links(spans), out[j].parent, n) == Some(a)
    ensures exists i :: 0 <= i < j && out[i].id == a
    decreases n
  {
    LinksKeys(spans);
    assert KeyOf(Ids(spans), out[j]) == out[j].parent;
    if n > 0 {
      var m :| 0 <= m < j && out[m].id == out[j].parent.value;
      assert out[m] in out;
      LinksOf(spans, out[m]);
      AncestorPrecedes(spans, out, a, m, n - 1);
    }
  }

  /** If y's parent is among the first k and y comes later than place k, then whatever is at
      place k is under y's parent. */
  lemma DisplacedUnder(spans: seq<Span>, out: seq<Span>, k: nat, y: Span, p: Id)
    requires IsParentFirst(spans, out) && k < |out|
    requires KeyOf(Ids(spans), y) == Some(p) && y in out[k + 1..]
    requires exists i :: 0 <= i < k && out[i].id == p
    ensures IsAncestor(Links(spans), p, out[k])
  {
    var i :| 0 <= i < k && out[i].id == p;
    var j :| k < j < |out| && out[j] == y;
    MeetsStep(Links(spans), p, p);
    assert IsAncestor(Links(spans), out[i].id, out[j]);
  }

  lemma ParentFirstSame(spans: seq<Span>, out: seq<Span>)
    requires UniqueIds(spans) && IsParentFirst(spans, out)
    ensures |out| == |spans| && UniqueIds(out) && forall s :: s in out <==> s in spans
  {
    SamePiles(spans, out);
    assert |multiset(out)| == |multiset(spans)|;
    forall s: Span ensures s in out <==> s in spans {
      assert s in multiset(out) <==> s in multiset(spans);
    }
    forall i, j | 0 <= i < j < |out| ensures out[i].id != out[j].id {
      if out[i].id == out[j].id {
        SameIdSameSpan(spans, out[i], out[j]);
        TwiceCounted(out, i, j);
        UniqueOnce(spans, out[i]);
      }
    }
  }

  lemma TwiceCounted(list: seq<Span>, i: nat, j: nat)
    requires i < j < |list| && list[i] == list[j]
    ensures multiset(list)[list[i]] >= 2
  {
    assert list == list[..j] + list[j..];
    assert list[..j][i] == list[i] && list[j..][0] == list[i];
    assert multiset(list) == multiset(list[..j]) + multiset(list[j..]);
    assert list[i] in multiset(list[..j]) && list[i] in multiset(list[j..]);
  }

  /** If two lists keep the promise and agree on the first k places, they agree on the next. */
  lemma AgreeNext(spans: seq<Span>, a: seq<Span>, b: seq<Span>, k: nat)
    requires UniqueIds(spans) && IsParentFirst(spans, a) && IsParentFirst(spans, b)
    requires k < |a| && k < |b| && a[..k] == b[..k]
    ensures a[k] == b[k]
  {
    var ids, x, y := Ids(spans), a[k], b[k];
    ParentFirstSame(spans, a);
    ParentFirstSame(spans, b);
    var kx, ky := KeyOf(ids, x), KeyOf(ids, y);
    if kx == ky {
      FiledSplit(ids, a, k);
      FiledSplit(ids, b, k);
      assert Filed(ids, a, kx)[|Filed(ids, a[..k], kx)|] == x;
      assert Filed(ids, b, kx)[|Filed(ids, a[..k], kx)|] == y;
    } else {
      LaterIn(a, b, k);
      LaterIn(b, a, k);
      if ky.Some? {
        EarlierParent(ids, a, b, k);
        DisplacedUnder(spans, a, k, y, ky.value);
        ProperlyUnder(spans, x, ky.value);
      }
      if kx.Some? {
        EarlierParent(ids, b, a, k);
        DisplacedUnder(spans, b, k, x, kx.value);
        ProperlyUnder(spans, y, kx.value);
      }
      LinksKeys(spans);
      NoMutualAncestors(spans, a, kx.value, ky.value);
      assert false;
    }
  }

  lemma FiledSplit(ids: set<Id>, list: seq<Span>, k: nat)
    requires k < |list|
    ensures var key := KeyOf(ids, list[k]);
      Filed(ids, list, key) == Filed(ids, list[..k], key) + [list[k]] + Filed(ids, list[k + 1..], key)
  {
    var key := KeyOf(ids, list[k]);
    assert list == list[..k] + ([list[k]] + list[k + 1..]);
    FiledConcat3(ids, list[..k], [list[k]], list[k + 1..], key);
    FiledUniform(ids, [list[k]], key, key);
  }

  lemma LaterIn(a: seq<Span>, b: seq<Span>, k: nat)
    requires UniqueIds(a) && UniqueIds(b) && k < |a| && k < |b| && a[..k] == b[..k] && a[k] != b[k]
    requires b[k] in a
    ensures b[k] in a[k + 1..]
  {
    var j :| 0 <= j < |a| && a[j] == b[k];
    assert forall i :: 0 <= i < k ==> a[..k][i] == a[i] && b[..k][i] == b[i];
    assert j > k;
    assert a[k + 1..][j - k - 1] == b[k];
  }

  lemma EarlierParent(ids: set<Id>, a: seq<Span>, b: seq<Span>, k: nat)
    requires ParentsPrecede(ids, b) && k < |a| && k < |b| && a[..k] == b[..k] && KeyOf(ids, b[k]).Some?
    ensures exists i :: 0 <= i < k && a[i].id == KeyOf(ids, b[k]).value
  {
    var i :| 0 <= i < k && b[i].id == KeyOf(ids, b[k]).value;
    assert a[..k][i] == b[..k][i];
    assert a[i].id == KeyOf(ids, b[k]).value;
  }

  /** Under p but not filed under it: filed under something that is itself under p. */
  lemma ProperlyUnder(spans: seq<Span>, x: Span, p: Id)
    requires UniqueIds(spans) && p in Ids(spans) && IsAncestor(Links(spans), p, x)
    requires KeyOf(Ids(spans), x) != Some(p)
    ensures KeyOf(Ids(spans), x).Some?
    ensures var px := KeyOf(Ids(spans), x).value; px in Links(spans) && Meets(Links(spans), p, Links(spans)[px])
  {
    LinksKeys(spans);
    MeetsNothing(Links(spans), p);
    MeetsStep(Links(spans), p, x.parent.value);
  }

  lemma NoMutualAncestors(spans: seq<Span>, out: seq<Span>, p: Id, q: Id)
    requires UniqueIds(spans) && IsParentFirst(spans, out)
    requires p in Links(spans) && q in Links(spans) && Meets(Links(spans), q, Links(spans)[p])
    ensures !Meets(Links(spans), p, Links(spans)[q])
  {
    ParentFirstSame(spans, out);
    LinksKeys(spans);
    var sp :| sp in spans && sp.id == p;
    var sq :| sq in spans && sq.id == q;
    LinksOf(spans, sp);
    LinksOf(spans, sq);
    var i :| 0 <= i < |out| && out[i] == sp;
    var j :| 0 <= j < |out| && out[j] == sq;
    var n: nat :| Up(Links(spans), sp.parent, n) == Some(q);
    AncestorPrecedes(spans, out, q, i, n);
    if Meets(Links(spans), p, sq.parent) {
      var m: nat :| Up(Links(spans), sq.parent, m) == Some(p);
      AncestorPrecedes(spans, out, p, j, m);
    }
  }

  /** The promise determines the result: any other order breaks it. */
  lemma ParentFirstIsUnique(spans: seq<Span>, a: seq<Span>, b: seq<Span>)
    requires UniqueIds(spans) && IsParentFirst(spans, a) && IsParentFirst(spans, b)
    ensures a == b
  {
    ParentFirstSame(spans, a);
    ParentFirstSame(spans, b);
    for k := 0 to |a|
      invariant a[..k] == b[..k]
    {
      AgreeNext(spans, a, b, k);
      assert a[..k + 1] == a[..k] + [a[k]] && b[..k + 1] == b[..k] + [b[k]];
    }
    assert a == a[..|a|] && b == b[..|b|];
  }

  // ---- what the loop works on ----

  function Reversed(s: seq<Span>): (r: seq<Span>)
    ensures |r| == |s| && forall i :: 0 <= i < |s| ==> r[i] == s[|s| - 1 - i]
  {
    seq(|s|, i requires 0 <= i < |s| => s[|s| - 1 - i])
  }

  /** The list under `key`; the source reads an absent one as empty. */
  function Pile(children: map<Option<Id>, seq<Span>>, key: Option<Id>): seq<Span> {
    if key in children then children[key] else []
  }

  method FileByParent(spans: seq<Span>) returns (children: map<Option<Id>, seq<Span>>)
    ensures forall key :: Pile(children, key) == Filed(Ids(spans), spans, key)
  {
    var ids := set s | s in spans :: s.id;
    children := map[];
    for i := 0 to |spans|
      invariant forall key :: Pile(children, key) == Filed(ids, spans[..i], key)
    {
      var s := spans[i];
      var key := KeyOf(ids, s);
      children := children[key := Pile(children, key) + [s]];
      assert spans[..i + 1][..i] == spans[..i];
    }
    assert spans[..|spans|] == spans;
  }

  lemma WalkOnce(spans: seq<Span>, out: seq<Span>, pend: seq<Span>)
    requires WalkInv(spans, out, pend) && pend != []
    ensures |out| < |spans| && WalkInv(spans, out + [pend[0]], Kids(spans, pend[0]) + pend[1..])
    ensures Walk(spans, out, pend) == Walk(spans, out + [pend[0]], Kids(spans, pend[0]) + pend[1..])
  {
    WalkSteps(spans, out, pend);
    UniqueFits(spans, out + pend);
  }

  lemma ReversedPush(pend: seq<Span>, kids: seq<Span>)
    requires pend != []
    ensures Reversed(kids + pend[1..]) == Reversed(pend)[..|pend| - 1] + Reversed(kids)
    ensures Reversed(pend)[|pend| - 1] == pend[0]
  {
  }
}
