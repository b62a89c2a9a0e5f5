/** The reordering loop on any report: when it ends, and what it has then put out. */
module ReorderLoop {
  import opened Options
  import opened SpanModel
  import opened Ancestry
  import opened ParentFirst

  /** What is on the stack after n rounds, top first, and what was put out by then. */
  ghost function PendAfter(spans: seq<Span>, n: nat): seq<Span> {
    if n == 0 then Filed(Ids(spans), spans, None)
    else
      var pend := PendAfter(spans, n - 1);
      if pend == [] then [] else Kids(spans, pend[0]) + pend[1..]
  }

  ghost function OutAfter(spans: seq<Span>, n: nat): seq<Span> {
    if n == 0 then []
    else
      var out, pend := OutAfter(spans, n - 1), PendAfter(spans, n - 1);
      if pend == [] then out else out + [pend[0]]
  }

  /** The loop ends: the stack is empty after some number of rounds. */
  ghost predicate Ends(spans: seq<Span>) {
    exists n: nat :: PendAfter(spans, n) == []
  }

  lemma {:induction false} EmptyStays(spans: seq<Span>, m: nat, n: nat)
    requires m <= n && PendAfter(spans, m) == []
    ensures PendAfter(spans, n) == [] && OutAfter(spans, n) == OutAfter(spans, m)
    decreases n
  {
    if m < n { EmptyStays(spans, m, n - 1); }
  }

  /** What the loop has put out when it ends. */
  ghost function Emitted(spans: seq<Span>): seq<Span>
    requires Ends(spans)
  {
    var n: nat :| PendAfter(spans, n) == [];
    OutAfter(spans, n)
  }

  lemma EmittedIs(spans: seq<Span>, n: nat)
    requires PendAfter(spans, n) == []
    ensures Ends(spans) && Emitted(spans) == OutAfter(spans, n)
  {
    var m: nat :| PendAfter(spans, m) == [] && Emitted(spans) == OutAfter(spans, m);
    if m <= n { EmptyStays(spans, m, n); } else { EmptyStays(spans, n, m); }
  }

  // ---- reports with distinct ids ----

  lemma {:induction false} OutLength(spans: seq<Span>, n: nat)
    ensures PendAfter(spans, n) != [] ==> |OutAfter(spans, n)| == n
  {
    if n > 0 { OutLength(spans, n - 1); }
  }

  lemma {:induction false} UniqueWalk(spans: seq<Span>, n: nat)
    requires UniqueIds(spans)
    ensures WalkInv(spans, OutAfter(spans, n), PendAfter(spans, n))
    ensures Walk(spans, OutAfter(spans, n), PendAfter(spans, n)) == Ordered(spans)
  {
    if n == 0 {
      WalkStarts(spans);
    } else {
      UniqueWalk(spans, n - 1);
      var out, pend := OutAfter(spans, n - 1), PendAfter(spans, n - 1);
      if pend != [] { WalkOnce(spans, out, pend); }
    }
  }

  /** With distinct ids the loop ends, on cyclic links too, with the depth-first order. */
  lemma UniqueEnds(spans: seq<Span>)
    requires UniqueIds(spans)
    ensures Ends(spans) && Emitted(spans) == Ordered(spans)
  {
    var n := |spans| + 1;
    UniqueWalk(spans, n);
    OutLength(spans, n);
    UniqueFits(spans, OutAfter(spans, n) + PendAfter(spans, n));
    EmittedIs(spans, n);
  }

  // ---- paths ----

  /** Each span is filed below the one before it. */
  ghost predicate IsPath(spans: seq<Span>, path: seq<Span>) {
    forall i :: 0 <= i < |path| - 1 ==> path[i + 1] in Kids(spans, path[i])
  }

  ghost predicate Repeats(path: seq<Span>, i: nat, j: nat) {
    i < j < |path| && path[i].id == path[j].id
  }

  /** A path from this span comes back to an id it has passed. */
  ghost predicate Turns(spans: seq<Span>, s: Span) {
    exists path, i, j :: IsPath(spans, path) && path != [] && path[0] == s && Repeats(path, i, j)
  }

  /** Some span reached from the top level is filed below its own id. */
  ghost predicate Loops(spans: seq<Span>) {
    exists s :: s in Filed(Ids(spans), spans, None) && Turns(spans, s)
  }

  /** Children are found by id, so a path that comes back can be followed on from its second span. */
  lemma TurnsOn(spans: seq<Span>, s: Span)
    requires Turns(spans, s)
    ensures exists k :: k in Kids(spans, s) && Turns(spans, k)
  {
    var path, i: nat, j: nat :| IsPath(spans, path) && path != [] && path[0] == s && Repeats(path, i, j);
    var k := path[1];
    assert k in Kids(spans, path[0]);
    if i > 0 {
      var rest := path[1..];
      assert IsPath(spans, rest) by {
        assert forall x :: 0 <= x < |rest| ==> rest[x] == path[x + 1];
      }
      assert Repeats(rest, i - 1, j - 1);
    } else {
      var round := path[1..j + 1] + [k];
      assert Kids(spans, path[j]) == Kids(spans, path[0]);
      assert IsPath(spans, round) by {
        assert forall x :: 0 <= x < j ==> round[x] == path[x + 1];
      }
      assert Repeats(round, 0, j);
    }
  }

  ghost predicate SomeTurns(spans: seq<Span>, pend: seq<Span>) {
    exists s :: s in pend && Turns(spans, s)
  }

  lemma {:induction false} NeverEmpty(spans: seq<Span>, n: nat)
    requires Loops(spans)
    ensures SomeTurns(spans, PendAfter(spans, n))
  {
    if n > 0 {
      NeverEmpty(spans, n - 1);
      var pend := PendAfter(spans, n - 1);
      var s :| s in pend && Turns(spans, s);
      if s == pend[0] {
        TurnsOn(spans, s);
        var k :| k in Kids(spans, s) && Turns(spans, k);
        assert k in PendAfter(spans, n);
      } else {
        assert pend == [pend[0]] + pend[1..];
        assert s in PendAfter(spans, n);
      }
    }
  }

  // ---- without a path that turns, the work is bounded ----

  /** The number of rounds that a span and all below it take, looking so many levels deep. */
  ghost function Size(spans: seq<Span>, s: Span, depth: nat): nat
    decreases depth, 0, 0
  {
    if depth == 0 then 1 else 1 + Sizes(spans, Kids(spans, s), depth - 1)
  }

  ghost function Sizes(spans: seq<Span>, list: seq<Span>, depth: nat): nat
    decreases depth, 1, |list|
  {
    if list == [] then 0 else Size(spans, list[0], depth) + Sizes(spans, list[1..], depth)
  }

  lemma {:induction false} SizesConcat(spans: seq<Span>, a: seq<Span>, b: seq<Span>, depth: nat)
    ensures Sizes(spans, a + b, depth) == Sizes(spans, a, depth) + Sizes(spans, b, depth)
    decreases |a|
  {
    if a == [] {
      assert a + b == b;
    } else {
      assert (a + b)[1..] == a[1..] + b;
      SizesConcat(spans, a[1..], b, depth);
    }
  }

  /** No path from this span has more than so many spans. */
  ghost predicate Shallow(spans: seq<Span>, s: Span, depth: nat) {
    forall path :: IsPath(spans, path) && path != [] && path[0] == s ==> |path| <= depth
  }

  lemma ShallowKids(spans: seq<Span>, s: Span, depth: nat, k: Span)
    requires Shallow(spans, s, depth) && k in Kids(spans, s)
    ensures depth > 1 && Shallow(spans, k, depth - 1)
  {
    forall path | IsPath(spans, path) && path != [] && path[0] == k ensures |path| <= depth - 1 {
      LongerPath(spans, s, path);
    }
    LongerPath(spans, s, [k]);
  }

  lemma LongerPath(spans: seq<Span>, s: Span, path: seq<Span>)
    requires IsPath(spans, path) && path != [] && path[0] in Kids(spans, s)
    ensures IsPath(spans, [s] + path)
  {
    var longer := [s] + path;
    forall i | 0 <= i < |longer| - 1 ensures longer[i + 1] in Kids(spans, longer[i]) {
      if i > 0 { assert longer[i] == path[i - 1] && longer[i + 1] == path[i]; }
    }
  }

  /** Looking deeper than the tree is counts nothing more. */
  lemma {:induction false} DeepEnough(spans: seq<Span>, s: Span, depth: nat)
    requires Shallow(spans, s, depth) && depth > 0
    ensures Size(spans, s, depth) == Size(spans, s, depth + 1)
    decreases depth, 0, 0
  {
    forall k | k in Kids(spans, s) ensures depth > 1 && Shallow(spans, k, depth - 1) {
      ShallowKids(spans, s, depth, k);
    }
    if Kids(spans, s) != [] {
      assert Kids(spans, s)[0] in Kids(spans, s);
      AllDeepEnough(spans, Kids(spans, s), depth - 1);
    }
  }

  lemma {:induction false} AllDeepEnough(spans: seq<Span>, list: seq<Span>, depth: nat)
    requires depth > 0 && forall k :: k in list ==> Shallow(spans, k, depth)
    ensures Sizes(spans, list, depth) == Sizes(spans, list, depth + 1)
    decreases depth, 1, |list|
  {
    if list != [] {
      DeepEnough(spans, list[0], depth);
      AllDeepEnough(spans, list[1..], depth);
    }
  }

  /** One round takes one off the work that is left. */
  lemma RoundSpends(spans: seq<Span>, pend: seq<Span>, depth: nat)
    requires pend != [] && depth > 0 && Shallow(spans, pend[0], depth)
    ensures Sizes(spans, Kids(spans, pend[0]) + pend[1..], depth) == Sizes(spans, pend, depth) - 1
  {
    var kids := Kids(spans, pend[0]);
    SizesConcat(spans, kids, pend[1..], depth);
    forall k | k in kids ensures depth > 1 && Shallow(spans, k, depth - 1) {
      ShallowKids(spans, pend[0], depth, k);
    }
    assert Sizes(spans, pend, depth) == Size(spans, pend[0], depth) + Sizes(spans, pend[1..], depth);
    assert Size(spans, pend[0], depth) == 1 + Sizes(spans, kids, depth - 1);
    if kids == [] {
      assert Sizes(spans, kids, depth) == 0 == Sizes(spans, kids, depth - 1);
    } else {
      assert kids[0] in kids;
      AllDeepEnough(spans, kids, depth - 1);
    }
  }

  ghost predicate AllShallow(spans: seq<Span>, pend: seq<Span>, depth: nat) {
    forall s :: s in pend ==> Shallow(spans, s, depth)
  }

  lemma {:induction false} WorkLeft(spans: seq<Span>, depth: nat, n: nat)
    requires depth > 0 && AllShallow(spans, PendAfter(spans, 0), depth)
    requires n <= Sizes(spans, PendAfter(spans, 0), depth)
    ensures AllShallow(spans, PendAfter(spans, n), depth)
    ensures Sizes(spans, PendAfter(spans, n), depth) == Sizes(spans, PendAfter(spans, 0), depth) - n
  {
    if n > 0 {
      WorkLeft(spans, depth, n - 1);
      var pend := PendAfter(spans, n - 1);
      assert pend != [];
      RoundSpends(spans, pend, depth);
      KidsShallow(spans, pend, depth);
    }
  }

  lemma KidsShallow(spans: seq<Span>, pend: seq<Span>, depth: nat)
    requires pend != [] && AllShallow(spans, pend, depth)
    ensures AllShallow(spans, Kids(spans, pend[0]) + pend[1..], depth)
  {
    assert pend == [pend[0]] + pend[1..];
    forall k | k in Kids(spans, pend[0]) ensures Shallow(spans, k, depth) {
      ShallowKids(spans, pend[0], depth, k);
    }
  }

  // ---- a path that does not turn is short ----

  lemma {:induction false} DistinctFit(path: seq<Span>, ids: set<Id>)
    requires (forall s :: s in path ==> s.id in ids) && (forall i, j :: !Repeats(path, i, j))
    ensures |path| <= |ids|
  {
    if path != [] {
      var front, last := path[..|path| - 1], path[|path| - 1];
      forall s | s in front ensures s.id in ids - {last.id} {
        var i :| 0 <= i < |front| && front[i] == s;
        assert !Repeats(path, i, |path| - 1);
      }
      forall i, j ensures !Repeats(front, i, j) {
        assert !Repeats(path, i, j);
      }
      DistinctFit(front, ids - {last.id});
    }
  }

  lemma PathInReport(spans: seq<Span>, path: seq<Span>)
    requires IsPath(spans, path) && path != [] && path[0] in spans
    ensures forall s :: s in path ==> s in spans
  {
    forall i | 0 <= i < |path| ensures path[i] in spans {
      if i > 0 {
        assert path[i - 1 + 1] in Kids(spans, path[i - 1]);
        KidsFiled(spans, path[i - 1]);
      }
    }
  }

  lemma NoTurnIsShallow(spans: seq<Span>, s: Span)
    requires s in spans && !Turns(spans, s)
    ensures Shallow(spans, s, |Ids(spans)|)
  {
    forall path | IsPath(spans, path) && path != [] && path[0] == s ensures |path| <= |Ids(spans)| {
      PathInReport(spans, path);
      forall i, j ensures !Repeats(path, i, j) {
      }
      DistinctFit(path, Ids(spans));
    }
  }

  lemma NoLoopEnds(spans: seq<Span>)
    requires !Loops(spans)
    ensures Ends(spans)
  {
    var tops := Filed(Ids(spans), spans, None);
    if tops == [] {
      assert PendAfter(spans, 0) == [];
    } else {
      forall s | s in tops ensures s in spans && Shallow(spans, s, |Ids(spans)|) {
        FiledMember(Ids(spans), spans, None, s);
        NoTurnIsShallow(spans, s);
      }
      assert tops[0] in tops && tops[0].id in Ids(spans);
      var work := Sizes(spans, tops, |Ids(spans)|);
      WorkLeft(spans, |Ids(spans)|, work);
      SizesZero(spans, PendAfter(spans, work), |Ids(spans)|);
    }
  }

  lemma SizesZero(spans: seq<Span>, pend: seq<Span>, depth: nat)
    requires Sizes(spans, pend, depth) == 0
    ensures pend == []
  {
  }

  /** The loop ends if and only if no span reached from the top level is filed below its own id. */
  lemma EndsIff(spans: seq<Span>)
    ensures Ends(spans) <==> !Loops(spans)
  {
    if Loops(spans) {
      forall n: nat ensures PendAfter(spans, n) != [] {
        NeverEmpty(spans, n);
      }
    } else {
      NoLoopEnds(spans);
    }
  }

  /** A report on which it does not: one id twice, once at the top and once under itself. */
  lemma RepeatedIdNeverEnds(a: Span, b: Span)
    requires a.parent.None? && b.id == a.id && b.parent == Some(a.id)
    ensures !Ends([a, b])
  {
    var spans := [a, b];
    assert a in spans && b in spans;
    FiledMember(Ids(spans), spans, None, a);
    FiledMember(Ids(spans), spans, Some(a.id), b);
    assert IsPath(spans, [a, b]) && Repeats([a, b], 0, 1);
    assert Turns(spans, a);
    EndsIff(spans);
  }

  // ---- the loop ----

  /** The loop's variables after n rounds. */
  ghost predicate AtRound(spans: seq<Span>, stack: seq<Span>, out: seq<Span>, n: nat) {
    stack == Reversed(PendAfter(spans, n)) && out == OutAfter(spans, n)
  }

  lemma NextRound(spans: seq<Span>, stack: seq<Span>, out: seq<Span>, kids: seq<Span>, n: nat, last: nat)
    requires AtRound(spans, stack, out, n) && stack != [] && n <= last && PendAfter(spans, last) == []
    requires kids == Filed(Ids(spans), spans, Some(stack[|stack| - 1].id))
    ensures n < last
    ensures AtRound(spans, stack[..|stack| - 1] + Reversed(kids), out + [stack[|stack| - 1]], n + 1)
  {
    var pend := PendAfter(spans, n);
    assert pend != [];
    ReversedPush(pend, kids);
  }

  lemma LastRound(spans: seq<Span>, out: seq<Span>, n: nat)
    requires AtRound(spans, [], out, n)
    ensures Ends(spans) && out == Emitted(spans) && (UniqueIds(spans) ==> out == Ordered(spans))
  {
    assert |Reversed(PendAfter(spans, n))| == 0;
    EmittedIs(spans, n);
    if UniqueIds(spans) { UniqueEnds(spans); }
  }

  /** The source's `parentFirst`, on every report on which it ends. */
  method Reorder(spans: seq<Span>) returns (out: seq<Span>)
    requires Ends(spans)
    ensures out == Emitted(spans)
    ensures UniqueIds(spans) ==> out == Ordered(spans)
  {
    var children := FileByParent(spans);
    out := [];
    var stack := Reversed(Pile(children, None));
    ghost var last: nat :| PendAfter(spans, last) == [];
    ghost var n: nat := 0;
    assert AtRound(spans, stack, out, n);
    while stack != []
      invariant AtRound(spans, stack, out, n) && n <= last
      decreases last - n
    {
      var span := stack[|stack| - 1];
      var kids := Pile(children, Some(span.id));
      NextRound(spans, stack, out, kids, n, last);
      stack, out := stack[..|stack| - 1] + Reversed(kids), out + [span];
      n := n + 1;
    }
    LastRound(spans, out, n);
  }
}
