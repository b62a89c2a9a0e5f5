/** Chains of parent links, followed through a finite map of known spans. */
module Ancestry {
  import opened Options
  import opened SpanModel

  type LinkMap = map<Id, Option<Id>>

  /** The node `n` links above `node`; None once the chain has left the map. */
  ghost function Up(links: LinkMap, node: Option<Id>, n: nat): Option<Id>
    decreases n
  {
    if n == 0 then node
    else if node.None? || node.value !in links then None
    else Up(links, links[node.value], n - 1)
  }

  /** Some node of the chain that begins at `node` is an open step. */
  ghost predicate Hangs(links: LinkMap, open: set<Id>, node: Option<Id>) {
    exists n: nat :: OpenAt(links, open, node, n)
  }

  ghost predicate OpenAt(links: LinkMap, open: set<Id>, node: Option<Id>, n: nat) {
    Up(links, node, n).Some? && Up(links, node, n).value in open
  }

  /** The chain from `node` leaves the map after finitely many links: it meets no cycle. */
  ghost predicate Grounded(links: LinkMap, node: Option<Id>) {
    exists n: nat :: Up(links, node, n).None?
  }

  ghost predicate IsAncestor(links: LinkMap, a: Id, s: Span) {
    Meets(links, a, s.parent)
  }

  lemma {:induction false} UpPlus(links: LinkMap, node: Option<Id>, m: nat, n: nat)
    ensures Up(links, node, m + n) == Up(links, Up(links, node, m), n)
    decreases m
  {
    if m > 0 && node.Some? && node.value in links {
      UpPlus(links, links[node.value], m - 1, n);
    }
  }

  lemma HangsStep(links: LinkMap, open: set<Id>, node: Id)
    ensures Hangs(links, open, Some(node)) <==>
      node in open || (node in links && Hangs(links, open, links[node]))
  {
    if node in open {
      assert OpenAt(links, open, Some(node), 0);
    }
    if node in links && Hangs(links, open, links[node]) {
      var n: nat :| OpenAt(links, open, links[node], n);
      assert OpenAt(links, open, Some(node), n + 1);
    }
    if Hangs(links, open, Some(node)) {
      var n: nat :| OpenAt(links, open, Some(node), n);
      if n > 0 {
        assert OpenAt(links, open, links[node], n - 1);
      }
    }
  }

  lemma HangsNowhere(links: LinkMap, open: set<Id>)
    ensures !Hangs(links, open, None)
  {
    forall n: nat ensures !OpenAt(links, open, None, n) {}
  }

  lemma GroundedStep(links: LinkMap, node: Id)
    ensures Grounded(links, Some(node)) <==> node !in links || Grounded(links, links[node])
  {
    if node !in links {
      assert Up(links, Some(node), 1).None?;
    } else if Grounded(links, links[node]) {
      var n: nat :| Up(links, links[node], n).None?;
      assert Up(links, Some(node), n + 1).None?;
    }
    if Grounded(links, Some(node)) && node in links {
      var n: nat :| Up(links, Some(node), n).None?;
      assert Up(links, links[node], n - 1).None?;
    }
  }

  /** `a` is met on the chain that begins at `node`. */
  ghost predicate Meets(links: LinkMap, a: Id, node: Option<Id>) {
    exists n: nat :: Up(links, node, n) == Some(a)
  }

  lemma MeetsStep(links: LinkMap, a: Id, node: Id)
    ensures Meets(links, a, Some(node)) <==> a == node || (node in links && Meets(links, a, links[node]))
  {
    if a == node {
      assert Up(links, Some(node), 0) == Some(a);
    }
    if node in links && Meets(links, a, links[node]) {
      var n: nat :| Up(links, links[node], n) == Some(a);
      assert Up(links, Some(node), n + 1) == Some(a);
    }
    if Meets(links, a, Some(node)) {
      var n: nat :| Up(links, Some(node), n) == Some(a);
      if n > 0 {
        assert Up(links, links[node], n - 1) == Some(a);
      }
    }
  }

  lemma {:induction false} MeetsNothing(links: LinkMap, a: Id)
    ensures !Meets(links, a, None)
  {
    forall n: nat ensures Up(links, None, n) != Some(a) {}
  }

  /** A chain that comes back to a node it has passed can meet no open step if it met none
      on the way. */
  lemma {:induction false} CycleMeetsNothingNew(links: LinkMap, open: set<Id>, node: Option<Id>, i: nat, j: nat, n: nat)
    requires i < j && Up(links, node, i) == Up(links, node, j)
    requires forall k: nat :: k < j ==> !OpenAt(links, open, node, k)
    ensures !OpenAt(links, open, node, n)
    decreases n
  {
    if n >= j {
      CycleMeetsNothingNew(links, open, node, i, j, n - (j - i));
      UpPlus(links, node, j, n - j);
      UpPlus(links, node, i, n - j);
      assert n - (j - i) == i + (n - j);
    }
  }

  /** Whether a chain hangs under an open step is settled by its suffixes, as long as the
      part already walked met none. */
  lemma HangsSuffix(links: LinkMap, open: set<Id>, node: Option<Id>, m: nat)
    requires forall k: nat :: k < m ==> !OpenAt(links, open, node, k)
    ensures Hangs(links, open, node) <==> Hangs(links, open, Up(links, node, m))
  {
    if Hangs(links, open, node) {
      var n: nat :| OpenAt(links, open, node, n);
      UpPlus(links, node, m, n - m);
      assert OpenAt(links, open, Up(links, node, m), n - m);
    }
    if Hangs(links, open, Up(links, node, m)) {
      var n: nat :| OpenAt(links, open, Up(links, node, m), n);
      UpPlus(links, node, m, n);
      assert OpenAt(links, open, node, m + n);
    }
  }

  /** Adding links for ids that were not known, or opening more steps, keeps what hangs. */
  lemma HangsGrows(links: LinkMap, more: LinkMap, open: set<Id>, wider: set<Id>, node: Option<Id>)
    requires forall id :: id in links ==> id in more && more[id] == links[id]
    requires open <= wider
    requires Hangs(links, open, node)
    ensures Hangs(more, wider, node)
  {
    var n: nat :| OpenAt(links, open, node, n);
    OpenAtGrows(links, more, open, wider, node, n);
  }

  lemma {:induction false} OpenAtGrows(links: LinkMap, more: LinkMap, open: set<Id>, wider: set<Id>,
    node: Option<Id>, n: nat)
    requires forall id :: id in links ==> id in more && more[id] == links[id]
    requires open <= wider
    requires OpenAt(links, open, node, n)
    ensures OpenAt(more, wider, node, n)
    decreases n
  {
    if n > 0 {
      assert OpenAt(links, open, links[node.value], n - 1);
      OpenAtGrows(links, more, open, wider, links[node.value], n - 1);
    }
  }

  /** Forgetting links of ids that do not hang under an open step keeps what hangs. */
  lemma HangsShrinks(links: LinkMap, fewer: LinkMap, open: set<Id>, node: Option<Id>)
    requires forall id :: id in fewer ==> id in links && fewer[id] == links[id]
    requires forall id :: id in links && id !in fewer ==> !Hangs(links, open, Some(id))
    requires Hangs(links, open, node)
    ensures Hangs(fewer, open, node)
  {
    var n: nat :| OpenAt(links, open, node, n);
    OpenAtShrinks(links, fewer, open, node, n);
  }

  lemma {:induction false} OpenAtShrinks(links: LinkMap, fewer: LinkMap, open: set<Id>, node: Option<Id>, n: nat)
    requires forall id :: id in fewer ==> id in links && fewer[id] == links[id]
    requires forall id :: id in links && id !in fewer ==> !Hangs(links, open, Some(id))
    requires OpenAt(links, open, node, n)
    ensures OpenAt(fewer, open, node, n)
    decreases n
  {
    if n > 0 {
      assert Hangs(links, open, node);
      assert node.value in fewer;
      OpenAtShrinks(links, fewer, open, links[node.value], n - 1);
    }
  }
}
