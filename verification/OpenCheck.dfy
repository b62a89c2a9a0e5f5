/** The memoised test for "this span hangs, through spans not sent yet, under an open step". */
module OpenCheck {
  import opened Options
  import opened SpanModel
  import opened Ancestry

  ghost predicate Distinct(ids: seq<Id>) {
    forall i, j :: 0 <= i < j < |ids| ==> ids[i] != ids[j]
  }

  class OpenChecker {
    const open: set<Id>
    const links: LinkMap
    var memo: map<Id, bool>
    /** Every node that any call has looked a parent up for, in order. */
    ghost var walked: seq<Id>

    ghost predicate Valid()
      reads this
    {
      && (forall id :: id in memo ==> memo[id] == Hangs(links, open, Some(id)))
      && (forall id :: id in memo ==> id !in open)
      && Distinct(walked)
      && (forall id :: id in walked <==> id in memo)
    }

    /** `known` is the buffered spans, then the spans of every rider, then the extra ones. */
    constructor (open: set<Id>, known: seq<Span>)
      ensures Valid() && walked == []
      ensures this.open == open && links == Links(known)
    {
      var parentOf: LinkMap := map[];
      for i := 0 to |known|
        invariant parentOf == Links(known[..i])
      {
        parentOf := parentOf[known[i].id := known[i].parent];
        assert known[..i + 1][..i] == known[..i];
      }
      assert known[..|known|] == known;
      this.open := open;
      this.links := parentOf;
      this.memo := map[];
      this.walked := [];
    }

    /** The answer is exact even where links form a cycle, and no node is walked twice over
        all calls: `walked` only grows, and stays free of repeats. */
    method Check(span: Span) returns (result: bool)
      requires Valid()
      modifies this
      ensures Valid() && old(walked) <= walked
      ensures result == Hangs(links, open, span.parent)
    {
      var path;
      result, path := Walk(span.parent);
      PathHangs(span.parent, path, |path|);
      for i := 0 to |path|
        invariant memo.Keys == old(memo).Keys + set k | 0 <= k < i :: path[k]
        invariant forall id :: id in old(memo) ==> id in memo && memo[id] == old(memo)[id]
        invariant forall k :: 0 <= k < i ==> memo[path[k]] == result
        invariant walked == old(walked)
      {
        memo := memo[path[i] := result];
      }
      walked := walked + path;
      forall id | id in memo
        ensures memo[id] == Hangs(links, open, Some(id)) && id !in open && id in walked
      {
        if id !in old(memo) {
          var k :| 0 <= k < |path| && path[k] == id;
        }
      }
    }

    /** Follows parent links until a remembered node, an open step, the end of the chain or
        a node seen on this walk. */
    method Walk(start: Option<Id>) returns (result: bool, path: seq<Id>)
      requires Valid()
      ensures Distinct(path) && WalkedPast(start, path)
      ensures forall id :: id in path ==> id !in memo
      ensures result == Hangs(links, open, Up(links, start, |path|))
    {
      path := [];
      var node := start;
      ghost var left := links.Keys;
      while node.Some?
        invariant Distinct(path) && WalkedPast(start, path)
        invariant forall id :: id in path ==> id !in memo
        invariant node == Up(links, start, |path|)
        invariant node.Some? ==> forall id :: id in path ==> id in links
        invariant forall id :: id in links && id !in path ==> id in left
        decreases left, node.Some?
      {
        var id := node.value;
        if id in memo { return memo[id], path; }
        if id in open {
          HangsStep(links, open, id);
          return true, path;
        }
        if id in path {
          CycleHangsNowhere(start, path, id);
          return false, path;
        }
        Extend(start, path, id);
        path := path + [id];
        node := if id in links then links[id] else None;
        left := left - {id};
      }
      HangsNowhere(links, open);
      return false, path;
    }

    /** The walk from `start` passed the nodes of `path`, none of them an open step. */
    ghost predicate WalkedPast(start: Option<Id>, path: seq<Id>)
    {
      && (forall k :: 0 <= k < |path| ==> path[k] !in open)
      && (forall k :: 0 <= k < |path| ==> Up(links, start, k) == Some(path[k]))
    }

    lemma Extend(start: Option<Id>, path: seq<Id>, id: Id)
      requires WalkedPast(start, path) && Distinct(path)
      requires Up(links, start, |path|) == Some(id) && id !in open && id !in path
      ensures WalkedPast(start, path + [id]) && Distinct(path + [id])
      ensures Up(links, start, |path| + 1) == if id in links then links[id] else None
    {
      UpPlus(links, start, |path|, 1);
      assert Up(links, Some(id), 1) == if id in links then links[id] else None;
    }

    lemma CycleHangsNowhere(start: Option<Id>, path: seq<Id>, id: Id)
      requires WalkedPast(start, path)
      requires id in path && Up(links, start, |path|) == Some(id)
      ensures !Hangs(links, open, Up(links, start, |path|))
    {
      var i :| 0 <= i < |path| && path[i] == id;
      forall n: nat
        ensures !OpenAt(links, open, start, n)
      {
        CycleMeetsNothingNew(links, open, start, i, |path|, n);
      }
      HangsSuffix(links, open, start, |path|);
    }

    /** All nodes walked past share one answer, that of the node the walk stopped at. */
    lemma PathHangs(start: Option<Id>, path: seq<Id>, stop: nat)
      requires WalkedPast(start, path) && stop == |path|
      ensures Hangs(links, open, start) <==> Hangs(links, open, Up(links, start, stop))
      ensures forall k :: 0 <= k < |path| ==>
        (Hangs(links, open, Some(path[k])) <==> Hangs(links, open, Up(links, start, stop)))
    {
      HangsSuffix(links, open, start, stop);
      forall k | 0 <= k < |path|
        ensures Hangs(links, open, Some(path[k])) <==> Hangs(links, open, Up(links, start, stop))
      {
        HangsSuffix(links, open, start, k);
      }
    }
  }
}
