/** Mapping a list with a fixed number of workers that share one index. */
module ConcurrentMap {
  import opened Options

  /** A worker is about to claim an index, waits for the mapper, has returned, or was thrown
      out by a mapper that rejected. */
  datatype Worker = AtClaim | Mapping(index: nat) | Returned | Broken

  /** `calls` is history: the indices the mapper was called for, in the order of the calls. */
  datatype Pool<R> = Pool(next: nat, workers: seq<Worker>, results: seq<Option<R>>, calls: seq<nat>)

  function Start<R>(n: nat, limit: nat): Pool<R> {
    Pool(0, seq(if limit < n then limit else n, _ => AtClaim), seq(n, _ => None), [])
  }

  predicate Enabled<R>(p: Pool<R>, w: nat) {
    w < |p.workers| && (p.workers[w].AtClaim? || p.workers[w].Mapping?)
  }

  /** Worker w moves: it claims the next index, or the mapper settles for the one it has. */
  function Move<T, R>(items: seq<T>, mapper: T -> Option<R>, p: Pool<R>, w: nat): Pool<R>
    requires Enabled(p, w) && |p.results| == |items|
  {
    match p.workers[w]
    case AtClaim =>
      if p.next < |items|
        then p.(next := p.next + 1, workers := p.workers[w := Mapping(p.next)], calls := p.calls + [p.next])
      else p.(next := p.next + 1, workers := p.workers[w := Returned])
    case Mapping(i) =>
      if i < |items| && mapper(items[i]).Some?
        then p.(workers := p.workers[w := AtClaim], results := p.results[i := mapper(items[i])])
      else p.(workers := p.workers[w := Broken])
    case _ => p
  }

  /** The slot of an index below `next` is filled with what the mapper made of the item, or
      one worker has it, or a worker broke on it; above `next` nothing has happened. */
  ghost predicate Slot<T, R>(items: seq<T>, mapper: T -> Option<R>, p: Pool<R>, i: nat)
    requires i < |items| == |p.results|
  {
    && (p.results[i].Some? ==> i < p.next && p.results[i] == mapper(items[i]))
    && (Mapping(i) in p.workers ==> i < p.next && p.results[i].None?)
    && (i < p.next && p.results[i].None? ==> Mapping(i) in p.workers || (mapper(items[i]).None? && Broken in p.workers))
  }

  /** The mapper rejects item i. */
  ghost predicate Rejects<T, R>(items: seq<T>, mapper: T -> Option<R>, i: nat) {
    i < |items| && mapper(items[i]).None?
  }

  ghost predicate Inv<T, R>(items: seq<T>, mapper: T -> Option<R>, p: Pool<R>) {
    && |p.results| == |items|
    && (forall i :: 0 <= i < |items| ==> Slot(items, mapper, p, i))
    && (forall v, w :: 0 <= v < w < |p.workers| && p.workers[v].Mapping? ==> p.workers[v] != p.workers[w])
    && (forall w :: 0 <= w < |p.workers| && p.workers[w].Mapping? ==> p.workers[w].index < |items|)
    && (Returned in p.workers ==> p.next >= |items|)
    && (Broken in p.workers ==> exists i :: 0 <= i < |p.calls| && Rejects(items, mapper, i))
    && |p.calls| == (if p.next < |items| then p.next else |items|)
    && (forall k :: 0 <= k < |p.calls| ==> p.calls[k] == k)
  }

  lemma MembersAfter(workers: seq<Worker>, w: nat, worker: Worker)
    requires w < |workers|
    ensures worker in workers[w := worker]
    ensures forall x :: x in workers && x != workers[w] ==> x in workers[w := worker]
    ensures forall x :: x in workers[w := worker] && x != worker ==> x in workers
  {
    assert workers[w := worker][w] == worker;
    forall x | x in workers && x != workers[w] ensures x in workers[w := worker] {
      var v :| 0 <= v < |workers| && workers[v] == x;
      assert workers[w := worker][v] == x;
    }
  }

  lemma MoveKeeps<T, R>(items: seq<T>, mapper: T -> Option<R>, p: Pool<R>, w: nat)
    requires Inv(items, mapper, p) && Enabled(p, w)
    ensures Inv(items, mapper, Move(items, mapper, p, w))
  {
    var q := Move(items, mapper, p, w);
    var was := p.workers[w];
    assert was in p.workers;
    assert p.next < |items| ==> Slot(items, mapper, p, p.next);
    MembersAfter(p.workers, w, q.workers[w]);
    assert was.Mapping? ==> was !in q.workers;
    forall i | 0 <= i < |items| ensures Slot(items, mapper, q, i) {
      assert Slot(items, mapper, p, i);
      assert i == p.next ==> Mapping(i) !in p.workers;
    }
    BrokenRejects(items, mapper, p, w);
  }

  /** A worker breaks only on an item for which the mapper was called and rejects. */
  lemma BrokenRejects<T, R>(items: seq<T>, mapper: T -> Option<R>, p: Pool<R>, w: nat)
    requires Inv(items, mapper, p) && Enabled(p, w)
    ensures var q := Move(items, mapper, p, w);
      Broken in q.workers ==> exists i :: 0 <= i < |q.calls| && Rejects(items, mapper, i)
  {
    var q, was := Move(items, mapper, p, w), p.workers[w];
    assert was in p.workers;
    if Broken in p.workers {
      var i :| 0 <= i < |p.calls| && Rejects(items, mapper, i);
      assert i < |q.calls|;
    } else if Broken in q.workers {
      assert was.Mapping? && Slot(items, mapper, p, was.index);
      assert Rejects(items, mapper, was.index);
    }
  }

  ghost predicate IsRun<T, R>(items: seq<T>, mapper: T -> Option<R>, p: Pool<R>, moves: seq<nat>)
    requires |p.results| == |items|
    decreases |moves|
  {
    moves == [] || (Enabled(p, moves[0]) && IsRun(items, mapper, Move(items, mapper, p, moves[0]), moves[1..]))
  }

  ghost function After<T, R>(items: seq<T>, mapper: T -> Option<R>, p: Pool<R>, moves: seq<nat>): Pool<R>
    requires |p.results| == |items| && IsRun(items, mapper, p, moves)
    decreases |moves|
  {
    if moves == [] then p else After(items, mapper, Move(items, mapper, p, moves[0]), moves[1..])
  }

  lemma {:induction false} RunsKeepInv<T, R>(items: seq<T>, mapper: T -> Option<R>, p: Pool<R>, moves: seq<nat>)
    requires Inv(items, mapper, p) && IsRun(items, mapper, p, moves)
    ensures Inv(items, mapper, After(items, mapper, p, moves))
    ensures |After(items, mapper, p, moves).workers| == |p.workers|
    decreases |moves|
  {
    if moves != [] {
      MoveKeeps(items, mapper, p, moves[0]);
      RunsKeepInv(items, mapper, Move(items, mapper, p, moves[0]), moves[1..]);
    }
  }

  ghost predicate AllReturned<R>(p: Pool<R>) {
    forall w :: 0 <= w < |p.workers| ==> p.workers[w].Returned?
  }

  function Mapped<T, R>(items: seq<T>, mapper: T -> Option<R>): seq<Option<R>> {
    seq(|items|, i requires 0 <= i < |items| => mapper(items[i]))
  }

  /** Whatever order the mapper's promises settle in: the mapper is called at most once per
      item, in order, with at most `limit` calls in flight. Once every worker has returned,
      the results are the plain map over the list, unless no worker was allowed at all. */
  lemma ResultsInInputOrder<T, R>(items: seq<T>, limit: nat, mapper: T -> Option<R>, moves: seq<nat>)
    requires IsRun(items, mapper, Start(|items|, limit), moves)
    ensures var p := After(items, mapper, Start(|items|, limit), moves);
      && |p.workers| <= limit
      && p.calls <= seq(|items|, i => i)
      && (AllReturned(p) && (limit > 0 || items == []) ==>
            p.calls == seq(|items|, i => i) && p.results == Mapped(items, mapper) && None !in p.results)
      && (limit == 0 ==> moves == [] && p.calls == [] && forall r :: r in p.results ==> r == None)
  {
    var start: Pool<R> := Start(|items|, limit);
    RunsKeepInv(items, mapper, start, moves);
    var p := After(items, mapper, start, moves);
    if AllReturned(p) && limit > 0 {
      assert |items| > 0 ==> p.workers[0] in p.workers;
      forall i | 0 <= i < |items| ensures p.results[i] == mapper(items[i]) && p.results[i].Some? {
        assert Slot(items, mapper, p, i);
      }
    }
  }

  // ---- every run ends ----

  function Steps(workers: seq<Worker>): nat {
    if workers == [] then 0
    else
      var last := workers[|workers| - 1];
      Steps(workers[..|workers| - 1]) + (if last.Mapping? then 2 else if last.AtClaim? then 1 else 0)
  }

  lemma {:induction false} StepsAfter(workers: seq<Worker>, w: nat, worker: Worker)
    requires w < |workers|
    ensures Steps(workers[w := worker]) + Steps([workers[w]]) == Steps(workers) + Steps([worker])
  {
    var front := workers[..|workers| - 1];
    if w < |front| {
      StepsAfter(front, w, worker);
      assert workers[w := worker][..|front|] == front[w := worker];
    } else {
      assert workers[w := worker][..|front|] == front;
    }
  }

  function Left<R>(n: nat, p: Pool<R>): nat {
    2 * (if p.next < n then n - p.next else 0) + Steps(p.workers)
  }

  lemma {:induction false} RunsShort<T, R>(items: seq<T>, mapper: T -> Option<R>, p: Pool<R>, moves: seq<nat>)
    requires |p.results| == |items| && IsRun(items, mapper, p, moves)
    ensures |moves| <= Left(|items|, p)
    decreases |moves|
  {
    if moves != [] {
      var q := Move(items, mapper, p, moves[0]);
      StepsAfter(p.workers, moves[0], q.workers[moves[0]]);
      RunsShort(items, mapper, q, moves[1..]);
    }
  }

  lemma {:induction false} StartSteps(workers: seq<Worker>)
    requires forall w :: 0 <= w < |workers| ==> workers[w].AtClaim?
    ensures Steps(workers) == |workers|
  {
    if workers != [] { StartSteps(workers[..|workers| - 1]); }
  }

  /** No run goes on for ever, and in one that cannot go on every worker has returned, unless
      the mapper rejected one of the items it was called for; then some worker broke. */
  lemma RunsEnd<T, R>(items: seq<T>, limit: nat, mapper: T -> Option<R>, moves: seq<nat>)
    requires IsRun(items, mapper, Start(|items|, limit), moves)
    ensures |moves| <= 2 * |items| + (if limit < |items| then limit else |items|)
    ensures var p := After(items, mapper, Start(|items|, limit), moves);
      (forall w :: !Enabled(p, w)) ==>
        (AllReturned(p) <==> forall i :: 0 <= i < |p.calls| ==> !Rejects(items, mapper, p.calls[i]))
  {
    var start: Pool<R> := Start(|items|, limit);
    var p := After(items, mapper, start, moves);
    RunsKeepInv(items, mapper, start, moves);
    RunsShort(items, mapper, start, moves);
    StartSteps(start.workers);
    if forall w :: !Enabled(p, w) { StuckIsReturned(items, mapper, p); }
  }

  lemma StuckIsReturned<T, R>(items: seq<T>, mapper: T -> Option<R>, p: Pool<R>)
    requires Inv(items, mapper, p) && forall w :: !Enabled(p, w)
    ensures AllReturned(p) <==> forall i :: 0 <= i < |p.calls| ==> !Rejects(items, mapper, p.calls[i])
  {
    forall w | 0 <= w < |p.workers| ensures p.workers[w].Returned? || p.workers[w].Broken? {
      assert !Enabled(p, w);
    }
    if !AllReturned(p) {
      var w :| 0 <= w < |p.workers| && !p.workers[w].Returned?;
      assert p.workers[w] == Broken && Broken in p.workers;
      var i :| 0 <= i < |p.calls| && Rejects(items, mapper, i);
      assert Rejects(items, mapper, p.calls[i]);
    } else {
      forall i | 0 <= i < |p.calls| ensures !Rejects(items, mapper, p.calls[i]) {
        assert Slot(items, mapper, p, i);
      }
    }
  }
}
