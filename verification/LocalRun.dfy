/** A local experiment as a protocol: workers that share an index, and a chain of uploads. */
module LocalRun {
  import opened ResultBatches

  /** A worker is about to test its loop condition, has an example in flight, has left its
      loop, or was thrown out of it by work that rejected. */
  datatype Worker = AtTest | Running(index: nat) | Stopped | Crashed(index: nat)

  /** One upload of the chain: it waits for its turn, has its request in flight, or is over. */
  datatype Link = Waiting | Active | Sent | Failed | Skipped

  /** The run itself: it awaits the workers, then the uploads, then it has reported the finish. */
  datatype Main = Pooling | Awaiting | Done(failed: bool)

  /** `completed` and `finishes` are history: the results in the order they came in, and for
      every finish request whether it carried an error. */
  datatype Run = Run(
    n: nat, concurrency: nat, next: nat, workers: seq<Worker>,
    completed: seq<WireResult>, pending: seq<WireResult>, batches: seq<Batch>, links: seq<Link>,
    uploadError: bool, main: Main, finishes: seq<bool>)

  function Min(a: nat, b: nat): nat {
    if a < b then a else b
  }

  function Start(n: nat, concurrency: nat): Run {
    Run(n, concurrency, 0, seq(Min(concurrency, n), _ => AtTest), [], [], [], [], false, Pooling, [])
  }

  datatype Event =
    | Test(worker: nat)
    | Finish(worker: nat, size: nat, late: bool)
    | Reject(worker: nat)
    | Turn(link: nat)
    | Settle(link: nat, ok: bool)
    | Advance

  predicate Over(link: Link) {
    link.Sent? || link.Failed? || link.Skipped?
  }

  predicate AllOver(links: seq<Link>) {
    forall k :: 0 <= k < |links| ==> Over(links[k])
  }

  predicate AllStopped(workers: seq<Worker>) {
    forall w :: 0 <= w < |workers| ==> workers[w].Stopped?
  }

  predicate AnyCrashed(workers: seq<Worker>) {
    exists w :: 0 <= w < |workers| && workers[w].Crashed?
  }

  predicate Enabled(r: Run, e: Event) {
    match e
    case Test(w) => w < |r.workers| && r.workers[w].AtTest?
    case Finish(w, _, _) => w < |r.workers| && r.workers[w].Running?
    case Reject(w) => w < |r.workers| && r.workers[w].Running?
    case Turn(k) => k < |r.links| && r.links[k].Waiting? && (k > 0 ==> Over(r.links[k - 1]))
    case Settle(k, _) => k < |r.links| && r.links[k].Active?
    case Advance =>
      match r.main
      case Pooling => AllStopped(r.workers) || AnyCrashed(r.workers)
      case Awaiting => AllOver(r.links)
      case Done(_) => false
  }

  function Flush(r: Run): Run {
    var more := Split(r.pending);
    r.(pending := [], batches := r.batches + more, links := r.links + seq(|more|, _ => Waiting))
  }

  function Finished(r: Run, failed: bool): Run {
    r.(main := Done(failed), finishes := r.finishes + [failed])
  }

  function Next(r: Run, e: Event): Run
    requires Enabled(r, e)
  {
    match e
    case Test(w) =>
      if !r.uploadError && r.next < r.n then r.(workers := r.workers[w := Running(r.next)], next := r.next + 1)
      else r.(workers := r.workers[w := Stopped])
    case Finish(w, size, late) =>
      var result := WireResult(r.workers[w].index, size);
      var s := r.(workers := r.workers[w := AtTest], completed := r.completed + [result],
        pending := r.pending + [result]);
      if |s.pending| >= BATCH_SIZE || late then Flush(s) else s
    case Reject(w) => r.(workers := r.workers[w := Crashed(r.workers[w].index)])
    case Turn(k) => r.(links := r.links[k := if r.uploadError then Skipped else Active])
    case Settle(k, ok) => r.(links := r.links[k := if ok then Sent else Failed], uploadError := r.uploadError || !ok)
    case Advance =>
      match r.main
      case Pooling => if AnyCrashed(r.workers) then Finished(r, true) else Flush(r).(main := Awaiting)
      case Awaiting => Finished(r, r.uploadError)
      case Done(_) => r
  }

  // ---- what holds in every state ----

  function Examples(results: seq<WireResult>): seq<nat> {
    seq(|results|, i requires 0 <= i < |results| => results[i].example)
  }

  function UpTo(n: nat): seq<nat> {
    seq(n, i => i)
  }

  function Holds(worker: Worker): multiset<nat> {
    if worker.Running? || worker.Crashed? then multiset{worker.index} else multiset{}
  }

  function Held(workers: seq<Worker>): multiset<nat> {
    if workers == [] then multiset{} else Held(workers[..|workers| - 1]) + Holds(workers[|workers| - 1])
  }

  /** Every claimed index is one result or one example in flight, and no index is claimed twice. */
  ghost predicate ClaimedOnce(next: nat, completed: seq<WireResult>, workers: seq<Worker>) {
    multiset(Examples(completed)) + Held(workers) == multiset(UpTo(next))
  }

  /** An upload is started only when all before it have succeeded, and it ends the chain by failing. */
  ghost predicate OneAtATime(links: seq<Link>, uploadError: bool) {
    && (forall k ::
      0 <= k < |links| && (links[k].Active? || links[k].Sent? || links[k].Failed?) ==>
      AllSent(links[..k]))
    && (forall k :: 0 <= k < |links| && Over(links[k]) ==> AllOver(links[..k]))
    && (uploadError <==> Failed in links)
    && (Skipped in links ==> uploadError)
  }

  ghost predicate AllSent(links: seq<Link>) {
    forall k :: 0 <= k < |links| ==> links[k].Sent?
  }

  /** The batches and the waiting results are the results in the order they came in. */
  ghost predicate InOrder(completed: seq<WireResult>, batches: seq<Batch>, pending: seq<WireResult>) {
    completed == Flatten(batches) + pending && AllAllowed(batches) && [] !in batches
  }

  /** The workers stop for a reason, and the finish tells what went wrong. */
  ghost predicate Ends(r: Run) {
    && (Stopped in r.workers ==> r.uploadError || r.next == r.n)
    && (r.main.Done? ==> r.finishes == [r.main.failed])
    && (!r.main.Done? ==> r.finishes == [])
    && (r.main.Awaiting? ==> AllStopped(r.workers) && r.pending == [])
    && (r.main == Done(false) ==> AllStopped(r.workers) && r.pending == [] && AllOver(r.links) && !r.uploadError)
    && (r.main == Done(true) ==> r.uploadError || AnyCrashed(r.workers))
  }

  ghost predicate Inv(r: Run) {
    && r.next <= r.n
    && |r.workers| == Min(r.concurrency, r.n)
    && |r.links| == |r.batches|
    && ClaimedOnce(r.next, r.completed, r.workers)
    && InOrder(r.completed, r.batches, r.pending)
    && OneAtATime(r.links, r.uploadError)
    && Ends(r)
  }

  // ---- one worker changes ----

  lemma AddBag(a: multiset<nat>, x: multiset<nat>, b: multiset<nat>, y: multiset<nat>, more: multiset<nat>)
    requires a + x == b + y
    ensures (a + more) + x == (b + more) + y
  {
    assert (a + more) + x == (a + x) + more && (b + more) + y == (b + y) + more;
  }

  lemma HeldSnoc(workers: seq<Worker>, worker: Worker)
    ensures Held(workers + [worker]) == Held(workers) + Holds(worker)
  {
    assert (workers + [worker])[..|workers|] == workers;
  }

  lemma {:induction false} HeldAfter(workers: seq<Worker>, w: nat, worker: Worker)
    requires w < |workers|
    ensures Held(workers[w := worker]) + Holds(workers[w]) == Held(workers) + Holds(worker)
    decreases |workers|
  {
    var rest, last := workers[..|workers| - 1], workers[|workers| - 1];
    assert workers == rest + [last];
    HeldSnoc(rest, last);
    if w == |rest| {
      assert workers[w := worker] == rest + [worker];
      HeldSnoc(rest, worker);
      AddBags(Held(rest), Holds(worker), Holds(last));
    } else {
      assert workers[w := worker] == rest[w := worker] + [last];
      HeldSnoc(rest[w := worker], last);
      HeldAfter(rest, w, worker);
      AddBag(Held(rest[w := worker]), Holds(workers[w]), Held(rest), Holds(worker), Holds(last));
    }
  }

  lemma {:induction false} NoneHeld(workers: seq<Worker>)
    requires AllStopped(workers) || forall w :: 0 <= w < |workers| ==> workers[w].AtTest?
    ensures Held(workers) == multiset{}
  {
    if workers != [] { NoneHeld(workers[..|workers| - 1]); }
  }

  lemma UpToSnoc(n: nat)
    ensures multiset(UpTo(n + 1)) == multiset(UpTo(n)) + multiset{n}
  {
    assert UpTo(n + 1) == UpTo(n) + [n];
  }

  lemma ExamplesSnoc(results: seq<WireResult>, result: WireResult)
    ensures multiset(Examples(results + [result])) == multiset(Examples(results)) + multiset{result.example}
  {
    assert Examples(results + [result]) == Examples(results) + [result.example];
  }

  // ---- one link changes ----

  lemma TurnKeeps(links: seq<Link>, uploadError: bool, k: nat)
    requires OneAtATime(links, uploadError)
    requires k < |links| && links[k].Waiting? && (k > 0 ==> Over(links[k - 1]))
    ensures OneAtATime(links[k := if uploadError then Skipped else Active], uploadError)
  {
    var after := links[k := if uploadError then Skipped else Active];
    BeforeIsOver(links, uploadError, k);
    if !uploadError { OverUnfailed(links, k); }
    forall j | 0 <= j < |links| && j != k ensures after[j] == links[j] {
    }
    forall j | 0 <= j <= k ensures after[..j] == links[..j] {
    }
    forall j | k < j < |links| ensures !Over(links[j]) && !links[j].Active? {
      assert links[..j][k] == Waiting;
    }
    assert uploadError ==> Failed in after by {
      if uploadError {
        var f :| 0 <= f < |links| && links[f] == Failed;
        assert after[f] == Failed;
      }
    }
  }

  lemma BeforeIsOver(links: seq<Link>, uploadError: bool, k: nat)
    requires OneAtATime(links, uploadError) && k < |links| && (k > 0 ==> Over(links[k - 1]))
    ensures AllOver(links[..k])
  {
    if k > 0 {
      forall j | 0 <= j < k ensures Over(links[..k][j]) {
        assert j < k - 1 ==> links[..k - 1][j] == links[j];
      }
    }
  }

  lemma OverUnfailed(links: seq<Link>, k: nat)
    requires OneAtATime(links, false) && k <= |links| && AllOver(links[..k])
    ensures AllSent(links[..k])
  {
    forall j | 0 <= j < k ensures links[..k][j].Sent? {
      assert links[..k][j] == links[j] && links[j] in links;
    }
  }

  lemma SettleKeeps(links: seq<Link>, uploadError: bool, k: nat, ok: bool)
    requires OneAtATime(links, uploadError)
    requires k < |links| && links[k].Active?
    ensures OneAtATime(links[k := if ok then Sent else Failed], uploadError || !ok)
  {
    var after := links[k := if ok then Sent else Failed];
    assert AllSent(links[..k]);
    forall j | 0 <= j <= k ensures after[..j] == links[..j] {
    }
    forall j | 0 <= j < k ensures links[j].Sent? {
      assert links[..k][j] == links[j];
    }
    forall j | k < j < |links| ensures links[j].Waiting? {
      assert links[..j][k] == Active;
    }
    assert !ok ==> after[k] == Failed;
    assert forall j :: 0 <= j < |links| && j != k ==> after[j] == links[j];
  }

  lemma MoreLinksKeep(links: seq<Link>, uploadError: bool, more: nat)
    requires OneAtATime(links, uploadError)
    ensures OneAtATime(links + seq(more, _ => Waiting), uploadError)
  {
    var after := links + seq(more, _ => Waiting);
    assert forall k :: |links| <= k < |after| ==> after[k].Waiting?;
    assert forall k :: 0 <= k <= |links| ==> after[..k] == links[..k];
  }

  // ---- batches ----

  lemma {:induction false} FlattenConcat(a: seq<Batch>, b: seq<Batch>)
    ensures Flatten(a + b) == Flatten(a) + Flatten(b)
  {
    if a == [] {
      assert a + b == b;
    } else {
      assert (a + b)[1..] == a[1..] + b;
      FlattenConcat(a[1..], b);
    }
  }

  lemma FlushKeepsOrder(completed: seq<WireResult>, batches: seq<Batch>, pending: seq<WireResult>)
    requires InOrder(completed, batches, pending)
    ensures InOrder(completed, batches + Split(pending), [])
  {
    SplitOk(pending);
    FlattenConcat(batches, Split(pending));
  }

  lemma FlushKeeps(r: Run)
    requires Inv(r) && (r.main.Pooling? || r.main == Done(true))
    ensures Inv(Flush(r))
    ensures r.main.Pooling? && AllStopped(r.workers) ==> Inv(Flush(r).(main := Awaiting))
  {
    FlushKeepsOrder(r.completed, r.batches, r.pending);
    MoreLinksKeep(r.links, r.uploadError, |Split(r.pending)|);
  }

  // ---- every step keeps it ----

  lemma ClaimKeeps(next: nat, completed: seq<WireResult>, workers: seq<Worker>, w: nat)
    requires ClaimedOnce(next, completed, workers) && w < |workers| && workers[w].AtTest?
    ensures ClaimedOnce(next + 1, completed, workers[w := Running(next)])
  {
    HeldAfter(workers, w, Running(next));
    AddNothing(Held(workers[w := Running(next)]));
    UpToSnoc(next);
    AddBags(multiset(Examples(completed)), Held(workers), multiset{next});
  }

  lemma StopKeeps(next: nat, completed: seq<WireResult>, workers: seq<Worker>, w: nat)
    requires ClaimedOnce(next, completed, workers) && w < |workers| && workers[w].AtTest?
    ensures ClaimedOnce(next, completed, workers[w := Stopped])
  {
    HeldAfter(workers, w, Stopped);
    AddNothing(Held(workers[w := Stopped]));
    AddNothing(Held(workers));
  }

  lemma AddNothing(a: multiset<nat>)
    ensures a + multiset{} == a
  {
  }

  lemma AddBags(a: multiset<nat>, b: multiset<nat>, c: multiset<nat>)
    ensures (a + b) + c == a + (b + c) == (a + c) + b
  {
  }

  lemma ReleaseKeeps(next: nat, completed: seq<WireResult>, workers: seq<Worker>, w: nat, size: nat)
    requires ClaimedOnce(next, completed, workers) && w < |workers| && workers[w].Running?
    ensures ClaimedOnce(next, completed, workers[w := Crashed(workers[w].index)])
    ensures ClaimedOnce(next, completed + [WireResult(workers[w].index, size)], workers[w := AtTest])
  {
    var index := workers[w].index;
    HeldAfter(workers, w, Crashed(index));
    SameBag(Held(workers[w := Crashed(index)]), Held(workers), multiset{index});
    HeldAfter(workers, w, AtTest);
    ExamplesSnoc(completed, WireResult(index, size));
    var done, held := multiset(Examples(completed)), Held(workers[w := AtTest]);
    assert held + multiset{index} == Held(workers);
    AddBags(done, held, multiset{index});
  }

  lemma SameBag(a: multiset<nat>, b: multiset<nat>, c: multiset<nat>)
    requires a + c == b + c
    ensures a == b
  {
    assert a == (a + c) - c && b == (b + c) - c;
  }

  lemma CrashedStays(workers: seq<Worker>, w: nat, worker: Worker)
    requires w < |workers| && !workers[w].Crashed?
    ensures AnyCrashed(workers) ==> AnyCrashed(workers[w := worker])
    ensures worker.Crashed? ==> AnyCrashed(workers[w := worker])
  {
    if AnyCrashed(workers) {
      var v :| 0 <= v < |workers| && workers[v].Crashed?;
      assert workers[w := worker][v].Crashed?;
    }
    assert workers[w := worker][w] == worker;
  }

  /** A worker that is still in its loop may change without disturbing how the run ends. */
  lemma WorkerMoves(r: Run, w: nat, worker: Worker)
    requires Ends(r) && w < |r.workers| && (r.workers[w].AtTest? || r.workers[w].Running?)
    requires worker.Stopped? ==> r.uploadError || r.next == r.n
    ensures Ends(r.(workers := r.workers[w := worker]))
    ensures r.main.Pooling? || r.main == Done(true)
  {
    CrashedStays(r.workers, w, worker);
    assert !AllStopped(r.workers);
    assert Stopped in r.workers[w := worker] ==> Stopped in r.workers || worker == Stopped;
  }

  lemma TestKeeps(r: Run, w: nat)
    requires Inv(r) && Enabled(r, Test(w))
    ensures Inv(Next(r, Test(w)))
  {
    ClaimKeeps(r.next, r.completed, r.workers, w);
    StopKeeps(r.next, r.completed, r.workers, w);
    WorkerMoves(r, w, Next(r, Test(w)).workers[w]);
  }

  lemma FinishKeeps(r: Run, w: nat, size: nat, late: bool)
    requires Inv(r) && Enabled(r, Finish(w, size, late))
    ensures Inv(Next(r, Finish(w, size, late)))
  {
    var result := WireResult(r.workers[w].index, size);
    var s := r.(workers := r.workers[w := AtTest], completed := r.completed + [result],
      pending := r.pending + [result]);
    ReleaseKeeps(r.next, r.completed, r.workers, w, size);
    WorkerMoves(r, w, AtTest);
    assert Flatten(r.batches) + r.pending + [result] == Flatten(r.batches) + (r.pending + [result]);
    FlushKeeps(s);
  }

  /** Every step of a run keeps the invariant. */
  lemma NextKeeps(r: Run, e: Event)
    requires Inv(r) && Enabled(r, e)
    ensures Inv(Next(r, e))
  {
    match e
    case Test(w) => TestKeeps(r, w);
    case Finish(w, size, late) => FinishKeeps(r, w, size, late);
    case Reject(w) =>
      ReleaseKeeps(r.next, r.completed, r.workers, w, 0);
      WorkerMoves(r, w, Crashed(r.workers[w].index));
    case Turn(k) =>
      TurnKeeps(r.links, r.uploadError, k);
    case Settle(k, ok) =>
      SettleKeeps(r.links, r.uploadError, k, ok);
    case Advance =>
      if r.main.Pooling? && !AnyCrashed(r.workers) { FlushKeeps(r); }
  }

  // ---- runs ----

  predicate IsRun(r: Run, events: seq<Event>)
    decreases |events|
  {
    events == [] || (Enabled(r, events[0]) && IsRun(Next(r, events[0]), events[1..]))
  }

  function After(r: Run, events: seq<Event>): Run
    requires IsRun(r, events)
    decreases |events|
  {
    if events == [] then r else After(Next(r, events[0]), events[1..])
  }

  lemma {:induction false} RunsKeepInv(r: Run, events: seq<Event>)
    requires Inv(r) && IsRun(r, events)
    ensures Inv(After(r, events))
    decreases |events|
  {
    if events != [] {
      NextKeeps(r, events[0]);
      RunsKeepInv(Next(r, events[0]), events[1..]);
    }
  }

  lemma StartOk(n: nat, concurrency: nat)
    ensures Inv(Start(n, concurrency))
  {
    NoneHeld(Start(n, concurrency).workers);
  }

  // ---- what a run can be seen to do ----

  /** The results whose upload has succeeded. */
  function Uploaded(batches: seq<Batch>, links: seq<Link>): seq<WireResult>
    requires |links| == |batches|
  {
    if batches == [] then []
    else if links[0].Sent? then batches[0] + Uploaded(batches[1..], links[1..])
    else Uploaded(batches[1..], links[1..])
  }

  lemma {:induction false} NothingAfter(batches: seq<Batch>, links: seq<Link>)
    requires |links| == |batches| && Sent !in links
    ensures Uploaded(batches, links) == []
  {
    if batches != [] { NothingAfter(batches[1..], links[1..]); }
  }

  /** A link that is not sent blocks everything behind it. */
  ghost predicate SentFirst(links: seq<Link>) {
    forall k :: 0 <= k < |links| && links[k].Sent? ==> AllSent(links[..k])
  }

  lemma SentFirstTail(links: seq<Link>)
    requires SentFirst(links) && links != []
    ensures SentFirst(links[1..])
    ensures !links[0].Sent? ==> Sent !in links
  {
    forall k | 0 <= k < |links| - 1 && links[1..][k].Sent? ensures AllSent(links[1..][..k]) {
      assert AllSent(links[..k + 1]);
      assert links[1..][..k] == links[..k + 1][1..];
    }
    forall k | 0 <= k < |links| && links[k].Sent? ensures links[0].Sent? {
      assert k > 0 ==> links[..k][0] == links[0];
    }
  }

  lemma {:induction false} UploadedIsPrefix(batches: seq<Batch>, links: seq<Link>)
    requires |links| == |batches| && SentFirst(links)
    ensures Uploaded(batches, links) <= Flatten(batches)
    ensures AllSent(links) ==> Uploaded(batches, links) == Flatten(batches)
  {
    if batches != [] {
      SentFirstTail(links);
      if links[0].Sent? {
        UploadedIsPrefix(batches[1..], links[1..]);
      } else {
        NothingAfter(batches, links);
      }
    }
  }

  /** In every interleaving: no index is claimed twice, at most `concurrency` examples are in
      flight, at most one upload is, and what has been uploaded is a prefix of the results
      in the order they came in. */
  lemma RunsAreOrderly(n: nat, concurrency: nat, events: seq<Event>)
    requires IsRun(Start(n, concurrency), events)
    ensures var r := After(Start(n, concurrency), events);
      && multiset(Examples(r.completed)) + Held(r.workers) == multiset(UpTo(r.next))
      && |Held(r.workers)| <= concurrency
      && (forall j, k :: 0 <= j < k < |r.links| && r.links[j].Active? ==> !r.links[k].Active?)
      && |r.links| == |r.batches|
      && Uploaded(r.batches, r.links) <= r.completed
  {
    StartOk(n, concurrency);
    RunsKeepInv(Start(n, concurrency), events);
    SizesStay(Start(n, concurrency), events);
    Orderly(After(Start(n, concurrency), events));
  }

  lemma Orderly(r: Run)
    requires Inv(r)
    ensures |Held(r.workers)| <= r.concurrency
    ensures forall j, k :: 0 <= j < k < |r.links| && r.links[j].Active? ==> !r.links[k].Active?
    ensures Uploaded(r.batches, r.links) <= r.completed
  {
    HeldSize(r.workers);
    OneActive(r.links, r.uploadError);
    UploadedIsPrefix(r.batches, r.links);
  }

  lemma OneActive(links: seq<Link>, uploadError: bool)
    requires OneAtATime(links, uploadError)
    ensures forall j, k :: 0 <= j < k < |links| && links[j].Active? ==> !links[k].Active?
  {
    forall j, k | 0 <= j < k < |links| && links[j].Active? ensures !links[k].Active? {
      assert links[..k][j] == Active;
    }
  }

  lemma {:induction false} HeldSize(workers: seq<Worker>)
    ensures |Held(workers)| <= |workers|
  {
    if workers != [] { HeldSize(workers[..|workers| - 1]); }
  }

  /** Once an upload has failed, no upload is in flight or starts, and what was uploaded stays. */
  lemma NothingAfterFailure(r: Run, e: Event)
    requires Inv(r) && r.uploadError && Enabled(r, e)
    ensures Next(r, e).uploadError && Active !in r.links && Active !in Next(r, e).links
    ensures |Next(r, e).links| == |Next(r, e).batches|
    ensures Uploaded(Next(r, e).batches, Next(r, e).links) == Uploaded(r.batches, r.links)
  {
    NoneActive(r.links);
    NextKeeps(r, e);
    NoneActive(Next(r, e).links);
    UploadedStays(r, e);
  }

  /** Nor is an example started. */
  lemma NothingClaimedAfterFailure(r: Run, e: Event)
    requires r.uploadError && Enabled(r, e)
    ensures Next(r, e).next == r.next && |Next(r, e).workers| == |r.workers|
    ensures forall w :: 0 <= w < |r.workers| && Next(r, e).workers[w].Running? ==> r.workers[w] == Next(r, e).workers[w]
  {
  }

  /** Until an upload fails, a worker at its test takes the next example, if there is one. */
  lemma NextIsClaimed(r: Run, w: nat)
    requires !r.uploadError && Enabled(r, Test(w))
    ensures r.next < r.n ==> Next(r, Test(w)).workers[w] == Running(r.next) && Next(r, Test(w)).next == r.next + 1
    ensures r.next >= r.n ==> Next(r, Test(w)).workers[w].Stopped? && Next(r, Test(w)).next == r.next
  {
  }

  /** Results wait for at most nineteen others, and for none once the flush is due. */
  lemma WaitsForFewer(r: Run, e: Event)
    requires |r.pending| < 20 && Enabled(r, e)
    ensures |Next(r, e).pending| < 20
    ensures e.Finish? && e.late ==> Next(r, e).pending == []
  {
  }

  lemma UploadedStays(r: Run, e: Event)
    requires |r.links| == |r.batches| && r.uploadError && Enabled(r, e) && !e.Settle?
    ensures |Next(r, e).links| == |Next(r, e).batches|
    ensures Uploaded(Next(r, e).batches, Next(r, e).links) == Uploaded(r.batches, r.links)
  {
    var s := Next(r, e);
    if e.Turn? {
      SkipUploadsNothing(r.batches, r.links, e.link);
    } else {
      var more := s.batches[|r.batches|..];
      assert s.batches == r.batches + more && s.links == r.links + s.links[|r.links|..];
      WaitingUploadsNothing(r.batches, r.links, more, s.links[|r.links|..]);
    }
  }

  lemma NoneActive(links: seq<Link>)
    requires OneAtATime(links, true)
    ensures Active !in links
  {
    var f :| 0 <= f < |links| && links[f] == Failed;
    forall k | 0 <= k < |links| ensures !links[k].Active? {
      if f < k {
        assert links[..k][f] == links[f];
      } else if k < f {
        assert links[..f][k] == links[k];
      }
    }
  }

  lemma {:induction false} SkipUploadsNothing(batches: seq<Batch>, links: seq<Link>, k: nat)
    requires |links| == |batches| && k < |links| && links[k].Waiting?
    ensures Uploaded(batches, links[k := Skipped]) == Uploaded(batches, links)
  {
    if k > 0 {
      assert links[k := Skipped][1..] == links[1..][k - 1 := Skipped];
      SkipUploadsNothing(batches[1..], links[1..], k - 1);
    } else {
      assert links[k := Skipped][1..] == links[1..];
    }
  }

  lemma {:induction false} WaitingUploadsNothing(batches: seq<Batch>, links: seq<Link>, more: seq<Batch>,
    waiting: seq<Link>)
    requires |links| == |batches| && |more| == |waiting| && Sent !in waiting
    ensures Uploaded(batches + more, links + waiting) == Uploaded(batches, links)
  {
    if batches == [] {
      assert batches + more == more && links + waiting == waiting;
      NothingAfter(more, waiting);
    } else {
      assert (batches + more)[1..] == batches[1..] + more && (links + waiting)[1..] == links[1..] + waiting;
      WaitingUploadsNothing(batches[1..], links[1..], more, waiting);
    }
  }

  // ---- how a run ends ----

  /** The finish is reported once; it carries an error exactly if an upload failed or some
      work rejected, and without one every example's result has been uploaded, exactly once. */
  lemma FinishIsTruthful(n: nat, concurrency: nat, events: seq<Event>)
    requires concurrency > 0 && IsRun(Start(n, concurrency), events)
    ensures var r := After(Start(n, concurrency), events);
      && |r.links| == |r.batches|
      && |r.finishes| == (if r.main.Done? then 1 else 0)
      && (r.main.Done? ==> (r.finishes[0] <==> r.uploadError || AnyCrashed(r.workers)))
      && (r.finishes == [false] ==> multiset(Examples(Uploaded(r.batches, r.links))) == multiset(UpTo(n)))
  {
    var r := After(Start(n, concurrency), events);
    StartOk(n, concurrency);
    RunsKeepInv(Start(n, concurrency), events);
    SizesStay(Start(n, concurrency), events);
    if r.main == Done(false) {
      NoneHeld(r.workers);
      assert r.n > 0 ==> r.workers[0] in r.workers;
      OverUnfailed(r.links, |r.links|);
      assert r.links[..|r.links|] == r.links;
      UploadedIsPrefix(r.batches, r.links);
      assert r.completed == Flatten(r.batches);
    }
  }

  lemma {:induction false} SizesStay(r: Run, events: seq<Event>)
    requires IsRun(r, events)
    ensures After(r, events).n == r.n && After(r, events).concurrency == r.concurrency
    decreases |events|
  {
    if events != [] { SizesStay(Next(r, events[0]), events[1..]); }
  }

  // ---- every run gets there ----

  function WorkerWork(worker: Worker): nat {
    match worker
    case AtTest => 1
    case Running(_) => 8
    case Stopped => 0
    case Crashed(_) => 0
  }

  function LinkWork(link: Link): nat {
    match link
    case Waiting => 4
    case Active => 2
    case _ => 0
  }

  function WorkersWork(workers: seq<Worker>): nat {
    if workers == [] then 0 else WorkersWork(workers[..|workers| - 1]) + WorkerWork(workers[|workers| - 1])
  }

  function LinksWork(links: seq<Link>): nat {
    if links == [] then 0 else LinksWork(links[..|links| - 1]) + LinkWork(links[|links| - 1])
  }

  /** An upper bound on the steps that are left. */
  function Work(r: Run): nat
    requires r.next <= r.n
  {
    10 * (r.n - r.next) + WorkersWork(r.workers) + 5 * |r.pending| + LinksWork(r.links)
    + (match r.main case Pooling => 2 case Awaiting => 1 case Done(_) => 0)
  }

  lemma {:induction false} WorkersWorkAfter(workers: seq<Worker>, w: nat, worker: Worker)
    requires w < |workers|
    ensures WorkersWork(workers[w := worker]) + WorkerWork(workers[w]) == WorkersWork(workers) + WorkerWork(worker)
    decreases |workers|
  {
    var last := |workers| - 1;
    if w == last {
      assert workers[w := worker][..last] == workers[..last];
    } else {
      assert workers[w := worker][..last] == workers[..last][w := worker];
      WorkersWorkAfter(workers[..last], w, worker);
    }
  }

  lemma {:induction false} LinksWorkAfter(links: seq<Link>, k: nat, link: Link)
    requires k < |links|
    ensures LinksWork(links[k := link]) + LinkWork(links[k]) == LinksWork(links) + LinkWork(link)
    decreases |links|
  {
    var last := |links| - 1;
    if k == last {
      assert links[k := link][..last] == links[..last];
    } else {
      assert links[k := link][..last] == links[..last][k := link];
      LinksWorkAfter(links[..last], k, link);
    }
  }

  lemma {:induction false} MoreLinksWork(links: seq<Link>, more: nat)
    ensures LinksWork(links + seq(more, _ => Waiting)) == LinksWork(links) + 4 * more
    decreases more
  {
    if more == 0 {
      assert links + seq(more, _ => Waiting) == links;
    } else {
      var longer := links + seq(more, _ => Waiting);
      assert longer[..|longer| - 1] == links + seq<Link>(more - 1, _ => Waiting);
      MoreLinksWork(links, more - 1);
    }
  }

  lemma {:induction false} FlattenSize(batches: seq<Batch>)
    requires [] !in batches
    ensures |batches| <= |Flatten(batches)|
  {
    if batches != [] {
      assert batches[0] != [];
      FlattenSize(batches[1..]);
    }
  }

  lemma SplitSmall(results: seq<WireResult>)
    ensures |Split(results)| <= |results|
  {
    SplitOk(results);
    FlattenSize(Split(results));
  }

  lemma FlushSpends(r: Run)
    requires r.next <= r.n
    ensures Work(Flush(r)) <= Work(r)
  {
    SplitSmall(r.pending);
    MoreLinksWork(r.links, |Split(r.pending)|);
  }

  lemma FinishSpends(r: Run, w: nat, size: nat, late: bool)
    requires Inv(r) && Enabled(r, Finish(w, size, late))
    ensures Work(Next(r, Finish(w, size, late))) < Work(r)
  {
    var result := WireResult(r.workers[w].index, size);
    var s := r.(workers := r.workers[w := AtTest], completed := r.completed + [result],
      pending := r.pending + [result]);
    WorkersWorkAfter(r.workers, w, AtTest);
    FlushSpends(s);
  }

  lemma WorkerSpends(r: Run, e: Event)
    requires Inv(r) && Enabled(r, e) && (e.Test? || e.Reject?)
    ensures Next(r, e).next <= r.n && Work(Next(r, e)) < Work(r)
  {
    WorkersWorkAfter(r.workers, e.worker, Next(r, e).workers[e.worker]);
  }

  lemma LinkSpends(r: Run, e: Event)
    requires Inv(r) && Enabled(r, e) && (e.Turn? || e.Settle?)
    ensures Work(Next(r, e)) < Work(r)
  {
    LinksWorkAfter(r.links, e.link, Next(r, e).links[e.link]);
  }

  lemma StepSpends(r: Run, e: Event)
    requires Inv(r) && Enabled(r, e)
    ensures Next(r, e).next <= r.n == Next(r, e).n && Work(Next(r, e)) < Work(r)
  {
    match e
    case Test(_) => WorkerSpends(r, e);
    case Finish(w, size, late) => FinishSpends(r, w, size, late);
    case Reject(_) => WorkerSpends(r, e);
    case Turn(_) => LinkSpends(r, e);
    case Settle(_, _) => LinkSpends(r, e);
    case Advance => FlushSpends(r);
  }

  lemma {:induction false} StepsLeft(r: Run, events: seq<Event>)
    requires Inv(r) && IsRun(r, events)
    ensures |events| <= Work(r)
    decreases |events|
  {
    if events != [] {
      NextKeeps(r, events[0]);
      StepSpends(r, events[0]);
      StepsLeft(Next(r, events[0]), events[1..]);
    }
  }

  lemma {:induction false} FirstOpen(links: seq<Link>, k: nat) returns (first: nat)
    requires k < |links| && !Over(links[k])
    ensures first <= k && !Over(links[first]) && AllOver(links[..first])
  {
    if AllOver(links[..k]) {
      first := k;
    } else {
      var j: nat :| j < k && !Over(links[..k][j]);
      first := FirstOpen(links, j);
      assert links[..k][..first] == links[..first];
    }
  }

  /** As long as the finish has not been reported, some step can be taken. */
  lemma NeverStuck(r: Run) returns (e: Event)
    requires Inv(r) && !r.main.Done?
    ensures Enabled(r, e)
  {
    e := Advance;
    if !Enabled(r, Advance) {
      if r.main.Pooling? {
        var w: nat :| w < |r.workers| && !r.workers[w].Stopped?;
        assert !r.workers[w].Crashed?;
        e := if r.workers[w].AtTest? then Test(w) else Finish(w, 0, false);
      } else {
        var k: nat :| k < |r.links| && !Over(r.links[k]);
        var first := FirstOpen(r.links, k);
        assert first > 0 ==> Over(r.links[..first][first - 1]);
        e := if r.links[first].Waiting? then Turn(first) else Settle(first, true);
      }
    }
  }

  lemma {:induction false} StartWork(n: nat, concurrency: nat)
    ensures Work(Start(n, concurrency)) <= 11 * n + 2
  {
    AtTestWork(Start(n, concurrency).workers);
  }

  lemma {:induction false} AtTestWork(workers: seq<Worker>)
    requires forall w :: 0 <= w < |workers| ==> workers[w].AtTest?
    ensures WorkersWork(workers) == |workers|
  {
    if workers != [] { AtTestWork(workers[..|workers| - 1]); }
  }

  /** No run goes on for ever, and one that can go no further has reported the finish. */
  lemma RunsEnd(n: nat, concurrency: nat, events: seq<Event>)
    requires IsRun(Start(n, concurrency), events)
    ensures |events| <= 11 * n + 2
    ensures (forall e :: !Enabled(After(Start(n, concurrency), events), e))
      ==> After(Start(n, concurrency), events).main.Done?
  {
    StartOk(n, concurrency);
    StartWork(n, concurrency);
    StepsLeft(Start(n, concurrency), events);
    RunsKeepInv(Start(n, concurrency), events);
    var r := After(Start(n, concurrency), events);
    if !r.main.Done? {
      var e := NeverStuck(r);
    }
  }
}
