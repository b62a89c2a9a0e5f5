/** The span queue as a protocol: every interleaving of enqueues, requests, ending drains, `flush` and `close`. */
module QueueRuns {
  import opened Options
  import opened Seqs
  import opened SpanModel
  import opened QueueModel

  /** Where one call of `drain` stands: waiting for its request, or returned with the
      `finally` of `wake` still to run. */
  datatype Drain = Sending(no: nat) | Finishing(no: nat)

  /** An entry, or a piece of one, that left the buffer: dropped, or put into a request. */
  datatype Gone = Gone(entry: Entry, dropped: bool)

  /** `draining` is the number of the drain whose promise the queue holds, `started` how many
      drains were ever started. The last four fields are history: every entry that was let
      in, everything that left in order, the batches as they were cut, and the requests. */
  datatype QState = QState(
    maxBatch: nat, maxQueued: nat, buffer: seq<Entry>, queuedSpans: int, closed: bool,
    draining: Option<nat>, started: nat, drains: seq<Drain>,
    accepted: seq<Entry>, gone: seq<Gone>, batches: seq<seq<Entry>>, requests: seq<seq<Entry>>)

  function AtLeastOne(n: nat): nat {
    if n < 1 then 1 else n
  }

  function NewQueue(maxBatch: nat, maxQueued: nat): QState {
    QState(AtLeastOne(maxBatch), AtLeastOne(maxQueued), [], 0, false, None, 0, [], [], [], [], [])
  }

  function AsGone(entries: seq<Entry>, dropped: bool): seq<Gone> {
    if entries == [] then []
    else AsGone(entries[..|entries| - 1], dropped) + [Gone(entries[|entries| - 1], dropped)]
  }

  /** Taking a batch out of the buffer and handing it to `send`. */
  function SendBatch(q: QState): QState {
    var (batch, rest) := Cut(q.buffer, q.maxBatch, true);
    q.(buffer := rest, queuedSpans := q.queuedSpans - Total(batch), gone := q.gone + AsGone(batch, false),
       batches := q.batches + [batch], requests := q.requests + [Merged(batch)])
  }

  /** What drain `no` does when it gets to its loop test, and where it then stands. */
  function Continue(q: QState, no: nat): (r: (QState, Drain)) {
    if q.buffer != [] then (SendBatch(q), Sending(no)) else (q, Finishing(no))
  }

  function Wake(q: QState): QState {
    if q.draining.Some? then q
    else
      var (next, drain) := Continue(q.(draining := Some(q.started), started := q.started + 1), q.started);
      next.(drains := next.drains + [drain])
  }

  /** `enqueue` up to the point where it wakes the drain. */
  function Push(q: QState, e: Entry): QState {
    var grown := q.buffer + [e];
    var k := ShedCount(grown, q.maxQueued);
    q.(buffer := grown[k..], queuedSpans := q.queuedSpans + |e.spans| - Total(grown[..k]),
       accepted := q.accepted + [e], gone := q.gone + AsGone(grown[..k], true))
  }

  function Enqueue(q: QState, e: Entry): QState {
    if q.closed then q else Wake(Push(q, e))
  }

  /** What `close` does once its flush has resolved. */
  function Closed(q: QState): QState {
    q.(closed := true)
  }

  /** A request of drain `i` settles, well or badly, and the drain goes on. */
  function Settle(q: QState, i: nat): QState
    requires i < |q.drains|
  {
    var (next, drain) := Continue(q, q.drains[i].no);
    next.(drains := next.drains[i := drain])
  }

  /** The `finally` of a returned drain clears the promise. */
  function Finally(q: QState, i: nat): QState
    requires i < |q.drains|
  {
    q.(draining := None, drains := q.drains[..i] + q.drains[i + 1..])
  }

  // ---- what holds in every state ----

  /** At most one drain lives, and it is the one whose promise the queue holds. */
  ghost predicate OneDrain(q: QState) {
    && |q.drains| <= 1
    && (q.draining.Some? <==> |q.drains| == 1)
    && (|q.drains| == 1 ==> q.draining == Some(q.drains[0].no) && q.drains[0].no < q.started)
  }

  function Entries(gone: seq<Gone>): seq<Entry> {
    if gone == [] then [] else Entries(gone[..|gone| - 1]) + [gone[|gone| - 1].entry]
  }

  function SentEntries(gone: seq<Gone>): seq<Entry> {
    if gone == [] then []
    else
      var front, last := SentEntries(gone[..|gone| - 1]), gone[|gone| - 1];
      if last.dropped then front else front + [last.entry]
  }

  function Flatten(batches: seq<seq<Entry>>): seq<Entry> {
    if batches == [] then [] else Flatten(batches[..|batches| - 1]) + batches[|batches| - 1]
  }

  /** Conservation, in order: what was let in is what left followed by what is buffered, and
      of what left, the part not dropped is what the batches held. */
  ghost predicate Fifo(q: QState) {
    && InOrder(q.accepted, q.gone, q.buffer)
    && SentEntries(q.gone) == Flatten(q.batches)
    && |q.requests| == |q.batches|
    && (forall r ::
      0 <= r < |q.batches| ==>
      q.requests[r] == Merged(q.batches[r]) && GoodBatch(q.batches[r], q.maxBatch))
  }

  /** A request is never empty, and within the cap unless it is one id-less entry. */
  ghost predicate GoodBatch(batch: seq<Entry>, maxBatch: nat) {
    batch != [] && (Total(batch) <= maxBatch || (|batch| == 1 && batch[0].traceId.None?))
  }

  ghost predicate QInv(q: QState) {
    && q.maxBatch > 0 && q.queuedSpans == Total(q.buffer) && OneDrain(q) && Fifo(q)
  }

  lemma EntriesSnoc(gone: seq<Gone>, g: Gone)
    ensures Entries(gone + [g]) == Entries(gone) + [g.entry]
    ensures SentEntries(gone + [g]) == if g.dropped then SentEntries(gone) else SentEntries(gone) + [g.entry]
  {
    assert (gone + [g])[..|gone|] == gone;
  }

  lemma {:induction false} EntriesAppend(gone: seq<Gone>, more: seq<Entry>, dropped: bool)
    ensures Entries(gone + AsGone(more, dropped)) == Entries(gone) + more
    ensures SentEntries(gone + AsGone(more, dropped)) == SentEntries(gone) + (if dropped then [] else more)
  {
    if more == [] {
      assert gone + AsGone(more, dropped) == gone;
    } else {
      var front, last := more[..|more| - 1], more[|more| - 1];
      EntriesAppend(gone, front, dropped);
      EntriesSnoc(gone + AsGone(front, dropped), Gone(last, dropped));
      Assoc(gone, AsGone(front, dropped), [Gone(last, dropped)]);
      Assoc(Entries(gone), front, [last]);
      Assoc(SentEntries(gone), front, [last]);
      assert more == front + [last];
    }
  }

  ghost predicate InOrder(accepted: seq<Entry>, gone: seq<Gone>, buffer: seq<Entry>) {
    Items(accepted) == Items(Entries(gone)) + Items(buffer)
  }

  lemma OrderAfterCut(accepted: seq<Entry>, gone: seq<Gone>, buffer: seq<Entry>,
    batch: seq<Entry>, rest: seq<Entry>, dropped: bool)
    requires InOrder(accepted, gone, buffer) && Splits(buffer, batch, rest)
    ensures InOrder(accepted, gone + AsGone(batch, dropped), rest)
  {
    SplitKeepsItems(buffer, batch, rest);
    EntriesAppend(gone, batch, dropped);
    ItemsConcat(Entries(gone), batch);
    Assoc(Items(Entries(gone)), Items(batch), Items(rest));
  }

  lemma OrderAfterPush(accepted: seq<Entry>, gone: seq<Gone>, buffer: seq<Entry>, e: Entry)
    requires InOrder(accepted, gone, buffer)
    ensures InOrder(accepted + [e], gone, buffer + [e])
  {
    ItemsSnoc(accepted, e);
    ItemsSnoc(buffer, e);
    Assoc(Items(Entries(gone)), Items(buffer), ItemsOfEntry(e));
  }

  lemma SendBatchFifo(q: QState)
    requires QInv(q) && q.buffer != []
    ensures Fifo(SendBatch(q))
  {
    var (batch, rest) := Cut(q.buffer, q.maxBatch, true);
    CutSplits(q.buffer, q.maxBatch, true);
    OrderAfterCut(q.accepted, q.gone, q.buffer, batch, rest, false);
    BatchesAppend(q.gone, q.batches, batch);
    CutIsGood(q.buffer, q.maxBatch);
  }

  lemma CutIsGood(buffer: seq<Entry>, maxBatch: nat)
    requires buffer != [] && maxBatch > 0
    ensures GoodBatch(Cut(buffer, maxBatch, true).0, maxBatch)
  {
    CutFits(buffer, maxBatch, true);
    CutProgress(buffer, maxBatch);
  }

  lemma SendBatchKeeps(q: QState)
    requires QInv(q) && q.buffer != []
    ensures QInv(SendBatch(q))
  {
    SendBatchFifo(q);
    CutProgress(q.buffer, q.maxBatch);
  }

  lemma BatchesAppend(gone: seq<Gone>, batches: seq<seq<Entry>>, batch: seq<Entry>)
    requires SentEntries(gone) == Flatten(batches)
    ensures SentEntries(gone + AsGone(batch, false)) == Flatten(batches + [batch])
  {
    EntriesAppend(gone, batch, false);
    assert (batches + [batch])[..|batches|] == batches;
  }

  /** Appending an entry and shedding k of the result. */
  lemma PushTotals(buffer: seq<Entry>, e: Entry, k: nat)
    requires k <= |buffer| + 1
    ensures Total((buffer + [e])[k..]) == Total(buffer) + |e.spans| - Total((buffer + [e])[..k])
  {
    TotalSnoc(buffer, e);
    TotalSplit(buffer + [e], k);
  }

  lemma PushFifo(q: QState, e: Entry)
    requires QInv(q)
    ensures Fifo(Push(q, e))
  {
    var grown := q.buffer + [e];
    var k := ShedCount(grown, q.maxQueued);
    OrderAfterPush(q.accepted, q.gone, q.buffer, e);
    assert grown == grown[..k] + grown[k..];
    OrderAfterCut(q.accepted + [e], q.gone, grown, grown[..k], grown[k..], true);
    EntriesAppend(q.gone, grown[..k], true);
    assert SentEntries(q.gone) + [] == SentEntries(q.gone);
  }

  lemma PushKeeps(q: QState, e: Entry)
    requires QInv(q)
    ensures QInv(Push(q, e)) && Push(q, e).buffer != []
  {
    var grown := q.buffer + [e];
    PushFifo(q, e);
    ShedIsShortest(grown, q.maxQueued);
    PushTotals(q.buffer, e, ShedCount(grown, q.maxQueued));
  }

  lemma WakeKeeps(q: QState)
    requires QInv(q)
    ensures QInv(Wake(q))
  {
    var q1 := q.(draining := Some(q.started), started := q.started + 1);
    if q.draining.None? && q.buffer != [] {
      assert QInv(q);
      SendBatchKeeps(q);
      assert Fifo(Wake(q)) && Wake(q).queuedSpans == Total(Wake(q).buffer);
    }
  }

  lemma EnqueueKeeps(q: QState, e: Entry)
    requires QInv(q)
    ensures QInv(Enqueue(q, e))
  {
    PushKeeps(q, e);
    WakeKeeps(Push(q, e));
  }

  lemma SettleKeeps(q: QState, i: nat)
    requires QInv(q) && i < |q.drains|
    ensures QInv(Settle(q, i))
  {
    if q.buffer != [] { SendBatchKeeps(q); }
  }

  lemma FinallyKeeps(q: QState, i: nat)
    requires QInv(q) && i < |q.drains|
    ensures QInv(Finally(q, i)) && Finally(q, i).drains == []
  {
    assert q.drains[..i] + q.drains[i + 1..] == [];
  }

  // ---- runs with calls of `flush` and `close` under way ----

  /** Where one call of `flush` or `close` stands: not made yet, at the test of its flush
      loop, waiting for the promise of a drain, or past the loop. A `flush` is over then; a
      `close` still has to mark the queue closed, and has returned after that. */
  datatype Stage = NotCalled | Testing | Awaiting(no: nat) | Resolved | Returned

  datatype Call = Call(closes: bool, at: Stage)

  /** `calls` are the calls made in the run, `todo` is what the application will still enqueue. */
  datatype System = System(q: QState, calls: seq<Call>, todo: seq<Entry>)

  datatype Move =
    | EnqueueNext
    | RequestSettles(i: nat)
    | DrainEnds(i: nat)
    | Made(c: nat)
    | Tests(c: nat)
    | Resumes(c: nat)
    | Closes(c: nat)

  /** The promise of drain `no` has resolved: its `finally` has run. */
  ghost predicate Done(q: QState, no: nat) {
    forall d :: d in q.drains ==> d.no != no
  }

  /** A `close` is past its flush and has yet to mark the queue closed. */
  ghost predicate CloseDue(s: System) {
    exists c :: 0 <= c < |s.calls| && s.calls[c].closes && s.calls[c].at.Resolved?
  }

  /** What can happen next. A `close` goes on in the job that was queued when its flush found
      the queue idle. A drain started after that test waits for a request of its own, which
      settles in a later job; so while a close is due, no request settles and no drain ends. */
  ghost predicate Enabled(s: System, m: Move) {
    match m
    case EnqueueNext => s.todo != []
    case RequestSettles(i) => i < |s.q.drains| && s.q.drains[i].Sending? && !CloseDue(s)
    case DrainEnds(i) => i < |s.q.drains| && s.q.drains[i].Finishing? && !CloseDue(s)
    case Made(c) => c < |s.calls| && s.calls[c].at.NotCalled?
    case Tests(c) => c < |s.calls| && s.calls[c].at.Testing?
    case Resumes(c) => c < |s.calls| && s.calls[c].at.Awaiting? && Done(s.q, s.calls[c].at.no)
    case Closes(c) => c < |s.calls| && s.calls[c].closes && s.calls[c].at.Resolved?
  }

  /** One round of the loop in `flush`: the queue after it, and where the call then stands. */
  function TestQueue(q: QState): (QState, Stage) {
    if q.buffer == [] && q.draining.None? then (q, Resolved)
    else if q.draining.Some? then (q, Awaiting(q.draining.value))
    else (Wake(q), Awaiting(q.started))
  }

  function At(calls: seq<Call>, c: nat, at: Stage): seq<Call>
    requires c < |calls|
  {
    calls[c := calls[c].(at := at)]
  }

  ghost function Apply(s: System, m: Move): System
    requires Enabled(s, m)
  {
    match m
    case EnqueueNext => s.(q := Enqueue(s.q, s.todo[0]), todo := s.todo[1..])
    case RequestSettles(i) => s.(q := Settle(s.q, i))
    case DrainEnds(i) => s.(q := Finally(s.q, i))
    case Made(c) => s.(calls := At(s.calls, c, if s.calls[c].closes && s.q.closed then Returned else Testing))
    case Tests(c) => var (q, at) := TestQueue(s.q); s.(q := q, calls := At(s.calls, c, at))
    case Resumes(c) => s.(calls := At(s.calls, c, Testing))
    case Closes(c) => s.(q := Closed(s.q), calls := At(s.calls, c, Returned))
  }

  /** A call only ever waits for a drain that was started, and only a `close` returns, with
      the queue closed. */
  ghost predicate CallOk(q: QState, call: Call) {
    && (call.at.Awaiting? ==> call.at.no < q.started)
    && (call.at.Returned? ==> call.closes && q.closed)
  }

  ghost predicate SInv(s: System) {
    QInv(s.q) && forall c :: 0 <= c < |s.calls| ==> CallOk(s.q, s.calls[c])
  }

  lemma TestKeeps(q: QState)
    requires QInv(q)
    ensures var (q', at) := TestQueue(q);
      QInv(q') && q.started <= q'.started && q'.closed == q.closed && !at.Returned? &&
      (at.Awaiting? ==> at.no < q'.started && !Done(q', at.no))
  {
    WakeKeeps(q);
    if q.draining.None? && q.buffer != [] { WakeWorks(q); }
  }

  lemma MoveKeepsQueue(s: System, m: Move)
    requires QInv(s.q) && Enabled(s, m)
    ensures QInv(Apply(s, m).q) && s.q.started <= Apply(s, m).q.started && (s.q.closed ==> Apply(s, m).q.closed)
  {
    match m
    case EnqueueNext => EnqueueKeeps(s.q, s.todo[0]);
    case RequestSettles(i) => SettleKeeps(s.q, i);
    case DrainEnds(i) => FinallyKeeps(s.q, i);
    case Tests(c) => TestKeeps(s.q);
    case _ =>
  }

  lemma MoveKeeps(s: System, m: Move)
    requires SInv(s) && Enabled(s, m)
    ensures SInv(Apply(s, m)) && s.q.started <= Apply(s, m).q.started && (s.q.closed ==> Apply(s, m).q.closed)
  {
    assert |Apply(s, m).calls| == |s.calls|;
    MoveKeepsQueue(s, m);
    forall c | 0 <= c < |s.calls| ensures CallOk(Apply(s, m).q, Apply(s, m).calls[c]) {
      MoveKeepsCall(s, m, c);
    }
  }

  lemma TestKeepsCall(s: System, t: nat, c: nat)
    requires QInv(s.q) && Enabled(s, Tests(t)) && c < |s.calls| && CallOk(s.q, s.calls[c])
    ensures CallOk(Apply(s, Tests(t)).q, Apply(s, Tests(t)).calls[c])
  {
    TestKeeps(s.q);
  }

  lemma MoveKeepsCall(s: System, m: Move, c: nat)
    requires QInv(s.q) && Enabled(s, m) && c < |s.calls| && CallOk(s.q, s.calls[c])
    requires s.q.started <= Apply(s, m).q.started && (s.q.closed ==> Apply(s, m).q.closed)
    ensures |Apply(s, m).calls| == |s.calls| && CallOk(Apply(s, m).q, Apply(s, m).calls[c])
  {
    if m.Tests? { TestKeepsCall(s, m.c, c); }
  }

  // ---- the cap on what waits ----

  lemma WakeBounded(q: QState)
    requires QInv(q) && Bounded(q.buffer, q.maxQueued)
    ensures Bounded(Wake(q).buffer, q.maxQueued) && Wake(q).maxQueued == q.maxQueued
  {
    CutLeavesLess(q.buffer, q.maxBatch);
  }

  lemma PushBounded(q: QState, e: Entry)
    ensures Bounded(Push(q, e).buffer, q.maxQueued)
  {
    ShedIsShortest(q.buffer + [e], q.maxQueued);
  }

  /** In every interleaving the buffer stays within the cap, or holds a single entry. */
  lemma MoveKeepsBounded(s: System, m: Move)
    requires QInv(s.q) && Enabled(s, m) && Bounded(s.q.buffer, s.q.maxQueued)
    ensures Bounded(Apply(s, m).q.buffer, s.q.maxQueued) && Apply(s, m).q.maxQueued == s.q.maxQueued
  {
    match m
    case EnqueueNext =>
      if !s.q.closed {
        PushBounded(s.q, s.todo[0]);
        PushKeeps(s.q, s.todo[0]);
        WakeBounded(Push(s.q, s.todo[0]));
      }
    case RequestSettles(i) => CutLeavesLess(s.q.buffer, s.q.maxBatch);
    case Tests(c) => WakeBounded(s.q);
    case _ =>
  }

  // ---- every run ends, with every call over ----

  function Load(q: QState): nat {
    Total(q.buffer) + |q.buffer|
  }

  function TodoLoad(todo: seq<Entry>): nat {
    Total(todo) + 2 * |todo|
  }

  ghost function DrainRank(q: QState): nat {
    if q.drains == [] then 0 else if q.drains[0].Finishing? then 1 else 2
  }

  ghost function Rank(q: QState, call: Call): nat {
    match call.at
    case NotCalled => 5
    case Awaiting(no) => if Done(q, no) then 4 else 2
    case Testing => 3
    case Resolved => 1
    case Returned => 0
  }

  ghost function Ranks(q: QState, calls: seq<Call>): nat {
    if calls == [] then 0 else Ranks(q, calls[..|calls| - 1]) + Rank(q, calls[|calls| - 1])
  }

  function LoadOf(s: System): nat {
    Load(s.q) + TodoLoad(s.todo)
  }

  ghost function CallRanks(s: System): nat {
    Ranks(s.q, s.calls)
  }

  function Times(k: nat, n: nat): nat {
    if n == 0 then 0 else k + Times(k, n - 1)
  }

  /** An upper bound on the moves still to come: a drain that ends lets every call go on, and
      a batch that leaves pays for the drain that sends it. */
  ghost function Budget(s: System): nat {
    Times(4 * |s.calls| + 3, LoadOf(s)) + Times(2 * |s.calls| + 1, DrainRank(s.q)) + CallRanks(s)
  }

  /** A move costs: something leaves for good, a drain gets on, or a call does. */
  ghost predicate Costs(s: System, s': System) {
    && |s'.calls| == |s.calls|
    && (|| (LoadOf(s') < LoadOf(s) && DrainRank(s'.q) <= DrainRank(s.q) + 2 && CallRanks(s') <= CallRanks(s))
        || (LoadOf(s') <= LoadOf(s) && DrainRank(s'.q) < DrainRank(s.q) &&
            CallRanks(s') <= CallRanks(s) + 2 * |s.calls|)
        || (LoadOf(s') <= LoadOf(s) && DrainRank(s'.q) <= DrainRank(s.q) && CallRanks(s') < CallRanks(s)))
  }

  lemma CostsSpend(s: System, s': System)
    requires Costs(s, s')
    ensures Budget(s') < Budget(s)
  {
    Falls(|s.calls|, LoadOf(s), LoadOf(s'), DrainRank(s.q), DrainRank(s'.q), CallRanks(s), CallRanks(s'));
  }

  lemma Falls(n: nat, l: nat, l': nat, d: nat, d': nat, r: nat, r': nat)
    requires
      || (l' < l && d' <= d + 2 && r' <= r)
      || (l' <= l && d' < d && r' <= r + 2 * n)
      || (l' <= l && d' <= d && r' < r)
    ensures Times(4 * n + 3, l') + Times(2 * n + 1, d') + r' < Times(4 * n + 3, l) + Times(2 * n + 1, d) + r
  {
    var k, w := 4 * n + 3, 2 * n + 1;
    if d' < d {
      Scales(k, l', l);
      Scales(w, d' + 1, d);
    } else if l' < l {
      Scales(k, l' + 1, l);
      Scales(w, d', d + 2);
      assert Times(w, d + 2) == w + Times(w, d + 1);
    } else {
      Scales(w, d', d);
    }
  }

  lemma {:induction false} Scales(k: nat, a: nat, b: nat)
    requires a <= b
    ensures Times(k, a) <= Times(k, b)
  {
    if a < b { Scales(k, a, b - 1); }
  }

  lemma {:induction false} RanksAt(q: QState, calls: seq<Call>, c: nat, at: Stage)
    requires c < |calls|
    ensures Ranks(q, At(calls, c, at)) + Rank(q, calls[c]) == Ranks(q, calls) + Rank(q, calls[c].(at := at))
  {
    var front := calls[..|calls| - 1];
    if c < |front| {
      RanksAt(q, front, c, at);
      assert At(calls, c, at)[..|front|] == At(front, c, at);
    } else {
      assert At(calls, c, at)[..|front|] == front;
    }
  }

  /** When a drain ends, the calls that waited for it can go on. */
  lemma {:induction false} RanksRise(q: QState, q': QState, calls: seq<Call>)
    requires forall c :: 0 <= c < |calls| && calls[c].at.Awaiting? && Done(q, calls[c].at.no) ==>
      Done(q', calls[c].at.no)
    ensures Ranks(q', calls) <= Ranks(q, calls) + 2 * |calls|
    ensures (forall c :: 0 <= c < |calls| && calls[c].at.Awaiting? && Done(q', calls[c].at.no) ==>
      Done(q, calls[c].at.no)) ==> Ranks(q', calls) == Ranks(q, calls)
  {
    if calls != [] {
      var front := calls[..|calls| - 1];
      RanksRise(q, q', front);
      assert calls[|front|] == calls[|calls| - 1];
    }
  }

  lemma WakeWorks(q: QState)
    requires QInv(q) && q.draining.None? && q.buffer != []
    ensures Load(Wake(q)) < Load(q) && Wake(q).drains == [Sending(q.started)]
  {
    CutProgress(q.buffer, q.maxBatch);
  }

  lemma PushLoad(q: QState, e: Entry)
    requires QInv(q)
    ensures Load(Push(q, e)) <= Load(q) + |e.spans| + 1
  {
    PushTotals(q.buffer, e, ShedCount(q.buffer + [e], q.maxQueued));
  }

  /** An enqueue adds at most the entry's own load, starts at most one drain and ends none. */
  lemma EnqueueLoad(q: QState, e: Entry)
    requires QInv(q)
    ensures Load(Enqueue(q, e)) <= Load(q) + |e.spans| + 1
    ensures DrainRank(Enqueue(q, e)) <= DrainRank(q) + 2
    ensures forall no: nat :: no < q.started ==> (Done(q, no) <==> Done(Enqueue(q, e), no))
  {
    if !q.closed {
      PushKeeps(q, e);
      PushLoad(q, e);
      if q.draining.None? { WakeWorks(Push(q, e)); }
    }
  }

  lemma EnqueueCosts(s: System)
    requires SInv(s) && s.todo != []
    ensures Costs(s, Apply(s, EnqueueNext))
  {
    var q' := Enqueue(s.q, s.todo[0]);
    EnqueueLoad(s.q, s.todo[0]);
    RanksRise(s.q, q', s.calls);
    assert TodoLoad(s.todo[1..]) == TodoLoad(s.todo) - |s.todo[0].spans| - 2;
  }

  /** A settled request either lets the next batch go or brings the drain to its end. */
  lemma SettleRanks(q: QState, i: nat)
    requires QInv(q) && i < |q.drains| && q.drains[i].Sending?
    ensures var q' := Settle(q, i);
      && Load(q') <= Load(q) && DrainRank(q') <= DrainRank(q)
      && (Load(q') < Load(q) || DrainRank(q') < DrainRank(q))
  {
    if q.buffer != [] { CutProgress(q.buffer, q.maxBatch); }
  }

  lemma SettleEndsNothing(q: QState, i: nat, no: nat)
    requires QInv(q) && i < |q.drains|
    ensures Done(q, no) <==> Done(Settle(q, i), no)
  {
    assert q.drains[i] in q.drains && Settle(q, i).drains[i] in Settle(q, i).drains;
  }

  lemma SettleCosts(s: System, i: nat)
    requires SInv(s) && Enabled(s, RequestSettles(i))
    ensures Costs(s, Apply(s, RequestSettles(i)))
  {
    var q' := Settle(s.q, i);
    SettleRanks(s.q, i);
    forall no: nat ensures Done(s.q, no) <==> Done(q', no) {
      SettleEndsNothing(s.q, i, no);
    }
    RanksRise(s.q, q', s.calls);
  }

  lemma DrainEndCosts(s: System, i: nat)
    requires SInv(s) && Enabled(s, DrainEnds(i))
    ensures Costs(s, Apply(s, DrainEnds(i)))
  {
    var q' := Finally(s.q, i);
    FinallyKeeps(s.q, i);
    RanksRise(s.q, q', s.calls);
  }

  /** A call that goes on with the queue as it is uses up some of its own rank. */
  lemma CallCosts(s: System, c: nat, at: Stage, closed: bool)
    requires c < |s.calls| && Rank(s.q, s.calls[c].(at := at)) < Rank(s.q, s.calls[c])
    ensures Costs(s, s.(q := s.q.(closed := closed), calls := At(s.calls, c, at)))
  {
    var q' := s.q.(closed := closed);
    assert forall no: nat :: Done(s.q, no) <==> Done(q', no);
    RanksAt(s.q, s.calls, c, at);
    RanksRise(s.q, q', At(s.calls, c, at));
  }

  /** A call that starts drain `no` and waits for it falls in rank, and no other call rises:
      there was no drain to wait for before. */
  lemma WakeRanks(q: QState, q': QState, calls: seq<Call>, c: nat, no: nat)
    requires c < |calls| && calls[c].at.Testing? && q.drains == [] && q'.drains == [Sending(no)]
    requires forall k :: 0 <= k < |calls| && calls[k].at.Awaiting? ==> calls[k].at.no != no
    ensures Ranks(q', At(calls, c, Awaiting(no))) <= Ranks(q, calls)
  {
    RanksRise(q, q', calls);
    RanksAt(q', calls, c, Awaiting(no));
    assert Sending(no) in q'.drains && !Done(q', no);
  }

  /** A test that starts a drain pays for it at once: the drain takes a batch. */
  lemma TestWakeCosts(s: System, c: nat)
    requires SInv(s) && Enabled(s, Tests(c)) && s.q.draining.None? && s.q.buffer != []
    ensures Costs(s, Apply(s, Tests(c)))
  {
    WakeWorks(s.q);
    forall k | 0 <= k < |s.calls| && s.calls[k].at.Awaiting? ensures s.calls[k].at.no != s.q.started {
      assert CallOk(s.q, s.calls[k]);
    }
    WakeRanks(s.q, Wake(s.q), s.calls, c, s.q.started);
  }

  lemma TestCosts(s: System, c: nat)
    requires SInv(s) && Enabled(s, Tests(c))
    ensures Costs(s, Apply(s, Tests(c)))
  {
    if s.q.draining.None? && s.q.buffer != [] {
      TestWakeCosts(s, c);
    } else {
      TestKeeps(s.q);
      CallCosts(s, c, TestQueue(s.q).1, s.q.closed);
    }
  }

  lemma CallMoveCosts(s: System, m: Move)
    requires SInv(s) && Enabled(s, m) && (m.Made? || m.Resumes? || m.Closes?)
    ensures Costs(s, Apply(s, m))
  {
    var at := Apply(s, m).calls[m.c].at;
    CallCosts(s, m.c, at, Apply(s, m).q.closed);
    assert Apply(s, m) == s.(q := s.q.(closed := Apply(s, m).q.closed), calls := At(s.calls, m.c, at));
  }

  lemma MoveCosts(s: System, m: Move)
    requires SInv(s) && Enabled(s, m)
    ensures Costs(s, Apply(s, m))
  {
    match m
    case EnqueueNext => EnqueueCosts(s);
    case RequestSettles(i) => SettleCosts(s, i);
    case DrainEnds(i) => DrainEndCosts(s, i);
    case Tests(c) => TestCosts(s, c);
    case _ => CallMoveCosts(s, m);
  }

  /** Each move that can happen uses up some of the budget. */
  lemma MoveSpends(s: System, m: Move)
    requires SInv(s) && Enabled(s, m)
    ensures Budget(Apply(s, m)) < Budget(s)
  {
    MoveCosts(s, m);
    CostsSpend(s, Apply(s, m));
  }

  ghost predicate IsRun(states: seq<System>, moves: seq<Move>) {
    && |states| == |moves| + 1
    && (forall i :: 0 <= i < |moves| ==> Enabled(states[i], moves[i]) && states[i + 1] == Apply(states[i], moves[i]))
  }

  ghost predicate Stuck(s: System) {
    forall m :: !Enabled(s, m)
  }

  lemma {:induction false} RunsKeepSInv(states: seq<System>, moves: seq<Move>, n: nat)
    requires IsRun(states, moves) && SInv(states[0]) && n <= |moves|
    ensures SInv(states[n])
  {
    if n > 0 {
      RunsKeepSInv(states, moves, n - 1);
      MoveKeeps(states[n - 1], moves[n - 1]);
    }
  }

  lemma StepSpends(states: seq<System>, moves: seq<Move>, n: nat)
    requires IsRun(states, moves) && SInv(states[0]) && n < |moves|
    ensures Budget(states[n + 1]) < Budget(states[n])
  {
    RunsKeepSInv(states, moves, n);
    MoveSpends(states[n], moves[n]);
  }

  lemma {:induction false} RunsShort(states: seq<System>, moves: seq<Move>, n: nat)
    requires IsRun(states, moves) && SInv(states[0]) && n <= |moves|
    ensures n + Budget(states[n]) <= Budget(states[0])
  {
    if n > 0 {
      RunsShort(states, moves, n - 1);
      StepSpends(states, moves, n - 1);
    }
  }

  ghost predicate Over(call: Call) {
    if call.closes then call.at.Returned? else call.at.Resolved?
  }

  /** No interleaving of enqueues, requests and any number of flushes and closes goes on for
      ever, and one that cannot go on has every call over and no drain left. */
  lemma FlushEnds(states: seq<System>, moves: seq<Move>)
    requires IsRun(states, moves) && SInv(states[0])
    ensures |moves| <= Budget(states[0])
    ensures Stuck(states[|moves|]) ==>
      && (forall call :: call in states[|moves|].calls ==> Over(call))
      && states[|moves|].todo == [] && states[|moves|].q.drains == []
  {
    RunsKeepSInv(states, moves, |moves|);
    RunsShort(states, moves, |moves|);
    if Stuck(states[|moves|]) { StuckIsOver(states[|moves|]); }
  }

  lemma StuckIsOver(s: System)
    requires SInv(s) && Stuck(s)
    ensures (forall call :: call in s.calls ==> Over(call)) && s.todo == [] && s.q.drains == []
  {
    forall c | 0 <= c < |s.calls| ensures !(s.calls[c].closes && s.calls[c].at.Resolved?) {
      assert !Enabled(s, Closes(c));
    }
    assert !Enabled(s, RequestSettles(0)) && !Enabled(s, DrainEnds(0)) && !Enabled(s, EnqueueNext);
    forall c | 0 <= c < |s.calls| ensures Over(s.calls[c]) {
      assert !Enabled(s, Made(c)) && !Enabled(s, Tests(c)) && !Enabled(s, Resumes(c)) && !Enabled(s, Closes(c));
      assert CallOk(s.q, s.calls[c]);
    }
  }

  /** A closed queue lets nothing in any more, and stays closed. */
  lemma ClosedStaysClosed(s: System, m: Move)
    requires s.q.closed && Enabled(s, m)
    ensures Apply(s, m).q.closed && Apply(s, m).q.accepted == s.q.accepted
  {
  }

  /** One that is idle as well stays idle. */
  lemma ClosedIdleStays(s: System, m: Move)
    requires QInv(s.q) && s.q.closed && s.q.buffer == [] && s.q.drains == [] && Enabled(s, m)
    ensures Apply(s, m).q == s.q
  {
  }

  // ---- what stays behind ----

  ghost predicate InFlight(q: QState) {
    exists i :: 0 <= i < |q.drains| && q.drains[i].Sending?
  }

  ghost predicate InGap(q: QState) {
    exists i :: 0 <= i < |q.drains| && q.drains[i].Finishing?
  }

  /** An entry is let in between the return of a drain and its `finally`. */
  ghost predicate GapEnqueue(s: System, m: Move) {
    m.EnqueueNext? && !s.q.closed && InGap(s.q)
  }

  /** That happened at move j, and up to move n no drain was started since. */
  ghost predicate Strands(states: seq<System>, moves: seq<Move>, j: nat, n: nat)
    requires |states| == |moves| + 1 && n <= |moves|
  {
    j < n && GapEnqueue(states[j], moves[j]) && states[j].q.started == states[n].q.started
  }

  ghost predicate Stranded(states: seq<System>, moves: seq<Move>, n: nat)
    requires |states| == |moves| + 1 && n <= |moves|
  {
    exists j: nat :: Strands(states, moves, j, n)
  }

  lemma WakeFlies(q: QState)
    requires QInv(q) && q.draining.None? && q.buffer != []
    ensures InFlight(Wake(q)) && Wake(q).started == q.started + 1
  {
    WakeWorks(q);
    assert Wake(q).drains[0].Sending?;
  }

  lemma EnqueueStrands(q: QState, e: Entry)
    requires QInv(q) && !q.closed
    ensures var q' := Enqueue(q, e);
      if InGap(q) then q'.buffer != [] && !InFlight(q') && q'.started == q.started
      else InFlight(q') && (q'.started > q.started || (InFlight(q) && q'.started == q.started))
  {
    PushKeeps(q, e);
    if q.draining.None? {
      WakeFlies(Push(q, e));
    } else {
      assert Enqueue(q, e).drains == q.drains;
      assert q.drains[0].Sending? || q.drains[0].Finishing?;
    }
  }

  lemma SettleStrands(q: QState, i: nat)
    requires QInv(q) && i < |q.drains| && q.drains[i].Sending?
    ensures Settle(q, i).buffer != [] ==> InFlight(Settle(q, i))
  {
    assert Settle(q, i).drains[i].Sending? <==> q.buffer != [];
  }

  /** Something waits with no request to take it along. */
  ghost predicate Waits(q: QState) {
    q.buffer != [] && !InFlight(q)
  }

  /** A move leaves something waiting exactly if it lets an entry in during the gap, or if
      something waited before and the move starts no drain. */
  lemma MoveStrandsIff(s: System, m: Move)
    requires SInv(s) && Enabled(s, m)
    ensures Waits(Apply(s, m).q) <==> GapEnqueue(s, m) || (Waits(s.q) && Apply(s, m).q.started == s.q.started)
    ensures GapEnqueue(s, m) ==> Apply(s, m).q.started == s.q.started
  {
    match m
    case EnqueueNext =>
      if !s.q.closed { EnqueueStrands(s.q, s.todo[0]); }
    case RequestSettles(i) =>
      assert InFlight(s.q);
      SettleStrands(s.q, i);
    case DrainEnds(i) =>
      FinallyKeeps(s.q, i);
      assert !InFlight(s.q);
    case Tests(c) =>
      if s.q.draining.None? && s.q.buffer != [] { WakeFlies(s.q); }
    case _ =>
  }

  /** In every state of every run something waits with no request to take it along if and only
      if an entry was let in during a gap and no drain was started since. */
  lemma {:induction false} WaitsIff(states: seq<System>, moves: seq<Move>, n: nat)
    requires IsRun(states, moves) && SInv(states[0]) && states[0].q.buffer == [] && n <= |moves|
    ensures Waits(states[n].q) <==> Stranded(states, moves, n)
    ensures forall j :: 0 <= j < n ==> states[j].q.started <= states[n].q.started
  {
    if n > 0 {
      RunsKeepSInv(states, moves, n - 1);
      WaitsIff(states, moves, n - 1);
      MoveKeepsQueue(states[n - 1], moves[n - 1]);
      MoveStrandsIff(states[n - 1], moves[n - 1]);
      StrandsSnoc(states, moves, n - 1);
    }
  }

  lemma StrandsSnoc(states: seq<System>, moves: seq<Move>, n: nat)
    requires |states| == |moves| + 1 && n < |moves|
    requires forall j :: 0 <= j < n ==> states[j].q.started <= states[n].q.started
    requires states[n].q.started <= states[n + 1].q.started
    requires GapEnqueue(states[n], moves[n]) ==> states[n + 1].q.started == states[n].q.started
    ensures Stranded(states, moves, n + 1) <==>
      || GapEnqueue(states[n], moves[n])
      || (Stranded(states, moves, n) && states[n + 1].q.started == states[n].q.started)
  {
    if Stranded(states, moves, n + 1) {
      var j: nat :| Strands(states, moves, j, n + 1);
      if j < n { assert Strands(states, moves, j, n); }
    }
    if GapEnqueue(states[n], moves[n]) {
      assert Strands(states, moves, n, n + 1);
    }
    if Stranded(states, moves, n) && states[n + 1].q.started == states[n].q.started {
      var j: nat :| Strands(states, moves, j, n);
      assert Strands(states, moves, j, n + 1);
    }
  }

  /** Where a run that cannot go on ends: no drain lives, and what was let in has left in order,
      but for what is still buffered. Something is if and only if an entry was let in during the
      gap of the last drain. */
  lemma StaysBehindIff(states: seq<System>, moves: seq<Move>)
    requires IsRun(states, moves) && SInv(states[0]) && states[0].q.buffer == [] && Stuck(states[|moves|])
    ensures var s := states[|moves|];
      && s.q.drains == [] && Items(s.q.accepted) == Items(Entries(s.q.gone)) + Items(s.q.buffer)
      && (s.q.buffer != [] <==> Stranded(states, moves, |moves|))
  {
    RunsKeepSInv(states, moves, |moves|);
    StuckIsOver(states[|moves|]);
    WaitsIff(states, moves, |moves|);
  }

  // ---- what a close leaves behind ----

  /** While a close is due, nothing waits and no drain is in its gap; and in a closed queue
      nothing waits without a request to take it along. */
  ghost predicate CloseOk(s: System) {
    && (CloseDue(s) ==> !Waits(s.q) && !InGap(s.q))
    && (s.q.closed ==> !Waits(s.q))
  }

  /** A call of `close` becomes due only by a test that found the queue idle. */
  lemma DueStays(s: System, m: Move)
    requires Enabled(s, m) && CloseDue(Apply(s, m))
    ensures CloseDue(s) || (m.Tests? && TestQueue(s.q) == (s.q, Resolved))
  {
    var s' := Apply(s, m);
    var c :| 0 <= c < |s'.calls| && s'.calls[c].closes && s'.calls[c].at.Resolved?;
    if s.calls[c] == s'.calls[c] { assert CloseDue(s); }
  }

  lemma FlyingIsFine(q: QState)
    requires OneDrain(q) && InFlight(q)
    ensures !InGap(q) && !Waits(q)
  {
  }

  lemma EnqueueFlies(q: QState, e: Entry)
    requires QInv(q) && !q.closed && !InGap(q)
    ensures !InGap(Enqueue(q, e)) && !Waits(Enqueue(q, e))
  {
    EnqueueStrands(q, e);
    EnqueueKeeps(q, e);
    FlyingIsFine(Enqueue(q, e));
  }

  lemma EnqueueKeepsCloseOk(s: System)
    requires SInv(s) && CloseOk(s) && Enabled(s, EnqueueNext)
    ensures CloseOk(Apply(s, EnqueueNext))
  {
    if CloseDue(Apply(s, EnqueueNext)) { DueStays(s, EnqueueNext); }
    if !s.q.closed && !InGap(s.q) { EnqueueFlies(s.q, s.todo[0]); }
  }

  lemma WakeFliesOnly(q: QState)
    requires QInv(q) && q.draining.None? && q.buffer != []
    ensures !InGap(Wake(q)) && !Waits(Wake(q))
  {
    WakeFlies(q);
    WakeKeeps(q);
    FlyingIsFine(Wake(q));
  }

  lemma TestKeepsCloseOk(s: System, c: nat)
    requires SInv(s) && CloseOk(s) && Enabled(s, Tests(c))
    ensures CloseOk(Apply(s, Tests(c)))
  {
    if CloseDue(Apply(s, Tests(c))) { DueStays(s, Tests(c)); }
    if s.q.draining.None? && s.q.buffer != [] { WakeFliesOnly(s.q); }
  }

  /** Every move keeps that. */
  lemma MoveKeepsCloseOk(s: System, m: Move)
    requires SInv(s) && CloseOk(s) && Enabled(s, m)
    ensures CloseOk(Apply(s, m))
  {
    match m
    case EnqueueNext => EnqueueKeepsCloseOk(s);
    case Tests(c) => TestKeepsCloseOk(s, c);
    case Closes(c) =>
      assert CloseDue(s);
      assert Waits(Apply(s, m).q) == Waits(s.q) && InGap(Apply(s, m).q) == InGap(s.q);
    case _ =>
      if CloseDue(Apply(s, m)) { DueStays(s, m); }
      MoveStrandsIff(s, m);
  }

  lemma {:induction false} RunsKeepCloseOk(states: seq<System>, moves: seq<Move>, n: nat)
    requires IsRun(states, moves) && SInv(states[0]) && CloseOk(states[0]) && n <= |moves|
    ensures CloseOk(states[n])
  {
    if n > 0 {
      RunsKeepCloseOk(states, moves, n - 1);
      StepKeepsCloseOk(states, moves, n - 1);
    }
  }

  lemma StepKeepsCloseOk(states: seq<System>, moves: seq<Move>, n: nat)
    requires IsRun(states, moves) && SInv(states[0]) && n < |moves| && CloseOk(states[n])
    ensures CloseOk(states[n + 1])
  {
    RunsKeepSInv(states, moves, n);
    MoveKeepsCloseOk(states[n], moves[n]);
  }

  /** Nothing is buffered and no call was made yet. */
  ghost predicate Begins(s: System) {
    QInv(s.q) && s.q.buffer == [] && forall call :: call in s.calls ==> call.at.NotCalled?
  }

  lemma BeginsOk(s: System)
    requires Begins(s)
    ensures SInv(s) && CloseOk(s)
  {
    forall c | 0 <= c < |s.calls| ensures s.calls[c].at.NotCalled? {
      assert s.calls[c] in s.calls;
    }
  }

  /** A run with a `close` in it that cannot go on ends closed and idle, and everything that was
      ever let in has left the queue, in order; also with other flushes and closes in between,
      and with entries that come while the close waits. */
  lemma CloseEnds(states: seq<System>, moves: seq<Move>)
    requires IsRun(states, moves) && Begins(states[0]) && Stuck(states[|moves|])
    requires exists call :: call in states[|moves|].calls && call.closes
    ensures var q := states[|moves|].q;
      q.closed && q.buffer == [] && q.drains == [] && Items(q.accepted) == Items(Entries(q.gone))
  {
    var s := states[|moves|];
    BeginsOk(states[0]);
    RunsKeepSInv(states, moves, |moves|);
    RunsKeepCloseOk(states, moves, |moves|);
    StuckIsOver(s);
    var call :| call in s.calls && call.closes;
    assert CallOk(s.q, call);
    assert Items([]) == [];
  }

  /** When the flush resolves, the buffer is empty and no drain lives. */
  lemma FlushResolvesIdle(s: System, c: nat)
    requires QInv(s.q) && Enabled(s, Tests(c))
    ensures Apply(s, Tests(c)).calls[c].at.Resolved? <==> s.q.buffer == [] && s.q.drains == []
    ensures Apply(s, Tests(c)).calls[c].at.Resolved? ==> Apply(s, Tests(c)).q == s.q
  {
  }

  /** In every reachable state at most one request is in flight. */
  lemma OneRequestInFlight(states: seq<System>, moves: seq<Move>, i: nat, j: nat)
    requires IsRun(states, moves) && SInv(states[0])
    requires i < |states[|moves|].q.drains| && j < |states[|moves|].q.drains|
    requires states[|moves|].q.drains[i].Sending? && states[|moves|].q.drains[j].Sending?
    ensures i == j
  {
    RunsKeepSInv(states, moves, |moves|);
  }

  /** After an enqueue on an open queue a request is in flight, unless the enqueue fell into
      the gap; then the entry waits for the next enqueue or flush. */
  lemma EnqueueStartsUnlessGap(q: QState, e: Entry)
    requires QInv(q) && !q.closed
    ensures InFlight(Enqueue(q, e)) <==> !InGap(q)
  {
    EnqueueStrands(q, e);
  }

  /** It can happen: the buffer is not empty, no drain runs, and none will on its own. */
  lemma EntryCanBeStranded(a: Entry, b: Entry)
    requires |a.spans| <= 200
    ensures var q := Finally(Enqueue(Settle(Enqueue(NewQueue(200, 2000), a), 0), b), 0);
      q.buffer == [b] && q.drains == [] && q.draining == None
  {
    FirstEnqueueSends(a);
    GapStrands(Settle(Enqueue(NewQueue(200, 2000), a), 0), b);
  }

  lemma FirstEnqueueSends(a: Entry)
    requires |a.spans| <= 200
    ensures var q := Enqueue(NewQueue(200, 2000), a);
      q.buffer == [] && q.drains == [Sending(0)] && q.draining == Some(0) && !q.closed
  {
    assert [] + [a] == [a] && [a][0..] == [a] && [a][1..] == [];
    assert ShedCount([a], 2000) == 0;
    assert Cut([a], 200, true).1 == [];
  }

  lemma GapStrands(q: QState, b: Entry)
    requires q.buffer == [] && q.drains == [Finishing(0)] && q.draining == Some(0) && !q.closed
    ensures var q' := Finally(Enqueue(q, b), 0);
      q'.buffer == [b] && q'.drains == [] && q'.draining == None
  {
    assert [] + [b] == [b] && [b][0..] == [b];
    assert ShedCount([b], q.maxQueued) == 0;
    assert Enqueue(q, b).drains == q.drains;
    assert q.drains[..0] + q.drains[1..] == [];
  }
}
