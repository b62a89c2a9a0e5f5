/** The queue object itself; the `async` functions of the source are cut at their `await`s. */
module SpanQueue {
  import opened Options
  import opened SpanModel
  import opened QueueModel
  import opened QueueRuns

  /** What `takeBatch` will have taken and left, with `batch` of so many spans taken so far. */
  ghost function Outcome(maxBatch: nat, batch: seq<Entry>, buffer: seq<Entry>, spans: nat): (seq<Entry>, seq<Entry>)
    requires spans <= maxBatch
  {
    var (more, rest) := Cut(buffer, maxBatch - spans, batch == []);
    (batch + more, rest)
  }

  lemma OutcomeTakesWhole(maxBatch: nat, batch: seq<Entry>, buffer: seq<Entry>, spans: nat)
    requires spans < maxBatch && buffer != [] && |buffer[0].spans| <= maxBatch - spans
    ensures Outcome(maxBatch, batch, buffer, spans) ==
      Outcome(maxBatch, batch + [buffer[0]], buffer[1..], spans + |buffer[0].spans|)
  {
    var tail := Cut(buffer[1..], maxBatch - spans - |buffer[0].spans|, false).0;
    assert batch + ([buffer[0]] + tail) == batch + [buffer[0]] + tail;
  }

  lemma OutcomeStops(maxBatch: nat, batch: seq<Entry>, buffer: seq<Entry>, spans: nat)
    requires spans <= maxBatch
    requires buffer == [] || spans == maxBatch || (batch != [] && |buffer[0].spans| > maxBatch - spans)
    ensures Outcome(maxBatch, batch, buffer, spans) == (batch, buffer)
  {
    assert batch + [] == batch;
  }

  /** A first entry that is too big is split, or taken whole if it has no id. */
  lemma OutcomeOfBig(maxBatch: nat, buffer: seq<Entry>)
    requires maxBatch > 0 && buffer != [] && |buffer[0].spans| > maxBatch
    ensures var next := buffer[0];
      Outcome(maxBatch, [], buffer, 0) ==
        if next.traceId.None? then ([next], buffer[1..])
        else ([next.(spans := next.spans[..maxBatch])], buffer[0 := next.(spans := next.spans[maxBatch..])])
  {
    var next := buffer[0];
    var tail := next.(spans := next.spans[maxBatch..]);
    assert buffer[0 := tail] == [tail] + buffer[1..];
    var taken := Cut(buffer, maxBatch, true).0;
    assert [] + taken == taken;
  }

  class Queue {
    const maxBatchSpans: nat
    const maxQueuedSpans: nat
    var buffer: seq<Entry>
    var queuedSpans: int
    var closed: bool
    /** The drain whose promise is held, and the drains that have not ended yet. */
    var draining: Option<nat>
    var started: nat
    var drains: seq<Drain>
    ghost var accepted: seq<Entry>
    ghost var gone: seq<Gone>
    ghost var batches: seq<seq<Entry>>
    /** What was handed to `send`. */
    var requests: seq<seq<Entry>>

    ghost function View(): QState
      reads this
    {
      QState(maxBatchSpans, maxQueuedSpans, buffer, queuedSpans, closed, draining, started, drains,
             accepted, gone, batches, requests)
    }

    ghost predicate Valid()
      reads this
    {
      QInv(View())
    }

    constructor (maxBatchSpans: nat, maxQueuedSpans: nat)
      ensures Valid() && View() == NewQueue(maxBatchSpans, maxQueuedSpans)
      ensures this.maxBatchSpans == (if maxBatchSpans == 0 then 1 else maxBatchSpans)
      ensures this.maxQueuedSpans == (if maxQueuedSpans == 0 then 1 else maxQueuedSpans)
      ensures buffer == [] && queuedSpans == 0 && !closed && draining.None?
    {
      this.maxBatchSpans := if maxBatchSpans < 1 then 1 else maxBatchSpans;
      this.maxQueuedSpans := if maxQueuedSpans < 1 then 1 else maxQueuedSpans;
      buffer, queuedSpans, closed, draining, started, drains := [], 0, false, None, 0, [];
      accepted, gone, batches, requests := [], [], [], [];
    }

    method Enqueue(input: Entry)
      requires Valid()
      modifies this
      ensures Valid() && View() == QueueRuns.Enqueue(old(View()), input)
    {
      EnqueueKeeps(View(), input);
      if closed { return; }
      Buffer(input);
      Wake();
    }

    /** Appends, then drops the oldest entries while the buffer holds too many spans. */
    method Buffer(input: Entry)
      requires queuedSpans == Total(buffer)
      modifies this`buffer, this`queuedSpans, this`accepted, this`gone
      ensures View() == Push(old(View()), input)
    {
      ghost var grown := buffer + [input];
      ghost var k := ShedCount(grown, maxQueuedSpans);
      PushTotals(buffer, input, k);
      PushTotals(buffer, input, 0);
      assert grown[0..] == grown && grown[..0] == [];
      buffer := buffer + [input];
      queuedSpans := queuedSpans + |input.spans|;
      Shed();
      accepted := accepted + [input];
      gone := gone + AsGone(grown[..k], true);
    }

    method Shed()
      requires queuedSpans == Total(buffer)
      modifies this`buffer, this`queuedSpans
      ensures buffer == old(buffer)[ShedCount(old(buffer), maxQueuedSpans)..] && queuedSpans == Total(buffer)
    {
      ghost var n := 0;
      while queuedSpans > maxQueuedSpans && |buffer| > 1
        invariant n <= |old(buffer)| && buffer == old(buffer)[n..] && queuedSpans == Total(buffer)
        invariant n + ShedCount(buffer, maxQueuedSpans) == ShedCount(old(buffer), maxQueuedSpans)
        decreases |buffer|
      {
        DropHead();
        n := n + 1;
      }
    }

    method DropHead()
      modifies this`buffer, this`queuedSpans
      ensures buffer == if old(buffer) == [] then [] else old(buffer)[1..]
      ensures queuedSpans == old(queuedSpans) - if old(buffer) == [] then 0 else |old(buffer)[0].spans|
    {
      if buffer != [] {
        queuedSpans := queuedSpans - |buffer[0].spans|;
        buffer := buffer[1..];
      }
    }

    /** Starts a drain unless one is running; it gets as far as its first request. */
    method Wake()
      requires maxBatchSpans > 0
      modifies this`draining, this`started, this`drains, this`buffer, this`queuedSpans,
        this`gone, this`batches, this`requests
      ensures View() == QueueRuns.Wake(old(View()))
    {
      if draining.None? {
        var no := started;
        draining, started := Some(no), no + 1;
        var drain := Drain(no);
        drains := drains + [drain];
      }
    }

    /** The loop of `drain` from its test to the next `await`, or to its end. */
    method Drain(no: nat) returns (drain: QueueRuns.Drain)
      requires maxBatchSpans > 0
      modifies this`buffer, this`queuedSpans, this`gone, this`batches, this`requests
      ensures (View(), drain) == Continue(old(View()), no)
    {
      if |buffer| == 0 { return Finishing(no); }
      CutProgress(buffer, maxBatchSpans);
      var batch := TakeBatch();
      if |batch| == 0 {
        MergedNonEmpty(Cut(old(buffer), maxBatchSpans, true).0);
        assert false;
      }
      requests := requests + [batch];
      return Sending(no);
    }

    method TakeBatch() returns (merged: seq<Entry>)
      requires maxBatchSpans > 0
      modifies this`buffer, this`queuedSpans, this`gone, this`batches
      ensures var (batch, rest) := Cut(old(buffer), maxBatchSpans, true);
        && merged == Merged(batch) && buffer == rest && queuedSpans == old(queuedSpans) - Total(batch)
        && gone == old(gone) + AsGone(batch, false) && batches == old(batches) + [batch]
    {
      var batch := CutBatch();
      gone := gone + AsGone(batch, false);
      batches := batches + [batch];
      merged := MergeByTraceId(batch);
    }

    /** The loop of `takeBatch`. */
    method CutBatch() returns (batch: seq<Entry>)
      requires maxBatchSpans > 0
      modifies this`buffer, this`queuedSpans
      ensures (batch, buffer) == Cut(old(buffer), maxBatchSpans, true)
      ensures queuedSpans == old(queuedSpans) - Total(batch)
    {
      batch := [];
      var spans := 0;
      ghost var result := Cut(buffer, maxBatchSpans, true);
      assert [] + result.0 == result.0;
      while |buffer| > 0 && spans < maxBatchSpans
        invariant spans == Total(batch) <= maxBatchSpans && queuedSpans == old(queuedSpans) - spans
        invariant result == Outcome(maxBatchSpans, batch, buffer, spans)
        decreases |buffer|
      {
        var next := buffer[0];
        var size := |next.spans|;
        var room := maxBatchSpans - spans;
        if size <= room {
          OutcomeTakesWhole(maxBatchSpans, batch, buffer, spans);
          TotalSnoc(batch, next);
          buffer := buffer[1..];
          queuedSpans := queuedSpans - size;
          batch := batch + [next];
          spans := spans + size;
          continue;
        }
        if |batch| > 0 { break; }
        OutcomeOfBig(maxBatchSpans, buffer);
        if next.traceId.None? {
          buffer := buffer[1..];
          queuedSpans := queuedSpans - size;
          TotalSnoc([], next);
          return [next];
        }
        buffer := buffer[0 := next.(spans := next.spans[room..])];
        queuedSpans := queuedSpans - room;
        TotalSnoc([], next.(spans := next.spans[..room]));
        return [next.(spans := next.spans[..room])];
      }
      OutcomeStops(maxBatchSpans, batch, buffer, spans);
    }

    /** A request settles; its failure changes nothing but a warning. */
    method RequestSettles(i: nat)
      requires Valid() && i < |drains|
      modifies this
      ensures Valid() && View() == Settle(old(View()), i)
    {
      SettleKeeps(View(), i);
      var drain := Drain(drains[i].no);
      drains := drains[i := drain];
    }

    /** The `finally` that `wake` attached. */
    method DrainEnds(i: nat)
      requires Valid() && i < |drains|
      modifies this
      ensures Valid() && View() == Finally(old(View()), i)
    {
      FinallyKeeps(View(), i);
      draining := None;
      drains := drains[..i] + drains[i + 1..];
    }

    /** One round of the loop in `flush`: what the call does next. */
    method FlushTests() returns (next: Stage)
      requires Valid()
      modifies this
      ensures Valid() && (View(), next) == TestQueue(old(View()))
    {
      WakeKeeps(View());
      if |buffer| == 0 && draining.None? { return Resolved; }
      if draining.Some? { return Awaiting(draining.value); }
      next := Awaiting(started);
      Wake();
    }

    /** What `close` does once its flush has resolved. */
    method CloseAfterFlush()
      requires Valid()
      modifies this`closed
      ensures Valid() && View() == Closed(old(View()))
    {
      closed := true;
    }
  }

  lemma MergedNext(batch: seq<Entry>, i: nat)
    requires i < |batch|
    ensures Merged(batch[..i + 1]) == AddEntry(Merged(batch[..i]), batch[i])
  {
    assert batch[..i + 1][..i] == batch[..i];
  }

  lemma MergedNonEmpty(batch: seq<Entry>)
    requires batch != []
    ensures Merged(batch) != []
  {
    var front, last := Merged(batch[..|batch| - 1]), batch[|batch| - 1];
  }

  function KeyOf(e: Entry): (Option<Id>, Option<bool>) {
    (e.traceId, e.capture)
  }

  /** The map points, for each key, at the place of its entry among the collected ones. */
  ghost predicate Points(byTraceId: map<(Option<Id>, Option<bool>), nat>, merged: seq<Entry>) {
    && (forall key ::
      key in byTraceId ==>
      byTraceId[key] < |merged| && key.0.Some? && KeyOf(merged[byTraceId[key]]) == key)
    && (forall k :: 0 <= k < |merged| && merged[k].traceId.Some? ==> KeyOf(merged[k]) in byTraceId)
  }

  method MergeByTraceId(batch: seq<Entry>) returns (merged: seq<Entry>)
    ensures merged == Merged(batch)
  {
    if |batch| < 2 {
      if |batch| == 1 {
        assert Merged(batch[..0]) == [] && [] + [batch[0]] == batch;
      }
      return batch;
    }
    merged := [];
    var byTraceId: map<(Option<Id>, Option<bool>), nat> := map[];
    for i := 0 to |batch|
      invariant merged == Merged(batch[..i]) && Points(byTraceId, merged)
    {
      var entry := batch[i];
      MergedNext(batch, i);
      if entry.traceId.None? {
        merged := merged + [entry];
      } else if KeyOf(entry) !in byTraceId {
        byTraceId := byTraceId[KeyOf(entry) := |merged|];
        merged := merged + [entry];
      } else {
        var k := byTraceId[KeyOf(entry)];
        MergedKeysDistinct(batch[..i]);
        FindDistinct(merged, entry, k);
        merged := merged[k := Join(merged[k], entry)];
      }
    }
    assert batch[..|batch|] == batch;
  }

  lemma FindDistinct(merged: seq<Entry>, e: Entry, k: nat)
    requires KeysDistinct(merged) && k < |merged| && SameKey(merged[k], e)
    ensures Find(merged, e) == Some(k)
  {
    var f := Find(merged, e);
    assert SameKey(merged[f.value], merged[k]) && SameKey(merged[k], merged[f.value]);
  }
}
