/** Splitting finished results into upload requests. */
module ResultBatches {

  /** A result on its way to the server; `size` is the byte length of its JSON. */
  datatype WireResult = WireResult(example: nat, size: nat)

  type Batch = seq<WireResult>

  const BATCH_SIZE: nat := 20
  const BYTE_BUDGET: nat := 800_000

  function Bytes(batch: Batch): nat {
    if batch == [] then 0 else Bytes(batch[..|batch| - 1]) + batch[|batch| - 1].size
  }

  function Flatten(batches: seq<Batch>): seq<WireResult> {
    if batches == [] then [] else batches[0] + Flatten(batches[1..])
  }

  /** Both limits are met, or there is nothing that could be left out. */
  predicate Allowed(batch: Batch) {
    |batch| <= 1 || (|batch| <= 20 && Bytes(batch) <= 800_000)
  }

  ghost predicate AllAllowed(batches: seq<Batch>) {
    forall b :: b in batches ==> Allowed(b)
  }

  predicate Full(batch: Batch, next: WireResult) {
    |batch| > 0 && (|batch| >= BATCH_SIZE || Bytes(batch) + next.size > BYTE_BUDGET)
  }

  /** The batches that come of the open batch and the results still to be placed. */
  function Pack(batch: Batch, rest: seq<WireResult>): seq<Batch>
    decreases |rest|
  {
    if rest == [] then (if batch == [] then [] else [batch])
    else if Full(batch, rest[0]) then [batch] + Pack([rest[0]], rest[1..])
    else Pack(batch + [rest[0]], rest[1..])
  }

  function Split(results: seq<WireResult>): seq<Batch> {
    Pack([], results)
  }

  lemma PackStep(done: seq<Batch>, batch: Batch, results: seq<WireResult>, i: nat)
    requires i < |results|
    ensures Full(batch, results[i]) ==>
      done + Pack(batch, results[i..]) == done + [batch] + Pack([results[i]], results[i + 1..])
    ensures !Full(batch, results[i]) ==>
      done + Pack(batch, results[i..]) == done + Pack(batch + [results[i]], results[i + 1..])
  {
    var rest := results[i..];
    assert rest[0] == results[i] && rest[1..] == results[i + 1..];
  }

  lemma BytesSnoc(batch: Batch, result: WireResult)
    ensures Bytes(batch + [result]) == Bytes(batch) + result.size
  {
    assert (batch + [result])[..|batch|] == batch;
  }

  method SplitIntoBatches(results: seq<WireResult>) returns (batches: seq<Batch>)
    ensures batches == Split(results)
  {
    batches := [];
    var batch: Batch := [];
    var bytes := 0;
    assert results[0..] == results;
    for i := 0 to |results|
      invariant bytes == Bytes(batch) && Split(results) == batches + Pack(batch, results[i..])
    {
      var result := results[i];
      PackStep(batches, batch, results, i);
      if |batch| > 0 && (|batch| >= BATCH_SIZE || bytes + result.size > BYTE_BUDGET) {
        batches := batches + [batch];
        batch := [];
        bytes := 0;
        assert batch + [result] == [result];
      }
      BytesSnoc(batch, result);
      batch := batch + [result];
      bytes := bytes + result.size;
    }
    if |batch| > 0 { batches := batches + [batch]; }
  }

  // ---- what the batches are ----

  /** Nothing is lost or reordered. */
  lemma {:induction false} PackKeeps(batch: Batch, rest: seq<WireResult>)
    ensures Flatten(Pack(batch, rest)) == batch + rest
    decreases |rest|
  {
    if rest == [] {
      assert batch + rest == batch && [batch][1..] == [] && batch + [] == batch;
    } else {
      assert rest == [rest[0]] + rest[1..];
      if Full(batch, rest[0]) {
        var more := Pack([rest[0]], rest[1..]);
        PackKeeps([rest[0]], rest[1..]);
        assert ([batch] + more)[1..] == more;
      } else {
        PackKeeps(batch + [rest[0]], rest[1..]);
        assert batch + [rest[0]] + rest[1..] == batch + rest;
      }
    }
  }

  /** No batch is empty, every batch meets the limits. */
  lemma {:induction false} PackFits(batch: Batch, rest: seq<WireResult>)
    requires Allowed(batch)
    ensures AllAllowed(Pack(batch, rest)) && [] !in Pack(batch, rest)
    decreases |rest|
  {
    if rest != [] {
      if Full(batch, rest[0]) {
        PackFits([rest[0]], rest[1..]);
      } else {
        BytesSnoc(batch, rest[0]);
        PackFits(batch + [rest[0]], rest[1..]);
      }
    }
  }

  lemma {:induction false} BytesConcat(a: Batch, b: Batch)
    ensures Bytes(a + b) == Bytes(a) + Bytes(b)
  {
    if b == [] {
      assert a + b == a;
    } else {
      assert (a + b)[..|a + b| - 1] == a + b[..|b| - 1];
      BytesConcat(a, b[..|b| - 1]);
    }
  }

  /** The batches without their first d results; `dropped` counts batches gone for good. */
  function DropFront(batches: seq<Batch>, d: nat): seq<Batch> {
    if batches == [] || d == 0 then batches
    else if |batches[0]| <= d then DropFront(batches[1..], d - |batches[0]|)
    else [batches[0][d..]] + batches[1..]
  }

  lemma {:induction false} DropFrontOk(batches: seq<Batch>, d: nat)
    requires AllAllowed(batches) && d <= |Flatten(batches)|
    ensures AllAllowed(DropFront(batches, d)) && |DropFront(batches, d)| <= |batches|
    ensures Flatten(DropFront(batches, d)) == Flatten(batches)[d..]
    decreases |batches|
  {
    if batches != [] && d > 0 {
      var first, rest := batches[0], batches[1..];
      assert batches == [first] + rest;
      if |first| <= d {
        DropFrontOk(rest, d - |first|);
        assert Flatten(batches)[d..] == Flatten(rest)[d - |first|..];
      } else {
        assert first in batches;
        assert first == first[..d] + first[d..];
        BytesConcat(first[..d], first[d..]);
        assert ([first[d..]] + rest)[1..] == rest;
        assert Flatten(batches)[d..] == first[d..] + Flatten(rest);
      }
    }
  }

  /** If the first d results did not all fit one batch, dropping them costs a batch. */
  lemma {:induction false} DropFrontLess(batches: seq<Batch>, d: nat)
    requires d > 0 && batches != [] && |batches[0]| <= d
    ensures |DropFront(batches, d)| < |batches|
  {
    var rest, left := batches[1..], d - |batches[0]|;
    DropFrontShorter(rest, left);
  }

  lemma {:induction false} DropFrontShorter(batches: seq<Batch>, d: nat)
    ensures |DropFront(batches, d)| <= |batches|
    decreases |batches|
  {
    if batches != [] && d > 0 && |batches[0]| <= d {
      DropFrontShorter(batches[1..], d - |batches[0]|);
    }
  }

  /** Greedy packing is never beaten: any way to split the same results, in order and within
      the limits, needs at least as many batches. */
  lemma {:induction false} PackFewest(batch: Batch, rest: seq<WireResult>, other: seq<Batch>)
    requires Allowed(batch) && AllAllowed(other) && Flatten(other) == batch + rest
    ensures |Pack(batch, rest)| <= |other|
    decreases |rest|
  {
    if rest == [] {
      if batch != [] { assert other != []; }
    } else if Full(batch, rest[0]) {
      var d := |batch|;
      FirstBatchShort(batch, rest, other);
      DropFrontOk(other, d);
      DropFrontLess(other, d);
      assert (batch + rest)[d..] == [rest[0]] + rest[1..];
      PackFewest([rest[0]], rest[1..], DropFront(other, d));
    } else {
      assert (batch + [rest[0]])[..|batch|] == batch;
      assert batch + [rest[0]] + rest[1..] == batch + rest;
      PackFewest(batch + [rest[0]], rest[1..], other);
    }
  }

  lemma FirstBatchShort(batch: Batch, rest: seq<WireResult>, other: seq<Batch>)
    requires rest != [] && Full(batch, rest[0]) && AllAllowed(other) && Flatten(other) == batch + rest
    ensures other != [] && |other[0]| <= |batch|
  {
    var first := other[0];
    assert first in other;
    if |first| > |batch| {
      var n := |batch| + 1;
      assert forall i :: 0 <= i < |first| ==> first[i] == (batch + rest)[i];
      assert first[..n] == batch + [rest[0]];
      assert (batch + [rest[0]])[..|batch|] == batch;
      assert first == first[..n] + first[n..];
      BytesConcat(first[..n], first[n..]);
    }
  }

  lemma SplitOk(results: seq<WireResult>)
    ensures Flatten(Split(results)) == results && AllAllowed(Split(results)) && [] !in Split(results)
  {
    assert [] + results == results;
    PackKeeps([], results);
    PackFits([], results);
  }

  /** The split keeps every result in order, makes no empty batch, and no other split within
      the limits needs fewer requests. */
  lemma SplitIsBest(results: seq<WireResult>, other: seq<Batch>)
    requires AllAllowed(other) && Flatten(other) == results
    ensures Flatten(Split(results)) == results && AllAllowed(Split(results)) && [] !in Split(results)
    ensures |Split(results)| <= |other|
  {
    SplitOk(results);
    assert [] + results == results;
    PackFewest([], results, other);
  }
}
