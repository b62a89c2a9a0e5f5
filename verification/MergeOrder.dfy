/** In what order the entries of a merged request stand, for a server that takes them one by one. */
module MergeOrder {
  import opened Options
  import opened SpanModel
  import opened QueueModel

  /** The first entry of the batch with the key of entry i. */
  function FirstOf(batch: seq<Entry>, i: nat): (f: nat)
    requires i < |batch| && batch[i].traceId.Some?
    ensures f <= i && SameKey(batch[f], batch[i])
    ensures forall j :: 0 <= j < f ==> !SameKey(batch[j], batch[i])
  {
    FirstFrom(batch, i, 0)
  }

  function FirstFrom(batch: seq<Entry>, i: nat, n: nat): (f: nat)
    requires n <= i < |batch| && batch[i].traceId.Some?
    ensures n <= f <= i && SameKey(batch[f], batch[i])
    ensures forall j :: n <= j < f ==> !SameKey(batch[j], batch[i])
    decreases i - n
  {
    if SameKey(batch[n], batch[i]) then n else FirstFrom(batch, i, n + 1)
  }

  /** `places[k]` is the batch entry that opened merged entry k: the places increase, and a
      key is opened by its first entry. */
  ghost predicate OpenedBy(batch: seq<Entry>, merged: seq<Entry>, places: seq<nat>) {
    && |places| == |merged|
    && (forall k :: 0 <= k < |places| ==> places[k] < |batch|)
    && (forall k, l :: 0 <= k < l < |places| ==> places[k] < places[l])
    && (forall k :: 0 <= k < |places| && merged[k].traceId.Some? ==>
          SameKey(batch[places[k]], merged[k]) && forall j :: 0 <= j < places[k] ==> !SameKey(batch[j], merged[k]))
  }

  ghost predicate SameHeads(a: seq<Entry>, b: seq<Entry>) {
    |a| == |b| && forall k :: 0 <= k < |a| ==> a[k].traceId == b[k].traceId && a[k].capture == b[k].capture
  }

  lemma OpenedSame(front: seq<Entry>, last: Entry, merged: seq<Entry>, merged': seq<Entry>, places: seq<nat>)
    requires OpenedBy(front, merged, places) && SameHeads(merged, merged')
    ensures OpenedBy(front + [last], merged', places)
  {
    assert forall j :: 0 <= j < |front| ==> (front + [last])[j] == front[j];
  }

  lemma OpenedNew(front: seq<Entry>, last: Entry, merged: seq<Entry>, places: seq<nat>)
    requires OpenedBy(front, merged, places)
    requires forall j :: 0 <= j < |front| ==> !SameKey(front[j], last)
    ensures OpenedBy(front + [last], merged + [last], places + [|front|])
  {
    var batch := front + [last];
    assert forall j :: 0 <= j < |front| ==> batch[j] == front[j];
    assert batch[|front|] == last;
  }

  lemma {:induction false} Places(batch: seq<Entry>) returns (places: seq<nat>)
    ensures OpenedBy(batch, Merged(batch), places)
  {
    if batch == [] {
      return [];
    }
    var front, last := batch[..|batch| - 1], batch[|batch| - 1];
    assert batch == front + [last];
    var before := Places(front);
    var merged := Merged(front);
    var k := Find(merged, last);
    if k.Some? {
      assert SameHeads(merged, merged[k.value := Join(merged[k.value], last)]);
      OpenedSame(front, last, merged, Merged(batch), before);
      places := before;
    } else {
      forall j | 0 <= j < |front| ensures !SameKey(front[j], last) {
        if SameKey(front[j], last) { KeyCollected(front, j); }
      }
      OpenedNew(front, last, merged, before);
      places := before + [|front|];
    }
  }

  ghost predicate HasKey(merged: seq<Entry>, e: Entry) {
    exists k :: 0 <= k < |merged| && SameKey(merged[k], e)
  }

  lemma AddKeepsKey(merged: seq<Entry>, last: Entry, e: Entry)
    requires HasKey(merged, e) || SameKey(last, e)
    ensures HasKey(AddEntry(merged, last), e)
  {
    var added, f := AddEntry(merged, last), Find(merged, last);
    if HasKey(merged, e) {
      var k :| 0 <= k < |merged| && SameKey(merged[k], e);
      assert SameKey(added[k], e);
    } else {
      assert f.None? && SameKey(added[|merged|], e);
    }
  }

  /** Every key of the batch is collected. */
  lemma {:induction false} KeyCollected(batch: seq<Entry>, j: nat)
    requires j < |batch| && batch[j].traceId.Some?
    ensures HasKey(Merged(batch), batch[j])
    decreases |batch|
  {
    var front, last := batch[..|batch| - 1], batch[|batch| - 1];
    if j < |front| {
      assert front[j] == batch[j];
      KeyCollected(front, j);
    }
    AddKeepsKey(Merged(front), last, batch[j]);
  }

  /** Where entry i of the batch ends up. */
  ghost predicate PlacedAt(batch: seq<Entry>, i: nat, k: nat) {
    i < |batch| && k < |Merged(batch)| && SameKey(batch[i], Merged(batch)[k])
  }

  /** Of two entries of different keys, the one whose key came first stands first. */
  lemma PlaceOrder(batch: seq<Entry>, i: nat, j: nat, k: nat, l: nat)
    requires PlacedAt(batch, i, k) && PlacedAt(batch, j, l)
    ensures k < l <==> FirstOf(batch, i) < FirstOf(batch, j)
  {
    var places := Places(batch);
    OpensFirst(batch, places, i, k);
    OpensFirst(batch, places, j, l);
    if l < k { assert places[l] < places[k]; }
  }

  lemma OpensFirst(batch: seq<Entry>, places: seq<nat>, i: nat, k: nat)
    requires OpenedBy(batch, Merged(batch), places) && PlacedAt(batch, i, k)
    ensures places[k] == FirstOf(batch, i)
  {
    var f := FirstOf(batch, i);
    assert SameKey(batch[f], Merged(batch)[k]) && SameKey(batch[places[k]], batch[i]);
  }

  /** A child in entry i whose parent is in entry j stands in an entry of its own ahead of
      its parent's exactly if its key had opened before its parent's key did. The queue does
      not prevent that. A batch whose entries of the trace agree on the capture flag, or in
      which the parent's key opens first, is safe. */
  lemma ChildAheadIff(batch: seq<Entry>, child: nat, parent: nat, k: nat, l: nat)
    requires PlacedAt(batch, child, k) && PlacedAt(batch, parent, l)
    ensures k < l <==> FirstOf(batch, child) < FirstOf(batch, parent)
    ensures batch[child].capture == batch[parent].capture && batch[child].traceId == batch[parent].traceId ==> k == l
  {
    PlaceOrder(batch, child, parent, k, l);
    MergedKeysDistinct(batch);
    if SameKey(batch[child], batch[parent]) {
      assert SameKey(Merged(batch)[k], Merged(batch)[l]) && SameKey(Merged(batch)[l], Merged(batch)[k]);
    }
  }

  /** A rider, then a main report, then a rider that may be under it: after merging, the
      riders' entry comes first, the spans of both riders in it, and the main report second. */
  lemma RiderOvertakesMain(r0: Entry, main: Entry, r1: Entry)
    requires SameKey(r0, r1) && main.traceId == r0.traceId && main.capture != r0.capture
    ensures Merged([r0, main, r1]) == [Join(r0, r1), main]
  {
    var batch := [r0, main, r1];
    assert batch[..2] == [r0, main] && [r0, main][..1] == [r0] && [r0][..0] == [];
    assert Merged([r0]) == [r0];
    assert Merged([r0, main]) == [r0, main];
    assert Find([r0, main], r1) == Some(0) by { assert [r0, main][..1] == [r0]; }
  }
}
