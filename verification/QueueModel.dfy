/** What the span queue does to its buffer: shedding, cutting batches and merging them. */
module QueueModel {
  import opened Options
  import opened Seqs
  import opened SpanModel
  import opened StepFlush

  // ---- accounting ----

  function Total(entries: seq<Entry>): nat {
    if entries == [] then 0 else |entries[0].spans| + Total(entries[1..])
  }

  lemma {:induction false} TotalConcat(a: seq<Entry>, b: seq<Entry>)
    ensures Total(a + b) == Total(a) + Total(b)
  {
    if a == [] {
      assert a + b == b;
    } else {
      assert (a + b)[1..] == a[1..] + b;
      TotalConcat(a[1..], b);
    }
  }

  lemma TotalSnoc(buffer: seq<Entry>, e: Entry)
    ensures Total(buffer + [e]) == Total(buffer) + |e.spans|
  {
    TotalConcat(buffer, [e]);
    assert [e][1..] == [];
  }

  lemma TotalSplit(s: seq<Entry>, k: nat)
    requires k <= |s|
    ensures Total(s) == Total(s[..k]) + Total(s[k..])
  {
    assert s == s[..k] + s[k..];
    TotalConcat(s[..k], s[k..]);
  }

  // ---- overflow ----

  /** Within the cap, or a single entry. */
  predicate Bounded(buffer: seq<Entry>, maxQueued: nat) {
    Total(buffer) <= maxQueued || |buffer| <= 1
  }

  predicate Overflows(buffer: seq<Entry>, maxQueued: nat) {
    Total(buffer) > maxQueued && |buffer| > 1
  }

  /** How many of the oldest entries are dropped on overflow. */
  function ShedCount(buffer: seq<Entry>, maxQueued: nat): (k: nat)
    ensures k <= |buffer|
  {
    if Overflows(buffer, maxQueued) then 1 + ShedCount(buffer[1..], maxQueued) else 0
  }

  /** The dropped prefix is enough, and no shorter one is: the newest entry always stays. */
  lemma {:induction false} ShedIsShortest(buffer: seq<Entry>, maxQueued: nat)
    ensures var k := ShedCount(buffer, maxQueued);
      && (buffer != [] ==> k < |buffer|)
      && Bounded(buffer[k..], maxQueued)
      && forall j :: 0 <= j < k ==> Total(buffer[j..]) > maxQueued && |buffer| - j > 1
  {
    var k := ShedCount(buffer, maxQueued);
    assert buffer[0..] == buffer;
    if Overflows(buffer, maxQueued) {
      ShedIsShortest(buffer[1..], maxQueued);
      assert buffer[k..] == buffer[1..][k - 1..];
      forall j | 0 <= j < k ensures Total(buffer[j..]) > maxQueued && |buffer| - j > 1 {
        if j > 0 { assert buffer[j..] == buffer[1..][j - 1..]; }
      }
    }
  }

  // ---- cutting a batch ----

  /** The batch that fits into `room` more spans, and what stays behind. `first` says that
      the batch is still empty. */
  function Cut(buffer: seq<Entry>, room: nat, first: bool): (r: (seq<Entry>, seq<Entry>)) {
    if buffer == [] || room == 0 then ([], buffer)
    else
      var next := buffer[0];
      if |next.spans| <= room then
        var (batch, rest) := Cut(buffer[1..], room - |next.spans|, false);
        ([next] + batch, rest)
      else if !first then ([], buffer)
      else if next.traceId.None? then ([next], buffer[1..])
      else ([next.(spans := next.spans[..room])], [next.(spans := next.spans[room..])] + buffer[1..])
  }

  /** `b` is `a` cut at entry boundaries, except that one entry may have been split in two
      along its spans, both parts keeping everything else. */
  ghost predicate Splits(buffer: seq<Entry>, batch: seq<Entry>, rest: seq<Entry>) {
    || buffer == batch + rest
    || (exists n, e :: SplitAt(buffer, batch, rest, n, e))
  }

  ghost predicate SplitAt(buffer: seq<Entry>, batch: seq<Entry>, rest: seq<Entry>, n: nat, e: Entry) {
    && e.traceId.Some? && 0 < n < |e.spans|
    && batch == [e.(spans := e.spans[..n])] && rest != [] && rest[0] == e.(spans := e.spans[n..])
    && buffer == [e] + rest[1..]
  }

  /** A cut takes from the front, in order, and never tears an id-less entry. */
  lemma {:induction false} CutSplits(buffer: seq<Entry>, room: nat, first: bool)
    ensures var (batch, rest) := Cut(buffer, room, first);
      Splits(buffer, batch, rest) && (!first ==> buffer == batch + rest)
  {
    var (batch, rest) := Cut(buffer, room, first);
    if buffer != [] && room > 0 {
      var next := buffer[0];
      if |next.spans| <= room {
        CutSplits(buffer[1..], room - |next.spans|, false);
        assert buffer == [next] + buffer[1..] == batch + rest;
      } else if first && next.traceId.Some? {
        assert rest[1..] == buffer[1..];
        assert SplitAt(buffer, batch, rest, room, next);
      }
    }
  }

  /** It fits, unless it is one id-less entry that alone is too big; and it takes all that
      fits: what stays behind would not have fitted too. */
  lemma {:induction false} CutFits(buffer: seq<Entry>, room: nat, first: bool)
    ensures var (batch, rest) := Cut(buffer, room, first);
      && (Total(batch) <= room || (first && |batch| == 1 && batch[0].traceId.None?))
      && (rest != [] && Total(batch) < room ==> Total(batch) + |rest[0].spans| > room)
  {
    var (batch, rest) := Cut(buffer, room, first);
    if buffer != [] && room > 0 {
      var next := buffer[0];
      if |next.spans| <= room {
        CutFits(buffer[1..], room - |next.spans|, false);
        assert batch[1..] == Cut(buffer[1..], room - |next.spans|, false).0;
      }
    }
  }

  /** A cut into a non-empty buffer takes something, and leaves less behind. */
  lemma CutProgress(buffer: seq<Entry>, room: nat)
    requires buffer != [] && room > 0
    ensures var (batch, rest) := Cut(buffer, room, true);
      batch != [] && Total(rest) + |rest| < Total(buffer) + |buffer| && Total(batch) + Total(rest) == Total(buffer)
  {
    var (batch, rest) := Cut(buffer, room, true);
    CutSplits(buffer, room, true);
    if buffer == batch + rest {
      TotalConcat(batch, rest);
    } else {
      var n: nat, e :| SplitAt(buffer, batch, rest, n, e);
      assert batch[1..] == [] && buffer[1..] == rest[1..];
    }
  }

  /** What stays behind is no longer and no fuller than before. */
  lemma CutLeavesLess(buffer: seq<Entry>, room: nat)
    ensures var rest := Cut(buffer, room, true).1; Total(rest) <= Total(buffer) && |rest| <= |buffer|
  {
    if buffer != [] && room > 0 { CutProgress(buffer, room); CutShortens(buffer, room); }
  }

  lemma CutShortens(buffer: seq<Entry>, room: nat)
    ensures |Cut(buffer, room, true).1| <= |buffer|
  {
    CutSplits(buffer, room, true);
    var (batch, rest) := Cut(buffer, room, true);
    if buffer != batch + rest {
      var n: nat, e :| SplitAt(buffer, batch, rest, n, e);
      assert |buffer| == 1 + |rest[1..]|;
    }
  }

  // ---- items: spans with the trace and capture flag they travel under ----

  datatype Item = Item(traceId: Option<Id>, capture: Option<bool>, span: Span)

  function ItemsOfEntry(e: Entry): (items: seq<Item>)
    ensures |items| == |e.spans| && forall i :: 0 <= i < |items| ==> items[i] == Item(e.traceId, e.capture, e.spans[i])
  {
    seq(|e.spans|, i requires 0 <= i < |e.spans| => Item(e.traceId, e.capture, e.spans[i]))
  }

  function Items(entries: seq<Entry>): seq<Item> {
    if entries == [] then [] else Items(entries[..|entries| - 1]) + ItemsOfEntry(entries[|entries| - 1])
  }

  lemma {:induction false} ItemsConcat(a: seq<Entry>, b: seq<Entry>)
    ensures Items(a + b) == Items(a) + Items(b)
  {
    if b == [] {
      assert a + b == a;
    } else {
      var front, last := b[..|b| - 1], b[|b| - 1];
      ItemsConcat(a, front);
      assert (a + b)[..|a + b| - 1] == a + front && (a + b)[|a + b| - 1] == last;
      assert Items(a + b) == Items(a + front) + ItemsOfEntry(last);
      assert Items(a) + Items(front) + ItemsOfEntry(last) == Items(a) + (Items(front) + ItemsOfEntry(last));
    }
  }

  lemma ItemsSnoc(entries: seq<Entry>, e: Entry)
    ensures Items(entries + [e]) == Items(entries) + ItemsOfEntry(e)
  {
    assert (entries + [e])[..|entries|] == entries;
  }

  /** However a buffer is cut, the items of the two parts are its items, in order. */
  lemma SplitKeepsItems(buffer: seq<Entry>, batch: seq<Entry>, rest: seq<Entry>)
    requires Splits(buffer, batch, rest)
    ensures Items(buffer) == Items(batch) + Items(rest)
  {
    if buffer == batch + rest {
      ItemsConcat(batch, rest);
    } else {
      var n: nat, e :| SplitAt(buffer, batch, rest, n, e);
      assert rest == [e.(spans := e.spans[n..])] + rest[1..];
      TornItems(e, n, rest[1..]);
    }
  }

  lemma TornItems(e: Entry, n: nat, tail: seq<Entry>)
    requires n <= |e.spans|
    ensures Items([e] + tail) == Items([e.(spans := e.spans[..n])]) + Items([e.(spans := e.spans[n..])] + tail)
  {
    var a, b := e.(spans := e.spans[..n]), e.(spans := e.spans[n..]);
    ItemsOfHead(e, tail);
    ItemsOfHead(b, tail);
    assert Items([a]) == ItemsOfEntry(a);
    TornEntry(e, n);
    Assoc(ItemsOfEntry(a), ItemsOfEntry(b), Items(tail));
  }

  lemma TornEntry(e: Entry, n: nat)
    requires n <= |e.spans|
    ensures ItemsOfEntry(e) ==
      ItemsOfEntry(e.(spans := e.spans[..n])) + ItemsOfEntry(e.(spans := e.spans[n..]))
  {
  }

  lemma ItemsOfHead(e: Entry, tail: seq<Entry>)
    ensures Items([e] + tail) == ItemsOfEntry(e) + Items(tail)
  {
    ItemsConcat([e], tail);
    assert Items([e]) == ItemsOfEntry(e);
  }

  // ---- merging ----

  predicate SameKey(a: Entry, b: Entry) {
    a.traceId.Some? && a.traceId == b.traceId && a.capture == b.capture
  }

  function OrElse<T>(a: Option<T>, b: Option<T>): Option<T> {
    if a.Some? then a else b
  }

  /** The entry already collected takes the spans, and the context it lacks. */
  function Join(existing: Entry, e: Entry): Entry {
    existing.(spans := existing.spans + e.spans,
              sessionId := OrElse(existing.sessionId, e.sessionId), name := OrElse(existing.name, e.name),
              tags := OrElse(existing.tags, e.tags), metadata := OrElse(existing.metadata, e.metadata))
  }

  /** Where an entry of the same key has been collected. */
  function Find(merged: seq<Entry>, e: Entry): (k: Option<nat>)
    ensures k.Some? ==> k.value < |merged| && SameKey(merged[k.value], e)
    ensures k.None? ==> forall i :: 0 <= i < |merged| ==> !SameKey(merged[i], e)
  {
    if merged == [] then None
    else if SameKey(merged[|merged| - 1], e) then Some(|merged| - 1)
    else Find(merged[..|merged| - 1], e)
  }

  function AddEntry(merged: seq<Entry>, e: Entry): seq<Entry> {
    var k := Find(merged, e);
    if k.Some? then merged[k.value := Join(merged[k.value], e)] else merged + [e]
  }

  function Merged(batch: seq<Entry>): seq<Entry> {
    if batch == [] then [] else AddEntry(Merged(batch[..|batch| - 1]), batch[|batch| - 1])
  }

  /** The spans that travel under one trace and capture flag, in order. */
  function SpansUnder(entries: seq<Entry>, key: Entry): seq<Span> {
    if entries == [] then []
    else
      var front, last := SpansUnder(entries[..|entries| - 1], key), entries[|entries| - 1];
      if SameKey(last, key) then front + last.spans else front
  }

  /** The entries without a trace id, in order. */
  function IdLess(entries: seq<Entry>): seq<Entry> {
    if entries == [] then []
    else
      var front, last := IdLess(entries[..|entries| - 1]), entries[|entries| - 1];
      if last.traceId.None? then front + [last] else front
  }

  /** The first defined value of a context field among the entries of one key. */
  function FirstDefined<T>(entries: seq<Entry>, key: Entry, get: Entry -> Option<T>): Option<T> {
    if entries == [] then None
    else
      var last := entries[|entries| - 1];
      OrElse(FirstDefined(entries[..|entries| - 1], key, get), if SameKey(last, key) then get(last) else None)
  }

  ghost predicate KeysDistinct(entries: seq<Entry>) {
    forall i, j :: 0 <= i < j < |entries| ==> !SameKey(entries[i], entries[j])
  }

  lemma {:induction false} MergedKeysDistinct(batch: seq<Entry>)
    ensures KeysDistinct(Merged(batch))
  {
    if batch != [] {
      var front, last := Merged(batch[..|batch| - 1]), batch[|batch| - 1];
      MergedKeysDistinct(batch[..|batch| - 1]);
      var k := Find(front, last);
      if k.Some? {
        assert forall i :: 0 <= i < |front| && i != k.value ==> Merged(batch)[i] == front[i];
      }
    }
  }

  // Replacing the one entry of a key, or appending an entry.

  lemma {:induction false} ReplaceSpans(merged: seq<Entry>, k: nat, e: Entry, key: Entry)
    requires k < |merged| && SameKey(merged[k], e) && KeysDistinct(merged)
    ensures SpansUnder(merged[k := Join(merged[k], e)], key) ==
      if SameKey(e, key) then SpansUnder(merged, key) + e.spans else SpansUnder(merged, key)
    ensures IdLess(merged[k := Join(merged[k], e)]) == IdLess(merged)
    decreases |merged|
  {
    var n := |merged| - 1;
    var merged', front, last := merged[k := Join(merged[k], e)], merged[..n], merged[n];
    if k < n {
      assert merged'[..n] == front[k := Join(front[k], e)];
      ReplaceSpans(front, k, e, key);
    } else {
      assert merged'[..n] == front;
      if SameKey(e, key) {
        NoSpansUnder(front, key);
      }
    }
  }

  lemma {:induction false} NoSpansUnder(entries: seq<Entry>, key: Entry)
    requires forall i :: 0 <= i < |entries| ==> !SameKey(entries[i], key)
    ensures SpansUnder(entries, key) == []
  {
    if entries != [] { NoSpansUnder(entries[..|entries| - 1], key); }
  }

  lemma {:induction false} ReplaceContext<T>(merged: seq<Entry>, k: nat, e: Entry, key: Entry, get: Entry -> Option<T>)
    requires k < |merged| && SameKey(merged[k], e) && KeysDistinct(merged)
    requires get(Join(merged[k], e)) == OrElse(get(merged[k]), get(e))
    ensures FirstDefined(merged[k := Join(merged[k], e)], key, get) ==
      OrElse(FirstDefined(merged, key, get), if SameKey(e, key) then get(e) else None)
    decreases |merged|
  {
    var n := |merged| - 1;
    var merged', front, last := merged[k := Join(merged[k], e)], merged[..n], merged[n];
    if k < n {
      assert merged'[..n] == front[k := Join(front[k], e)];
      ReplaceContext(front, k, e, key, get);
      assert SameKey(e, key) ==> !SameKey(last, key);
    } else {
      assert merged'[..n] == front;
    }
  }

  /** Merging keeps every span, and per trace and capture flag their order; entries without
      a trace id pass through untouched and in order. */
  lemma {:induction false} MergeKeepsSpans(batch: seq<Entry>, key: Entry)
    ensures SpansUnder(Merged(batch), key) == SpansUnder(batch, key)
    ensures IdLess(Merged(batch)) == IdLess(batch)
  {
    if batch != [] {
      var front, last := batch[..|batch| - 1], batch[|batch| - 1];
      MergeKeepsSpans(front, key);
      MergedKeysDistinct(front);
      var k := Find(Merged(front), last);
      if k.Some? {
        ReplaceSpans(Merged(front), k.value, last, key);
      } else {
        assert (Merged(front) + [last])[..|Merged(front)|] == Merged(front);
      }
    }
  }

  /** A merged entry carries, field by field, the first context that was defined. */
  lemma {:induction false} MergeKeepsContext<T>(batch: seq<Entry>, key: Entry, get: Entry -> Option<T>)
    requires forall a, b :: get(Join(a, b)) == OrElse(get(a), get(b))
    ensures FirstDefined(Merged(batch), key, get) == FirstDefined(batch, key, get)
  {
    if batch != [] {
      var front, last := batch[..|batch| - 1], batch[|batch| - 1];
      MergeKeepsContext(front, key, get);
      MergedKeysDistinct(front);
      var k := Find(Merged(front), last);
      if k.Some? {
        ReplaceContext(Merged(front), k.value, last, key, get);
      } else {
        assert (Merged(front) + [last])[..|Merged(front)|] == Merged(front);
      }
    }
  }

  /** With one entry per key, that entry's own fields are what the merge carries for it. */
  lemma {:induction false} OwnContext<T>(entries: seq<Entry>, k: nat, get: Entry -> Option<T>)
    requires KeysDistinct(entries) && k < |entries| && entries[k].traceId.Some?
    ensures FirstDefined(entries, entries[k], get) == get(entries[k])
    ensures SpansUnder(entries, entries[k]) == entries[k].spans
    decreases |entries|
  {
    var n := |entries| - 1;
    var front, last := entries[..n], entries[n];
    if k < n {
      OwnContext(front, k, get);
      assert !SameKey(last, entries[k]) by { assert !SameKey(entries[k], entries[n]); }
    } else {
      NoSpansUnder(front, last);
      NothingDefined(front, last, get);
    }
  }

  lemma {:induction false} NothingDefined<T>(entries: seq<Entry>, key: Entry, get: Entry -> Option<T>)
    requires forall i :: 0 <= i < |entries| ==> !SameKey(entries[i], key)
    ensures FirstDefined(entries, key, get) == None
  {
    if entries != [] { NothingDefined(entries[..|entries| - 1], key, get); }
  }

  /** The value is that of the first entry of the key that has one; None if none has. */
  ghost predicate IsFirstOf<T>(batch: seq<Entry>, key: Entry, get: Entry -> Option<T>, value: Option<T>) {
    if value.None? then forall i :: 0 <= i < |batch| && SameKey(batch[i], key) ==> get(batch[i]).None?
    else exists i :: 0 <= i < |batch| && FirstAt(batch, key, get, i) && get(batch[i]) == value
  }

  ghost predicate FirstAt<T>(batch: seq<Entry>, key: Entry, get: Entry -> Option<T>, i: nat)
    requires i < |batch|
  {
    && SameKey(batch[i], key) && get(batch[i]).Some?
    && forall j :: 0 <= j < i && SameKey(batch[j], key) ==> get(batch[j]).None?
  }

  lemma {:induction false} FirstDefinedIs<T>(batch: seq<Entry>, key: Entry, get: Entry -> Option<T>)
    ensures IsFirstOf(batch, key, get, FirstDefined(batch, key, get))
  {
    if batch != [] {
      var n := |batch| - 1;
      var front := batch[..n];
      FirstDefinedIs(front, key, get);
      if FirstDefined(front, key, get).Some? {
        var i :| 0 <= i < n && FirstAt(front, key, get, i) && get(front[i]) == FirstDefined(front, key, get);
        assert FirstAt(batch, key, get, i);
      } else {
        forall i | 0 <= i < n && SameKey(batch[i], key) ensures get(batch[i]).None? {
          assert front[i] == batch[i];
        }
        if SameKey(batch[n], key) && get(batch[n]).Some? { assert FirstAt(batch, key, get, n); }
      }
    }
  }

  /** So each entry of a merged request is exactly the sum of the batch's entries of its key:
      their spans in order, and of each context field the first that was defined. */
  lemma MergedEntry(batch: seq<Entry>, k: nat)
    requires k < |Merged(batch)| && Merged(batch)[k].traceId.Some?
    ensures var m := Merged(batch)[k];
      && m.spans == SpansUnder(batch, m)
      && IsFirstOf(batch, m, (e: Entry) => e.name, m.name)
      && IsFirstOf(batch, m, (e: Entry) => e.sessionId, m.sessionId)
      && IsFirstOf(batch, m, (e: Entry) => e.tags, m.tags)
      && IsFirstOf(batch, m, (e: Entry) => e.metadata, m.metadata)
  {
    FieldIs(batch, k, (e: Entry) => e.name);
    FieldIs(batch, k, (e: Entry) => e.sessionId);
    FieldIs(batch, k, (e: Entry) => e.tags);
    FieldIs(batch, k, (e: Entry) => e.metadata);
    MergedKeysDistinct(batch);
    MergeKeepsSpans(batch, Merged(batch)[k]);
    OwnContext(Merged(batch), k, (e: Entry) => e.name);
  }

  lemma FieldIs<T>(batch: seq<Entry>, k: nat, get: Entry -> Option<T>)
    requires k < |Merged(batch)| && Merged(batch)[k].traceId.Some?
    requires forall a, b :: get(Join(a, b)) == OrElse(get(a), get(b))
    ensures IsFirstOf(batch, Merged(batch)[k], get, get(Merged(batch)[k]))
  {
    var merged := Merged(batch);
    MergedKeysDistinct(batch);
    OwnContext(merged, k, get);
    MergeKeepsContext(batch, merged[k], get);
    FirstDefinedIs(batch, merged[k], get);
  }

  lemma ItemsAround(a: seq<Entry>, x: Entry, b: seq<Entry>)
    ensures Items(a + ([x] + b)) == Items(a) + (ItemsOfEntry(x) + Items(b))
  {
    ItemsConcat(a, [x] + b);
    ItemsOfHead(x, b);
  }

  lemma ItemsUpdate(merged: seq<Entry>, k: nat, e: Entry)
    requires k < |merged| && SameKey(merged[k], e)
    ensures multiset(Items(merged[k := Join(merged[k], e)])) == multiset(Items(merged)) + multiset(ItemsOfEntry(e))
  {
    var a, x, b := merged[..k], merged[k], merged[k + 1..];
    assert merged == a + ([x] + b) && merged[k := Join(x, e)] == a + ([Join(x, e)] + b);
    JoinedItems(a, x, e, b);
  }

  lemma JoinedItems(a: seq<Entry>, x: Entry, e: Entry, b: seq<Entry>)
    requires SameKey(x, e)
    ensures multiset(Items(a + ([Join(x, e)] + b))) == multiset(Items(a + ([x] + b))) + multiset(ItemsOfEntry(e))
  {
    var ia, ix, ie, ib := Items(a), ItemsOfEntry(x), ItemsOfEntry(e), Items(b);
    ItemsAround(a, x, b);
    ItemsAround(a, Join(x, e), b);
    assert ItemsOfEntry(Join(x, e)) == ix + ie;
    assert Items(a + ([Join(x, e)] + b)) == ia + ((ix + ie) + ib);
    CountAround(ia, ix, ie, ib);
  }

  lemma CountAround(a: seq<Item>, x: seq<Item>, e: seq<Item>, b: seq<Item>)
    ensures multiset(a + ((x + e) + b)) == multiset(a + (x + b)) + multiset(e)
  {
  }

  /** Merging loses, adds and relabels nothing. */
  lemma {:induction false} MergeKeepsItems(batch: seq<Entry>)
    ensures multiset(Items(Merged(batch))) == multiset(Items(batch))
  {
    if batch != [] {
      var front, last := batch[..|batch| - 1], batch[|batch| - 1];
      MergeKeepsItems(front);
      var k := Find(Merged(front), last);
      if k.Some? {
        ItemsUpdate(Merged(front), k.value, last);
      } else {
        assert (Merged(front) + [last])[..|Merged(front)|] == Merged(front);
      }
    }
  }

  /** A merged request has as few entries as merging allows: two entries that could be one
      never both appear, and each comes from the batch. */
  lemma {:induction false} MergedFromBatch(batch: seq<Entry>, k: nat)
    requires k < |Merged(batch)|
    ensures var m := Merged(batch)[k];
      if m.traceId.None? then m in batch else exists i :: 0 <= i < |batch| && SameKey(batch[i], m)
  {
    var front, last := batch[..|batch| - 1], batch[|batch| - 1];
    var at := Find(Merged(front), last);
    if at.Some? && at.value == k {
      assert SameKey(batch[|batch| - 1], Merged(batch)[k]);
    } else if k < |Merged(front)| {
      assert Merged(batch)[k] == Merged(front)[k];
      MergedFromBatch(front, k);
      if Merged(front)[k].traceId.Some? {
        var i :| 0 <= i < |front| && SameKey(front[i], Merged(front)[k]);
        assert batch[i] == front[i];
      }
    } else if last.traceId.Some? {
      assert SameKey(batch[|batch| - 1], last);
    }
  }

  /** One entry per key, the first of it, and every id-less entry. */
  function Firsts(batch: seq<Entry>): seq<Entry> {
    if batch == [] then []
    else
      var front, last := Firsts(batch[..|batch| - 1]), batch[|batch| - 1];
      if Find(front, last).Some? then front else front + [last]
  }

  /** Merged entries stand in the order in which their traces first appeared. */
  lemma {:induction false} MergedInFirstOrder(batch: seq<Entry>)
    ensures |Merged(batch)| == |Firsts(batch)|
    ensures forall k :: 0 <= k < |Firsts(batch)| ==>
      Merged(batch)[k].traceId == Firsts(batch)[k].traceId && Merged(batch)[k].capture == Firsts(batch)[k].capture
  {
    if batch != [] {
      var front, last := batch[..|batch| - 1], batch[|batch| - 1];
      MergedInFirstOrder(front);
      FindByKey(Merged(front), Firsts(front), last);
    }
  }

  lemma {:induction false} FindByKey(a: seq<Entry>, b: seq<Entry>, e: Entry)
    requires |a| == |b| && forall k :: 0 <= k < |a| ==> a[k].traceId == b[k].traceId && a[k].capture == b[k].capture
    ensures Find(a, e) == Find(b, e)
  {
    if a != [] && !SameKey(a[|a| - 1], e) {
      FindByKey(a[..|a| - 1], b[..|b| - 1], e);
    }
  }
}
