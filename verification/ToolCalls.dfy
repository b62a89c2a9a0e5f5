/** Putting one streamed turn together: text, finish reason and tool-call fragments. */
module ToolCalls {
  import opened Options
  import opened EventStream
  import opened SortedKeys

  /** A piece of a tool call. `index` counts as 0 where absent; an empty id, name or argument
      text is no different from an absent one. */
  datatype Fragment = Fragment(index: Option<int>, id: string, name: string, args: string)

  datatype Chunk = Chunk(content: string, finish: string, fragments: seq<Fragment>)

  datatype Part = Part(id: string, name: string, args: string)

  type Parts = map<int, Part>

  datatype Call = Call(id: string, name: string, args: string)

  function IndexOf(f: Fragment): int {
    if f.index.Some? then f.index.value else 0
  }

  function PartAt(parts: Parts, key: int): Part {
    if key in parts then parts[key] else Part("", "", "")
  }

  /** One fragment folded in: ids and names overwrite, argument text is appended. */
  function Fold(parts: Parts, f: Fragment): Parts {
    var part := PartAt(parts, IndexOf(f));
    parts[IndexOf(f) := Part(if f.id != "" then f.id else part.id,
                             if f.name != "" then f.name else part.name, part.args + f.args)]
  }

  function FoldAll(parts: Parts, fs: seq<Fragment>): Parts {
    if fs == [] then parts else Fold(FoldAll(parts, fs[..|fs| - 1]), fs[|fs| - 1])
  }

  // ---- what the parts are, told from the fragments of one index alone ----

  /** A fragment is of the call with its own index, of call 0 if it has none. */
  predicate Belongs(f: Fragment, key: int) {
    f.index == Some(key) || (f.index.None? && key == 0)
  }

  /** The fragments of one tool call, in arrival order. */
  function Own(fs: seq<Fragment>, key: int): seq<Fragment> {
    if fs == [] then []
    else
      var front, last := Own(fs[..|fs| - 1], key), fs[|fs| - 1];
      if Belongs(last, key) then front + [last] else front
  }

  function AllArgs(fs: seq<Fragment>): string {
    if fs == [] then "" else AllArgs(fs[..|fs| - 1]) + fs[|fs| - 1].args
  }

  /** The last value that is not empty. */
  function LastSet(fs: seq<Fragment>, get: Fragment -> string): string {
    if fs == [] then ""
    else if get(fs[|fs| - 1]) != "" then get(fs[|fs| - 1])
    else LastSet(fs[..|fs| - 1], get)
  }

  function Whole(own: seq<Fragment>): Part {
    Part(LastSet(own, (f: Fragment) => f.id), LastSet(own, (f: Fragment) => f.name), AllArgs(own))
  }

  /** There is one part per index that occurs, made of that index's fragments only. */
  lemma {:induction false} PartsAreWhole(fs: seq<Fragment>, key: int)
    ensures key in FoldAll(map[], fs) <==> Own(fs, key) != []
    ensures key in FoldAll(map[], fs) <==> exists i :: 0 <= i < |fs| && Belongs(fs[i], key)
    ensures PartAt(FoldAll(map[], fs), key) == Whole(Own(fs, key))
  {
    if fs != [] {
      var front, last := fs[..|fs| - 1], fs[|fs| - 1];
      PartsAreWhole(front, key);
      assert Belongs(last, key) <==> IndexOf(last) == key;
      assert (exists i :: 0 <= i < |fs| && Belongs(fs[i], key)) <==>
        (exists i :: 0 <= i < |front| && Belongs(front[i], key)) || Belongs(fs[|fs| - 1], key);
      if IndexOf(last) == key {
        WholeSnoc(Own(front, key), last);
      }
    }
  }

  lemma WholeSnoc(own: seq<Fragment>, f: Fragment)
    ensures Whole(own + [f]) == Part(if f.id != "" then f.id else Whole(own).id,
      if f.name != "" then f.name else Whole(own).name, Whole(own).args + f.args)
  {
    assert (own + [f])[..|own|] == own;
  }

  /** How the fragments of different calls interleave makes no difference. */
  lemma InterleavingIrrelevant(a: seq<Fragment>, b: seq<Fragment>)
    requires forall key :: Own(a, key) == Own(b, key)
    ensures FoldAll(map[], a) == FoldAll(map[], b)
  {
    var x, y := FoldAll(map[], a), FoldAll(map[], b);
    forall key: int ensures key in x <==> key in y {
      PartsAreWhole(a, key);
      PartsAreWhole(b, key);
    }
    forall key | key in x ensures x[key] == y[key] {
      PartsAreWhole(a, key);
      PartsAreWhole(b, key);
    }
  }

  // ---- the calls in ascending order of index ----

  function CallOf(p: Part): Call {
    Call(p.id, p.name, p.args)
  }

  /** The calls of a turn: one per index, in ascending order. */
  ghost predicate IsAssembly(parts: Parts, keys: seq<int>, calls: seq<Call>) {
    && Ascending(keys) && (forall k :: k in keys <==> k in parts)
    && |calls| == |keys|
    && (forall i :: 0 <= i < |keys| ==> keys[i] in parts && calls[i] == CallOf(parts[keys[i]]))
  }

  ghost predicate AreCalls(parts: Parts, calls: seq<Call>) {
    exists keys :: IsAssembly(parts, keys, calls)
  }

  /** The keys of the source's map in the order they were first set. */
  ghost predicate InsertionOrder(parts: Parts, order: seq<int>) {
    Distinct(order) && forall k :: k in order <==> k in parts
  }

  /** Sorting the entries of the map by index. */
  method Assemble(parts: Parts, order: seq<int>) returns (calls: seq<Call>)
    requires InsertionOrder(parts, order)
    ensures AreCalls(parts, calls)
  {
    var sorted := Sort(order);
    calls := [];
    for i := 0 to |sorted|
      invariant |calls| == i
      invariant forall k :: 0 <= k < i ==> sorted[k] in parts && calls[k] == CallOf(parts[sorted[k]])
    {
      assert sorted[i] in sorted;
      calls := calls + [CallOf(parts[sorted[i]])];
    }
    assert IsAssembly(parts, sorted, calls);
  }

  /** Turns whose fragments differ only in how calls interleave give the same calls. */
  lemma SameCalls(a: seq<Fragment>, b: seq<Fragment>, ca: seq<Call>, cb: seq<Call>)
    requires forall key :: Own(a, key) == Own(b, key)
    requires AreCalls(FoldAll(map[], a), ca) && AreCalls(FoldAll(map[], b), cb)
    ensures ca == cb
  {
    InterleavingIrrelevant(a, b);
    OneAssembly(FoldAll(map[], a), ca, cb);
  }

  /** A turn's calls are determined by its parts. */
  lemma OneAssembly(parts: Parts, ca: seq<Call>, cb: seq<Call>)
    requires AreCalls(parts, ca) && AreCalls(parts, cb)
    ensures ca == cb
  {
    var ka :| IsAssembly(parts, ka, ca);
    var kb :| IsAssembly(parts, kb, cb);
    AscendingUnique(ka, kb);
  }

  /** Call i of a turn is made of its own index's fragments: last id and name that were
      set, argument text in arrival order. */
  lemma CallIsWhole(fs: seq<Fragment>, keys: seq<int>, calls: seq<Call>, i: nat)
    requires IsAssembly(FoldAll(map[], fs), keys, calls) && i < |keys|
    ensures Own(fs, keys[i]) != []
    ensures var own := Own(fs, keys[i]);
      calls[i] == Call(LastSet(own, (f: Fragment) => f.id), LastSet(own, (f: Fragment) => f.name), AllArgs(own))
  {
    assert keys[i] in keys;
    PartsAreWhole(fs, keys[i]);
  }

  // ---- the two accumulators ----

  /** What a streamed turn amounts to. */
  datatype Turn = Turn(content: string, finish: string, parts: Parts)

  function EmptyTurn(): Turn {
    Turn("", "", map[])
  }

  function Take(t: Turn, c: Chunk): Turn {
    Turn(t.content + c.content, if c.finish != "" then c.finish else t.finish, FoldAll(t.parts, c.fragments))
  }

  function TakeAll(chunks: seq<Chunk>): Turn {
    if chunks == [] then EmptyTurn() else Take(TakeAll(chunks[..|chunks| - 1]), chunks[|chunks| - 1])
  }

  function Join(parts: seq<string>): string {
    if parts == [] then "" else Join(parts[..|parts| - 1]) + parts[|parts| - 1]
  }

  /** The pieces of text that are passed on: what a chunk adds, if it adds any. */
  function Pieces(chunks: seq<Chunk>): seq<string> {
    if chunks == [] then []
    else
      var front, last := Pieces(chunks[..|chunks| - 1]), chunks[|chunks| - 1].content;
      if last != "" then front + [last] else front
  }

  /** The places of the chunks that add text, in order, and what they add. */
  ghost predicate TextAt(chunks: seq<Chunk>, places: seq<nat>, pieces: seq<string>) {
    && |places| == |pieces| && (forall i, j :: 0 <= i < j < |places| ==> places[i] < places[j])
    && (forall k: nat :: k in places <==> k < |chunks| && chunks[k].content != "")
    && (forall i :: 0 <= i < |places| ==> places[i] < |chunks| && pieces[i] == chunks[places[i]].content)
  }

  /** Passed on is each text that is not empty, once and in order, and nothing else. */
  lemma {:induction false} PiecesAre(chunks: seq<Chunk>) returns (places: seq<nat>)
    ensures TextAt(chunks, places, Pieces(chunks))
  {
    if chunks == [] { return []; }
    var n := |chunks| - 1;
    var front := chunks[..n];
    places := PiecesAre(front);
    if chunks[n].content == "" {
      TextStays(front, places, Pieces(front), chunks);
    } else {
      TextSnoc(front, places, Pieces(front), chunks);
      places := places + [n];
    }
  }

  lemma TextStays(front: seq<Chunk>, places: seq<nat>, pieces: seq<string>, chunks: seq<Chunk>)
    requires TextAt(front, places, pieces) && |chunks| == |front| + 1 && front == chunks[..|front|]
    requires chunks[|front|].content == ""
    ensures TextAt(chunks, places, pieces)
  {
    forall k: nat ensures k in places <==> k < |chunks| && chunks[k].content != "" {
      assert k in places <==> k < |front| && front[k].content != "";
    }
  }

  lemma TextSnoc(front: seq<Chunk>, places: seq<nat>, pieces: seq<string>, chunks: seq<Chunk>)
    requires TextAt(front, places, pieces) && |chunks| == |front| + 1 && front == chunks[..|front|]
    requires chunks[|front|].content != ""
    ensures TextAt(chunks, places + [|front|], pieces + [chunks[|front|].content])
  {
    var n := |front|;
    forall k: nat ensures k in places + [n] <==> k < |chunks| && chunks[k].content != "" {
      assert k in places <==> k < n && front[k].content != "";
    }
  }

  /** All fragments of a stream, in arrival order. */
  function Fragments(chunks: seq<Chunk>): seq<Fragment> {
    if chunks == [] then [] else Fragments(chunks[..|chunks| - 1]) + chunks[|chunks| - 1].fragments
  }

  lemma {:induction false} FoldAllConcat(parts: Parts, a: seq<Fragment>, b: seq<Fragment>)
    ensures FoldAll(FoldAll(parts, a), b) == FoldAll(parts, a + b)
  {
    if b == [] {
      assert a + b == a;
    } else {
      assert (a + b)[..|a + b| - 1] == a + b[..|b| - 1];
      FoldAllConcat(parts, a, b[..|b| - 1]);
    }
  }

  /** A turn depends on its text, its last finish reason and its fragments only. */
  lemma {:induction false} TurnParts(chunks: seq<Chunk>)
    ensures TakeAll(chunks).parts == FoldAll(map[], Fragments(chunks))
  {
    if chunks != [] {
      TurnParts(chunks[..|chunks| - 1]);
      FoldAllConcat(map[], Fragments(chunks[..|chunks| - 1]), chunks[|chunks| - 1].fragments);
    }
  }

  /** A turn's text is what the chunks add, one after the other, and its finish reason is the
      last one given. */
  ghost predicate LastFinish(chunks: seq<Chunk>, k: nat) {
    k < |chunks| && chunks[k].finish != "" && forall j :: k < j < |chunks| ==> chunks[j].finish == ""
  }

  lemma {:induction false} TurnIs(chunks: seq<Chunk>)
    ensures TakeAll(chunks).content == Join(seq(|chunks|, i requires 0 <= i < |chunks| => chunks[i].content))
    ensures if TakeAll(chunks).finish == "" then forall k :: 0 <= k < |chunks| ==> chunks[k].finish == ""
      else exists k: nat :: LastFinish(chunks, k) && chunks[k].finish == TakeAll(chunks).finish
  {
    if chunks != [] {
      var n := |chunks| - 1;
      var front := chunks[..n];
      var texts := seq(|chunks|, i requires 0 <= i < |chunks| => chunks[i].content);
      TurnIs(front);
      assert texts[..n] == seq(n, i requires 0 <= i < n => front[i].content);
      if chunks[n].finish != "" {
        assert LastFinish(chunks, n);
      } else if TakeAll(front).finish != "" {
        var k: nat :| LastFinish(front, k) && front[k].finish == TakeAll(front).finish;
        assert LastFinish(chunks, k);
      }
    }
  }

  method FoldFragments(parts: Parts, order: seq<int>, fs: seq<Fragment>) returns (folded: Parts, order': seq<int>)
    requires InsertionOrder(parts, order)
    ensures folded == FoldAll(parts, fs) && InsertionOrder(folded, order')
  {
    folded, order' := parts, order;
    for i := 0 to |fs|
      invariant folded == FoldAll(parts, fs[..i]) && InsertionOrder(folded, order')
    {
      var key := IndexOf(fs[i]);
      var part := PartAt(folded, key);
      if fs[i].id != "" { part := part.(id := fs[i].id); }
      if fs[i].name != "" { part := part.(name := fs[i].name); }
      if fs[i].args != "" { part := part.(args := part.args + fs[i].args); }
      assert PartAt(folded, key).args + "" == PartAt(folded, key).args;
      if key !in folded { order' := order' + [key]; }
      folded := folded[key := part];
      assert fs[..i + 1][..i] == fs[..i];
    }
    assert fs[..|fs|] == fs;
  }

  /** The provider stream, read to its end: it accumulates the turn while it yields. */
  method StreamFromProvider(network: seq<string>, parse: string -> Option<Chunk>)
    returns (yielded: seq<Chunk>, status: Status, turn: Turn, calls: seq<Call>)
    ensures var whole := Scan(Concat(network), parse); yielded == whole.out && status == whole.status
    ensures turn == TakeAll(yielded) && AreCalls(turn.parts, calls)
  {
    yielded, status := ReadFrames(network, parse);
    var content, finish := "", "";
    var parts: Parts := map[];
    var order: seq<int> := [];
    for i := 0 to |yielded|
      invariant Turn(content, finish, parts) == TakeAll(yielded[..i]) && InsertionOrder(parts, order)
    {
      var c := yielded[i];
      assert content + "" == content;
      if c.content != "" { content := content + c.content; }
      if c.finish != "" { finish := c.finish; }
      parts, order := FoldFragments(parts, order, c.fragments);
      assert yielded[..i + 1][..i] == yielded[..i];
    }
    assert yielded[..|yielded|] == yielded;
    turn := Turn(content, finish, parts);
    calls := Assemble(parts, order);
  }

  /** The round of the tool loop, over the chunks it is handed. */
  method StreamOneRound(chunks: seq<Chunk>)
    returns (turn: Turn, forwarded: seq<string>, calls: seq<Call>)
    ensures turn == TakeAll(chunks) && AreCalls(turn.parts, calls)
    ensures forwarded == Pieces(chunks) && Join(forwarded) == turn.content
  {
    forwarded := [];
    var finish := "";
    var parts: Parts := map[];
    var order: seq<int> := [];
    for i := 0 to |chunks|
      invariant Turn(Join(forwarded), finish, parts) == TakeAll(chunks[..i]) && forwarded == Pieces(chunks[..i])
      invariant InsertionOrder(parts, order)
    {
      var c := chunks[i];
      if c.finish != "" { finish := c.finish; }
      parts, order := FoldFragments(parts, order, c.fragments);
      assert Join(forwarded) + "" == Join(forwarded);
      if c.content != "" {
        assert (forwarded + [c.content])[..|forwarded|] == forwarded;
        forwarded := forwarded + [c.content];
      }
      assert chunks[..i + 1][..i] == chunks[..i];
    }
    assert chunks[..|chunks|] == chunks;
    turn := Turn(Join(forwarded), finish, parts);
    calls := Assemble(parts, order);
  }

  /** A provider round of the tool loop assembles the same turn twice, here and inside the
      provider stream. The two agree, and do not depend on how the network cut the text. */
  method ProviderRound(network: seq<string>, parse: string -> Option<Chunk>)
    returns (turn: Turn, calls: seq<Call>, recorded: Turn, recordedCalls: seq<Call>, status: Status)
    ensures turn == recorded == TakeAll(Scan(Concat(network), parse).out)
    ensures calls == recordedCalls
    ensures AreCalls(turn.parts, calls)
  {
    var yielded;
    yielded, status, recorded, recordedCalls := StreamFromProvider(network, parse);
    var forwarded;
    turn, forwarded, calls := StreamOneRound(yielded);
    OneAssembly(turn.parts, calls, recordedCalls);
  }
}
