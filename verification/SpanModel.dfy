/** The values that the trace delivery pipeline moves around, and links between spans. */
module SpanModel {
  import opened Options

  /** Span and trace ids are opaque: the pipeline only ever compares them. */
  type Id = nat

  /** `parent` is None where the source's `parentSpanId` is falsy. `dropped` is the
      `droppedSpans` attribute of a root step's span, 0 where the attribute is absent. */
  datatype Span = Span(id: Id, parent: Option<Id>, dropped: nat, payload: string)

  ghost predicate UniqueIds(spans: seq<Span>) {
    forall i, j :: 0 <= i < j < |spans| ==> spans[i].id != spans[j].id
  }

  ghost function Ids(spans: seq<Span>): set<Id> {
    set s | s in spans :: s.id
  }

  /** The map that the source fills with one `set(spanId, parentSpanId)` per span: a later
      span overwrites an earlier one of the same id. */
  function Links(spans: seq<Span>): map<Id, Option<Id>> {
    if spans == [] then map[]
    else
      var last := spans[|spans| - 1];
      Links(spans[..|spans| - 1])[last.id := last.parent]
  }

  lemma {:induction false} LinksKeys(spans: seq<Span>)
    ensures Links(spans).Keys == Ids(spans)
  {
    if spans != [] {
      var front, last := spans[..|spans| - 1], spans[|spans| - 1];
      LinksKeys(front);
      assert spans == front + [last];
    }
  }

  /** Where ids repeat, the last span of an id says what its parent is. */
  lemma {:induction false} LinksLast(spans: seq<Span>, i: nat)
    requires i < |spans| && forall j :: i < j < |spans| ==> spans[j].id != spans[i].id
    ensures spans[i].id in Links(spans) && Links(spans)[spans[i].id] == spans[i].parent
  {
    var front := spans[..|spans| - 1];
    if i < |spans| - 1 {
      assert front[i] == spans[i];
      LinksLast(front, i);
    }
  }

  lemma {:induction false} LinksAt(spans: seq<Span>, i: nat)
    requires UniqueIds(spans) && i < |spans|
    ensures spans[i].id in Links(spans) && Links(spans)[spans[i].id] == spans[i].parent
  {
    var front := spans[..|spans| - 1];
    if i < |spans| - 1 {
      assert front[i] == spans[i];
      LinksAt(front, i);
    }
  }

  /** With distinct ids the map says exactly which span names which parent. */
  lemma LinksOf(spans: seq<Span>, s: Span)
    requires UniqueIds(spans) && s in spans
    ensures s.id in Links(spans) && Links(spans)[s.id] == s.parent
  {
    var i :| 0 <= i < |spans| && spans[i] == s;
    LinksAt(spans, i);
  }

  lemma SameIdSameSpan(spans: seq<Span>, a: Span, b: Span)
    requires UniqueIds(spans) && a in spans && b in spans && a.id == b.id
    ensures a == b
  {
    var i :| 0 <= i < |spans| && spans[i] == a;
    var j :| 0 <= j < |spans| && spans[j] == b;
    assert i == j;
  }

  /** One report, as handed to the queue and as it travels in a request. The context fields
      are None where the source's are undefined; an entry without a `spans` array counts as
      having none. */
  datatype Entry = Entry(
    traceId: Option<Id>, capture: Option<bool>, name: Option<string>, sessionId: Option<string>,
    tags: Option<seq<string>>, metadata: Option<map<string, string>>, spans: seq<Span>)
}
