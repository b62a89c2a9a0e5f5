/** The tool loop in its blocking and its streaming version, which must not drift apart. */
module ToolLoop {
  import opened Options
  import opened Seqs
  import opened ToolCalls

  datatype Message = Given(text: string)
    | Assistant(content: string, calls: seq<Call>)
    | Tool(callId: string, content: string)

  /** What a model replies. `wantsTools` says that it stopped for tool calls. */
  datatype Reply = Reply(content: string, calls: seq<Call>, wantsTools: bool)

  /** How a tool call ends. A call that never ran (it has no implementation, say) is not
      reported when it settles, only rejected. */
  datatype Fate =
    | Answered(content: string)
    | Broke(reason: string)
    | NeverRan(reason: string)

  /** The model and the tools. A reply of None is a round that throws `failure(round)`. */
  datatype World = World(
    model: (seq<Message>, nat) -> Option<Reply>,
    failure: nat -> string,
    tool: (nat, nat, Call) -> Fate)

  datatype Outcome =
    | Done(content: string, messages: seq<Message>, iterations: nat, stoppedAtLimit: bool)
    | Thrown(reason: string)

  function Turn(r: Reply): Message {
    Assistant(r.content, r.calls)
  }

  function Fates(w: World, round: nat, calls: seq<Call>): (fates: seq<Fate>)
    ensures |fates| == |calls| && forall i :: 0 <= i < |calls| ==> fates[i] == w.tool(round, i, calls[i])
  {
    seq(|calls|, i requires 0 <= i < |calls| => w.tool(round, i, calls[i]))
  }

  /** The first call, in the model's order, that was rejected. */
  function FirstFailure(fates: seq<Fate>): Option<string> {
    if fates == [] then None
    else
      match fates[0]
      case Answered(_) => FirstFailure(fates[1..])
      case Broke(reason) => Some(reason)
      case NeverRan(reason) => Some(reason)
  }

  function ToolMessages(calls: seq<Call>, fates: seq<Fate>): (ms: seq<Message>)
    requires |calls| == |fates|
    ensures |ms| == |calls|
    ensures forall i ::
      0 <= i < |ms| ==>
      ms[i] == Tool(calls[i].id, if fates[i].Answered? then fates[i].content else "")
  {
    seq(|calls|, i requires 0 <= i < |calls| => Tool(calls[i].id, if fates[i].Answered? then fates[i].content else ""))
  }

  /** The loop from round i on. */
  function RunFrom(w: World, messages: seq<Message>, i: nat, limit: nat): Outcome
    requires i <= limit
    decreases limit - i
  {
    if i == limit then Done("", messages, limit, true)
    else
      var reply := w.model(messages, i);
      if reply.None? then Thrown(w.failure(i))
      else if !reply.value.wantsTools || reply.value.calls == [] then
        Done(reply.value.content, messages + [Turn(reply.value)], i + 1, false)
      else
        var fates := Fates(w, i, reply.value.calls);
        var failure := FirstFailure(fates);
        if failure.Some? then Thrown(failure.value)
        else RunFrom(w, messages + [Turn(reply.value)] + ToolMessages(reply.value.calls, fates), i + 1, limit)
  }

  // ---- the transcript ----

  /** One finished round: the turn, and one tool message per call, in call order. */
  ghost predicate IsRound(w: World, before: seq<Message>, i: nat, reply: Reply, after: seq<Message>) {
    && w.model(before, i) == Some(reply) && reply.wantsTools && reply.calls != []
    && |after| == |before| + 1 + |reply.calls|
    && before <= after && after[|before|] == Assistant(reply.content, reply.calls)
    && (forall k :: 0 <= k < |reply.calls| ==>
          w.tool(i, k, reply.calls[k]).Answered? &&
          after[|before| + 1 + k] == Tool(reply.calls[k].id, w.tool(i, k, reply.calls[k]).content))
  }

  /** `marks` are the transcripts before, between and after the rounds, of which the first
      has number `from`: each is the one before plus one finished round. */
  ghost predicate Rounds(w: World, from: nat, marks: seq<seq<Message>>, replies: seq<Reply>)
    decreases |replies|
  {
    && |marks| == |replies| + 1
    && (replies == [] ||
        (IsRound(w, marks[0], from, replies[0], marks[1]) && Rounds(w, from + 1, marks[1..], replies[1..])))
  }

  /** The turn that ends the loop asks for no tools; its text is the answer. */
  ghost predicate IsLastTurn(w: World, before: seq<Message>, i: nat, out: Outcome) {
    && out.Done? && w.model(before, i).Some?
    && var reply := w.model(before, i).value;
       (!reply.wantsTools || reply.calls == []) && out.messages == before + [Turn(reply)]
         && out.content == reply.content
  }

  /** How a call that was rejected was. */
  predicate RejectedWith(fate: Fate, reason: string) {
    fate == Broke(reason) || fate == NeverRan(reason)
  }

  /** Call k is the first, in call order, that was rejected, and gave this reason. */
  ghost predicate FirstRejected(fates: seq<Fate>, k: nat, reason: string) {
    k < |fates| && RejectedWith(fates[k], reason) && forall j :: 0 <= j < k ==> fates[j].Answered?
  }

  lemma {:induction false} FirstFailureIs(fates: seq<Fate>, reason: string)
    ensures FirstFailure(fates) == Some(reason) <==> exists k: nat :: FirstRejected(fates, k, reason)
    ensures FirstFailure(fates) == None <==> forall k :: 0 <= k < |fates| ==> fates[k].Answered?
  {
    if fates != [] {
      var rest := fates[1..];
      FirstFailureIs(rest, reason);
      if fates[0].Answered? {
        if k: nat :| FirstRejected(rest, k, reason) { assert FirstRejected(fates, k + 1, reason); }
        if k: nat :| FirstRejected(fates, k, reason) { assert FirstRejected(rest, k - 1, reason); }
        assert forall k :: 1 <= k < |fates| ==> fates[k] == rest[k - 1];
      } else if RejectedWith(fates[0], reason) {
        assert FirstRejected(fates, 0, reason);
      } else {
        forall k: nat ensures !FirstRejected(fates, k, reason) {}
      }
    }
  }

  lemma {:induction false} NoFailure(fates: seq<Fate>, k: nat)
    requires FirstFailure(fates).None? && k < |fates|
    ensures fates[k].Answered?
    decreases |fates|
  {
    if k > 0 { NoFailure(fates[1..], k - 1); }
  }

  /** A loop that returns went through finished rounds from its input on, never more than
      the limit, then either one last turn without tools or the limit itself. */
  lemma {:induction false} Transcript(w: World, messages: seq<Message>, i: nat, limit: nat)
    returns (marks: seq<seq<Message>>, replies: seq<Reply>)
    requires i <= limit && RunFrom(w, messages, i, limit).Done?
    ensures Rounds(w, i, marks, replies) && marks[0] == messages && i + |replies| <= limit
    ensures var out, end, last := RunFrom(w, messages, i, limit), i + |replies|, marks[|replies|];
      if out.stoppedAtLimit then end == limit == out.iterations && out.messages == last && out.content == ""
      else end < limit && out.iterations == end + 1 && IsLastTurn(w, last, end, out)
    decreases limit - i
  {
    if i == limit || !w.model(messages, i).value.wantsTools || w.model(messages, i).value.calls == [] {
      marks, replies := [messages], [];
    } else {
      var reply := w.model(messages, i).value;
      var fates := Fates(w, i, reply.calls);
      var after := messages + [Turn(reply)] + ToolMessages(reply.calls, fates);
      RoundFinished(w, messages, i, reply);
      var ms, rs := Transcript(w, after, i + 1, limit);
      marks, replies := [messages] + ms, [reply] + rs;
      assert marks[1..] == ms && replies[1..] == rs;
    }
  }

  /** The loop throws in round i: the model threw, or it asked for tools and the first of the
      calls that was rejected, in call order, gave the reason. */
  ghost predicate ThrowsAt(w: World, before: seq<Message>, i: nat, reason: string) {
    var reply := w.model(before, i);
    if reply.None? then reason == w.failure(i)
    else
      && reply.value.wantsTools
      && exists k: nat :: FirstRejected(Fates(w, i, reply.value.calls), k, reason)
  }

  /** A loop that throws went through finished rounds from its input on, and then through a
      round that threw, within the limit. */
  lemma {:induction false} ThrownTranscript(w: World, messages: seq<Message>, i: nat, limit: nat)
    returns (marks: seq<seq<Message>>, replies: seq<Reply>)
    requires i <= limit && RunFrom(w, messages, i, limit).Thrown?
    ensures Rounds(w, i, marks, replies) && marks[0] == messages && i + |replies| < limit
    ensures ThrowsAt(w, marks[|replies|], i + |replies|, RunFrom(w, messages, i, limit).reason)
    decreases limit - i
  {
    if w.model(messages, i).None? || FirstFailure(Fates(w, i, w.model(messages, i).value.calls)).Some? {
      marks, replies := [messages], [];
      ThrowsHere(w, messages, i, limit);
    } else {
      var reply := w.model(messages, i).value;
      var after := messages + [Turn(reply)] + ToolMessages(reply.calls, Fates(w, i, reply.calls));
      RoundFinished(w, messages, i, reply);
      var ms, rs := ThrownTranscript(w, after, i + 1, limit);
      marks, replies := [messages] + ms, [reply] + rs;
      assert marks[1..] == ms && replies[1..] == rs;
    }
  }

  lemma ThrowsHere(w: World, messages: seq<Message>, i: nat, limit: nat)
    requires i < limit && RunFrom(w, messages, i, limit).Thrown?
    requires w.model(messages, i).None? || FirstFailure(Fates(w, i, w.model(messages, i).value.calls)).Some?
    ensures ThrowsAt(w, messages, i, RunFrom(w, messages, i, limit).reason)
  {
    if w.model(messages, i).Some? {
      FirstFailureIs(Fates(w, i, w.model(messages, i).value.calls), RunFrom(w, messages, i, limit).reason);
    }
  }

  /** What the loop does from a round on, told from the model and the tools alone: it goes on
      exactly from a round with calls that were all answered. */
  lemma GoesOnIff(w: World, before: seq<Message>, i: nat, limit: nat, reply: Reply, after: seq<Message>)
    requires i < limit && IsRound(w, before, i, reply, after)
    ensures RunFrom(w, before, i, limit) == RunFrom(w, after, i + 1, limit)
  {
    var fates := Fates(w, i, reply.calls);
    FirstFailureIs(fates, "");
    assert after == before + [Turn(reply)] + ToolMessages(reply.calls, fates);
  }

  lemma RoundFinished(w: World, before: seq<Message>, i: nat, reply: Reply)
    requires w.model(before, i) == Some(reply) && reply.wantsTools && reply.calls != []
    requires FirstFailure(Fates(w, i, reply.calls)).None?
    ensures IsRound(w, before, i, reply, before + [Turn(reply)] + ToolMessages(reply.calls, Fates(w, i, reply.calls)))
  {
    forall k | 0 <= k < |reply.calls| ensures Fates(w, i, reply.calls)[k].Answered? {
      NoFailure(Fates(w, i, reply.calls), k);
    }
  }

  // ---- reporting tools as they settle ----

  /** Draining one round: which calls have settled, in order; what is noted under each call
      id; which are still to be reported; and the reports made so far. */
  datatype Drain = Drain(settled: seq<nat>, notes: map<string, Fate>, remaining: set<nat>, reports: seq<Report>)

  datatype Report = Report(index: nat, fate: Fate)

  datatype Step = Settles(i: nat) | Reports(i: nat)

  function Noted(notes: map<string, Fate>, id: string, fate: Fate): map<string, Fate> {
    if fate.NeverRan? && id in notes then notes else notes[id := fate]
  }

  predicate CanStep(calls: seq<Call>, d: Drain, s: Step) {
    match s
    case Settles(i) => i < |calls| && i !in d.settled
    case Reports(i) => i < |calls| && i in d.settled && i in d.remaining && calls[i].id in d.notes
  }

  function Stepped(calls: seq<Call>, fates: seq<Fate>, d: Drain, s: Step): Drain
    requires |fates| == |calls| && CanStep(calls, d, s)
  {
    match s
    case Settles(i) => d.(settled := d.settled + [i], notes := Noted(d.notes, calls[i].id, fates[i]))
    case Reports(i) => d.(remaining := d.remaining - {i}, reports := d.reports + [Report(i, d.notes[calls[i].id])])
  }

  function Indexes(n: nat): (all: set<nat>)
    ensures forall i: nat :: i in all <==> i < n
  {
    if n == 0 then {} else Indexes(n - 1) + {n - 1}
  }

  predicate ReportedIn(reports: seq<Report>, i: nat) {
    exists a :: 0 <= a < |reports| && reports[a].index == i
  }

  function Begin(calls: seq<Call>): Drain {
    Drain([], map[], Indexes(|calls|), [])
  }

  /** Any interleaving of settling and reporting. */
  ghost predicate IsDrain(calls: seq<Call>, fates: seq<Fate>, ds: seq<Drain>, steps: seq<Step>)
    requires |fates| == |calls|
  {
    && |ds| == |steps| + 1 && ds[0] == Begin(calls)
    && (forall k :: 0 <= k < |steps| ==>
          CanStep(calls, ds[k], steps[k]) && ds[k + 1] == Stepped(calls, fates, ds[k], steps[k]))
  }

  /** Every call is reported once it is no longer remaining, and only once; whatever is noted
      under an id is the fate of a settled call of that id, and each settled call's id is. */
  ghost predicate DrainInv(calls: seq<Call>, fates: seq<Fate>, d: Drain)
    requires |fates| == |calls|
  {
    && (forall i :: i in d.settled ==> i < |calls| && calls[i].id in d.notes)
    && (forall id ::
      id in d.notes ==>
      exists i :: i in d.settled && i < |calls| && calls[i].id == id && fates[i] == d.notes[id])
    && (forall i: nat :: i in d.remaining <==> i < |calls| && !ReportedIn(d.reports, i))
    && (forall r :: r in d.reports ==> r.index in d.settled && FromSameId(calls, fates, d, r))
    && (forall a, b :: 0 <= a < b < |d.reports| ==> d.reports[a].index != d.reports[b].index)
  }

  /** The report carries the fate of some settled call of the same id. */
  ghost predicate FromSameId(calls: seq<Call>, fates: seq<Fate>, d: Drain, r: Report)
    requires |fates| == |calls|
  {
    && r.index < |calls|
    && exists i :: i in d.settled && i < |calls| && calls[i].id == calls[r.index].id && fates[i] == r.fate
  }

  lemma SettleKeeps(calls: seq<Call>, fates: seq<Fate>, d: Drain, i: nat)
    requires |fates| == |calls| && DrainInv(calls, fates, d) && CanStep(calls, d, Settles(i))
    ensures DrainInv(calls, fates, Stepped(calls, fates, d, Settles(i)))
  {
    var d' := Stepped(calls, fates, d, Settles(i));
    forall id | id in d'.notes
      ensures exists j :: j in d'.settled && j < |calls| && calls[j].id == id && fates[j] == d'.notes[id]
    {
      if id in d.notes && d'.notes[id] == d.notes[id] {
        var j :| j in d.settled && j < |calls| && calls[j].id == id && fates[j] == d.notes[id];
        assert j in d'.settled;
      } else {
        assert i in d'.settled;
      }
    }
    forall r | r in d'.reports
      ensures FromSameId(calls, fates, d', r)
    {
      var j :| j in d.settled && j < |calls| && calls[j].id == calls[r.index].id && fates[j] == r.fate;
      assert j in d'.settled;
    }
  }

  lemma ReportedSnoc(reports: seq<Report>, r: Report)
    ensures forall k: nat :: ReportedIn(reports + [r], k) <==> ReportedIn(reports, k) || k == r.index
  {
    forall k: nat ensures ReportedIn(reports + [r], k) <==> ReportedIn(reports, k) || k == r.index {
      assert (reports + [r])[|reports|] == r;
      if ReportedIn(reports, k) {
        var a :| 0 <= a < |reports| && reports[a].index == k;
        assert (reports + [r])[a].index == k;
      }
    }
  }

  lemma ReportKeeps(calls: seq<Call>, fates: seq<Fate>, d: Drain, i: nat)
    requires |fates| == |calls| && DrainInv(calls, fates, d) && CanStep(calls, d, Reports(i))
    ensures DrainInv(calls, fates, Stepped(calls, fates, d, Reports(i)))
  {
    var d', made := Stepped(calls, fates, d, Reports(i)), Report(i, d.notes[calls[i].id]);
    ReportedSnoc(d.reports, made);
    assert FromSameId(calls, fates, d', made);
    forall r | r in d'.reports ensures r.index in d'.settled && FromSameId(calls, fates, d', r) {
      if r != made {
        assert r in d.reports && FromSameId(calls, fates, d, r);
      }
    }
  }

  lemma {:induction false} DrainsKeepInv(calls: seq<Call>, fates: seq<Fate>, ds: seq<Drain>, steps: seq<Step>)
    requires |fates| == |calls| && IsDrain(calls, fates, ds, steps)
    ensures DrainInv(calls, fates, ds[|steps|])
  {
    if steps != [] {
      var n := |steps| - 1;
      assert ds[..n + 1][0] == ds[0];
      assert IsDrain(calls, fates, ds[..n + 1], steps[..n]);
      DrainsKeepInv(calls, fates, ds[..n + 1], steps[..n]);
      match steps[n]
      case Settles(i) => SettleKeeps(calls, fates, ds[n], i);
      case Reports(i) => ReportKeeps(calls, fates, ds[n], i);
    }
  }

  /** A drain with something left to report is never stuck. */
  lemma DrainGoesOn(calls: seq<Call>, fates: seq<Fate>, d: Drain)
    requires |fates| == |calls| && DrainInv(calls, fates, d) && exists i: nat :: i in d.remaining
    ensures exists s :: CanStep(calls, d, s)
  {
    var i: nat :| i in d.remaining;
    assert CanStep(calls, d, if i in d.settled then Reports(i) else Settles(i));
  }

  /** A drain that has nothing left to report has reported each call exactly once, each
      after it settled. */
  lemma EachReportedOnce(calls: seq<Call>, fates: seq<Fate>, ds: seq<Drain>, steps: seq<Step>)
    requires |fates| == |calls| && IsDrain(calls, fates, ds, steps) && ds[|steps|].remaining == {}
    ensures var reports := ds[|steps|].reports;
      && (forall i: nat :: ReportedIn(reports, i) <==> i < |calls|)
      && (forall a, b :: 0 <= a < b < |reports| ==> reports[a].index != reports[b].index)
  {
    DrainsKeepInv(calls, fates, ds, steps);
    var d := ds[|steps|];
    forall i: nat ensures ReportedIn(d.reports, i) <==> i < |calls| {
      assert i !in d.remaining;
      if ReportedIn(d.reports, i) {
        var a :| 0 <= a < |d.reports| && d.reports[a].index == i;
        assert d.reports[a] in d.reports;
      }
    }
  }

  /** Calls that share an id share a note, so a report can carry another call's outcome. */
  ghost predicate Mixed(calls: seq<Call>, fates: seq<Fate>, i: nat, j: nat)
    requires |fates| == |calls|
  {
    i < |calls| && j < |calls| && i != j && calls[i].id == calls[j].id && fates[i] != fates[j]
  }

  /** Some interleaving reports a call with an outcome that is not its own. */
  ghost predicate CanMisreport(calls: seq<Call>, fates: seq<Fate>)
    requires |fates| == |calls|
  {
    exists ds, steps :: IsDrain(calls, fates, ds, steps) && Misreports(fates, ds[|steps|])
  }

  ghost predicate Misreports(fates: seq<Fate>, d: Drain) {
    exists r :: r in d.reports && (r.index < |fates| ==> fates[r.index] != r.fate)
  }

  /** That happens exactly if two calls of one id end differently; with distinct ids every
      report is the call's own. */
  lemma MisreportIff(calls: seq<Call>, fates: seq<Fate>)
    requires |fates| == |calls|
    ensures CanMisreport(calls, fates) <==> exists i, j :: Mixed(calls, fates, i, j)
  {
    if CanMisreport(calls, fates) {
      var ds: seq<Drain>, steps: seq<Step> :| IsDrain(calls, fates, ds, steps) && Misreports(fates, ds[|steps|]);
      DrainsKeepInv(calls, fates, ds, steps);
      MisreportMixed(calls, fates, ds[|steps|]);
    }
    if exists i, j :: Mixed(calls, fates, i, j) {
      var i: nat, j: nat :| Mixed(calls, fates, i, j);
      MixedMisreports(calls, fates, i, j);
    }
  }

  lemma MisreportMixed(calls: seq<Call>, fates: seq<Fate>, d: Drain)
    requires |fates| == |calls| && DrainInv(calls, fates, d) && Misreports(fates, d)
    ensures exists i, j :: Mixed(calls, fates, i, j)
  {
    var r :| r in d.reports && (r.index < |fates| ==> fates[r.index] != r.fate);
    assert FromSameId(calls, fates, d, r);
    var i :| i in d.settled && i < |calls| && calls[i].id == calls[r.index].id && fates[i] == r.fate;
    assert Mixed(calls, fates, r.index, i);
  }

  lemma MixedMisreports(calls: seq<Call>, fates: seq<Fate>, i: nat, j: nat)
    requires |fates| == |calls| && Mixed(calls, fates, i, j)
    ensures CanMisreport(calls, fates)
  {
    if fates[j].NeverRan? {
      MisreportRun(calls, fates, j, i);
    } else {
      MisreportRun(calls, fates, i, j);
    }
  }

  /** Both settle, then the one whose note is not there any more is reported. */
  lemma MisreportRun(calls: seq<Call>, fates: seq<Fate>, first: nat, second: nat)
    requires |fates| == |calls| && Mixed(calls, fates, first, second)
    requires !fates[second].NeverRan? || (fates[first].NeverRan? && fates[second].NeverRan?)
    ensures CanMisreport(calls, fates)
  {
    var d0 := Begin(calls);
    var d1 := Stepped(calls, fates, d0, Settles(first));
    assert d1.settled == [first];
    var d2 := Stepped(calls, fates, d1, Settles(second));
    assert d2.settled == [first, second];
    var wrong := if fates[second].NeverRan? then second else first;
    var d3 := Stepped(calls, fates, d2, Reports(wrong));
    var ds, steps := [d0, d1, d2, d3], [Settles(first), Settles(second), Reports(wrong)];
    assert IsDrain(calls, fates, ds, steps);
    assert d3.reports == [Report(wrong, d2.notes[calls[wrong].id])];
    assert d3.reports[0] in d3.reports && fates[wrong] != d3.reports[0].fate;
    assert Misreports(fates, ds[|steps|]);
  }

  // ---- the two loops ----

  method BlockingLoop(w: World, input: seq<Message>, limit: nat) returns (out: Outcome)
    ensures out == RunFrom(w, input, 0, limit)
  {
    var messages := input;
    for i := 0 to limit
      invariant RunFrom(w, messages, i, limit) == RunFrom(w, input, 0, limit)
    {
      var reply := w.model(messages, i);
      if reply.None? { return Thrown(w.failure(i)); }
      var calls := reply.value.calls;
      if !reply.value.wantsTools || |calls| == 0 {
        return Done(reply.value.content, messages + [Turn(reply.value)], i + 1, false);
      }
      var settled := Fates(w, i, calls);
      var failure := FirstFailure(settled);
      if failure.Some? { return Thrown(failure.value); }
      messages := messages + [Turn(reply.value)] + ToolMessages(calls, settled);
    }
    return Done("", messages, limit, true);
  }

  datatype Event =
    | Content(delta: string, round: nat)
    | ToolCall(index: nat, call: Call, round: nat)
    | ToolResult(report: Report, round: nat)
    | Finished(result: Outcome)

  function CallEvents(calls: seq<Call>, round: nat): (es: seq<Event>)
    ensures |es| == |calls| && forall k :: 0 <= k < |calls| ==> es[k] == ToolCall(k, calls[k], round)
  {
    seq(|calls|, k requires 0 <= k < |calls| => ToolCall(k, calls[k], round))
  }

  function ContentEvents(texts: seq<string>, round: nat): (es: seq<Event>)
    ensures |es| == |texts| && forall k :: 0 <= k < |texts| ==> es[k] == Content(texts[k], round)
  {
    seq(|texts|, k requires 0 <= k < |texts| => Content(texts[k], round))
  }

  function ResultEvents(reports: seq<Report>, round: nat): (es: seq<Event>)
    ensures |es| == |reports| && forall k :: 0 <= k < |reports| ==> es[k] == ToolResult(reports[k], round)
  {
    seq(|reports|, k requires 0 <= k < |reports| => ToolResult(reports[k], round))
  }

  // ---- the streamed turn ----

  /** The chunks in which a round's reply arrives; all that came before the error, if the
      round throws. */
  type Stream = (seq<Message>, nat) -> seq<Chunk>

  const TOOL_CALLS := "tool_calls"

  /** The chunks add up to the reply, in whatever pieces and order its fragments come. */
  ghost predicate SpeaksFor(chunks: seq<Chunk>, reply: Reply) {
    var turn := TakeAll(chunks);
    && reply.content == turn.content && AreCalls(turn.parts, reply.calls)
    && (reply.wantsTools <==> turn.finish == "tool_calls")
  }

  ghost predicate Streams(w: World, stream: Stream) {
    forall messages, i: nat :: w.model(messages, i).Some? ==> SpeaksFor(stream(messages, i), w.model(messages, i).value)
  }

  /** Streams that differ only in how the fragments of different calls interleave, and in how
      the text is cut, speak for the same reply. */
  lemma InterleavedSpeaks(a: seq<Chunk>, b: seq<Chunk>, reply: Reply)
    requires SpeaksFor(a, reply)
    requires TakeAll(a).content == TakeAll(b).content && TakeAll(a).finish == TakeAll(b).finish
    requires forall key :: Own(Fragments(a), key) == Own(Fragments(b), key)
    ensures SpeaksFor(b, reply)
  {
    TurnParts(a);
    TurnParts(b);
    InterleavingIrrelevant(Fragments(a), Fragments(b));
  }

  /** What a round with tools emits: its text, every call in order, then one result per call
      as some drain of the round reported them. */
  ghost predicate RoundEvents(w: World, round: nat, texts: seq<string>, calls: seq<Call>, es: seq<Event>) {
    exists ds, steps :: RoundDrained(w, round, texts, calls, es, ds, steps)
  }

  ghost predicate RoundDrained(
    w: World, round: nat, texts: seq<string>, calls: seq<Call>, es: seq<Event>, ds: seq<Drain>, steps: seq<Step>) {
    && IsDrain(calls, Fates(w, round, calls), ds, steps) && ds[|steps|].remaining == {}
    && es == ContentEvents(texts, round) + CallEvents(calls, round) + ResultEvents(ds[|steps|].reports, round)
  }

  /** The events of a whole run from round i on: the rounds in order, nothing of a round
      after the next has begun or after the loop threw, and the result last. A round that
      throws has passed on the text that came before. */
  ghost predicate EventsFrom(w: World, stream: Stream, messages: seq<Message>, i: nat, limit: nat, es: seq<Event>)
    requires i <= limit
    decreases limit - i
  {
    if i == limit then es == [Finished(RunFrom(w, messages, i, limit))]
    else
      var reply, texts := w.model(messages, i), Pieces(stream(messages, i));
      if reply.None? then es == ContentEvents(texts, i)
      else if !reply.value.wantsTools || reply.value.calls == [] then
        es == ContentEvents(texts, i) + [Finished(RunFrom(w, messages, i, limit))]
      else
        var calls := reply.value.calls;
        var fates := Fates(w, i, calls);
        if FirstFailure(fates).Some? then RoundEvents(w, i, texts, calls, es)
        else
          var after := messages + [Turn(reply.value)] + ToolMessages(calls, fates);
          exists n: nat ::
            n <= |es| && RoundEvents(w, i, texts, calls, es[..n]) && EventsFrom(w, stream, after, i + 1, limit, es[n..])
  }

  lemma RoundThenRest(
    w: World, stream: Stream, messages: seq<Message>, i: nat, limit: nat, es: seq<Event>, tail: seq<Event>)
    requires i < limit && w.model(messages, i).Some?
    requires var reply := w.model(messages, i).value;
      && reply.wantsTools && reply.calls != [] && FirstFailure(Fates(w, i, reply.calls)).None?
      && RoundEvents(w, i, Pieces(stream(messages, i)), reply.calls, es)
      && var after := messages + [Turn(reply)] + ToolMessages(reply.calls, Fates(w, i, reply.calls));
         EventsFrom(w, stream, after, i + 1, limit, tail)
    ensures EventsFrom(w, stream, messages, i, limit, es + tail)
  {
    assert (es + tail)[..|es|] == es && (es + tail)[|es|..] == tail;
  }

  type Schedule = (nat, seq<Call>) -> (seq<Drain>, seq<Step>)

  /** The schedule of one round: its drain states and steps, ending with nothing left. */
  ghost predicate GoodSchedule(w: World, schedule: Schedule) {
    forall round: nat, calls ::
      var (ds, steps) := schedule(round, calls);
      IsDrain(calls, Fates(w, round, calls), ds, steps) && ds[|steps|].remaining == {}
  }

  /** What a streamed round comes to: the loop ends there, or goes on with a transcript. */
  datatype Verdict = Ends(out: Outcome) | GoesOn(messages: seq<Message>)

  ghost predicate RoundOk(
    w: World, stream: Stream, messages: seq<Message>, i: nat, limit: nat, verdict: Verdict, es: seq<Event>)
    requires i < limit
  {
    match verdict
    case Ends(out) => out == RunFrom(w, messages, i, limit) && EventsFrom(w, stream, messages, i, limit, es)
    case GoesOn(after) =>
      && RunFrom(w, after, i + 1, limit) == RunFrom(w, messages, i, limit)
      && forall tail :: EventsFrom(w, stream, after, i + 1, limit, tail) ==>
           EventsFrom(w, stream, messages, i, limit, es + tail)
  }

  /** One round, whatever the order in which its fragments arrive and its tools complete. */
  method StreamRound(w: World, stream: Stream, messages: seq<Message>, i: nat, limit: nat, schedule: Schedule)
    returns (verdict: Verdict, es: seq<Event>)
    requires i < limit && Streams(w, stream) && GoodSchedule(w, schedule)
    ensures RoundOk(w, stream, messages, i, limit, verdict, es)
  {
    var turn, texts, calls := StreamOneRound(stream(messages, i));
    es := ContentEvents(texts, i);
    if w.model(messages, i).None? { return Ends(Thrown(w.failure(i))), es; }
    ghost var reply := w.model(messages, i).value;
    assert SpeaksFor(stream(messages, i), reply);
    OneAssembly(turn.parts, calls, reply.calls);
    var message := Assistant(turn.content, calls);
    if turn.finish != TOOL_CALLS || |calls| == 0 {
      var out := Done(turn.content, messages + [message], i + 1, false);
      return Ends(out), es + [Finished(out)];
    }
    var (ds, steps) := schedule(i, calls);
    es := es + CallEvents(calls, i) + ResultEvents(ds[|steps|].reports, i);
    assert RoundDrained(w, i, texts, calls, es, ds, steps);
    var results := Fates(w, i, calls);
    var failure := FirstFailure(results);
    if failure.Some? { return Ends(Thrown(failure.value)), es; }
    var after := messages + [message] + ToolMessages(calls, results);
    forall tail | EventsFrom(w, stream, after, i + 1, limit, tail)
      ensures EventsFrom(w, stream, messages, i, limit, es + tail)
    {
      RoundThenRest(w, stream, messages, i, limit, es, tail);
    }
    verdict := GoesOn(after);
  }

  /** The streaming loop: the blocking loop's result, and its events in order. */
  method StreamingLoop(w: World, stream: Stream, input: seq<Message>, limit: nat, schedule: Schedule)
    returns (out: Outcome, events: seq<Event>)
    requires Streams(w, stream) && GoodSchedule(w, schedule)
    ensures out == RunFrom(w, input, 0, limit)
    ensures EventsFrom(w, stream, input, 0, limit, events)
  {
    var messages := input;
    events := [];
    assert forall tail: seq<Event> :: [] + tail == tail;
    for i := 0 to limit
      invariant RunFrom(w, messages, i, limit) == RunFrom(w, input, 0, limit)
      invariant forall tail :: EventsFrom(w, stream, messages, i, limit, tail) ==>
                  EventsFrom(w, stream, input, 0, limit, events + tail)
    {
      var verdict, es := StreamRound(w, stream, messages, i, limit, schedule);
      if verdict.Ends? {
        return verdict.out, events + es;
      }
      forall tail | EventsFrom(w, stream, verdict.messages, i + 1, limit, tail)
        ensures EventsFrom(w, stream, input, 0, limit, events + es + tail)
      {
        Assoc(events, es, tail);
      }
      messages, events := verdict.messages, events + es;
    }
    out := Done("", messages, limit, true);
    events := events + [Finished(out)];
  }

  // ---- every call gets its one result in its own round ----

  predicate OfRound(e: Event, round: nat) {
    match e
    case Content(_, r) => r == round
    case ToolCall(_, _, r) => r == round
    case ToolResult(_, r) => r == round
    case Finished(_) => false
  }

  predicate IsResult(e: Event, index: nat, round: nat) {
    e.ToolResult? && e.round == round && e.report.index == index
  }

  predicate IsCall(e: Event, index: nat, round: nat) {
    e.ToolCall? && e.round == round && e.index == index
  }

  /** The call event at p is answered by the event at q and by no other, and everything from
      p to q belongs to the round. */
  ghost predicate AnsweredAt(es: seq<Event>, p: nat, q: nat, index: nat, round: nat) {
    && p < q < |es| && IsResult(es[q], index, round)
    && (forall t :: 0 <= t < |es| && IsResult(es[t], index, round) ==> t == q)
    && (forall t :: p <= t <= q ==> OfRound(es[t], round))
  }

  /** Within the events of one round. */
  lemma RoundAnswers(
    w: World, i: nat, texts: seq<string>, calls: seq<Call>, es: seq<Event>, p: nat, index: nat, round: nat)
    requires RoundEvents(w, i, texts, calls, es) && p < |es| && IsCall(es[p], index, round)
    ensures round == i && exists q :: AnsweredAt(es, p, q, index, round)
  {
    var ds: seq<Drain>, steps: seq<Step> :| RoundDrained(w, i, texts, calls, es, ds, steps);
    var c, m, reports := |texts|, |calls|, ds[|steps|].reports;
    EachReportedOnce(calls, Fates(w, i, calls), ds, steps);
    assert p == c + index;
    assert ReportedIn(reports, index);
    var a :| 0 <= a < |reports| && reports[a].index == index;
    var q := c + m + a;
    assert es[q] == ToolResult(reports[a], i);
    forall t | 0 <= t < |es| && IsResult(es[t], index, round) ensures t == q {
      assert es[t] == ToolResult(reports[t - c - m], i);
    }
    assert AnsweredAt(es, p, q, index, round);
  }

  lemma {:induction false} ReportCount(reports: seq<Report>, n: nat)
    requires forall i: nat :: ReportedIn(reports, i) <==> i < n
    requires forall a, b :: 0 <= a < b < |reports| ==> reports[a].index != reports[b].index
    ensures |reports| == n
  {
    if n == 0 {
      assert reports != [] ==> ReportedIn(reports, reports[0].index);
    } else {
      assert ReportedIn(reports, n - 1);
      var a :| 0 <= a < |reports| && reports[a].index == n - 1;
      var rest := reports[..a] + reports[a + 1..];
      forall i: nat ensures ReportedIn(rest, i) <==> i < n - 1 {
        assert ReportedIn(reports, i) <==> i < n;
        if i < n - 1 {
          var b :| 0 <= b < |reports| && reports[b].index == i;
          assert rest[if b < a then b else b - 1].index == i;
        }
        if ReportedIn(rest, i) {
          var b :| 0 <= b < |rest| && rest[b].index == i;
          assert reports[if b < a then b else b + 1].index == i;
        }
      }
      ReportCount(rest, n - 1);
    }
  }

  /** A round passes on its text, then every call in order, then the results. */
  lemma RoundShape(w: World, i: nat, texts: seq<string>, calls: seq<Call>, es: seq<Event>)
    requires RoundEvents(w, i, texts, calls, es)
    ensures |es| == |texts| + 2 * |calls|
    ensures forall k :: 0 <= k < |texts| ==> es[k] == Content(texts[k], i)
    ensures forall k :: 0 <= k < |calls| ==> es[|texts| + k] == ToolCall(k, calls[k], i)
    ensures forall k :: |texts| + |calls| <= k < |es| ==> es[k].ToolResult? && es[k].round == i
  {
    var ds: seq<Drain>, steps: seq<Step> :| RoundDrained(w, i, texts, calls, es, ds, steps);
    EachReportedOnce(calls, Fates(w, i, calls), ds, steps);
    ReportCount(ds[|steps|].reports, |calls|);
  }

  /** The result, if there is one, is the last event and no other is one. */
  ghost predicate ResultLast(out: Outcome, es: seq<Event>) {
    && (out.Done? ==> es != [] && es[|es| - 1] == Finished(out))
    && (forall t :: 0 <= t < |es| && es[t].Finished? ==> out.Done? && t == |es| - 1)
  }

  lemma ResultAfterRound(out: Outcome, es: seq<Event>, n: nat, round: nat)
    requires n <= |es| && ResultLast(out, es[n..]) && forall t :: 0 <= t < n ==> OfRound(es[..n][t], round)
    ensures ResultLast(out, es)
  {
    assert forall t :: 0 <= t < n ==> es[..n][t] == es[t];
    assert forall t :: n <= t < |es| ==> es[n..][t - n] == es[t];
  }

  /** A run that returns ends with its result, and nothing else is reported as one; a run that
      throws reports none. */
  lemma {:induction false} ResultComesLast(
    w: World, stream: Stream, messages: seq<Message>, i: nat, limit: nat, es: seq<Event>)
    requires i <= limit && EventsFrom(w, stream, messages, i, limit, es)
    ensures ResultLast(RunFrom(w, messages, i, limit), es)
    decreases limit - i
  {
    if i < limit && w.model(messages, i).Some? {
      var reply, texts := w.model(messages, i).value, Pieces(stream(messages, i));
      var fates := Fates(w, i, reply.calls);
      if reply.wantsTools && reply.calls != [] {
        if FirstFailure(fates).Some? {
          RoundIsOfRound(w, i, texts, reply.calls, es);
        } else {
          var after := messages + [Turn(reply)] + ToolMessages(reply.calls, fates);
          var n: nat :| n <= |es| && RoundEvents(w, i, texts, reply.calls, es[..n])
            && EventsFrom(w, stream, after, i + 1, limit, es[n..]);
          RoundIsOfRound(w, i, texts, reply.calls, es[..n]);
          ResultComesLast(w, stream, after, i + 1, limit, es[n..]);
          ResultAfterRound(RunFrom(w, messages, i, limit), es, n, i);
        }
      }
    }
  }

  lemma RoundIsOfRound(w: World, i: nat, texts: seq<string>, calls: seq<Call>, es: seq<Event>)
    requires RoundEvents(w, i, texts, calls, es)
    ensures forall t :: 0 <= t < |es| ==> OfRound(es[t], i)
  {
    var ds: seq<Drain>, steps: seq<Step> :| RoundDrained(w, i, texts, calls, es, ds, steps);
  }

  /** The first n events are those of round i; if there are more, they are a run from i + 1. */
  lemma FirstRound(w: World, stream: Stream, messages: seq<Message>, i: nat, limit: nat, es: seq<Event>)
    returns (n: nat, after: seq<Message>, texts: seq<string>, calls: seq<Call>)
    requires i < limit && EventsFrom(w, stream, messages, i, limit, es)
    ensures n <= |es| && forall t :: 0 <= t < n ==> es[t].Finished? || OfRound(es[t], i)
    ensures n < |es| ==> EventsFrom(w, stream, after, i + 1, limit, es[n..])
    ensures RoundEvents(w, i, texts, calls, es[..n]) || forall t :: 0 <= t < n ==> !es[t].ToolCall?
  {
    n, after, texts, calls := |es|, [], Pieces(stream(messages, i)), [];
    assert es[..|es|] == es;
    if w.model(messages, i).Some? {
      var reply := w.model(messages, i).value;
      if reply.wantsTools && reply.calls != [] {
        calls := reply.calls;
        if FirstFailure(Fates(w, i, calls)).None? {
          after := messages + [Turn(reply)] + ToolMessages(calls, Fates(w, i, calls));
          n :| n <= |es| && RoundEvents(w, i, texts, calls, es[..n])
            && EventsFrom(w, stream, after, i + 1, limit, es[n..]);
        }
        RoundIsOfRound(w, i, texts, calls, es[..n]);
        assert forall t :: 0 <= t < n ==> es[..n][t] == es[t];
      }
    }
  }

  /** Events of one round that answer each of their calls. */
  ghost predicate Segment(round: nat, es: seq<Event>) {
    && (forall t :: 0 <= t < |es| ==> es[t].Finished? || OfRound(es[t], round))
    && (forall p, index, r :: 0 <= p < |es| && IsCall(es[p], index, r) ==> Answered(es, p, index, r))
  }

  ghost predicate Answered(es: seq<Event>, p: nat, index: nat, round: nat) {
    exists q :: AnsweredAt(es, p, q, index, round)
  }

  /** A run's events, cut into the segments of rounds `from`, `from` + 1 and so on. */
  ghost predicate Segmented(from: nat, es: seq<Event>, cuts: seq<nat>)
    decreases |cuts|
  {
    if cuts == [] then Segment(from, es)
    else cuts[0] <= |es| && Segment(from, es[..cuts[0]]) && Segmented(from + 1, es[cuts[0]..], cuts[1..])
  }

  lemma FirstIsSegment(w: World, i: nat, texts: seq<string>, calls: seq<Call>, es: seq<Event>)
    requires forall t :: 0 <= t < |es| ==> es[t].Finished? || OfRound(es[t], i)
    requires RoundEvents(w, i, texts, calls, es) || forall t :: 0 <= t < |es| ==> !es[t].ToolCall?
    ensures Segment(i, es)
  {
    forall p, index, r | 0 <= p < |es| && IsCall(es[p], index, r) ensures Answered(es, p, index, r) {
      RoundAnswers(w, i, texts, calls, es, p, index, r);
    }
  }

  lemma {:induction false} EventsSegmented(w: World, stream: Stream, messages: seq<Message>, i: nat,
    limit: nat, es: seq<Event>)
    returns (cuts: seq<nat>)
    requires i <= limit && EventsFrom(w, stream, messages, i, limit, es)
    ensures Segmented(i, es, cuts)
    decreases limit - i
  {
    if i == limit { return []; }
    var n, after, texts, calls := FirstRound(w, stream, messages, i, limit, es);
    assert forall t :: 0 <= t < n ==> es[..n][t] == es[t];
    FirstIsSegment(w, i, texts, calls, es[..n]);
    if n == |es| {
      assert es[..n] == es;
      return [];
    }
    var rest := EventsSegmented(w, stream, after, i + 1, limit, es[n..]);
    cuts := [n] + rest;
    assert cuts[1..] == rest;
  }

  /** Nothing of an earlier round comes later. */
  lemma {:induction false} LaterRounds(from: nat, es: seq<Event>, cuts: seq<nat>, t: nat, round: nat)
    requires Segmented(from, es, cuts) && t < |es| && OfRound(es[t], round)
    ensures round >= from
    decreases |cuts|
  {
    if cuts != [] {
      if t < cuts[0] {
        assert es[..cuts[0]][t] == es[t];
      } else {
        LaterRounds(from + 1, es[cuts[0]..], cuts[1..], t - cuts[0], round);
      }
    }
  }

  lemma {:induction false} SegmentsAnswer(from: nat, es: seq<Event>, cuts: seq<nat>, p: nat, index: nat, round: nat)
    requires Segmented(from, es, cuts) && p < |es| && IsCall(es[p], index, round)
    ensures Answered(es, p, index, round)
    decreases |cuts|
  {
    if cuts != [] {
      var n := cuts[0];
      var first, rest := es[..n], es[n..];
      if p < n {
        assert IsCall(first[p], index, round) && OfRound(first[p], from);
        var q: nat :| AnsweredAt(first, p, q, index, round);
        forall t | n <= t < |es| ensures !IsResult(es[t], index, round) {
          if IsResult(rest[t - n], index, round) { LaterRounds(from + 1, rest, cuts[1..], t - n, round); }
        }
        assert es[0..n] == first;
        AnswerCarries(es, 0, n, p, q, index, round);
      } else {
        SegmentsAnswer(from + 1, rest, cuts[1..], p - n, index, round);
        var q: nat :| AnsweredAt(rest, p - n, q, index, round);
        LaterRounds(from + 1, rest, cuts[1..], p - n, round);
        assert forall t :: 0 <= t < n ==> first[t] == es[t];
        assert es[n..|es|] == rest;
        AnswerCarries(es, n, |es|, p - n, q, index, round);
      }
    }
  }

  /** In every streamed run each tool call is answered exactly once, before anything of the
      next round and before the loop throws. */
  lemma CallsAnswered(
    w: World, stream: Stream, messages: seq<Message>, i: nat, limit: nat, es: seq<Event>,
      p: nat, index: nat, round: nat)
    requires i <= limit && EventsFrom(w, stream, messages, i, limit, es) && p < |es| && IsCall(es[p], index, round)
    ensures Answered(es, p, index, round)
  {
    var cuts := EventsSegmented(w, stream, messages, i, limit, es);
    SegmentsAnswer(i, es, cuts, p, index, round);
  }

  /** What answers in a part answers in the whole, if no other part has such a result. */
  lemma AnswerCarries(es: seq<Event>, lo: nat, hi: nat, p: nat, q: nat, index: nat, round: nat)
    requires lo <= hi <= |es| && AnsweredAt(es[lo..hi], p, q, index, round)
    requires forall t :: 0 <= t < |es| && !(lo <= t < hi) ==> !IsResult(es[t], index, round)
    ensures AnsweredAt(es, lo + p, lo + q, index, round)
  {
    var part := es[lo..hi];
    assert forall t :: 0 <= t < |part| ==> part[t] == es[lo + t];
    forall t | 0 <= t < |es| && IsResult(es[t], index, round) ensures t == lo + q {
      assert part[t - lo] == es[t];
    }
    forall t | lo + p <= t <= lo + q ensures OfRound(es[t], round) {
      assert part[t - lo] == es[t];
    }
  }
}
