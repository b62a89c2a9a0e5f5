# Verified model of the AcruxCore SDK's delivery and concurrency code

A Dafny model of the parts of AcruxCore whose correctness spans several functions, several
callers or a whole run, with machine-checked proofs of what those parts promise. Check it with
`dafny verify dfyconfig.toml`.

## What is modelled

**Trace delivery.** Steps record spans when they end, children before parents, and the server
rejects a span whose parent is not stored yet. `packages/sdk/src/steps.ts` holds spans back and
reorders them; `packages/sdk/src/span-queue.ts` sheds, splits, merges and sends them one request at
a time. Neither file can promise alone that a parent is never late. The model has both:

- `Ancestry`, `OpenCheck`, `ParentFirst`, `ReorderLoop`: chains of parent links (cycles included),
  the memoised test for a step that is still open, the order a report is put into, and the loop that
  computes it, repeated ids included.
- `StepTrace`, `StepFlush`, `StepLimit`: what one root holds and what each operation does to it.
- `StepRegistry`: the classes `Root`, `OpenStep` and the `roots` map, updated in place; each method
  is proved equal to the function of `StepTrace` that the other modules reason about.
- `StepRuns`, `StepDelivery`, `FlushOrder`, `RunOrder`, `RunLimit`, `RunReports`: every run of opens,
  closes and reports on one trace: what it keeps, when it sends parents first, what the span limit
  does to it, and what its reports carry besides spans.
- `QueueModel`, `SpanQueue`, `QueueRuns`, `MergeOrder`: the queue's list algorithms, its class, and
  every interleaving of enqueues, settling requests, ending drains and any number of calls of
  `flush` and `close`.
- `Delivery`: both halves together, down to the entries of one request.
- `OrderExamples`, `RiderExamples`, `LimitExample`, `MergeExample`: concrete runs in which a promise fails.

**The streaming tool loop.** `EventStream` (framing, section 9.2 of the WHATWG HTML Living
Standard), `SortedKeys` and `ToolCalls` (fragments into calls), `ToolLoop` (the blocking and the
streaming loop) model `packages/sdk/src/gateway-api.ts`.

**Bounded algorithms and pools.** `ResultBatches`, `UniqueNames` and `LocalRun`
(`packages/sdk/src/local-experiment.ts`), `ConcurrentMap`
(`packages/mcp-server/src/registry-prompts.ts`), `TruncateText` (`packages/mcp-server/src/format.ts`),
`JsonText`, `JsonTree` and `StableStringify` (`packages/sdk/src/prompts-api.ts`), `PersonalTeam`
(`apps/api/src/auth/auth.repository.ts`, `apps/api/src/auth/auth.service.ts`).

`Options`, `Seqs` and `Utf16` hold what several modules share.

Conventions: ids are opaque numbers; a parent of `None` stands for `undefined` and for the empty
string, which the code tests alike; an entry without a `spans` array is one with no spans; entries
are values, so that merging cannot change its inputs holds by construction. A `close` goes on in
the job that was queued when its flush found the queue idle (`span-queue.ts:238`), and a request
started after that test settles in a later job (`packages/sdk/src/client.ts:121`): between the two
no request settles and no drain ends, but entries may come.

## Where the code and its promises part

Each of these is proved, with the exact condition.

- A span kept although its parent was refused (`steps.ts:261-265` rules it out). It happens exactly
  if a span was let in by its own children after its parent was refused: `StepLimit.OrphansIff` for
  sequences of `keep` calls, `RunLimit.RunOrphansIff` for runs. If no span is offered both after its
  parent and after one of its children, it never happens (`RunLimit.NoOrphansInRuns`).
  `LimitExample.OrphanInRun` is a run in which it does.
- A parent that is sent after its child (`steps.ts:14-18` rules it out), where the parent was known
  when the child was recorded (a step, a span recorded earlier, or one of the same report) and was
  not refused over the limit. In a run it happens exactly if some flush or some report sent straight
  on misses the condition `RunOrder.StepPlaced`, which can be checked before each event:
  `FlushOrder.FlushFollowsIff` for a flush, `RunOrder.RunFollowsIff` for runs. Ways to miss it:
  a main span that points at a rider's span (`FlushOrder.MainOvertakesRider`, with the run
  `RiderExamples.MainGoesFirst`), a rider that points at a rider partly held
  (`FlushOrder.RiderOvertakesRider`, with the run `RiderExamples.RiderGoesFirst`), a report sent
  straight on whose parent waits in a partly held report (the run `OrderExamples.PartlyHeldFails`),
  and a report sent straight on with a child ahead of its parent, since only reports that a root
  takes are put parents first (the run `OrderExamples.ChildFirstFails`).
- `parentFirst` need not end when a span id repeats, although `ingest` accepts such a report
  (`packages/sdk/src/traces-api.ts:282`):
  `ReorderLoop.EndsIff` says when it ends, and `ReorderLoop.RepeatedIdNeverEnds` gives a report of
  two spans on which it does not.
- An entry enqueued between the return of `drain` and its `finally` starts no drain
  (`QueueRuns.EnqueueStartsUnlessGap`). In every state of every run from an empty buffer something
  waits with no request to take it along if and only if that happened and no drain was started
  since (`QueueRuns.WaitsIff`); `QueueRuns.StaysBehindIff` says so of the end of a run. A run with
  a `close` in it leaves nothing in the queue (`QueueRuns.CloseEnds`).
- The source states the server's rule for requests (`span-queue.ts:41-44`), and
  `Delivery.ParentsNeverLate` is about requests. The server checks each entry of a request in turn
  (`apps/api/src/traces/ingest/ingest.service.ts:216-240`), and a merge can put an entry with a
  child before the entry with its parent: `Delivery.EntriesInOrderIff` says exactly when, and
  `MergeExample.ChildEntryFirst` is a run of well-placed reports in which it does.
- A streamed `tool_result` carries another call's outcome exactly if two calls of a round have the
  same id and end differently: `ToolLoop.MisreportIff`.
- `truncateText` says that it cuts on a character boundary (`format.ts:34-35`). It cuts a surrogate
  pair in two exactly if one begins three bytes short of the budget: `TruncateText.CutSplitsPairIff`.

## Model

| member | source | states |
|---|---|---|
| OpenCheck.OpenChecker.constructor | packages/sdk/src/steps.ts:288-293 | a checker starts with the parent map of all buffered and extra spans and no remembered answer |
| SpanModel.LinksLast | packages/sdk/src/steps.ts:288-293 | where ids repeat, the last span of an id says what its parent is |
| OpenCheck.OpenChecker.Check | packages/sdk/src/steps.ts:294-308 | answers exactly whether some proper ancestor, followed through unsent spans, is an open step, also on cyclic links; `Valid` keeps every remembered answer exact and every id walked at most once over all calls |
| OpenCheck.OpenChecker.Walk | packages/sdk/src/steps.ts:295-305 | the path it walks has no repeats and no remembered id, and its answer is that of the node where it stops |
| Ancestry.CycleMeetsNothingNew | packages/sdk/src/steps.ts:302 | a chain that comes back to a node it passed, meeting no open step, never meets one |
| ParentFirst.FileByParent | packages/sdk/src/steps.ts:321-328 | each child list is the spans filed under that key, in report order |
| ParentFirst.OrderedReaches | packages/sdk/src/steps.ts:329-336 | a span is in the output exactly if its chain of parents leaves the report |
| ParentFirst.PermutationIffAcyclic | packages/sdk/src/steps.ts:311-319 | the output is a permutation of the input if and only if no links form a cycle |
| ParentFirst.OrderedIsParentFirst | packages/sdk/src/steps.ts:311-319 | nothing lost or repeated, siblings in order, every in-list parent ahead of its children, every subtree contiguous |
| ParentFirst.ParentFirstIsUnique | packages/sdk/src/steps.ts:311-319 | that promise determines the output: two lists that meet it are equal |
| ReorderLoop.Reorder | packages/sdk/src/steps.ts:320-337 | on every report on which it ends, the loop over an explicit stack yields what the rounds emit: with distinct ids the depth-first order |
| ReorderLoop.UniqueEnds | packages/sdk/src/steps.ts:320-337 | with distinct ids the loop ends, on cyclic links too, with the depth-first order |
| ReorderLoop.EndsIff | packages/sdk/src/steps.ts:320-337 | the loop ends if and only if no span reached from the top level is filed below its own id |
| ReorderLoop.RepeatedIdNeverEnds | packages/sdk/src/steps.ts:320-337 | a report of two spans with one id, the second under the first, on which it never ends |
| StepRegistry.Root.Merge | packages/sdk/src/steps.ts:247-256 | the tags are the old and new ones, each once, in order of first appearance; metadata overlaid, the first session kept, all else unchanged |
| StepTrace.DeduplicatedIs | packages/sdk/src/steps.ts:253 | removing repeats keeps the same members, each once, in order of first appearance |
| StepRegistry.Root.Keep | packages/sdk/src/steps.ts:266-281 | whether a span may join, and what is noted or counted for it |
| StepRegistry.Root.Record | packages/sdk/src/steps.ts:495-496 | a closing step leaves `open` and its span is buffered if kept |
| StepRegistry.Root.Filter | packages/sdk/src/steps.ts:234 | a report is filtered span by span before any of it is pushed |
| StepRegistry.Root.Take | packages/sdk/src/steps.ts:234-243 | a report with `capturePayloads` becomes a rider, another joins the main spans, repeated ids included; context is merged |
| StepRegistry.Root.Sift | packages/sdk/src/steps.ts:363-368 | the four lists: main spans and riders, each split by whether an open step is above |
| StepRegistry.Root.Flush | packages/sdk/src/steps.ts:361-384 | whenever its lists can be put in order, the new state and the reports sent, main report first, then the riders in order |
| StepTrace.SoundEnds | packages/sdk/src/steps.ts:361-384 | the lists of a root whose buffered ids are distinct always can |
| StepRegistry.Nearest | packages/sdk/src/steps.ts:449-460 | the innermost open step of the same client, if any |
| StepRegistry.Registry.OpenRoot | packages/sdk/src/steps.ts:449-473 | a step with no outer step makes a root, registers it and opens itself; other roots unchanged |
| StepRegistry.Registry.OpenNested | packages/sdk/src/steps.ts:449-473 | a nested step joins its outer step's root, re-registers it if it was gone, and merges its context |
| StepRegistry.Registry.Close | packages/sdk/src/steps.ts:475-503 | closing twice does nothing; closing once records the span and flushes a root step or a sent root; what is sent goes to the root's own client |
| StepRegistry.Registry.FlushRoot | packages/sdk/src/steps.ts:500-501 | the root is back in `roots` during the flush and stays exactly if steps are still open |
| StepRegistry.Registry.RouteReport | packages/sdk/src/steps.ts:224-244 | a report, repeated ids included, is taken exactly if the map holds a root of its trace and of its own client that is unsent or has an open step above one of the spans; that root takes it, and every other root stays as it was |
| StepRegistry.Registry.Report | packages/sdk/src/traces-api.ts:282 | a report that no root takes in this sense goes to the queue of its own client as it is |
| StepFlush.FlushSendsNothingHeld | packages/sdk/src/steps.ts:361-384 | no report handed to the sink carries a span that hangs under an open step, and the main report carries the buffered main parent of each of its spans |
| StepFlush.OpenStepKeepsSubtree | packages/sdk/src/steps.ts:355-360 | everything below an open step survives a flush, main spans and whole riders |
| StepFlush.FlushConserves | packages/sdk/src/steps.ts:361-384 | a flush splits the buffer into what stays and what is sent, span for span |
| StepFlush.FlushEmpties | packages/sdk/src/steps.ts:361-371 | with no open step a flush empties the buffers |
| StepFlush.KeepAllConserves | packages/sdk/src/steps.ts:234 | every span of a report is either kept or refused |
| RunReports.FlagsAreKept | packages/sdk/src/steps.ts:234-239 | in every run each span travels under the payload flag of the report that brought it, and without one if that report set none or it is a step's own span |
| RunReports.FlushContext | packages/sdk/src/steps.ts:373-383 | a report of a flush has the trace's id; a rider's has no context, the main one has the trace's session, tags and metadata where they are not empty, and the name if it is the first |
| RunReports.RunContext | packages/sdk/src/steps.ts:247-256 | in every state of every run the session is the first given, the metadata hold every key with the value given last, and the tags are all given, each once, in order of first appearance; an opening step's own are taken as they are while no others come |
| RunReports.ContextIsCarried | packages/sdk/src/steps.ts:373-383 | whatever closing a step hands over in a run carries just that context |
| RunReports.StepIsRecorded | packages/sdk/src/steps.ts:475-494 | closing a step records a span with its id, the step it was opened under and its payload, and the root's with the number of spans refused up to then |
| StepLimit.KeepIsOffer | packages/sdk/src/steps.ts:266-281 | `keep` depends only on the noted parents, the dropped ids and whether there is room |
| StepLimit.OrphansIff | packages/sdk/src/steps.ts:261-275 | a kept span with an earlier refused parent exists if and only if some span was let in by its own children, or regardless of the limit, after its parent was refused |
| StepLimit.NoOrphansInnermostFirst | packages/sdk/src/steps.ts:261-275 | none exists when no span comes both after its parent and after one of its children |
| RunLimit.RunMatches | packages/sdk/src/steps.ts:261-281 | the `keep` calls of a run form one such sequence, starting from a root that has noted nothing, and only a root span is kept in any case |
| RunLimit.RunOrphansIff | packages/sdk/src/steps.ts:261-275 | in every run a kept span has a refused parent if and only if some span was let in regardless after its parent was refused |
| RunLimit.NoOrphansInRuns | packages/sdk/src/steps.ts:261-275 | in every run that offers none after both its parent and one of its children, each recorded span whose parent was refused is refused or was sent straight on |
| LimitExample.OrphanInRun | packages/sdk/src/steps.ts:266-281 | a legal run with room for one span that ends with a span buffered and its parent refused |
| StepLimit.OrphanExample | packages/sdk/src/steps.ts:266-281 | three spans that leave one |
| StepRuns.OpenKeeps | packages/sdk/src/steps.ts:449-473 | opening a step keeps the invariant of runs |
| StepRuns.CloseConserves | packages/sdk/src/steps.ts:475-503 | after a close each recorded span is still in exactly one of buffered, sent and refused |
| StepRuns.ReportKeeps | packages/sdk/src/steps.ts:224-244 | a report, taken or not, keeps the invariant of runs |
| StepRuns.RunsKeepInv | packages/sdk/src/steps.ts:224-503 | in every run: a root is registered exactly while it has open steps and holds nothing otherwise; each recorded span is in exactly one of buffered, sent and refused, `dropped` counts the refused; exactly the first report of a root carries the name |
| StepDelivery.FlushFollows | packages/sdk/src/steps.ts:361-384 | a flush adds to what was sent only spans whose known parents are ahead of them |
| StepDelivery.RoutedKeepsClean | packages/sdk/src/steps.ts:224-244 | taking a report keeps every waiting span's parent within reach |
| StepDelivery.DirectKeepsClean | packages/sdk/src/steps.ts:228-233 | a report sent straight on points at nothing that is still held back |
| StepDelivery.CloseKeepsClean | packages/sdk/src/steps.ts:475-503 | closing a step keeps parents ahead of children in everything handed to the queue |
| StepDelivery.RunsKeepClean | packages/sdk/src/steps.ts:224-503 | in every run of well-placed reports without refusals, the spans reach the queue with known parents ahead |
| FlushOrder.FlushFollowsIff | packages/sdk/src/steps.ts:361-384 | what a flush sends has due parents ahead if and only if no due main span it sends has its missing parent among the riders, and no due rider span has its missing parent on a rider that stays or goes later |
| FlushOrder.MainOvertakesRider | packages/sdk/src/steps.ts:373-383 | a main span that points at a rider's span is sent ahead of it |
| FlushOrder.RiderOvertakesRider | packages/sdk/src/steps.ts:361-384 | a rider that points at a rider with a held span is sent ahead of it |
| RiderExamples.MainGoesFirst | packages/sdk/src/steps.ts:373-383 | a legal run without refusals: a rider, a main span under it, and the root's close sends the main span first |
| RiderExamples.RiderGoesFirst | packages/sdk/src/steps.ts:361-384 | a legal run without refusals: a rider partly held, a rider under its other part, and the root's close sends the second rider only |
| RunOrder.OwedStays | packages/sdk/src/steps.ts:261-281 | whether a sent span has a parent to follow never changes later: a step with a child that was not refused is not refused either |
| RunOrder.NextFollowsIff | packages/sdk/src/steps.ts:224-503 | one open, close or report, with refusals or without, keeps known parents that were not refused ahead if and only if it meets the condition that its branch of the code needs |
| RunOrder.RunFollowsIff | packages/sdk/src/steps.ts:224-503 | a run, refusals or not, sends known parents that were not refused ahead if and only if each of its events met that condition |
| RunOrder.WellPlacedSuffices | packages/sdk/src/steps.ts:224-244 | without refusals, well-placed reports meet it throughout |
| OrderExamples.PartlyHeldFails | packages/sdk/src/steps.ts:228-233 | a legal run without refusals in which a report is sent ahead of its parent, which waits in a partly held report |
| OrderExamples.ChildFirstFails | packages/sdk/src/steps.ts:228-233 | a legal run without refusals in which a report that no root takes goes out with a child ahead of its parent |
| SpanQueue.Queue.constructor | packages/sdk/src/span-queue.ts:73-79 | an empty queue whose caps are at least one |
| SpanQueue.Queue.Enqueue | packages/sdk/src/span-queue.ts:92-121 | a closed queue ignores the entry; an open one buffers it, sheds, and wakes the drain |
| SpanQueue.Queue.Shed | packages/sdk/src/span-queue.ts:106-110 | the overflow loop removes the computed number of oldest entries and keeps the span count exact |
| SpanQueue.Queue.DropHead | packages/sdk/src/span-queue.ts:124-127 | the oldest entry goes, and its spans leave the count |
| SpanQueue.Queue.Wake | packages/sdk/src/span-queue.ts:133-140 | a drain starts exactly if none is held, and runs up to its first request |
| SpanQueue.Queue.Drain | packages/sdk/src/span-queue.ts:146-168 | one turn of the loop: a batch is sent, or the drain returns; the branch for an empty batch is never taken |
| SpanQueue.Queue.TakeBatch | packages/sdk/src/span-queue.ts:177-217 | the batch is the merged cut of the buffer; buffer and count are what the cut leaves |
| SpanQueue.Queue.CutBatch | packages/sdk/src/span-queue.ts:181-214 | the loop takes whole entries while they fit, splits a first one that is too big and has an id, and takes an id-less one whole |
| SpanQueue.Queue.FlushTests | packages/sdk/src/span-queue.ts:225-229 | one test of the `flush` loop: done, waiting for a drain, or starting one |
| SpanQueue.Queue.CloseAfterFlush | packages/sdk/src/span-queue.ts:231-240 | what `close` does once its flush resolved: nothing but marking the queue closed |
| SpanQueue.MergeByTraceId | packages/sdk/src/span-queue.ts:256-286 | the loop with its index map computes the merge, one-entry batches included |
| QueueModel.ShedIsShortest | packages/sdk/src/span-queue.ts:104-110 | the prefix shed is the shortest that leaves the cap's worth of spans or a single entry, and never has the newest entry |
| QueueModel.CutFits | packages/sdk/src/span-queue.ts:181-214 | a batch is within the cap or one id-less entry, and stops only where the next entry does not fit |
| QueueModel.CutProgress | packages/sdk/src/span-queue.ts:170-176 | a batch from a non-empty buffer is not empty, lowers spans plus entries, and accounts for every span |
| QueueModel.CutSplits | packages/sdk/src/span-queue.ts:195-213 | batch then rest are the buffer, except that one entry with an id may be split along its spans, both parts keeping trace, flag, context and everything else |
| QueueModel.SplitKeepsItems | packages/sdk/src/span-queue.ts:195-213 | batch then rest are the buffer's spans in order, each under its trace and flag, across a split |
| QueueModel.MergedKeysDistinct | packages/sdk/src/span-queue.ts:267-275 | no two merged entries share trace and capture flag |
| QueueModel.MergeKeepsSpans | packages/sdk/src/span-queue.ts:243-255 | for each trace and flag the spans keep their order; id-less entries stay as they are, in order |
| QueueModel.MergedEntry | packages/sdk/src/span-queue.ts:276-282 | a merged entry has all spans of its key in order and, for each context field, the value of the first entry of its key that has one, none if none has |
| QueueModel.MergeKeepsItems | packages/sdk/src/span-queue.ts:256-286 | merging keeps the same spans, as a multiset |
| QueueModel.MergedFromBatch | packages/sdk/src/span-queue.ts:262-285 | every merged entry comes from an entry of the batch, an id-less one unchanged |
| QueueModel.MergedInFirstOrder | packages/sdk/src/span-queue.ts:243-246 | merged entries stand in the order their keys first appeared |
| QueueRuns.MoveKeeps | packages/sdk/src/span-queue.ts:92-240 | in every interleaving: accepted spans are those dropped or sent followed by those buffered, in order; the count is exact; every batch fits; one drain at most |
| QueueRuns.MoveKeepsBounded | packages/sdk/src/span-queue.ts:104-110 | in every interleaving what is buffered stays within the cap, or is a single entry |
| QueueRuns.MoveSpends | packages/sdk/src/span-queue.ts:225-240 | every step of the queue, of a `flush` or of a `close` uses up part of a budget set by what is buffered, what is still to be enqueued and how many calls there are |
| QueueRuns.FlushEnds | packages/sdk/src/span-queue.ts:219-240 | with finitely many enqueues and calls every interleaving ends, with every `flush` resolved, every `close` returned and no drain left |
| QueueRuns.FlushResolvesIdle | packages/sdk/src/span-queue.ts:219-229 | `flush` resolves exactly when the buffer is empty and no drain lives |
| QueueRuns.ClosedStaysClosed | packages/sdk/src/span-queue.ts:92-99 | a closed queue lets nothing in, whatever happens next |
| QueueRuns.ClosedIdleStays | packages/sdk/src/span-queue.ts:92-99 | a queue that was idle when it was closed stays as it is |
| QueueRuns.WaitsIff | packages/sdk/src/span-queue.ts:133-168 | at every point of every run, something is buffered with no request in flight if and only if an entry came between a drain's return and its `finally` and no drain was started since |
| QueueRuns.StaysBehindIff | packages/sdk/src/span-queue.ts:133-168 | where a run cannot go on, what was let in has left in order but for what is still buffered, and something is if and only if an entry came in that gap of the last drain |
| QueueRuns.MoveKeepsCloseOk | packages/sdk/src/span-queue.ts:231-240 | while a `close` has yet to mark the queue closed, and ever after, nothing is buffered without a request to take it along |
| QueueRuns.CloseEnds | packages/sdk/src/span-queue.ts:231-240 | every interleaving of enqueues, flushes and closes with a `close` in it ends closed and idle, and all that was ever let in has left the queue, in order |
| QueueRuns.OneRequestInFlight | packages/sdk/src/span-queue.ts:142-145 | two requests are never in flight |
| QueueRuns.EnqueueStartsUnlessGap | packages/sdk/src/span-queue.ts:118-140 | after an enqueue a request is in flight if and only if no drain had returned with its `finally` to come |
| QueueRuns.EntryCanBeStranded | packages/sdk/src/span-queue.ts:133-140 | a run after which an entry is buffered and nothing will send it |
| MergeOrder.ChildAheadIff | packages/sdk/src/span-queue.ts:256-286 | the entry with a child comes before the entry with its parent exactly if its key appeared first; with the same key they share an entry |
| MergeOrder.RiderOvertakesMain | packages/sdk/src/span-queue.ts:256-286 | two entries of one key with another key between them: the merge puts the spans of the second ahead of the entry between |
| Delivery.RunsStayInStep | packages/sdk/src/span-queue.ts:41-44 | in every joint run, refusals or not, the queue has let in exactly the trace's reports, in order, up to the point where it was closed, and both halves keep their invariants |
| Delivery.ParentTravelsFirst | packages/sdk/src/span-queue.ts:41-44 | if the reports have parents ahead and nothing was shed, each span's parent is in the same or an earlier request, for any cap |
| Delivery.HandedInOrderIff | packages/sdk/src/steps.ts:14-18 | in every joint run known parents that were not refused are handed over first if and only if every event of the trace met the condition of `RunOrder.StepPlaced` |
| Delivery.ParentsNeverLate | packages/sdk/src/steps.ts:14-18 | end to end, if so and if no entry was shed, wherever the queue is closed: no request carries a span whose parent, a step of the trace or a span known by then, and not refused, is in a later request or in none |
| Delivery.WellPlacedIsPlaced | packages/sdk/src/steps.ts:224-244 | well-placed reports meet that condition in every joint run without refusals |
| Delivery.EntriesInOrderIff | apps/api/src/traces/ingest/ingest.service.ts:216-240 | end to end, for a server that takes entry by entry, wherever the queue is closed: the parent is in an earlier request or in the same one, there after the child's entry exactly if the batch opened the child's key first |
| MergeExample.ChildEntryFirst | apps/api/src/traces/ingest/ingest.service.ts:216-240 | a joint run of well-placed reports, nothing refused or shed, whose second request has a child's entry ahead of its parent's |
| EventStream.ScanResumes | packages/sdk/src/gateway-api.ts:872-917 | reading a text in two pieces yields the frames of the whole, wherever it is cut |
| EventStream.TakeFrames | packages/sdk/src/gateway-api.ts:881-916 | the inner loop takes every complete frame and leaves the rest in the buffer |
| EventStream.ReadFrames | packages/sdk/src/gateway-api.ts:872-917 | any split of the response into chunks yields the frames of the whole text, and the same end |
| EventStream.FramesReadBack | packages/sdk/src/gateway-api.ts:882-888 | `data:` lines up to `data: [DONE]` are read back exactly, whatever each is parsed into and whatever follows; other lines between them are passed over |
| EventStream.ThrowEndsReading | packages/sdk/src/gateway-api.ts:888-905 | a frame that throws ends the reading, with all that came before it and nothing after |
| EventStream.SpacesAre | packages/sdk/src/gateway-api.ts:882-887 | `trim` removes the twenty-five characters of ECMA-262, and no others |
| ToolCalls.PartsAreWhole | packages/sdk/src/gateway-api.ts:1038-1045 | there is a part for exactly the indexes that fragments name, 0 for those that name none, and it depends only on the fragments of its own index: last id, last name, arguments joined |
| ToolCalls.InterleavingIrrelevant | packages/sdk/src/gateway-api.ts:1728-1741 | fragments interleaved in any way that keeps each index's order fold to the same parts |
| ToolCalls.Assemble | packages/sdk/src/gateway-api.ts:1070-1072 | one call for each index, in ascending order |
| ToolCalls.CallIsWhole | packages/sdk/src/gateway-api.ts:1038-1045 | a call has the last id and name and all arguments of its index, in arrival order |
| ToolCalls.TurnIs | packages/sdk/src/gateway-api.ts:1729-1741 | a turn's text is that of its chunks in order, its finish reason the last that was given |
| ToolCalls.PiecesAre | packages/sdk/src/gateway-api.ts:1739-1741 | what is passed on is each chunk's text that is not empty, once and in order |
| ToolCalls.SameCalls | packages/sdk/src/gateway-api.ts:1788-1790 | every such interleaving gives the same calls |
| ToolCalls.StreamFromProvider | packages/sdk/src/gateway-api.ts:1007-1076 | the provider stream's chunks, turn and calls, however the network cuts the text |
| ToolCalls.StreamOneRound | packages/sdk/src/gateway-api.ts:1723-1797 | the round's turn and calls; the pieces forwarded are the text of the chunks and join to the turn's text |
| ToolCalls.ProviderRound | packages/sdk/src/gateway-api.ts:1743-1749 | on a fully read stream the two accumulators agree on the turn and on the calls |
| ToolLoop.Transcript | packages/sdk/src/gateway-api.ts:1361-1466 | the transcript is the input, then rounds of one assistant turn and its tool messages in call order, never more than the limit; how it ends fixes content, count and flag |
| ToolLoop.FirstFailureIs | packages/sdk/src/gateway-api.ts:1455 | what is thrown is the reason of the first call, in call order, that was rejected; nothing is if all were answered |
| ToolLoop.ThrownTranscript | packages/sdk/src/gateway-api.ts:1361-1466 | a loop that throws went through finished rounds, then through one in which the model threw, giving that reason, or in which the first rejected call gave it |
| ToolLoop.GoesOnIff | packages/sdk/src/gateway-api.ts:1361-1466 | after a round with calls that were all answered the loop goes on from its turn and tool messages |
| ToolLoop.BlockingLoop | packages/sdk/src/gateway-api.ts:1361-1466 | the loop computes that outcome |
| ToolLoop.StreamRound | packages/sdk/src/gateway-api.ts:1520-1624 | one streamed round from its chunks: its events, also if it throws after some text, and how it leaves the conversation, for any order of settling |
| ToolLoop.StreamingLoop | packages/sdk/src/gateway-api.ts:1519-1637 | for any chunks that spell the model's replies and any order of settling, the result equals the blocking loop's |
| ToolLoop.InterleavedSpeaks | packages/sdk/src/gateway-api.ts:1728-1795 | streams that differ only in how fragments of different calls interleave and how the text is cut spell the same reply |
| ToolLoop.DrainGoesOn | packages/sdk/src/gateway-api.ts:1599-1612 | while a call is unreported some step can be taken |
| ToolLoop.EachReportedOnce | packages/sdk/src/gateway-api.ts:1580-1612 | when the loop over settling calls ends, each call was reported exactly once |
| ToolLoop.RoundShape | packages/sdk/src/gateway-api.ts:1554-1612 | a round passes on its text, then its calls in order, then one result for each |
| ToolLoop.ResultComesLast | packages/sdk/src/gateway-api.ts:1519-1637 | a run that returns ends with its result and reports no other; one that throws reports none |
| ToolLoop.CallsAnswered | packages/sdk/src/gateway-api.ts:1554-1617 | each `tool_call` event has exactly one `tool_result`, later and with nothing of another round between, also in a run that throws |
| ToolLoop.MisreportIff | packages/sdk/src/gateway-api.ts:1566-1611 | a result event can carry another call's outcome if and only if two calls of one id end differently |
| ResultBatches.SplitIntoBatches | packages/sdk/src/local-experiment.ts:536-552 | the loop computes the greedy split |
| ResultBatches.SplitIsBest | packages/sdk/src/local-experiment.ts:535-552 | nothing lost or reordered, no empty batch, at most 20 results and 800,000 bytes unless a batch is one result, and no other split within the limits has fewer batches |
| UniqueNames.FirstFree | packages/sdk/src/local-experiment.ts:419-425 | the search ends, at the lowest free suffix, within two tries of the number of names |
| UniqueNames.UniqueNames | packages/sdk/src/local-experiment.ts:412-430 | names are pairwise distinct; the first use of a clipped name keeps it, a repeat gets the lowest suffix that is free; the rest of each score is unchanged |
| UniqueNames.CandidatesDiffer | packages/sdk/src/local-experiment.ts:421-424 | different suffixes give different candidates, clipping included |
| UniqueNames.ClipIs | packages/sdk/src/local-experiment.ts:413 | a clipped name is its first hundred characters |
| UniqueNames.CandidateIs | packages/sdk/src/local-experiment.ts:421-424 | a candidate is as much of the name as leaves room, an underscore and the number, a hundred characters at most |
| UniqueNames.DigitsAre | packages/sdk/src/local-experiment.ts:421-424 | the number is written in decimal without leading zeros |
| UniqueNames.RenamesAvoidNames | packages/sdk/src/local-experiment.ts:407-411 | no rename takes a name that some score already has |
| UniqueNames.NamesFit | packages/sdk/src/local-experiment.ts:413-423 | names stay within 100 characters as long as the longest suffix does |
| LocalRun.RunsAreOrderly | packages/sdk/src/local-experiment.ts:139-238 | in every interleaving: each index is claimed once and is one result or one example in flight, at most `concurrency` in flight, one upload at a time, what was uploaded is a prefix of completion order |
| LocalRun.NothingAfterFailure | packages/sdk/src/local-experiment.ts:139-150 | after a failed upload none is in flight or starts, and what was uploaded stays as it is |
| LocalRun.NothingClaimedAfterFailure | packages/sdk/src/local-experiment.ts:232-239 | after a failed upload no example is started |
| LocalRun.NextIsClaimed | packages/sdk/src/local-experiment.ts:232-239 | until then a worker at its test takes the next example, or stops if there is none |
| LocalRun.WaitsForFewer | packages/sdk/src/local-experiment.ts:225-227 | fewer than twenty results wait, and none once a flush is due |
| LocalRun.FinishIsTruthful | packages/sdk/src/local-experiment.ts:230-262 | the finish is reported once, with an error exactly if an upload failed or some work rejected; without one every example's result was uploaded exactly once |
| LocalRun.NeverStuck | packages/sdk/src/local-experiment.ts:232-246 | until the finish some step can always be taken |
| LocalRun.RunsEnd | packages/sdk/src/local-experiment.ts:232-262 | no run is longer than eleven steps for each example and two more, and one that cannot go on has reported the finish |
| ConcurrentMap.ResultsInInputOrder | packages/mcp-server/src/registry-prompts.ts:56-72 | for any order of settling the mapper is called once per item, in order, with at most `limit` in flight, and the results are the plain map over the list; a limit of zero calls nothing and leaves every result unset |
| ConcurrentMap.RunsEnd | packages/mcp-server/src/registry-prompts.ts:56-72 | no run is longer than two steps an item and one a worker; in one that cannot go on all workers have returned if and only if the mapper rejected none of the items it was called for |
| TruncateText.TruncateText | packages/mcp-server/src/format.ts:41-55 | the method computes the cut text |
| TruncateText.ShrinkLoop | packages/mcp-server/src/format.ts:48-53 | the loop ends with an index that was never below zero |
| TruncateText.CutIsTight | packages/mcp-server/src/format.ts:45-54 | what is kept of a cut text is within the budget and at most two bytes short of it |
| TruncateText.TruncatedFits | packages/mcp-server/src/format.ts:37-39 | the result is at most the larger of `maxBytes` and the marker |
| TruncateText.TruncatedIs | packages/mcp-server/src/format.ts:41-55 | text that fits is returned as it is, any other as a prefix and the marker, the prefix at most two bytes short of what the marker leaves |
| TruncateText.Utf8IsLength | packages/mcp-server/src/format.ts:42-50 | the length counted is that of the UTF-8 bytes, a lone surrogate standing as U+FFFD |
| TruncateText.TruncatedIsMarked | packages/mcp-server/src/format.ts:17-28 | `isTruncated` holds exactly if the text was too long or itself ends with the marker |
| TruncateText.CutSplitsPairIff | packages/mcp-server/src/format.ts:33-54 | a text that is cut is cut between the halves of a surrogate pair if and only if a pair begins three bytes short of the budget |
| TruncateText.CutMaySplitPair | packages/mcp-server/src/format.ts:34-35 | with three bytes to spare every too long text that begins with a pair is cut after its first half |
| JsonText.UnescapeReads | packages/sdk/src/prompts-api.ts:59 | an escaped string reads back, control characters and lone surrogates included |
| JsonTree.ReadsBack | packages/sdk/src/prompts-api.ts:57-68 | a written JSON value reads back |
| JsonTree.TokensAre | packages/sdk/src/prompts-api.ts:57-68 | the words and signs are those of JSON |
| JsonTree.EscapesAre | packages/sdk/src/prompts-api.ts:59 | the escapes are those of `JSON.stringify` |
| StableStringify.StringifyReadsBack | packages/sdk/src/prompts-api.ts:57-68 | the text is JSON and reads as the key-sorted value without undefined members |
| StableStringify.LessIs | packages/sdk/src/prompts-api.ts:57-68 | keys are in the order of their first differing code unit, a proper prefix first |
| StableStringify.SameIffCanon | packages/sdk/src/prompts-api.ts:53-56 | two values have the same key-sorted form exactly if they are equal up to key order at every depth |
| StableStringify.SameTextIffSame | packages/sdk/src/prompts-api.ts:53-68 | two values get the same text exactly if they are equal up to key order at every depth |
| PersonalTeam.OneTeamForAllCallers | apps/api/src/auth/auth.repository.ts:96-117 | in every interleaving, failures and lock collisions included: a user without a membership gets at most one team and every call that returns, returns that one; a user with one gets none |
| PersonalTeam.MembersGetTheirs | apps/api/src/auth/auth.service.ts:46-55 | whatever goes on for others, a call for a user with memberships returns the default team if it is one of them, and otherwise the oldest |
| PersonalTeam.NewTeamsDiffer | apps/api/src/auth/auth.repository.ts:111-115 | each team the calls make is new and belongs to one user only |
| PersonalTeam.EveryCallEnds | apps/api/src/auth/auth.service.ts:41-69 | no run is longer than seven steps a call, and one that cannot go on has answered or failed every call |

## Left out

- ReorderLoop.Reorder: says nothing of reports on which the loop never ends; `ReorderLoop.EndsIff` says which. The laws of `Ordered` are about distinct ids.
- StepRegistry.Root.Flush: likewise requires that the loop ends on each of its lists (`StepTrace.ListsEnd`), and so do the methods that reach it.
- StepRuns.RunsKeepInv: assumes of callers that span ids are new, links acyclic and each step closed once (`StepRuns.Legal`); the runtime and random ids see to that.
- Delivery.ParentsNeverLate: assumes that no entry was shed and that every event met its condition; without them the code does not promise it. A parent first recorded after its child was is not covered, nor does the source promise it.
- RunOrder.WellPlacedSuffices: runs without refusals, and so `Delivery.WellPlacedIsPlaced`; with refusals the condition itself is the one to check.
- UniqueNames.NamesFit: needs the longest suffix to fit into 100 characters, which fails only beyond ten to the ninety-eighth scores.
- LocalRun.RunsAreOrderly: a result that throws while its size is taken is not modelled; the wire form has been through the same serialiser before.
- LocalRun.FinishIsTruthful: whether the finish request itself succeeds is not modelled; a failure there is thrown or warned about and sends nothing again.
- StableStringify.SameTextIffSame: values are JSON values and undefined; a number is its JSON text. BigInt, functions, dates and array holes are not modelled.
- PersonalTeam.OneTeamForAllCallers: memberships are added by these calls only; invitations and removals during the calls are not modelled.
- Update in place: `LocalRun`, `ConcurrentMap` and `PersonalTeam` are state machines on values: the source's closures over shared variables and its transactions are not objects here, and what one step does is what the source does between two `await`s.
- ToolLoop.StreamingLoop: the events of the generator are the list of what it yields; a consumer that stops reading is not modelled.
- The server side of a request: what it stores, rejects or retries. A request settles, well or badly.
- OpenTelemetry bridging, async context propagation, generators and garbage collection in `steps.ts`: only open, close and record events reach the model.
- Console warnings, timestamps and the payloads of spans beyond `droppedSpans`.
- Sinks that throw: `send` catches them, and the model's sink never throws.
- `_dispatchToolCall` beyond how a call ends: routing, tool spans and result schemas.
- The final shaping call of the tool loops when a response format is combined with tools: the two loops report different flags there.
- `normalizeScores`, `summarize`, `uploadBatch`'s retries and `truncate` in `local-experiment.ts`: easy members beside the ones modelled.
- The hash over the serialised variables and the render cache itself.
- REST namespaces, controllers, the worker and the web app: thin wrappers and plumbing.
