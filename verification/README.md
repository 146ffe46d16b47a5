# Verification model of jdocs

jdocs is a collaborative document server: clients edit one text at once over WebSocket connections,
several worker threads serve them, and an operational transformation engine makes the edits fit each
other. This project models the parts of the server where that can go wrong and proves what they are
for. The code is followed branch by branch, with its mistakes; where it does not do what it is meant
to do, an instance shows it and the exact condition under which it does is proved.

## What is modelled

**Editing** (`Edits`, `Operations`, `Transformation`, `Refinement`, `Convergence`, `Composition`,
`Documents`).
`Edits` reads an operation one text unit at a time and proves the algebra on that form: convergence,
composition, associativity, rebasing over a history. `Operations` has the run-length components, the
merging builders and the cursor as the program has them; `Transformation` has the two loops over two
cursors. `Refinement` and `Composition` prove what the loops do to the units, and `Convergence` that
`transform` converges on all operations, also where it does not follow the units. `Documents` is the
versioned document with its window of 50 edits. A text is a sequence of bytes; formatting attributes
never influence kind, length or text and are not modelled.

**Timers** (`Arithmetic`, `Clock`, `FlatTimers`, `TimerPlaces`, `TimerStates`, `TimerRuns`,
`TimerWheels`, `TimerSlots`). `FlatTimers` is the map from pending timers to ticks that a wheel is meant to be, under
any run of arming, cancelling and ticks. `TimerPlaces` has the levels, slots and the arithmetic of
filing and cascading; `TimerStates` the wheel as a value, with the back links of its timers, and when a
run of it follows the map; `TimerRuns` adds what callbacks do and catching up with the clock;
`TimerWheels` is the wheel as the program has it. In these a slot is the sequence of its timers; `TimerSlots` has the nodes and pointers behind such sequences.

**Buffers** (`Bits`, `Words`, `BitSets`, `BitMaps`, `BufferPools`). The bitmap's 64-bit words, masks and
running 32-bit count stand for a set of indices; the pool of send buffers allocates from it and grows by
blocks.

**WebSocket** (`Bytes`, `WebSocketParsers`, `WebSocketFrames`, `WebSocketHandlers`). The byte-wise
parser, the frames it reads, the reassembly of messages, pongs and close frames, and the fragmentation
of outgoing messages (sections 5.2 to 5.5 of RFC 6455). Any request for a send buffer may be refused.

**Request targets** (`HttpUris`, `HttpTargets`). The part of the HTTP parser that reads the request
target, undoing percent-encoding (section 2.1 of RFC 3986).

**Broadcast** (`Broadcasts`, `Routing`). Reference-counted messages between the users of a document as
a protocol of steps on all workers, and how a connection's worker is found.

Where the source keeps state in an object, the model has a class with the same fields, and each of its
methods is proved against a function on values; the lemmas are about those functions. A part of a
method that is proved on its own is a method of its own (`TransformOnce`, `ComposeOnce`, `Step`,
`Callback`, `FireList`, `ReadLength`, `HandleFrame`, `WriteRange`). The two range methods of the bitmap
differ in one operator and share `EditRange`.

## Where the code and its intention differ

- `OpInsert` appends to the text of a merged insertion but not to its stored length
  (src/services/document/ot.cc:24-29). `compose` later takes such an insertion to be finished too
  early. `Composition.ComposeExactly` gives the condition under which it keeps the meaning,
  `Documents.RunExactly` the condition for a whole run of edits, and `Documents.ThirdEditLosesText`
  three edits that lose a character. An object insertion, whose stored length is 1 beside a text of
  three bytes (src/services/document/ot.cc:161-165), is covered by the same condition.
- A component of length zero makes `transform` overlook an insertion behind it.
  `Refinement.SolidExactly` says for which server edits that can happen; the builders never make one.
  It converges all the same (`Convergence.LoopConverges`), for an author who reads the two edits as the
  loop does: the client's insertion comes before the overlooked one.
- `timer_cancel` clears the back link of the timer before handing it to the successor
  (src/core/timer.cc:23-29), so the successor hangs in its slot without knowing who points at it.
  Cancelling it then leaves it where it is and loses everything behind it (`TimerSlots.TimerCancel`,
  `TimerSlots.CancelTwice`). Arming it again, which every received buffer does to the idle timer of its
  connection (src/core/event_loop.cc:322), leaves it in its old slot as well: the old slot runs into the
  new one, whose timers then fire with whichever comes first (`TimerSlots.Rearm`,
  `TimerSlots.RearmTwice`), or, if it is the same slot, runs into itself without end
  (`TimerSlots.RearmInPlace`). `TimerStates.FollowsExactly` is the exact condition for a whole run of the
  wheel, and `TimerStates.TwoTimersHit` shows that two timers are enough to break it.
- A timer that fires keeps its link to the slot it fired from (src/core/timer.cc:103-112), so its
  destructor (src/core/timer.h:48-53) may write into a slot it is not in, and may give a
  timer that has been armed again meanwhile a wrong back link. `TimerSlots.Destroy` says when it is
  harmless; `TimerSlots.DestroyAfterFiring` loses another timer, and in `TimerSlots.DestroyInFront`
  another can no longer be cancelled.
- `send_pong_frame` copies the payload of a ping into a buffer of 2048 bytes whatever its length
  (src/protocol/websocket/websocket_handler.cc:194-207). It fits exactly up to 2044 bytes
  (`WebSocketHandlers.PongFits`, `WebSocketHandlers.OverrunExactly`); section 5.5 of RFC 6455 allows 125.
- A pong or close frame that finds no buffer closes the connection, and the close frame then leaves the
  state as it is (src/protocol/websocket/websocket_handler.cc:168-184): a message that gets too long with
  its last frame is then delivered without that frame (`WebSocketHandlers.CutOffMessage`), and for a
  frame of unknown kind between two messages the service gets an empty one
  (`WebSocketHandlers.UnknownCloses`).
- The end of a bitmap range is a 32-bit sum that may wrap past the guard (src/utils/bitmap.cc:56-60,
  src/utils/bitmap.cc:114-118). `BitSets.StrayExactly` and `BitMaps.BitMap.EditRange` say what happens
  then; `BitMaps.CountBelowZero` and `BitMaps.SetElsewhere` are instances. The size of a bitmap wraps too,
  for the topmost 63 sizes (src/utils/bitmap.cc:10).
- `ReplenishSendBuffer` does not compare the index with the number of buffers there are
  (src/core/buffer.cc:139-145). `BufferPools.BufferPool.ReplenishSendBuffer` says when the pool stays
  in order.
- Connection numbers travel in 28 bits (src/core/context.h:93-121). `Routing.RoutesExactly` shows that
  messages keep finding their worker exactly if the number of workers divides 2^28.
- The limit on a request target counts the space behind it, so that a target of 1024 bytes is refused
  although the limit is meant to be 1024 (src/protocol/http/http_parser.h:17-18).
  `HttpTargets.AcceptsExactly` has the exact bound.

## Model

| member | source | states |
|---|---|---|
| Edits.Converge | src/services/document/ot.cc:44-79 | For every text and any two in-range edits, the server edit followed by the rebased client edit gives the same text as the client edit followed by the server edit carried across it, and both second edits are in range |
| Edits.RebaseOverComposition | src/services/document/ot.cc:44-130 | Rebasing over two edits in turn equals, unit for unit, rebasing once over their composition |
| Edits.ComposeMeaning | src/services/document/ot.cc:81-130 | The composition of two edits is in range wherever the two are, and does to every text what the first and then the second do |
| Edits.ComposeAssociative | src/services/document/ot.cc:81-130 | Both groupings of three edits compose to the same edit, unit for unit |
| Edits.TransformKeepsInserts | src/services/document/ot.cc:57-61 | A rebased edit inserts exactly the client's characters, in the client's order |
| Edits.TransformRemoves | src/services/document/ot.cc:63-76 | A rebased edit removes exactly the characters that the client dropped and the server did not, in order |
| Edits.ConvergeOverHistory | src/services/document/document.cc:21-24 | Convergence over a history of any length: rebasing over every edit the client had not seen, and carrying those edits across the client's own, give one text |
| Edits.RebaseAllIsOneTransform | src/services/document/document.cc:21-24 | Rebasing over a history one edit at a time equals rebasing once over the composed history |
| Edits.ApplyAllIsOneApply | src/services/document/ot.cc:81-130 | Replaying a history is one application of its composition |
| Operations.WrapsByRemainder | src/services/document/ot.cc:9-19 | A length that does not fit 32 bits wraps to its remainder |
| Operations.Operation.OpRetain | src/services/document/ot.cc:9-19 | The new component list is what the builder function says: nothing for zero, merged into a last retain, else appended |
| Operations.Operation.OpInsert | src/services/document/ot.cc:21-32 | The same for text; a merge appends to the text and leaves the stored length, as the code does |
| Operations.Operation.OpDelete | src/services/document/ot.cc:34-42 | The same for deletions |
| Operations.OpIterator.Peek | src/services/document/ot.h:54-64 | The component shown is the front of what is left to read, cut at the offset, or an endless retain at the end; a shown insertion's length is the length of its text |
| Operations.OpIterator.Next | src/services/document/ot.h:65-73 | Moving the cursor takes a prefix off what is left to read; the stored length decides whether the component is finished |
| Transformation.TransformStep | src/services/document/ot.cc:48-77 | Every iteration keeps both remainders well formed and finishes at least one component on one side, so the loop ends |
| Transformation.TransformOnce | src/services/document/ot.cc:49-76 | The loop body does to cursors and builder what one step does to remainders and result |
| Transformation.Transform | src/services/document/ot.cc:44-79 | The loop builds what the iterated step builds |
| Transformation.ComposeStep | src/services/document/ot.cc:86-127 | As for transform: the remainders stay well formed and a component is finished |
| Transformation.ComposeOnce | src/services/document/ot.cc:87-126 | The loop body does to cursors and builder what one step does |
| Transformation.Compose | src/services/document/ot.cc:81-130 | The loop builds what the iterated step builds |
| Refinement.PushRetainMeaning | src/services/document/ot.cc:9-19 | OpRetain keeps the result free of empty components and equal neighbours, lays exactly n kept units at its end, and adds n to its weight |
| Refinement.PushInsertMeaning | src/services/document/ot.cc:21-32 | OpInsert keeps the normal form and lays exactly the text at the end |
| Refinement.InsertsBecomeOne | src/services/document/ot.cc:21-32 | Texts pushed one after the other behind anything but an insertion become one component with all of them as its text and the length of the first as its stored length |
| Refinement.PushDeleteMeaning | src/services/document/ot.cc:34-42 | OpDelete keeps the normal form and lays exactly n dropped units at the end |
| Refinement.TransformStepMeaning | src/services/document/ot.cc:48-77 | One iteration moves a run from what is to be read to what is built, by the unit rule, keeps the normal form and never lets the length it can reach grow |
| Refinement.TransformRefines | src/services/document/ot.cc:44-79 | From any point of the loop, result and remainders together mean what the unit rule says, for partial consumption, zero lengths and an exhausted side alike |
| Refinement.TransformMeaning | src/services/document/ot.cc:44-79 | transform refines the unit rule; its result has no empty component and no two neighbours of one kind |
| Refinement.ProbeFails | src/services/document/ot.cc:44-79 | For every server edit that hides an insertion behind an empty run, a client edit for which transform differs from the unit rule |
| Refinement.SolidExactly | src/services/document/ot.cc:44-79 | transform follows the unit rule for every client edit if and only if the server edit has no zero-length retain or delete before an insertion |
| Convergence.TransformBuilds | src/services/document/ot.cc:44-79 | Whatever the two operations are, transform adds exactly the units of ToBuild to what it has built |
| Convergence.LoopConverges | src/services/document/ot.cc:44-79 | From any point of the loop, for every text and all stored operations, hidden insertions and merged ones included: what is built after the server's edit and what is carried after the client's are in range and give one text |
| Convergence.LoopKeepsInserts | src/services/document/ot.cc:44-79 | What is built inserts exactly the client's characters, in order, for all operations |
| Convergence.LoopRemoves | src/services/document/ot.cc:44-79 | What is built removes exactly the characters that the client dropped and the server did not, for all operations |
| Convergence.CarryRefines | src/services/document/ot.cc:44-79 | What the author has to do with the server's edit is what the unit rule says if that edit hides no insertion |
| Convergence.TransformConverges | src/services/document/ot.cc:44-79 | transform on any two stored operations: the rebased edit is in range, both orders give one text, and the client's insertions and removals are kept |
| Composition.CleanStep | src/services/document/ot.cc:86-127 | The condition on boundaries is an invariant of the loop, and fails exactly when an iteration stops inside text behind a stored length |
| Composition.ComposeStepYield | src/services/document/ot.cc:86-127 | An iteration conserves the length of the text it will produce, except that one that tears an insertion loses exactly what the insertion has behind the stop |
| Composition.ComposeStepMeaning | src/services/document/ot.cc:86-127 | An iteration that tears nothing keeps the meaning of result and remainders together |
| Composition.ComposeLoop | src/services/document/ot.cc:81-130 | From any point of the loop: the normal form is kept, the meaning is kept if the boundaries are clean, unit for unit if nothing hides behind an empty run, and text is lost for good if they are not |
| Composition.ComposeExactly | src/services/document/ot.cc:81-130 | For every text, compose does what its two parts do if and only if no component of the newer operation ends behind the stored length but inside the text of an insertion of the older one |
| Composition.ComposeSplices | src/services/document/ot.cc:81-130 | Text put behind the k-th character of an insertion of any text and stored length: cut before the stored length the insertion is put together again with stored length k, cut at or behind it the rest is gone, and behind its end the operation goes on with a retain |
| Composition.RebaseOverComposed | src/services/document/ot.cc:44-130 | The history law on solid run-length operations: rebasing over two in turn is, unit for unit and for every client, rebasing over their composition, if and only if no component of the newer one ends at a fragile place |
| Composition.ComposeParts | src/services/document/ot.cc:81-130 | The composition reads no more of the text, and inserts no more, than its two parts together |
| Documents.Document.constructor | src/services/document/document.h:38-47 | An empty document at revision 0, whose stored text is the replicas' text |
| Documents.Document.ApplyOp | src/services/document/document.cc:13-39 | A version outside the window changes nothing and returns nothing; otherwise the revision grows by one, and what is returned, logged and composed into the stored text is the client's edit rebased over every later edit, for any edits; if it was in range for the text its author saw, all texts go on with it, and the stored text stays right exactly if no boundary is fragile |
| Documents.RebaseOver | src/services/document/document.cc:21-24 | The loop over the history is the iterated transform over exactly the edits from the client's version on, whatever they are |
| Documents.RebaseConverges | src/services/document/document.cc:21-24 | For any edits, hidden insertions included: rebased over a history of any length the client's edit is in range, keeps what it inserts, and gives the text that its author reaches by carrying the history across it |
| Documents.RebaseBySolid | src/services/document/document.cc:21-24 | Over edits that hide no insertion, rebasing is what the unit rule says |
| Documents.CarryBySolid | src/services/document/document.cc:21-24 | And carrying them across the client's edit is what the unit rule says |
| Documents.Document.PushToHistory | src/services/document/document.cc:41-47 | The history stays exactly the latest 50 accepted edits, and min_revision_ the number of those before them |
| Documents.Document.GetContent | src/services/document/document.h:22-26 | The stored text and the number of accepted edits; that text is what replaying all accepted edits gives if and only if none had a fragile boundary |
| Documents.HoldsIsOneInsert | src/services/document/document.cc:31 | A stored text is at most one insertion, which carries the whole text |
| Documents.ContentExactly | src/services/document/document.cc:31 | Folding an in-range edit into the stored text gives the new text if and only if no boundary is fragile |
| Documents.RunExactly | src/services/document/document.cc:13-39 | Over any run of accepted edits the stored text equals the replicas' text at the end if and only if no edit of the run had a fragile boundary; lost text never comes back |
| Documents.ServeConverges | src/services/document/document.cc:21-38 | An accepted edit, in range for what its author saw, is in range for the server's text, inserts what its author inserted, and gives the text that its author reaches by carrying the unseen edits across its own; for any edits |
| Documents.RunKeepsReplicas | src/services/document/document.cc:13-39 | Over any run of requests, with any operations in range at any accepted versions, nothing accepted is rewritten, everything stays replayable, and a replica that starts at any revision and applies the later edits in order holds the server's text |
| Documents.StoredExactly | src/services/document/document.cc:21-38 | An accepted in-range edit moves the replicas' text on, and leaves the stored text right if and only if it was and no boundary is fragile |
| Documents.ThirdEditLosesText | src/services/document/ot.cc:24-29 | Three in-range edits of one author after which every replica reads aXYb and the stored text aXY |
| Clock.AddMillis | src/utils/helpers.cc:61-68 | The time moves by exactly the milliseconds and its nanoseconds stay below a second |
| Clock.RingEntry | src/core/timer.cc:9-18 | Every entry of the ring is the deadline of its tick, so many ticks after the start, to the nanosecond |
| Clock.WakingReachesTick | src/core/timer.cc:115-120 | Although both clock readings are cut to milliseconds, waking at or after deadline i aims at tick i+1 or later, and waking a millisecond early does not reach it |
| Clock.DeadlinesAreReached | src/core/timer.cc:115-120 | A tick count that has caught up with the clock has passed every deadline that the clock has |
| FlatTimers.LeftAloneFiresOnce | src/core/timer.cc:33-113 | Over any run in which other timers are armed and cancelled between and in the ticks, a timer that nobody touches fires in the tick it was set for and in no other, and is pending exactly until then |
| FlatTimers.ArmedFiresOnce | src/core/timer.cc:33-41 | A timer armed for some milliseconds and left alone fires, in any run, as many ticks later as fit into them, and at least one, and never otherwise |
| FlatTimers.DelayIsTicks | src/core/timer.cc:35-38 | The delay in ticks is the one number of whole ticks that fit into the milliseconds, or 1 if none does |
| FlatTimers.RearmedFiresPeriodically | src/core/timer.cc:33-113 | A timer that is armed again in every tick that fires it fires when it was set for and then exactly every max(1, millis/tick) ticks, whatever happens to other timers |
| TimerPlaces.HomeFits | src/core/timer.cc:43-68 | For every distance below 2^32 the level and slot picked leave 1 to 64 blocks of that level before the cascade, or less than 256 ticks on level 0 |
| TimerPlaces.HomeIsBelow | src/core/timer.cc:70-78 | A timer whose block has been reached is filed on a lower level, even when several levels cascade in one tick |
| TimerPlaces.CascadeSlot | src/core/timer.cc:87-92 | The slot a cascade takes holds exactly the timers whose block has been reached, wrapped slots included |
| TimerPlaces.CascadeStops | src/core/timer.cc:86-102 | Where the cascade stops, no higher level has reached a new block |
| TimerPlaces.CurrentSlotIsDue | src/core/timer.cc:103-104 | Once everything is settled, the current slot of the first wheel holds exactly the timers due now |
| TimerStates.Cascade | src/core/timer.cc:70-78 | Every timer of the slot is filed again and linked, none lost or doubled, nobody else loses a link, and the level is settled |
| TimerStates.CascadeFrom | src/core/timer.cc:85-102 | After the cascade every pending timer is settled on its level, and the same timers are pending and linked |
| TimerStates.TickedMeans | src/core/timer.cc:80-113 | One tick of the wheel is one tick of the flat map: it fires exactly the timers due, each once, and keeps the others and their links |
| TimerStates.CancelMeans | src/core/timer.cc:20-31 | Cancelling a timer that is linked or not pending takes exactly it out of the pending map |
| TimerStates.ArmMeans | src/core/timer.cc:33-41 | Arming a timer that is linked or not pending sets exactly it, to the current tick plus the whole ticks that fit into the delay, at least one, for every delay below 2^32 |
| TimerStates.CancelHit | src/core/timer.cc:20-31 | Cancelling a pending timer without its back link leaves it in its slot and everything behind it in none |
| TimerStates.ArmHit | src/core/timer.cc:33-41 | Arming such a timer makes its old slot run into the new one, whose timers then hang in both, or into itself |
| TimerStates.HitShows | src/core/timer.cc:20-41 | Right after cancelling or arming such a timer the slots do not hold exactly the pending timers, each once |
| TimerStates.FollowsExactly | src/core/timer.cc:20-113 | Through any run of arming, cancelling and ticks the slots hold exactly the flat map's pending timers, each once, if and only if no operation cancels or arms a pending timer that has lost its back link; then the run fires exactly what the flat map fires, each firing once |
| TimerStates.LinksAfterCancel | src/core/timer.cc:20-31 | Cancelling unlinks the timer right behind and nobody else |
| TimerStates.LinksAfterArm | src/core/timer.cc:33-41 | Exactly who is linked after arming: the timer itself, the old front of its new slot, and whoever was and is not right behind it in its old one |
| TimerStates.LinksAfterTick | src/core/timer.cc:80-113 | A tick takes nobody's link who stays pending |
| TimerStates.TwoTimersHit | src/core/timer.cc:33-41 | Two timers armed for one slot and the second armed again for another leave the first without its back link |
| TimerRuns.MeddlingExactly | src/core/timer.cc:103-112 | Which callbacks of a tick are not modelled: those of a timer that touch a timer behind it in the list |
| TimerRuns.CalmRun | src/core/timer.cc:115-120 | Calm ticks are a run of the wheel with that many ticks that leaves it sound |
| TimerRuns.UntouchedFire | src/core/timer.cc:80-113 | Over any sound run every pending timer that is not touched has fired in its tick, if that is reached, and otherwise still waits for it |
| TimerRuns.OwnIsCalm | src/core/timer.cc:103-120 | Callbacks that arm and cancel only their own timers never do the wheel any harm, over any number of ticks and whatever timers are linked |
| TimerRuns.CatchUpFollows | src/core/timer.cc:115-120 | With such callbacks catching up by n ticks ends n ticks later, with the pending timers and firings of the flat map |
| TimerRuns.CatchUpFires | src/core/timer.cc:115-120 | And a timer whose callback does nothing fires if and only if its tick is reached, in that tick, and is pending with its old tick otherwise |
| TimerRuns.QuietCatchUp | src/core/timer.cc:115-120 | Without callbacks, catching up fires exactly the timers due by then, each once and in its tick, and leaves exactly the others |
| TimerRuns.CatchUpBeats | src/core/timer.cc:103-120 | A timer whose callback arms it again fires first when it was set for and then every period, through the callbacks of any number of ticks, and never otherwise |
| TimerWheels.TimeWheel.constructor | src/core/timer.cc:9-18 | A wheel with nothing pending at tick 0 whose ring holds the first four deadlines |
| TimerWheels.TimeWheel.Insert | src/core/timer.h:87-94 | The timer becomes the front of its slot, and it and the old front are linked |
| TimerWheels.TimeWheel.TimerAdd | src/core/timer.cc:43-68 | The chain of distances files the timer where its level and slot say |
| TimerWheels.TimeWheel.TimerCancel | src/core/timer.cc:20-31 | The whole state after cancelling, for linked, unlinked, fired and idle timers; the pending map loses exactly the timer if it was not unlinked |
| TimerWheels.TimeWheel.AddTimer | src/core/timer.cc:33-41 | The whole state after arming, for a new, fired, pending or unlinked timer; if it was not unlinked the pending map gets exactly the timer, for the tick that is as many whole ticks ahead as fit into the delay, and at least one |
| TimerWheels.TimeWheel.TimerCascade | src/core/timer.cc:70-78 | The loop files the timers of the slot one after the other |
| TimerWheels.TimeWheel.CascadeAll | src/core/timer.cc:85-102 | The loop cascades level by level as long as a slot starts a block of the next level |
| TimerWheels.TimeWheel.AdvanceClock | src/core/timer.cc:80-83 | The ring holds the next four deadlines after the tick |
| TimerWheels.TimeWheel.Callback | src/core/timer.cc:108-110 | A callback's arming and cancelling does the same whether the timers behind it are still to be fired or have been |
| TimerWheels.TimeWheel.FireList | src/core/timer.cc:105-112 | Walking the detached list and running each callback is firing all of it and then doing what the callbacks do, in order |
| TimerWheels.TimeWheel.Tick | src/core/timer.cc:80-113 | A tick with its callbacks is the tick of the wheel followed by what the callbacks do, in the order of the slot; the model goes on exactly if none of them hits an unlinked timer or touches one that waits to be fired |
| TimerWheels.TimeWheel.Update | src/core/timer.cc:115-120 | What is done is exactly the ticks up to the clock, each with its callbacks; the wheel stays sound if and only if all those ticks are calm, and then the current tick is the maximum of itself and the elapsed milliseconds divided by the tick, has passed every deadline the clock has, every timer left alone has fired in its tick or still waits for it, and pending timers and firings are those of the flat map |
| TimerSlots.Insert | src/core/timer.h:87-94 | The forward links give the old list with the timer in front, and the back links of both nodes at the front are right |
| TimerSlots.TimerCancel | src/core/timer.cc:20-31 | A timer with its back link leaves the list, and the other back links stay right if and only if it had no successor; one that knows nobody, or somebody of another slot, stays and cuts off everything behind it; a fired timer, and one that was never armed, changes nothing, in a slot or in none |
| TimerSlots.Rearm | src/core/timer.cc:33-41 | After arming a pending timer for another slot the two slots are separate lists if and only if it had its back link; otherwise the old slot, up to the timer, runs into the new one |
| TimerSlots.RearmInPlace | src/core/timer.cc:33-41 | Armed for its own slot the timer comes to the front, or, without its back link, no list is what the head leads through |
| TimerSlots.Destroy | src/core/timer.h:48-53 | The slot is a list without the timer, and every back link that was right still is, if and only if a timer of the slot has its own back link, or one of no slot neither writes another pointer into it nor another back link to a node that knows better |
| TimerSlots.FireSlot | src/core/timer.cc:103-112 | Firing takes all timers out of the slot and marks them; their links stay as they were |
| TimerSlots.CancelTwice | src/core/timer.cc:20-31 | For every slot of two or more timers: cancelling the first and then the second leaves the second in the slot and loses all others |
| TimerSlots.RearmTwice | src/core/timer.cc:33-41 | For every slot of two or more timers: arming the first again for a second slot and the second for a third leaves the second in its old slot with everything of the third behind it |
| TimerSlots.DestroyAfterFiring | src/core/timer.h:48-53 | Destroying a timer that has fired, after another was armed into the slot it fired from, empties the slot |
| TimerSlots.DestroyInFront | src/core/timer.h:48-53 | Three neighbours fire, the third is armed again and the second destroyed: cancelling the third then leaves it in its slot and loses everything behind it |
| BitSets.CtzIsFirstFree | src/utils/bitmap.cc:26-30 | The lowest zero bit of the first word that is not full is the first free index of all |
| BitSets.EditWord | src/utils/bitmap.cc:72-94 | Writing one masked word extends the edited range by exactly the selected bits, and the popcount of the masked word is the number in use among them |
| BitSets.RangeDone | src/utils/bitmap.cc:72-97 | Once first, middle and last word are written the count is the number of indices in use, and the set has gained or lost exactly the range |
| BitSets.StrayExactly | src/utils/bitmap.cc:55-98 | With an end that has wrapped, setting never leaves set and count as they were; clearing does if and only if nothing was set where it strays to |
| BitMaps.BitMap.constructor | src/utils/bitmap.cc:9-19 | Every index is in use with the disable flag, none without, also in a partial last word; the bitmap is in order if and only if rounding its size up does not wrap, and has no words if it does |
| BitMaps.BitMap.GetAndSetIndex | src/utils/bitmap.cc:23-41 | Returns the smallest free index and takes it, or -1, changing nothing, if and only if every index is in use |
| BitMaps.BitMap.SetIndex | src/utils/bitmap.cc:43-53 | Succeeds exactly for a free index below the size, and adds exactly that |
| BitMaps.BitMap.RemoveIndex | src/utils/bitmap.cc:100-111 | Succeeds exactly for an index in use, and removes exactly that |
| BitMaps.BitMap.SetIndexRange | src/utils/bitmap.cc:55-98 | Adds exactly the requested indices, whatever words they cover, or none if the range leaves the bitmap, if and only if the sum does not wrap or the range is refused for where it begins; else, which bits are set and what the count becomes, or that the program leaves its words |
| BitMaps.BitMap.RemoveIndexRange | src/utils/bitmap.cc:113-154 | The same for removing; after a wrapped sum the set is as it was if and only if nothing was set where the program strays to |
| BitMaps.BitMap.EditRange | src/utils/bitmap.cc:55-98 | Both at once: the exact result for every begin and count of 32 bits, with the count kept and never below zero when the sum does not wrap |
| BitMaps.BitMap.WriteRange | src/utils/bitmap.cc:60-95 | First word, middle words and last word write exactly the range and count it out, or, if the end is before the beginning, the parts behind the one and before the other |
| BitMaps.CountBelowZero | src/utils/bitmap.cc:55-98 | A range of a bitmap of 100 that passes the guard, sets nothing and takes the count to 2^32 - 5 |
| BitMaps.SetElsewhere | src/utils/bitmap.cc:55-98 | One that sets the indices from 70 on and those below 49 |
| BitMaps.BitMap.Clear | src/utils/bitmap.cc:156-159 | No index is in use |
| BitMaps.BitMap.Size | src/utils/bitmap.h:32-34 | The running count is the cardinality of the set |
| BufferPools.BuffersAreDisjoint | src/core/buffer.cc:129-137 | Different indices give ranges of 2048 bytes that do not overlap, each inside its block |
| BufferPools.BuffersInOrder | src/core/buffer.cc:88-137 | A block holds its 256 buffers in order from where it starts, each right behind the one before, as it is registered |
| BufferPools.BufferPool.constructor | src/core/buffer.cc:10-28 | No buffer is held, and there is one block of buffers unless the system refused it |
| BufferPools.BufferPool.AllocSendBuffers | src/core/buffer.cc:88-117 | The pool grows by exactly one block unless it is at its cap or the system refuses, and then something is free |
| BufferPools.BufferPool.GetSendBufferIndex | src/core/buffer.cc:120-127 | Hands out the smallest index that is not held, always one with a buffer; -1 if and only if all are held and the pool is at its cap or cannot grow |
| BufferPools.BufferPool.GetSendBuffer | src/core/buffer.cc:129-137 | An address exactly for the indices that have a buffer |
| BufferPools.BufferPool.ReplenishSendBuffer | src/core/buffer.cc:139-145 | The buffer is no longer held; the pool stays in order if and only if the index is not one that never had a buffer |
| WebSocketParsers.WebSocketParser.ParserExecute | src/protocol/websocket/websocket_parser.cc:11-99 | A call takes bytes from where the last one stopped, also after an error, ends where feeding them one by one ends, remembers an older error, and reports the bytes taken, or 0 on an error |
| WebSocketParsers.ResumableExactly | src/protocol/websocket/websocket_parser.cc:51-73 | After an error the parser can be called again if and only if the error was not a length that is too big |
| Bytes.XorAt | src/protocol/websocket/websocket_parser.cc:84-93 | A bit of an unmasked byte is set if and only if exactly one of the byte and its key byte has it |
| Bytes.HighestFirst | src/protocol/websocket/websocket_parser.cc:50-75 | The first byte of a length is the highest |
| WebSocketParsers.WebSocketParser.Step | src/protocol/websocket/websocket_parser.cc:17-96 | The byte loop's body does to the fields what feeding one byte does |
| WebSocketFrames.RunConcat | src/protocol/websocket/websocket_parser.cc:11-99 | Reading a buffer in two parts is reading it at once, state and bytes taken |
| WebSocketFrames.RunHeader | src/protocol/websocket/websocket_parser.cc:18-84 | FIN, reserved bits, opcode, a length in any of its three forms and the masking key are read right, taking exactly the bytes of the header |
| WebSocketFrames.FrameParses | src/protocol/websocket/websocket_parser.cc:11-99 | Whatever follows, the parser takes exactly the bytes of one masked frame and has its FIN, reserved bits, opcode and payload |
| WebSocketFrames.HelloParses | src/protocol/websocket/websocket_parser.cc:11-99 | The masked frame of section 5.7 of RFC 6455, byte for byte, is read as the text Hello |
| WebSocketFrames.LongHeaders | src/protocol/websocket/websocket_parser.cc:26-75 | The headers for 256 bytes and for 64 kilobytes there, masked and unmasked, byte for byte |
| WebSocketFrames.UnmaskedIsRefused | src/protocol/websocket/websocket_parser.cc:27-33 | A frame without a mask is a protocol error, whatever its length |
| WebSocketFrames.LengthIsLimited | src/protocol/websocket/websocket_parser.cc:62-73 | A 64-bit length is refused as too big if and only if it is above 65536, and nothing after it is read |
| WebSocketHandlers.RecvAnyCut | src/protocol/websocket/websocket_handler.cc:23-59 | Without a parse error, receiving any number of buffers is receiving them as one, with any buffers refused and any answers of the service |
| WebSocketHandlers.RecvStream | src/protocol/websocket/websocket_handler.cc:23-59 | Receiving the bytes of any list of frames does to the session what taking the frames one by one does, pongs, closing and requests for buffers included |
| WebSocketHandlers.AnyCutDelivers | src/protocol/websocket/websocket_handler.cc:23-59 | For every stream of masked frames and every way of cutting it into buffers, the messages delivered and everything else in the session are those of the frames |
| WebSocketHandlers.PongFits | src/protocol/websocket/websocket_handler.cc:194-207 | A pong fits its buffer if and only if the ping carried at most 2044 bytes |
| WebSocketHandlers.OverrunExactly | src/protocol/websocket/websocket_handler.cc:194-207 | A ping writes behind a buffer if and only if it is longer than that and finds a buffer |
| WebSocketHandlers.PingsDoNotMatter | src/protocol/websocket/websocket_handler.cc:133-166 | If every request finds a buffer and pongs are the ones waited for, pings and pongs between any frames change neither state, messages nor connection |
| WebSocketHandlers.FragmentsAreAMessage | src/protocol/websocket/websocket_handler.cc:209-244 | The frames of a message carry it in order, fit 2048 bytes each, are never empty, start with TEXT and go on with continuations, and only the last has FIN |
| WebSocketHandlers.FirstFragment | src/protocol/websocket/websocket_handler.cc:209-244 | How long every fragment is: 2044 bytes fit one, and 2038 are taken while 65535 or more are left |
| WebSocketHandlers.AffordableExactly | src/protocol/websocket/websocket_handler.cc:87-98 | How much of a payload a buffer of any size takes: what is left of it behind the header that the whole payload needs |
| WebSocketHandlers.OnTheWire | src/protocol/websocket/websocket_handler.cc:62-85 | The bytes of a frame of the server, for each of the three lengths |
| WebSocketHandlers.HelloOnTheWire | src/protocol/websocket/websocket_handler.cc:62-85 | The text Hello in one unmasked frame and in two, as in section 5.7 of RFC 6455 |
| WebSocketHandlers.StreamArrives | src/protocol/websocket/websocket_handler.cc:100-166 | Fragments with pings and pongs between them deliver their message whole if nothing disturbs the handler and it is not too long, nothing if something disturbs it, and otherwise nothing or, with the connection closed, a beginning of it |
| WebSocketHandlers.MessageArrives | src/protocol/websocket/websocket_handler.cc:100-131 | A fragmented message is delivered once and whole if it has at most 65536 bytes, and never whole otherwise |
| WebSocketHandlers.CutOffMessage | src/protocol/websocket/websocket_handler.cc:104-117 | A message that gets too long with its last frame, with no buffer to say so, is delivered without that frame |
| WebSocketHandlers.MessageRoundTrip | src/protocol/websocket/websocket_handler.cc:23-59 | Any message the server would send arrives as that message when a client sends its frames back, with any masking keys, length forms, pings in between, cuts and refused buffers, if and only if it has at most 65536 bytes and the pings and pongs before its last frame leave the connection open |
| WebSocketHandlers.WebSocketHandler.SendDataFrame | src/protocol/websocket/websocket_handler.cc:209-244 | The loop ends; it sends the frames of the message in order until a buffer is refused, and closes then |
| WebSocketHandlers.SendAllExactly | src/protocol/websocket/websocket_handler.cc:209-244 | The frames sent are exactly those before the first request for a buffer that is refused, in order, and the connection is closed if and only if there is one |
| WebSocketHandlers.AnswerGoesOut | src/protocol/websocket/websocket_handler.cc:23-59 | With every request granted the service's answer to a message is sent, whole and in order |
| WebSocketHandlers.CloseEnds | src/protocol/websocket/websocket_handler.cc:133-142 | A close frame closes the connection, and nothing is delivered or sent after it, whatever comes |
| WebSocketHandlers.PingAnswered | src/protocol/websocket/websocket_handler.cc:143-147 | A ping is answered by exactly one pong with its payload, or, without a buffer, by closing; nothing else changes |
| WebSocketHandlers.PongTaken | src/protocol/websocket/websocket_handler.cc:148-160 | A pong that is waited for ends the waiting, another than the expected one also closes, and one that is not waited for does nothing |
| WebSocketHandlers.ExpectedExactly | src/protocol/websocket/websocket_handler.cc:152-157 | The expected pong carries the text of the ping, alone or ended by a zero byte |
| WebSocketHandlers.UnknownCloses | src/protocol/websocket/websocket_handler.cc:100-166 | Opcodes without a meaning and continuations of nothing lead to closing, and when exactly the service is called all the same |
| WebSocketHandlers.NormalIsEmpty | src/protocol/websocket/websocket_handler.cc:23-131 | Between two messages the cache is empty, after any frame |
| WebSocketHandlers.ClosingIgnores | src/protocol/websocket/websocket_handler.cc:100-103 | A handler that is closing takes no more data |
| WebSocketHandlers.BinaryIsText | src/protocol/websocket/websocket_handler.cc:118-126 | Binary messages are taken like text |
| WebSocketHandlers.ErrorsAreRepeated | src/protocol/websocket/websocket_handler.cc:52-58 | After an error every buffer that completes no frame is answered by closing again |
| WebSocketHandlers.WebSocketHandler.SendCloseFrame | src/protocol/websocket/websocket_handler.cc:168-184 | The session is closing, or, without a buffer, the connection is closed and the state stays |
| WebSocketHandlers.WebSocketHandler.SendPongFrame | src/protocol/websocket/websocket_handler.cc:194-207 | The payload goes back, or, without a buffer, the connection is closed; whether the frame is longer than its buffer |
| WebSocketHandlers.WebSocketHandler.FrameHandle | src/protocol/websocket/websocket_handler.cc:100-131 | State and cache after a data frame, with the size limit, stray continuations, unknown opcodes and refused buffers |
| WebSocketHandlers.WebSocketHandler.ControlFrameHandle | src/protocol/websocket/websocket_handler.cc:133-166 | What close, ping, pong, with and without a ping outstanding, and unknown control frames do to the session |
| WebSocketHandlers.WebSocketHandler.RecvDataHandle | src/protocol/websocket/websocket_handler.cc:23-59 | The loop over a received buffer ends and leaves parser and session as the function on values says, also after an error, which it goes on answering with close frames |
| HttpUris.RunAnyCut | src/protocol/http/http_parser.cc:9-188 | However the request is cut into buffers, the parser ends the same |
| HttpUris.HttpParser.ParserExecute | src/protocol/http/http_parser.cc:9-188 | The loop ends where feeding the bytes one by one ends, and takes the whole buffer unless the target is complete or in error |
| HttpUris.HttpParser.Step | src/protocol/http/http_parser.cc:17-188 | One byte in each state up to the end of the target |
| HttpUris.HttpParser.ReadLocation | src/protocol/http/http_parser.cc:57-79 | One byte of the path, limit and fragment error first |
| HttpUris.HttpParser.ReadKey | src/protocol/http/http_parser.cc:95-120 | One byte of a key: plus is a space, an empty key is an error |
| HttpUris.HttpParser.ReadValue | src/protocol/http/http_parser.cc:135-174 | One byte of a value: an ampersand or space stores the pair, behind earlier values of the key; an empty value is an error |
| HttpUris.HttpParser.Decode | src/protocol/http/http_parser.cc:80-94 | One hexadecimal digit: the first is shifted in, the second added |
| HttpUris.HexDigits | src/protocol/http/http_parser.h:93-108 | The sixteen digits in either case, and nothing else, with their values |
| HttpTargets.EverythingCanBeWritten | src/protocol/http/http_parser.h:93-108 | Every byte string can be percent-encoded in every part of a target and means itself |
| HttpTargets.EscapedSlash | src/protocol/http/http_parser.h:93-108 | %2f and %2F are a slash |
| HttpTargets.RunText | src/protocol/http/http_parser.cc:57-188 | From any point of a part, reading a written text appends exactly its meaning, unless the limit is passed, and then the URI is invalid |
| HttpTargets.CollectedValues | src/protocol/http/http_parser.cc:145-153 | Storing pairs one by one gives every key its values, in order, and no other keys |
| HttpTargets.TargetRoundTrip | src/protocol/http/http_parser.cc:57-188 | Every path and list of pairs, written in any of the ways there are and cut anywhere, is read back as that path and, per key, its values in order, if it fits the limit, and refused as invalid if not |
| HttpTargets.AcceptsExactly | src/protocol/http/http_parser.cc:9-188 | A request is accepted up to the end of its target if and only if it starts with GET, one space and a target that can be written, of less than 1024 bytes |
| Routing.RoutesExactly | src/core/server.h:24-34 | Every message for every connection that can be counted finds the worker that owns it if and only if the number of workers divides 2^28 |
| Routing.EarlyRoutes | src/core/server.h:24-34 | Before the numbers reach 28 bits any number of workers will do |
| Broadcasts.CountsExactly | src/services/document/document_service.cc:154-164 | A context counted for all users but one balances if and only if its sender is a user exactly once |
| Broadcasts.CountsAll | src/services/document/document_service.cc:222-232 | A context counted for all users balances if and only if its sender has left the list |
| Broadcasts.NextKeeps | src/services/document/document_service.cc:149-235 | Every step of every handler, send and delivery keeps all counts and user lists right |
| Broadcasts.EveryRunAccounts | src/core/context.h:71-77 | Over every interleaving a context is freed at most once, exactly when nothing is left to issue or deliver, is never used after that, and each of its users was handled once |
| Broadcasts.NextMisuses | src/core/context.h:71-77 | Using a freed context, to issue a send or to handle a message, is recorded as misuse, and nothing else is |
| Broadcasts.NextDelivers | src/core/event_loop.cc:417-442 | Every step keeps that nobody has received more than they were addressed |
| Broadcasts.EveryRunDeliversAtMostOnce | src/core/event_loop.cc:417-442 | Over every interleaving nobody receives a message twice or one not addressed to them |
| Broadcasts.NextReceives | src/core/event_loop.cc:417-442 | A step gives a message to exactly the user it hands it to, once, if and only if that user is online |
| Broadcasts.NextHandles | src/core/event_loop.cc:417-442 | And counts exactly that user as handled, online or not |
| Broadcasts.EveryRunDelivers | src/core/event_loop.cc:417-442 | Over every interleaving a user who is online when a message is announced and stays so has received it exactly as often as it is addressed once it is freed, and never more than has been handled before |
| Broadcasts.OnlineIsConnected | src/core/event_loop.cc:430-436 | A connection is online if and only if it has connected and not disconnected since |
| Broadcasts.EditAddressesOthers | src/services/document/document_service.cc:182-209 | An edit is addressed to every other connection with the document open, once, and to nobody else |
| Broadcasts.OpenAddressesOthers | src/services/document/document_service.cc:149-180 | Opening a document is announced to every other connection that has it open, once, and to nobody else |
| Broadcasts.CloseAddressesRest | src/services/document/document_service.cc:211-235 | Closing one is announced to every connection that still has it open, once, and to nobody else |
| Broadcasts.OpenExactly | src/services/document/document_service.cc:149-235 | A connection has open exactly the document that it has opened last and not closed since |

## Left out

- JSON parsing and printing, formatting attributes and their merging: they depend on a library that is not part of this model. An object insertion is a component like any other.
- io_uring, sockets, thread start-up, logging and the database wrapper. Memory and its registration are parameters of the buffer pool; a clock reading is a parameter of the timers; which requests for a send buffer are granted is a parameter of the WebSocket handler. Closing a connection succeeds.
- The registry of open documents and its weak pointers; each handler of a document service is one step of the broadcast, with sends and deliveries as steps of their own.
- The receive-buffer ring, the chat service and the map from users to connections.
- HTTP version token, headers and the handshake's answer: the request line is modelled up to the end of its target. Version and headers are many special cases without a specification of their own.
- WebSocket close codes, the timing of the close handshake, when the server pings, and UTF-8 validation. What memory holds after a pong has been written behind its buffer is not modelled.
- Users of a document are a list in the broadcast model and not a field of `Document`.
- Operations.Operation.OpRetain: a component list is a value, so what another holder of the same list would see of the change is not modelled.
- Transformation.Transform: requires what the constructors of components establish, that a stored length never exceeds its text; edits whose fields were set by hand are not covered.
- Documents.Document.ApplyOp: requires that the lengths of the stored text, the client's edit and the edits it is rebased over add up to less than 2^32; the promise about texts is for edits in range for the text their author saw, which the code does not check. The version is a parameter and a result instead of a reference.
- Composition.RebaseOverComposed: for solid operations whose lengths leave room below 2^32; where an insertion hides behind an empty run, `SolidExactly` and `ComposeLoop` say what the loops build one at a time.
- TimerWheels.TimeWheel.Tick: the model ends when a callback arms or cancels a timer that waits to be fired in the same tick, whether the program minds or not, or hits an unlinked timer; what the program does with the slots from there on is not modelled, nor are callbacks that destroy timers.
- TimerWheels.TimeWheel.AddTimer: requires that nothing has damaged the wheel before; the first damage is modelled.
- TimerWheels.TimeWheel.Update: the current tick is unbounded; wrapping at 2^64 ticks is not modelled.
- BitMaps.BitMap.EditRange: where the wrapped sum is zero the loop leaves the array, and what it writes there is not modelled.
- WebSocketParsers.WebSocketParser.ParserExecute: not after a length that is too big: the program then writes behind the length, and what that does is not modelled.
- WebSocketHandlers.WebSocketHandler.RecvDataHandle: the same.
- HttpUris.HttpParser.ParserExecute: requires that no earlier call ended in an error, which its caller sees to by closing the connection, and stops behind the target, where the program goes on with the version. A string that the program has moved out of counts as empty.
