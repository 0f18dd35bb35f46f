# Universal Harness core protocols, verified

A Dafny model of the parts of Universal Harness whose correctness is hardest to see
from the code: the shared event stream hub of the dashboard, the Git control store
that many adapters race on, the deterministic task ordering behind the task list,
the parsers of Git's NUL-separated formats and of IPv6 literals, and the lease, lock
and connection rules around them. `dafny verify dfyconfig.toml` checks everything.

## The pieces

**Event hub.** `EventSource` is the delivery index with its cursors and paged reads.
`HubClientSpec` gives the hub's operations on one subscriber as functions on values,
and `EventHub` is the hub as classes whose fields are updated in place; each method
is proved to do what the function says, and `HubRefinement` shows that the methods are
the steps of the transition system below. `HubStream` defines what a gap-free stream is
and shows that every operation keeps it. `HubRuns` puts many subscribers, the source
and the poll loop into one transition system whose schedules are arbitrary lists of
steps; `HubTheorems`, `HubSubscribers`, `HubDelivery`, `HubNotices`, `HubIsolation` and
`HubLoop` state the results over all of them.

**Control store.** `GitGraph` models commits as immutable values that contain their
parents. `ControlRecords` has the record chain, the file names and reading a chain
back from a tree. `ControlStore` is the protocol: any number of adapters, each with
its own mirror, whose calls interleave freely; a push lands, is rejected, finds the ref
already there, or loses its answer and may land at any later time. `ControlInvariant` shows that a step
either lands one pending push or leaves the remote alone; `ControlSafety` proves the
invariants once for each kind; `ControlTheorems`, `ControlAdmission`,
`ControlCandidates`, `ControlCalls` and `ControlAnswers` draw the conclusions for every run.

**Task list.** `TaskOrder` defines the order and proves what it means, `TaskOrdering`
is the algorithm with in-degrees, a sorted ready list and a fallback, `TaskRepeats` and
`TaskPrecedence` say what it does when ids are repeated, `Projection` and
`TasksProjection` render the list from graph records, and `TasksText` reads the text back.

**Parsers and guards.** `Splitting`, `StatusParsers` and `DiffStat` cover Git's status,
name-status and numstat formats and their join. `Ipv6` and `JudgeTransport` cover the
text forms of section 2.2 of RFC 4291, the private-address verdict and the bounded
read; `AddressText` prints addresses and reads them back. `ConnectedDrive` has the lease and the Driver Lock on every exit of a connected
run, `Connections` the two readers of connection records. `Text` and `Options` are
shared.

## What the proofs found

These promises hold only under a condition. For each there is an input that breaks it
and the condition under which it holds, exactly unless said otherwise.

- The first catch-up of a subscriber is gap-free exactly when its cursor is not beyond
  the head the view captured; otherwise it is moved backwards and handed entries from
  before its own start (`CatchUpIsGapFreeIff`, `NewerCursorIsReplayed`). Such a cursor
  needs a second reader of the source: while only the hub refreshes the source, as in
  packages/dashboard/src/server.ts:157-159, every issued cursor is served without a gap
  (`OwnRefreshIsGapFree`).
- A client that joins between the poll loop's return and the reset of its running flag
  is never polled until somebody else subscribes; a cursor that passes the router's
  pattern and cannot be decoded makes a read throw, which ends the loop for everyone.
  These two are the only ways (`ServedUnlessStranded`, `SweepThrowsIff`), each happens on
  a run from the start (`ExitWindowStrands`, `MalformedCursorStrands`), and without either
  everyone is served (`ConsiderateSchedulesServe`).
- A consumer that keeps draining is closed all the same: the stall rule looks at whether
  a backlog remains at the end of each tick, and only an empty queue there clears the
  clock, while its comment speaks of a backlog that stops draining
  (`DrainingClientIsClosed`; the exact rule is `StallRule`).
- Termination does not count the notice it queues. The byte count of an ended client is
  minus the size of the notice it was handed, and is the sum over its queue exactly when
  there was no notice or it has no size (`EndedCountIff`, `NoticeGoesUncounted`).
- The chain rule does not fix the first sequence number. A first append numbered other
  than one lands and leaves a Control Ref that can neither be read nor extended
  (`FirstNumberDecides`, `ControlCarriesTheChain`, `UnreadableStays`).
- Two candidates prepared on one Target commit can both land when the caller does not
  pin the swap to the candidate's own first parent, exactly if the second operation
  contains the first candidate (`BothLandIff`); a reachable store prepares such a pair
  (`TwoCandidatesCanLand`). The one caller,
  packages/runtime/src/collaboration/integration.ts:1497, does pin it.
- Behind other changes, numstat counts land under a plain file's own path exactly when
  the path is not empty and has no tab (`PlainCountsIff`).
- Totals of a diff are conserved exactly when no change with lines carries a letter that
  name-status drops (`TotalsConservedIff`).
- With repeated ids and no cycle the task order is a permutation exactly when no task
  that depends on a member is repeated (`AcyclicPermutationIff`); a repeated dependent
  comes out once (`RepeatedDependentIsDropped`). With cycles, a repeated dependent keeps
  its listings exactly when its dependencies do not force it (`RepeatedIds`,
  `PermutationIff`), and only if it reaches a cycle (`KeptRepeatReachesCycle`).
- With repeated ids a task can be placed before one it depends on
  (`RepeatedIdBreaksOrder`). However the ids sort, it never is exactly when no dependent
  is forced while one of its dependencies is held back (`KeepsIffNoneEarly`); for a
  dependency that sorts last that decides it (`JumpsLastIff`). It is enough that no
  repeated task without member dependencies is one of several dependencies of another
  (`HarmlessRepeatsKeepOrder`).
- The two connection readers agree for one connection id and can differ for two; in
  general they agree exactly when the highest revision leads the dashboard's pool, up to
  a tie of the locale (`ReadersAgreeIff`, `TwoConnectionsDisagree`).
- The IPv6 parser accepts the forms of the RFC and, beyond them, exactly a double colon
  between eight written groups (`AcceptedBeyondRfcIff`, `EmptyGapIsAccepted`).

## Model

| member | source | states |
|---|---|---|
| `EventSource.PositionsIncrease` | packages/runtime/src/observability/event-index.ts:127-136 | a page lists log positions in strictly increasing order |
| `EventSource.PositionsComplete` | packages/runtime/src/observability/event-index.ts:123-136 | no matching entry below the last one of a page is missing, and none at all when the page is short |
| `EventSource.PositionsFull` | packages/runtime/src/observability/event-index.ts:130-133 | a full page is the same however far the upper bound moves out |
| `EventSource.Scan` | packages/runtime/src/observability/event-index.ts:123-136 | the read loop returns the first matching entries of the range, at most the limit, with one resume cursor each |
| `EventSource.ReadIndex` | packages/runtime/src/observability/event-index.ts:102-145 | a bad limit or undecodable cursor throws, a cursor of another generation or past the end is a reset, otherwise a page bounded by the captured head |
| `HubClientSpec.PullKeeps` | packages/dashboard/src/event-hub.ts:160-170 | a pull keeps queue accounting, pull order and stream shape, and neither adds nor loses an item |
| `HubClientSpec.FlushCloses` | packages/dashboard/src/event-hub.ts:172-188 | flushing a terminated client answers every parked pull, hands out at most the one notice and no item |
| `HubClientSpec.TerminateKeeps` | packages/dashboard/src/event-hub.ts:203-214 | termination discards the backlog, keeps what was received and leaves the client ended with at most one notice |
| `HubClientSpec.OfferKeeps` | packages/dashboard/src/event-hub.ts:319-328 | an accepted delivery is appended exactly at the end of received followed by queued |
| `HubClientSpec.DeliverKeeps` | packages/dashboard/src/event-hub.ts:330-350 | a surviving client has been offered exactly the page in order and its cursor is the last item's; a dropped one received a prefix of it |
| `HubStream.ExactIsTheMatchingEntries` | packages/dashboard/src/event-hub.ts:278-317 | with nothing retracted, a gap-free stream is literally the list of matching entries of its range |
| `HubStream.ExactJoin` | packages/dashboard/src/event-hub.ts:293-300 | two exact streams that meet at a position make one exact stream, as at the catch-up to live handoff |
| `HubStream.ExactGrows` | packages/runtime/src/observability/event-index.ts:88-100 | an exact stream stays exact while the log grows and entries are retracted |
| `HubStream.PageExtends` | packages/dashboard/src/event-hub.ts:284-288 | a page read from the client's cursor continues its stream without a gap or a repeat |
| `HubStream.CatchUpKeeps` | packages/dashboard/src/event-hub.ts:278-301 | catch-up keeps received followed by queued exact up to the cursor, also when it goes live at the captured head |
| `HubStream.LiveKeeps` | packages/dashboard/src/event-hub.ts:303-317 | live pumping keeps the stream exact and the cursor never skips an undelivered match |
| `HubStream.TickKeeps` | packages/dashboard/src/event-hub.ts:248-272 | one whole tick of a client keeps it gap-free and well-formed under any later head |
| `HubRuns.TickAllEach` | packages/dashboard/src/event-hub.ts:248-261 | a sweep ticks every listed client once by itself, or not at all after a read threw |
| `HubRuns.StepKeeps` | packages/dashboard/src/event-hub.ts:107-350 | every step of the hub keeps every client gap-free against the source as it is then |
| `HubRuns.RunKeeps` | packages/dashboard/src/event-hub.ts:107-350 | so does every schedule of steps |
| `HubTheorems.EveryScheduleIsGapFree` | packages/dashboard/src/event-hub.ts:248-350 | under every schedule, received followed by queued are exactly the matching entries from the start cursor to the resume cursor, in order, without gap or repeat |
| `HubTheorems.CatchUpIsGapFreeIff` | packages/dashboard/src/event-hub.ts:278-301 | the first catch-up of a waiting client keeps its stream gap-free exactly when its cursor is not beyond the captured head |
| `HubTheorems.NewerCursorIsReplayed` | packages/dashboard/src/event-hub.ts:293-300 | a concrete client that is handed an entry from before its own start cursor |
| `HubTheorems.OwnRefreshIsGapFree` | packages/dashboard/src/event-hub.ts:224-261 | while the source moves only during the hub's own refresh, every client that presents an issued cursor has a gap-free stream under every schedule |
| `HubTheorems.TickWellFormed` | packages/dashboard/src/event-hub.ts:248-272 | a tick keeps accounting, pull order and stream shape, whatever cursor the client presented |
| `HubTheorems.EveryScheduleKeepsAccounts` | packages/dashboard/src/event-hub.ts:160-201 | in every reachable state the byte count is the queue's sum, both limits hold, queue and waiters are never both non-empty, and pulls are answered in order |
| `HubTheorems.EveryStreamHasOneEnding` | packages/dashboard/src/event-hub.ts:172-214 | every stream is items, then at most one notice, then the end forever |
| `HubNotices.EndedCountIff` | packages/dashboard/src/event-hub.ts:203-214 | in every schedule an ended client's byte count plus the size of the notice it was handed is zero, and it is its queue's sum exactly when no notice has a size |
| `HubNotices.NoticeGoesUncounted` | packages/dashboard/src/event-hub.ts:160-165 | pulling the notice of an ended client takes the count below zero |
| `HubSubscribers.SubscriberGetsWhatItAsked` | packages/dashboard/src/event-hub.ts:107-150 | whatever happens before and after it subscribes, a client keeps the filter and cursor it presented, and every item it is handed has the iteration, operation and one of the types that filter names |
| `HubSubscribers.SubscriberGetsAllItAsked` | packages/dashboard/src/event-hub.ts:107-150 | and in every schedule of issued cursors it got or has queued, in order and once, every standing entry it asked for from the cursor it presented up to its last item, or up to its resume cursor when live |
| `HubDelivery.ReadDecides` | packages/runtime/src/observability/event-index.ts:102-145 | a read throws for a limit outside 1 to 500 or an undecodable cursor, is stale for a cursor of another generation or past the end, and otherwise gives the first entries asked for, each with the cursor behind it |
| `HubDelivery.LiveTickFeeds` | packages/dashboard/src/event-hub.ts:303-317 | a live client with room is handed the next entries it asked for, as many as there is room for, unless their bytes do not fit, and its cursor goes behind the last or to the head |
| `HubDelivery.FirstTickFeeds` | packages/dashboard/src/event-hub.ts:249-301 | the first tick captures the head and hands on the entries from the presented cursor; a short page makes the client live at the head, a full one leaves it catching up |
| `HubDelivery.CatchUpTickFeeds` | packages/dashboard/src/event-hub.ts:256-301 | a client that is catching up is handed the entries up to the head it captured and, once live with room left, those up to the present head in the same tick |
| `HubDelivery.OutOfDateIsReset` | packages/dashboard/src/event-hub.ts:284-314 | a client with room whose cursor or captured head is out of date is ended with the reset notice at the next tick |
| `HubDelivery.EndingIsTold` | packages/dashboard/src/event-hub.ts:203-214 | ending a client drops its backlog, hands the notice to its first parked pull and the end to the others, and queues the notice when nobody waits |
| `HubDelivery.FailedRefreshIsTold` | packages/dashboard/src/event-hub.ts:227-234 | when the source cannot be refreshed everyone registered is ended with the error notice and the loop is over |
| `HubDelivery.ClosingIsTold` | packages/dashboard/src/event-hub.ts:134-158 | closing ends everyone and aborting one client, without a notice |
| `HubDelivery.OverflowIsNotTold` | packages/dashboard/src/event-hub.ts:343-346 | a client dropped in the middle of a page is ended without a notice |
| `HubDelivery.MissingCursorIsTold` | packages/dashboard/src/event-hub.ts:335-342 | an entry without a cursor of its own ends the client with the error notice |
| `HubDelivery.PageCursorStands` | packages/dashboard/src/event-hub.ts:335-347 | the last entry of a page may take the cursor of the page |
| `HubIsolation.ResumeIsSeamless` | packages/dashboard/src/event-hub.ts:203-214 | a client that lost its backlog and resubscribes with the cursor of its last received item gets a concatenated stream without gap or repeat |
| `HubIsolation.DeliverDropsIff` | packages/dashboard/src/event-hub.ts:330-350 | a page that fits the item limit drops the client exactly when what the parked pulls leave does not fit the byte budget |
| `HubIsolation.PageFitsItems` | packages/dashboard/src/event-hub.ts:274-276 | a page read for a client never overruns its item limit |
| `HubIsolation.StallTick` | packages/dashboard/src/event-hub.ts:264-272 | a tick closes the client exactly when the recorded backlog start is at least the drain budget ago |
| `HubIsolation.StallRule` | packages/dashboard/src/event-hub.ts:264-272 | with a monotone clock a client is closed exactly when a backlog was left at the end of each of its ticks across a span of the drain budget |
| `HubIsolation.DrainingClientIsClosed` | packages/dashboard/src/event-hub.ts:263-272 | a client that takes an item between every two ticks is closed at the third with its backlog discarded, once the first lies a drain budget back |
| `HubIsolation.BlockedSinceIsEarliest` | packages/dashboard/src/event-hub.ts:266-270 | the recorded start is the earliest tick of the unbroken row of backlogs |
| `HubLoop.ServedUnlessStranded` | packages/dashboard/src/event-hub.ts:216-246 | from a served state every step leads to a served state except exactly joining in the exit window and a tick cut short by a throw |
| `HubLoop.EveryoneIsServed` | packages/dashboard/src/event-hub.ts:216-246 | over every schedule without such a step an open hub with a registered client has a loop turn ahead |
| `HubLoop.ConsiderateSchedulesServe` | packages/dashboard/src/event-hub.ts:216-246 | from the start, schedules in which every presented cursor can be decoded and nobody joins in the exit window keep a loop turn ahead |
| `HubLoop.TickFailsIff` | packages/dashboard/src/event-hub.ts:284-288 | a read throws for a client exactly when its cursor cannot be decoded and it has room |
| `HubLoop.SweepThrowsIff` | packages/dashboard/src/event-hub.ts:248-261 | a tick is cut short exactly when a registered client still holds an undecodable cursor |
| `HubLoop.ExitWindowStrands` | packages/dashboard/src/event-hub.ts:138-140 | a trace through the exit window that leaves a registered client without a loop |
| `HubLoop.MalformedCursorStrands` | packages/dashboard/src/event-hub.ts:248-261 | a trace from the start: a client with an undecodable cursor ends the loop, and the client that joined behind it has had no tick and has no loop |
| `HubLoop.StrandedStays` | packages/dashboard/src/event-hub.ts:216-246 | without a further subscription such a hub never polls again |
| `HubLoop.RunIsLocal` | packages/dashboard/src/event-hub.ts:203-272 | what becomes of a client in a run can be computed without looking at any other client |
| `HubLoop.OthersDoNotMatter` | packages/dashboard/src/event-hub.ts:203-272 | two runs that agree on the source, on a client's own steps and on its own clock readings give it the same stream, whatever other clients do and read |
| `HubLoop.DecodableIsUndisturbed` | packages/dashboard/src/event-hub.ts:248-261 | schedules in which every presented cursor can be decoded are never cut short, so in them clients do not affect each other |
| `EventHub.EventStreamHub.Pull` | packages/dashboard/src/event-hub.ts:160-170 | shifts the queue, ends, or parks the consumer, as the specification of a pull |
| `EventHub.EventStreamHub.Flush` | packages/dashboard/src/event-hub.ts:172-188 | the loop over parked consumers computes the specified flush |
| `EventHub.EventStreamHub.Terminate` | packages/dashboard/src/event-hub.ts:203-214 | terminates a registered client only, and unregisters it |
| `EventHub.EventStreamHub.Enqueue` | packages/dashboard/src/event-hub.ts:190-201 | appends and counts the bytes, or refuses and changes nothing |
| `EventHub.EventStreamHub.Offer` | packages/dashboard/src/event-hub.ts:319-328 | the first parked consumer or the buffer takes the delivery |
| `EventHub.EventStreamHub.Deliver` | packages/dashboard/src/event-hub.ts:330-350 | the loop over a page computes the specified delivery and drops the client when it must |
| `EventHub.EventStreamHub.PumpCatchUp` | packages/dashboard/src/event-hub.ts:278-301 | reads up to the captured head, delivers, resets or goes live |
| `EventHub.EventStreamHub.PumpLive` | packages/dashboard/src/event-hub.ts:303-317 | reads up to the view's head and moves the cursor to it when nothing matched |
| `EventHub.EventStreamHub.CheckStall` | packages/dashboard/src/event-hub.ts:264-272 | starts, clears or fires the stall clock of a registered client |
| `EventHub.EventStreamHub.Tick` | packages/dashboard/src/event-hub.ts:248-261 | every registered client is ticked exactly once against one view; when a read throws, exactly the clients before the one it was for have had their tick |
| `EventHub.EventStreamHub.EnsureLoop` | packages/dashboard/src/event-hub.ts:216-222 | starts a loop exactly when none runs and the hub is open |
| `EventHub.EventStreamHub.SubscribeClient` | packages/dashboard/src/event-hub.ts:107-150 | registers a new client with the presented filter and cursor and nothing queued unless the hub is closed, and drops it at once when already aborted |
| `EventHub.EventStreamHub.TerminateEach` | packages/dashboard/src/event-hub.ts:229-234 | ends every registered client with the given notice and leaves nobody registered |
| `EventHub.EventStreamHub.Close` | packages/dashboard/src/event-hub.ts:152-158 | closes once and ends every client |
| `HubRefinement.StartRefines` | packages/dashboard/src/event-hub.ts:93-105 | a new hub object stands for the start of the transition system |
| `HubRefinement.SubscribeRefines` | packages/dashboard/src/event-hub.ts:107-150 | subscribing, also aborted or on a closed hub, is a possible step there and appends to the roster exactly the client it made |
| `HubRefinement.PullRefines` | packages/dashboard/src/event-hub.ts:160-170 | a pull is the pull step of that client and touches no other |
| `HubRefinement.AbortRefines` | packages/dashboard/src/event-hub.ts:134-136 | an abort is the abort step of that client and unregisters exactly it |
| `HubRefinement.CloseRefines` | packages/dashboard/src/event-hub.ts:152-158 | closing is the close step: everyone on the roster is ended as there |
| `HubRefinement.RefreshFailsRefines` | packages/dashboard/src/event-hub.ts:227-234 | a failed refresh is its step: everyone registered is ended with the error |
| `HubRefinement.TickRefines` | packages/dashboard/src/event-hub.ts:248-261 | a tick over the registered clients is the tick step over everyone who ever joined, and throws exactly when that is cut short |
| `HubRefinement.LoopSettlesRefines` | packages/dashboard/src/event-hub.ts:219-221 | resetting the flag is the step that makes the loop idle |
| `HubRefinement.OutsideRefines` | packages/dashboard/src/event-hub.ts:224-246 | steps of the source, a refresh and the end of a sleep leave the object standing for the next state |
| `GitGraph.AncestorTransitive` | adapters/vcs-git/src/control-store.ts:849-866 | ancestry composes |
| `GitGraph.AncestorAntisymmetric` | adapters/vcs-git/src/control-store.ts:849-866 | two commits that descend from each other are one commit |
| `ControlRecords.AssertControlChain` | packages/core/src/collaboration/records.ts:43-67 | accepts exactly the non-empty lists whose first record has no link and whose later records continue number and link |
| `ControlRecords.ChainHasNoRepeats` | packages/core/src/collaboration/records.ts:43-67 | no record stands in a chain twice |
| `ControlRecords.MatchPathIff` | adapters/vcs-git/src/control-store.ts:325-326 | the file pattern accepts exactly the names of records numbered below ten to the twelfth, and reads their number, kind and id back |
| `ControlRecords.NameFits` | adapters/vcs-git/src/control-store.ts:407-410 | a record's file name is accepted as its own exactly when its number fits twelve digits and its id the pattern |
| `ControlRecords.FileNameReads` | adapters/vcs-git/src/control-store.ts:407-410 | a record's file is named by twelve digits that read back as its number, its kind and its id |
| `ControlRecords.IsIdCharIff` | adapters/vcs-git/src/control-store.ts:324-325 | an identifier is made of letters, digits, underscore and hyphen and nothing else |
| `ControlRecords.NamesAreOrdered` | adapters/vcs-git/src/control-store.ts:407-410 | below ten to the twelfth, file names sort in sequence order whatever kinds and ids follow |
| `ControlRecords.NamesAreDistinct` | adapters/vcs-git/src/control-store.ts:407-410 | different numbers give different file names, however large |
| `ControlRecords.ParseRecordIff` | adapters/vcs-git/src/control-store.ts:512-537 | a file parses exactly when its path is its record's name, its content canonical and its number the expected one |
| `ControlRecords.ListingIsNames` | adapters/vcs-git/src/control-store.ts:550-559 | the sorted listing of a readable tree is the list of its record names in sequence |
| `ControlRecords.ReadMeaning` | adapters/vcs-git/src/control-store.ts:544-578 | reading the sorted files succeeds with a chain exactly when the tree is that of a sound chain numbered from one |
| `ControlRecords.ReadControlChain` | adapters/vcs-git/src/control-store.ts:544-578 | the reader returns the chain the tree carries, and fails exactly when it carries none |
| `ControlInvariant.StepShape` | adapters/vcs-git/src/control-store.ts:774-1193 | every step leaves the remote alone, with what the acting call established, or lands one pending push whose expected head was there |
| `ControlSafety.NoReturn` | adapters/vcs-git/src/control-store.ts:869-880 | after a ref moved, no pending push can expect its new head |
| `ControlSafety.OneTreeOneChain` | adapters/vcs-git/src/control-store.ts:544-578 | one tree carries at most one chain |
| `ControlSafety.ReadIsTheRecords` | adapters/vcs-git/src/control-store.ts:480-578 | whatever is read at the Control Ref is the whole list of landed records |
| `ControlSafety.StepIsSafe` | adapters/vcs-git/src/control-store.ts:774-1193 | every step of any adapter keeps ancestry, the chain and the fence order |
| `ControlSafety.RunIsSafe` | adapters/vcs-git/src/control-store.ts:774-1193 | so does every interleaving |
| `ControlTheorems.HeadsOnlyMoveForward` | adapters/vcs-git/src/control-store.ts:885-956 | every commit that was ever the head of a ref, Target included, is an ancestor of every later head |
| `ControlTheorems.FetchesAreFastForward` | adapters/vcs-git/src/control-store.ts:480-510 | no adapter ever finds the Control Ref rewritten |
| `ControlTheorems.ControlCarriesTheChain` | adapters/vcs-git/src/control-store.ts:774-883 | in every reachable state the Control Ref carries exactly the landed records as one chain; it is readable and numbered from one exactly when the first number, the length and the last id allow it |
| `ControlTheorems.StepExtendsByOne` | adapters/vcs-git/src/control-store.ts:824-883 | each step leaves the Control Ref alone or extends the chain by exactly one pushed record |
| `ControlTheorems.ReadsArePrefixOrdered` | adapters/vcs-git/src/control-store.ts:544-578 | any two chains read by any adapters at any times are prefixes one of the other |
| `ControlTheorems.UnreadableStays` | adapters/vcs-git/src/control-store.ts:805-810 | a Control Ref that cannot be read is never moved again by these calls |
| `ControlTheorems.FirstNumberDecides` | adapters/vcs-git/src/control-store.ts:812-834 | a first record with any number lands, and is readable exactly for number one |
| `ControlTheorems.PublishesLandInFenceOrder` | adapters/vcs-git/src/control-store.ts:1034-1193 | publishes that move one operation ref land in the order of the lease chains they were checked against |
| `ControlTheorems.TipIsLast` | adapters/vcs-git/src/control-store.ts:1159-1165 | the lease tip is the last lease record of the operation, and there is none exactly when there is no lease |
| `ControlTheorems.StaleHoldersCannotLand` | adapters/vcs-git/src/control-store.ts:1150-1180 | while grants never lower the token, a holder with an older token cannot land after one with a newer token |
| `ControlAdmission.AppendDecides` | adapters/vcs-git/src/control-store.ts:788-837 | in every reachable state an append comes to wait for its push exactly when the caller expects the Control Ref where it is, the landed chain is readable, and the record is sound and carries it on; otherwise the swap is lost or the call refused, by the guard that failed |
| `ControlAdmission.AppendLands` | adapters/vcs-git/src/control-store.ts:838-883 | without interference its push then lands: the chain is longer by the record, the ref carries its files on top of the old head, and the answer names that commit |
| `ControlAdmission.PublishDecides` | adapters/vcs-git/src/control-store.ts:1037-1098 | a publish begins exactly when its commit is staged, the operation is at the expected head and the commit descends from it |
| `ControlAdmission.BaselineDecides` | adapters/vcs-git/src/control-store.ts:1098-1148 | a first publish goes on exactly when its commit descends from the target as it is then |
| `ControlAdmission.FenceDecides` | adapters/vcs-git/src/control-store.ts:1150-1180 | a publish comes to wait for its push exactly when the chain is readable and the last lease of its operation, if any, is granted or renewed and has its token; it is refused or fenced off otherwise |
| `ControlAdmission.LandedPublishHeldTheLease` | adapters/vcs-git/src/control-store.ts:1157-1180 | every publish that landed had read a prefix of the landed chain whose last lease of the operation, if any, is granted or renewed and has its token |
| `ControlAdmission.OperationsDescendFromTarget` | adapters/vcs-git/src/control-store.ts:1086-1148 | in every reachable state every operation head and every landed publish descends from the connected target |
| `ControlAdmission.SwapDecides` | adapters/vcs-git/src/control-store.ts:1947-2003 | a target swap comes to wait for its push exactly when the target is at the commit and the candidate descends from it |
| `ControlAdmission.ProjectRecordDecides` | adapters/vcs-git/src/control-store.ts:897-945 | a project record is prepared as one commit on the target as it is |
| `ControlAdmission.ReadSeesTheChain` | adapters/vcs-git/src/control-store.ts:681-694 | a read returns the whole landed chain when that is readable and remembers the head |
| `ControlAdmission.FailureDecides` | adapters/vcs-git/src/control-store.ts:774-866 | before its push a call can fail at any time with any answer but success, and nothing else changes |
| `ControlAdmission.PushLandsIff` | adapters/vcs-git/src/control-store.ts:868-883 | a push lands exactly when its ref is still where it is expected and not at the candidate; then the ref is at the candidate and the call is answered with it |
| `ControlAdmission.PushUpToDateIff` | adapters/vcs-git/src/control-store.ts:868-883 | a push is up to date exactly when the ref is at the candidate, and nothing moves |
| `ControlAdmission.PushFails` | adapters/vcs-git/src/control-store.ts:378-387 | a rejected push ends as a lost swap, one without an answer as remote unavailable while it is still on its way |
| `ControlAdmission.LostPushCanLand` | adapters/vcs-git/src/control-store.ts:378-387 | such a push lands later exactly when its ref is still where it is expected |
| `ControlCandidates.CandidatesArePrepared` | adapters/vcs-git/src/control-store.ts:1352-1447 | a prepared candidate strictly descends from the target and its history is that of target and operation plus itself |
| `ControlCandidates.PreparationDecides` | adapters/vcs-git/src/control-store.ts:1350-1452 | a candidate comes out exactly when target and operation are where the command froze them, their histories meet, the operation brings something new and the merge is clean; each refusal names the first guard that fails |
| `ControlCandidates.CandidateParentsStay` | adapters/vcs-git/src/control-store.ts:1350-1576 | over a run, its parents are the target head at the first fetch and the operation head at the second, and stay in the past of every later head of those refs |
| `ControlCandidates.OneLandsPerHead` | adapters/vcs-git/src/control-store.ts:1932-2010 | of all pushes pinned to one head of a ref at most one ever lands |
| `ControlCandidates.SecondCandidateContainsFirst` | adapters/vcs-git/src/control-store.ts:1586-1609 | of the candidates prepared on one Target commit, a second lands only if its operation contains the first |
| `ControlCandidates.BothLandIff` | adapters/vcs-git/src/control-store.ts:1932-2010 | two candidates of one base can both land exactly when the second operation contains the first candidate |
| `ControlCandidates.TwoCandidatesCanLand` | adapters/vcs-git/src/control-store.ts:1326-1447 | in one reachable store two candidates come out of preparation on the head the target still has, and both then land |
| `ControlCalls.StepKeepsCalls` | adapters/vcs-git/src/control-store.ts:374-387 | every step keeps each call in one place, answered at most once, with its push lost or landed only under the matching answer |
| `ControlAnswers.FailedCallsNeverLand` | adapters/vcs-git/src/control-store.ts:374-387 | a call told that it lost the swap or was refused has not landed and never will; every other call lands at most once |
| `ControlAnswers.AppendLandsOnlyItsRecord` | adapters/vcs-git/src/control-store.ts:793-883 | an append call, however late its push lands, puts nothing in the chain but its own record and that at most once |
| `ControlAnswers.RetriesLandOnce` | adapters/vcs-git/src/control-store.ts:793-883 | however often a record is retried it stands in the chain at most once |
| `ControlAnswers.SuccessMeansAppended` | adapters/vcs-git/src/control-store.ts:869-883 | an append answered with success has its record in the chain, also when the remote only found it up to date |
| `TaskOrder.OrderIsPermutation` | adapters/projection-markdown/src/tasks.ts:42-68 | the order keeps every task once, cycles and self-edges included |
| `TaskOrder.OrderSplits` | adapters/projection-markdown/src/tasks.ts:54-67 | the order is the placed tasks followed by the leftover by id, none of which is ready |
| `TaskOrder.PlacedAfterDependencies` | adapters/projection-markdown/src/tasks.ts:54-65 | every task not left to the fallback follows all its member dependencies |
| `TaskOrder.LeftoverReachesCycle` | adapters/projection-markdown/src/tasks.ts:66-67 | a task is left to the fallback exactly when a dependency cycle can be reached from it |
| `TaskOrder.OrderIsLeastTopological` | adapters/projection-markdown/src/tasks.ts:36-41 | for acyclic dependencies the order is topological and the lexicographically least one |
| `TaskOrdering.CountDegrees` | adapters/projection-markdown/src/tasks.ts:43-51 | the two maps hold each task's number of member dependencies and its dependents in edge order |
| `TaskOrdering.Release` | adapters/projection-markdown/src/tasks.ts:57-64 | releasing dependents lowers each count by its listings and inserts exactly those whose count runs out, once, keeping the list sorted |
| `TaskOrdering.OrderTasks` | adapters/projection-markdown/src/tasks.ts:42-68 | terminates on every input, repeated ids included, with the order of that input and the same set of tasks; on distinct ids it is the specified order |
| `TaskOrdering.DistinctOrder` | adapters/projection-markdown/src/tasks.ts:42-68 | on distinct ids the order of the input is the greedy order with its fallback |
| `TaskOrdering.OrderIgnoresListing` | adapters/projection-markdown/src/tasks.ts:42-68 | the order does not depend on the listing of ids or on order and duplication of edges |
| `TaskRepeats.PlacedIffForced` | adapters/projection-markdown/src/tasks.ts:52-65 | a task is placed exactly when it is in every set of tasks that holds each task it counts enough for, a condition on ids and edges alone |
| `TaskRepeats.UnplacedReachesCycle` | adapters/projection-markdown/src/tasks.ts:52-66 | a listed task that is never placed reaches a dependency cycle, repeated ids or not |
| `TaskRepeats.RepeatedIds` | adapters/projection-markdown/src/tasks.ts:53-67 | a task comes out once when it has a member dependency and is forced by the input, and otherwise as often as it is listed |
| `TaskRepeats.PermutationIff` | adapters/projection-markdown/src/tasks.ts:53-67 | the result is a permutation of the input exactly when no repeated task with a member dependency is forced by the input |
| `TaskRepeats.KeptRepeatReachesCycle` | adapters/projection-markdown/src/tasks.ts:53-67 | a task with a member dependency that comes out more than once reaches a cycle |
| `TaskRepeats.AcyclicPermutationIff` | adapters/projection-markdown/src/tasks.ts:42-68 | without cycles the result is a permutation exactly when every task that depends on a member is listed once |
| `TaskRepeats.RepeatedDependentIsDropped` | adapters/projection-markdown/src/tasks.ts:42-68 | of a dependent listed twice one listing is lost |
| `TaskPrecedence.NoneEarlyKeeps` | adapters/projection-markdown/src/tasks.ts:52-65 | placed tasks follow their member dependencies whenever no dependent is forced by the input while one of its dependencies is held back |
| `TaskPrecedence.JumpsLastIff` | adapters/projection-markdown/src/tasks.ts:52-65 | a task is placed before one that sorts last exactly when it is forced while that one is held back |
| `TaskPrecedence.KeepsIffNoneEarly` | adapters/projection-markdown/src/tasks.ts:52-65 | dependencies come first under every renaming of the tasks exactly when no dependent is forced while one of its dependencies is held back |
| `TaskPrecedence.HarmlessRepeatsKeepOrder` | adapters/projection-markdown/src/tasks.ts:57-64 | placed tasks follow their member dependencies whenever no repeated task without member dependencies is one of several dependencies of another |
| `TaskPrecedence.RepeatedIdBreaksOrder` | adapters/projection-markdown/src/tasks.ts:57-64 | a repeated id counts twice for its dependents, so a task can be placed before one it depends on |
| `Projection.CurrentNodeMap` | adapters/projection-markdown/src/index.ts:36-47 | every current node is its id's highest revision and not tombstoned |
| `Projection.CurrentIff` | adapters/projection-markdown/src/index.ts:36-47 | the first record with its id's highest revision is current exactly when it is not tombstoned |
| `Projection.LatestForgetsOrder` | adapters/projection-markdown/src/index.ts:36-47 | with distinct revisions the map does not depend on record order |
| `Projection.ActiveEdgesForgetOrder` | adapters/projection-markdown/src/index.ts:50-54 | with distinct edge ids the active edges come out in one order |
| `Projection.ActiveEdgesAre` | adapters/projection-markdown/src/index.ts:50-54 | active are exactly the proposed and accepted edges, as often as listed, by id, and edges of one id in their order |
| `Projection.NodesOfTypeIsByType` | adapters/projection-markdown/src/index.ts:79-88 | the nodes of a type are listed by id whatever order the map was filled in |
| `Projection.OrderedSourcesAreHighest` | adapters/projection-markdown/src/index.ts:127-135 | the sources are each id once, sorted, with its highest listed revision |
| `Projection.BuildDocument` | adapters/projection-markdown/src/index.ts:122-152 | the document binds the view, those sources and the joined body into its digest |
| `TasksProjection.RenderPlan` | adapters/projection-markdown/src/tasks.ts:96-126 | one plan's lines and sources, in the order of its tasks, whatever the edges list |
| `TasksProjection.RenderTasks` | adapters/projection-markdown/src/tasks.ts:75-129 | the rendered document is a function of current nodes, active edges and completed tasks, for every graph |
| `TasksProjection.RenderForgetsRecordOrder` | adapters/projection-markdown/src/tasks.ts:75-129 | it is unchanged under any permutation of node and edge records |
| `TasksProjection.DependenciesHaveSmallerNumbers` | adapters/projection-markdown/src/tasks.ts:70-72 | in an acyclic plan that lists no task twice every dependency on a task of the plan carries a smaller number |
| `TasksText.PlanReads` | adapters/projection-markdown/src/tasks.ts:96-126 | a plan reads: its id and revision, and one line for each task in the plan's order, or the remark that it has none exactly when no edge gives it one; what each line says is that of the next row |
| `TasksText.LineReads` | adapters/projection-markdown/src/tasks.ts:114-124 | a line has a checked box exactly for a completed task, a number that reads back as the task's place, the parallel mark exactly for a task without dependencies beside another, its objective or id, and the sorted labels of exactly its dependencies |
| `TasksText.LabelReads` | adapters/projection-markdown/src/tasks.ts:120-123 | a dependency is called by the number of a task of the plan and by the id of any other |
| `TasksText.NumbersAreInOrder` | adapters/projection-markdown/src/tasks.ts:107-107 | when no task is contained twice the k-th line carries the number k |
| `TasksText.PlanTasksRead` | adapters/projection-markdown/src/tasks.ts:99-106 | a plan's tasks are one for each active edge by which it contains a current task, by id |
| `TasksText.JoinFromFront` | adapters/projection-markdown/src/tasks.ts:123-123 | joined labels are the first, the separator and the rest joined |
| `TasksText.SourcesRead` | adapters/projection-markdown/src/tasks.ts:97-113 | the sources are the plan with its revision and each task line's node with its own, in that order |
| `TasksText.NodesByTypeRead` | adapters/projection-markdown/src/index.ts:79-84 | the nodes of a type are exactly those among the current ones, each once, by id |
| `TasksText.ListReads` | adapters/projection-markdown/src/tasks.ts:75-130 | the document is the header, the title and the plans by id, or the remark that there is none |
| `TasksText.DocumentReads` | adapters/projection-markdown/src/index.ts:122-152 | the text of a document is its view, its digest, one line for each source with id and revision, and the body |
| `StatusParsers.ParsePorcelainV1Z` | adapters/vcs-git/src/status.ts:20-43 | the index loop reads the records as specified, skipping the source of a rename |
| `StatusParsers.StatusRoundTrip` | adapters/vcs-git/src/status.ts:20-43 | reading what Git printed gives each entry's report, whatever its rename source looks like |
| `StatusParsers.StatusMeaning` | adapters/vcs-git/src/status.ts:27-42 | staged, unstaged and untracked are the paths of exactly the entries with those codes, in Git's order |
| `StatusParsers.ShortRecordsAreSkipped` | adapters/vcs-git/src/status.ts:29-29 | a record of less than four characters says nothing |
| `StatusParsers.ParseCountReads` | adapters/vcs-git/src/status.ts:93-96 | a count reads white space, a sign and digits up to the first other character as that number, and zero without digits |
| `StatusParsers.CountsOfRead` | adapters/vcs-git/src/status.ts:101-106 | the counts of a header are those of its first two fields, and it is binary when either is a hyphen |
| `StatusParsers.TruncatedEntriesEnd` | adapters/vcs-git/src/status.ts:60-72 | an entry that is cut short ends the reading of either format |
| `StatusParsers.ParseNameStatusZ` | adapters/vcs-git/src/status.ts:52-77 | the index loop reads codes and paths as specified, stopping at a truncated entry |
| `StatusParsers.ParseNumstatZ` | adapters/vcs-git/src/status.ts:89-120 | the index loop collects counts by final path as specified |
| `DiffStat.NameStatusRoundTrip` | adapters/vcs-git/src/status.ts:52-77 | reading a printed name-status gives the changes back; rename sources are never read as codes |
| `DiffStat.HeaderFields` | adapters/vcs-git/src/status.ts:101-106 | a header splits into its two counts, read back exactly, and the path split again at every tab |
| `DiffStat.NumstatRoundTrip` | adapters/vcs-git/src/status.ts:89-120 | reading a printed numstat collects each change's counts under its final path |
| `DiffStat.PlainCountsIff` | adapters/vcs-git/src/status.ts:101-111 | behind any printable changes a plain change is counted under its own path exactly when the path is not empty and has no tab |
| `DiffStat.ParseGitDiffStat` | adapters/vcs-git/src/status.ts:128-157 | the summary is the join of the two readings followed by exactly the untracked additions, in the locale's order of paths |
| `DiffStat.SortByPathCollates` | adapters/vcs-git/src/status.ts:156-156 | the sort of the additions keeps every entry and, for a consistent comparison, puts them in its order |
| `DiffStat.SortByPathIsStable` | adapters/vcs-git/src/status.ts:156-156 | additions whose paths compare equal keep their order |
| `DiffStat.JoinAt` | adapters/vcs-git/src/status.ts:134-148 | each entry is joined with the counts under its path, and with zeros when there are none |
| `DiffStat.AdditionAt` | adapters/vcs-git/src/status.ts:149-155 | an untracked file is summarised as added with its own lines and nothing deleted |
| `DiffStat.JoinGivesOwnCounts` | adapters/vcs-git/src/status.ts:128-157 | over one list of changes with distinct final paths the join gives every file its own status and counts |
| `DiffStat.TotalsConservedIff` | adapters/vcs-git/src/adapter.ts:228-239 | what the totals lack of changes and untracked files is what dropped letters carry, so they are conserved exactly when those carry no lines |
| `Ipv6.ParseIpv6Groups` | adapters/gate-llm-judge/src/transport.ts:43-83 | the parser with its reassigned rest and its loops computes the specified groups |
| `Ipv6.FormsAreAccepted` | adapters/gate-llm-judge/src/transport.ts:43-83 | every full, compressed or dotted form is accepted with its groups |
| `Ipv6.OnlyFormsAreAccepted` | adapters/gate-llm-judge/src/transport.ts:43-83 | whatever is accepted is such a form, and its groups are the answer |
| `Ipv6.AcceptedIffForm` | adapters/gate-llm-judge/src/transport.ts:43-83 | the parser accepts exactly the full, compressed and dotted forms, a gap for no group included |
| `Ipv6.FormOfWritten` | adapters/gate-llm-judge/src/transport.ts:43-83 | a text is written in one form only, which can be read off it |
| `Ipv6.RfcIff` | adapters/gate-llm-judge/src/transport.ts:43-83 | a text is one of the RFC's forms exactly when it is accepted and its gap, if any, leaves a group out |
| `Ipv6.AcceptedBeyondRfcIff` | adapters/gate-llm-judge/src/transport.ts:80-82 | what is accepted beyond the RFC is exactly a gap between eight written groups |
| `Ipv6.EmptyGapIsAccepted` | adapters/gate-llm-judge/src/transport.ts:80-82 | such a text and its groups |
| `Ipv6.EightGroups` | adapters/gate-llm-judge/src/transport.ts:74-82 | every accepted input yields exactly eight values below 65536 |
| `AddressText.PartIff` | adapters/gate-llm-judge/src/transport.ts:57-58 | a part of an address is a text of one to four hexadecimal digits for its value, and nothing else is one |
| `AddressText.FullTextReadsBack` | adapters/gate-llm-judge/src/transport.ts:43-83 | eight groups read back from any such text of them |
| `AddressText.GappedTextReadsBack` | adapters/gate-llm-judge/src/transport.ts:43-83 | a gap reads back as the zero groups it leaves out |
| `AddressText.DottedTailReadsBack` | adapters/gate-llm-judge/src/transport.ts:46-55 | a dotted tail reads back as two groups of two bytes |
| `AddressText.MappedTextReadsBack` | adapters/gate-llm-judge/src/transport.ts:46-55 | the mapped text of an IPv4 address reads back as that address behind ffff |
| `JudgeTransport.VerdictFollowsGroups` | adapters/gate-llm-judge/src/transport.ts:96-124 | for a host name that comes down to an IPv6 literal the private-address verdict is the verdict on its groups, the loopback text check included |
| `AddressText.PrivateIpv4Iff` | adapters/gate-llm-judge/src/transport.ts:85-94 | private IPv4 are exactly the blocks 0/8, 10/8, 127/8, 172.16/12, 192.168/16 and 169.254/16 |
| `AddressText.PrivateGroupsIff` | adapters/gate-llm-judge/src/transport.ts:104-119 | the verdict on any eight groups: that of the IPv4 address for a mapped or compatible one, private for :: and ::1, and otherwise exactly fc00::/7 and fe80::/10 |
| `AddressText.MappedVerdict` | adapters/gate-llm-judge/src/transport.ts:107-111 | a mapped IPv4 address gets the verdict of that address however it is written |
| `AddressText.NameVerdict` | adapters/gate-llm-judge/src/transport.ts:30-35 | a host name that is no literal is private for localhost, names under .localhost and a start of 127., and otherwise by the verdict on dotted hosts |
| `JudgeTransport.SpellingIsNormal` | adapters/gate-llm-judge/src/transport.ts:97-100 | letters of either case, brackets and a zone come down to the form in lower case |
| `AddressText.BracketsGoAlone` | adapters/gate-llm-judge/src/transport.ts:97-100 | a bracket at either end goes also without the other |
| `AddressText.LowerReads` | adapters/gate-llm-judge/src/transport.ts:97-99 | the letters from A to Z become those from a to z and every other character stays |
| `AddressText.NoZoneAcrossLines` | adapters/gate-llm-judge/src/transport.ts:100-100 | a percent sign with a line break behind it starts no zone |
| `JudgeTransport.SpellingsAgree` | adapters/gate-llm-judge/src/transport.ts:96-124 | all spellings of all text forms of one address get the same verdict |
| `JudgeTransport.ReadBoundedBody` | adapters/gate-llm-judge/src/transport.ts:205-239 | returns the concatenated chunks exactly when they fit, and otherwise stops at the first chunk that exceeds the limit |
| `ConnectedDrive.Client.PublishAndSettle` | packages/cli/src/runtime-service.ts:1323-1347 | after a drive the lease stays exactly for a published pause, block, advance or migration, or an exception outside the guard |
| `ConnectedDrive.Client.IterateRemote` | packages/cli/src/runtime-service.ts:1274-1348 | the lease is held on return exactly on the exits that keep it; when no unguarded call throws, exactly for a published pause or advance |
| `ConnectedDrive.Client.ResumeRemote` | packages/cli/src/runtime-service.ts:1351-1435 | as iterate, and a taken Driver Lock is released exactly once on every exit |
| `ConnectedDrive.Client.DriveWithScheduler` | packages/cli/src/runtime-service.ts:1052-1097 | the lock is released exactly once if taken, and a result is returned exactly when nothing threw |
| `Connections.ReadLatestConnection` | adapters/vcs-git/src/control-store.ts:631-678 | fails exactly on an unsound file, otherwise chooses the highest revision, first path among equals |
| `Connections.ReadLocalConnection` | packages/dashboard/src/collaboration-api.ts:155-203 | fails exactly on an unsound file, otherwise chooses an active latest revision, or any when none is active, than which none is later |
| `Connections.ReadIff` | adapters/vcs-git/src/control-store.ts:644-672 | both readers fail exactly when some file is not named as a record, holds none, or holds one with another id or revision |
| `Connections.GitChoiceIsHighest` | adapters/vcs-git/src/control-store.ts:674-674 | the adapter's choice has the highest revision of all records |
| `Connections.TiesGoByDirectory` | adapters/vcs-git/src/control-store.ts:644-648 | files of one revision are ordered by the names of their directories |
| `Connections.LocalChoiceIsLatest` | packages/dashboard/src/collaboration-api.ts:186-189 | the dashboard's choice is the latest revision of its connection |
| `Connections.LocalChoiceIsCurrent` | packages/dashboard/src/collaboration-api.ts:192-203 | it is active when any latest revision is, and none of those took effect later, or at the same time under a later id |
| `Connections.GitChoiceForgetsOrder` | adapters/vcs-git/src/control-store.ts:631-678 | the adapter's choice does not depend on the listing's order |
| `Connections.LocalChoiceForgetsOrder` | packages/dashboard/src/collaboration-api.ts:160-203 | nor does the dashboard's, unless the locale ties two candidates |
| `Connections.SeparatingLocaleTiesNothing` | packages/dashboard/src/collaboration-api.ts:198-203 | a locale that tells all strings apart ties no two candidates |
| `Connections.ReadersAgreeIff` | packages/dashboard/src/collaboration-api.ts:192-203 | the readers agree only if the highest revision leads the dashboard's pool, and then they do unless the locale ties it |
| `Connections.OneConnectionAgrees` | packages/dashboard/src/collaboration-api.ts:155-203 | with a single connection id both choose its highest revision |
| `Connections.TwoConnectionsDisagree` | packages/dashboard/src/collaboration-api.ts:155-203 | with a closed connection at revision two and an active one at revision one each reader chooses its own |

## Left out

- Git subprocesses, worktrees, stderr matching and staging refs: only their effect on refs and commits and the outcome of a push are modelled. Whether a staged candidate is there is a parameter of the publish step.
- Hashing, canonical JSON, schemas and envelopes: a record carries its verdict, and a digest link is the linked record itself, so digests are taken to be collision-free.
- Managed refs are moved only by these calls and never deleted, and a commit's author, date and message are one opaque stamp.
- The serialized size of a delivery is a function in the hub's configuration, and the clock readings of a tick are parameters of the tick.
- Promises and microtasks of the hub: the transition system has the steps between which other code can run, among them the window between the loop's return and the reset of its flag. Several concurrent source refreshes do not occur in the code and not in the model.
- `HubTheorems.EveryScheduleIsGapFree`: requires that a presented cursor was issued by the source and is not newer than a head already captured, because the property fails otherwise.
- `ControlTheorems.StaleHoldersCannotLand`: takes from the coordinator that tokens of one operation never decrease along the chain; packages/runtime/src/collaboration/lease.ts is not part of this model.
- `StatusParsers.ParseNumstatZ`: counts are unbounded integers, and only space, tab and line breaks count as leading white space of a number.
- `JudgeTransport.VerdictFollowsGroups`: the verdict on dotted IPv4 hosts is a parameter, since it rests on how the runtime reads numbers, and letters beyond ASCII keep their case.
- `Connections.ReadLocalConnection`: takes the locale's comparison to be a total preorder of strings, and directory listings to name no revision of a connection twice.
- `ConnectedDrive.Client.ResumeRemote`: the lease is the client's own cached lease; whether the coordinator honoured a release is not modelled.
- Strings are ordered by character, where JavaScript compares UTF-16 units; the two differ only between U+E000..U+FFFF and characters above U+FFFF.
- Reading integration records back, listing operation heads, the candidate plan's writes and the cleanup of staging refs in the control store.
- The conformance suites, the workflow engine, wave compilation, policy merging, SQLite projections, agent adapters, HTTP, DNS, credentials and the user interface.
