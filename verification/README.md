# Booking core of the property management system, in Dafny

This project models the booking transaction system of a hotel property-management service and proves properties
of it over all inputs, runs and interleavings. The core is three tables (reservations, reservation items and a
ledger with one row per room and night) changed by service transactions and background sweeps. Beside it stand
the protocols around the tables: the availability cache and its notification listener, the outbox engine, the
idempotency middleware, the server-sent-events hub and the keyset-paginated list.

`dafny verify dfyconfig.toml` checks everything.

| file | content |
|---|---|
| `Calendar.dfy`, `StateMachine.dfy`, `Tables.dfy` | days and stays; status tables and rollups; rows, constraints and SQL statements as functions |
| `Booking.dfy` | what each transaction does to the tables, as a function with an error for a rolled-back one |
| `Invariants.dfy`, `Runs.dfy`, `IfMatch.dfy` | what every transaction keeps; every interleaving of requests and sweeps; optimistic locking |
| `Outcomes.dfy`, `Refusals.dfy`, `Sweeps.dfy` | when each request commits, in stored fields and inputs, what it writes and how it is refused; which rows the sweeps pick up |
| `Service.dfy` | the program as it runs: classes whose methods change the tables statement by statement, each transaction proved to be one step of `Runs` that keeps the invariants |
| `RoundTrip.dfy`, `Repinning.dfy`, `Interleaved.dfy`, `Reactivation.dfy` | cancel and reactivate, adjacent and with a run in between; what reactivation sells |
| `Inventory.dfy`, `Occupancy.dfy`, `Cancellation.dfy` | the incremental ledger update against a full rebuild; when every active item holds exactly its nights; when no cancelled item holds any |
| `Envelope.dfy`, `Availability.dfy`, `Blocks.dfy` | the stay envelope; auto-pinning and counts; auto-pinning over whole runs |
| `ReadThrough.dfy`, `Coherence.dfy`, `Settling.dfy` | the read-through cache; cache coherence under the listener protocol, and that it can always be reached |
| `Outbox.dfy`, `Idempotency.dfy`, `Hub.dfy`, `Paging.dfy` | the four smaller protocols |

How the source is read:

- A service transaction is one atomic step: `ExecuteTx` is serializable and rolls back on an error
  (internal/platform/db/tx.go:34-76). A sweep is two steps, a read of candidate rows and later one
  version-guarded transaction per row read. That such a transaction is atomic is an assumption: the sweeps open
  theirs with `pool.Begin` at the database's default isolation level (internal/booking/workers.go:73, 216, 330).
- Days are integers counted from Go's zero time, stays are half-open. The ledger is a map because (room, date) is
  unique (migrations/00003_reservations.sql:139); inserting on a taken slot is an error. Live items assigned to
  one room may not overlap (migrations/00003_reservations.sql:103).
- A valid start has no ledger row with a reservation and no item. The table's CHECK allows such a row
  (migrations/00003_reservations.sql:142-146), no statement of the program writes one, and none ever appears.
- One property is modelled. The clock, permissions, the If-Match version and the set of room rows locked by other
  transactions are parameters.
- In `Outbox`, `Coherence`, `Idempotency` and `Hub` a run is a list of states and the events between them; history
  that the program does not store (claim numbers, reservation numbers, missed messages) is marked as such where it
  is declared.

Where a property one would expect is false of the code, the code is kept, and the exact condition is proved:

- UpdateItem's ledger delta loses every night of an item whose arrival moves later while its departure does not
  (`Inventory.UpdateRefinesRebuild`, `Inventory.LaterArrivalLosesAllNights`, `Envelope.LaterArrivalExample`), and
  leaves the old rows in the old room when dates change without a shift of both ends and the room changes too
  (`Envelope.RoomChangeExample`).
- UpdateItem recomputes the envelope before it writes the stay (`Envelope.DateChangeSpansIff`).
- UpdateItemStayPeriod, which no route reaches, trims the ledger only for checked-in items
  (`Envelope.StayPeriodSoundIff`, `Envelope.StayPeriodExample`).
- AddItem demands If-Match but never compares it, and it is the only request that does not
  (`IfMatch.StaleCommitIff`, `IfMatch.StaleAddCommits`).
- Reactivation reclaims nights for every live item and not only for the items it revives. Items cancelled one by one
  and checked-out items are sold their nights again (`Reactivation.SellsToRevivedIff`,
  `Reactivation.SellsAgainExample`), and since it accepts a hold, an unassigned item that still holds its night is
  sold it a second time in another room (`Reactivation.SoldTwiceIff`, `Reactivation.HoldIsSoldTwice`).
- These two, UpdateItem outside its exact condition and Reactivate of a reservation with an active item, are the only
  requests after which an active item does not hold exactly its nights (`Occupancy.RunsStayStockedIff`).
- UpdateItem has no status guard, so it can sell nights to a cancelled item (`Cancellation.RunsStayCleanIff`,
  `Cancellation.CancelledItemGainsNight`).
- Cancel and reactivate can move an unassigned item to another room (`Repinning.RepinnedRoundTrip`,
  `Repinning.ComesBackElsewhere`).
- The item table lets an overstay end by check-in or check-out, and no transaction takes either edge: only a
  cancellation of the whole reservation ends it (`Runs.ItemStatusChangesAreEdges`).
- Creation invalidates the cache for the first item of each room type only
  (`ReadThrough.CreationInvalidatesAllIff`, `ReadThrough.LaterNightIsMissed`).
- A cache fill is not one step: CheckAvailability reads the counts and stores them later. A commit whose handler
  finishes in between leaves a stale value that nothing deletes before it expires (`Coherence.RunsStayCoherent`,
  `Coherence.WindowExact`, `Coherence.LeakNeedsCommitThenScan`, `Coherence.SplitFillLeaks`).
- The first connection of the listener does not flush (`Coherence.FirstConnectDoesNotFlush`).
- The hub's comment says that a full buffer gets a resync instead of the event; it does so only if the client
  drains between the two attempts (`Hub.OverflowIsSignalledIff`, `Hub.SilentLoss`).
- The hub keeps the order in which event handlers take its mutex. The listener runs each handler in a goroutine of its
  own, so that is not the order of the notifications (`Hub.DeliveredSwapped`).
- A handler that writes nothing answers 200 and is not remembered (`Idempotency.ResponseCapture.Serve`).
- The idempotency guarantees need the record to outlive the handler and also the store that follows it: a record
  that expires between the two already lets a second request in (`Idempotency.StepKeepsSafe`).
- The comment on archival speaks of soft-deleting the reservation; the code sets its status and leaves
  `deleted_at` alone, and so does the model.

## Model

| member | source | states |
|---|---|---|
| `Runs.RunKeepsValid` | internal/booking/service_update.go:85-126 | After every interleaving of the routed transactions and the sweeps, from any valid state: each ledger row naming an item is sold, carries that item's reservation and lies on a night of its current stay; live items in one room never overlap; every row a sweep still holds is the stored row or older than it. |
| `Runs.StepGood` | internal/booking/workers.go:54-131 | Whatever one event does, valid tables stay valid and every reservation or item row is either untouched or rewritten with its version raised by exactly one. |
| `Runs.RequestGood` | internal/platform/db/tx.go:34-76 | The same for each of the fourteen routed requests when it commits. |
| `Runs.StatusChangesAreEdges` | internal/booking/state_machine.go:13-47 | At every position of every run a reservation keeps its status, follows an edge of the transition table, or goes from cancelled to archived. |
| `Runs.ArchivedIsForever` | internal/booking/workers.go:329-364 | Archived is absorbing over every run, whatever old rows the sweeps act on. |
| `Runs.ItemStatusChangesAreEdges` | internal/booking/state_machine.go:50-76 | At every position of every run an item keeps its status, follows an edge of the item table, or goes from checked in or overstay to cancelled together with its deletion; an overstay only stays one or is cancelled, since no transaction takes the table edges that end it. |
| `Runs.VersionsCountWrites` | internal/store/reservation_workers.sql.go:212-218 | Between any two moments of a run versions never fall, and a row whose version is the same is the same row in every column. |
| `Runs.HoldSweepAllOrNothing` | internal/booking/workers.go:72-131 | In every interleaving the hold sweep either changes nothing at all or finds the very hold it read; then the reservation is cancelled, no ledger row is left for it or any of its items, all its items are checked out, cancelled or archived, and nothing of any other reservation changes. |
| `Runs.MovedRowDefeatsSweep` | internal/store/reservation_workers.sql.go:62-74 | A write to the reservation row anywhere between the read and the sweep's transaction makes that transaction void. |
| `Runs.AddItemMovesTheRow` | internal/booking/service_update.go:340-381 | A committed AddItem raises the reservation's version (and so defeats a pending sweep) if and only if the new hull does not touch the zero time. |
| `Runs.DateChangeMovesTheRow` | internal/booking/service_update.go:85-118 | A committed date change raises the reservation's version if and only if the hull of the old stays does not touch the zero time. |
| `Runs.GuardedCommit` | internal/store/reservation_crud.sql.go:268-280 | A committed If-Match write found exactly the version it carried and leaves the next one, for each of the ten guarded requests. |
| `Runs.NoLostUpdates` | internal/store/reservation_crud.sql.go:331-339 | Of two requests anywhere in a run that carry the same version for the same row at most one commits (confirming a confirmed reservation writes nothing and is not a commit). |
| `Outcomes.ConfirmOutcome` | internal/booking/service_create.go:172-227 | For all tables: a confirmed reservation is returned unchanged under any version; a hold or cancelled one becomes confirmed exactly under its version; every other status is refused; a commit writes that row and nothing else. |
| `Outcomes.MetadataOutcome` | internal/booking/service_read.go:90-129 | UpdateMetadata commits exactly on the stored version of a row with a proper envelope and raises the version, nothing else. |
| `Outcomes.CancelCommitsIff` | internal/booking/service_lifecycle.go:48-95 | Cancel commits if and only if the reservation is a hold or confirmed, the version is the stored one and no live item is checked in; each refusal has its own error. |
| `Outcomes.CancelWritesExactly` | internal/booking/service_lifecycle.go:76-95 | What it writes: the row; every booked, checked-in, no-show or overstay item of the reservation cancelled and deleted; every ledger row of the reservation gone; nothing else. |
| `Outcomes.CancelItemOutcome` | internal/booking/service_lifecycle.go:110-160 | CancelItem commits if and only if the item is live, booked or a no-show, and of that version; then exactly its rows go and only its status and version change. |
| `Outcomes.CheckinItemOutcome` | internal/booking/service_lifecycle.go:219-262 | CheckinItem commits if and only if the item is live, booked, has an assigned room and is of that version; only its status and version change. |
| `Outcomes.CheckoutItemOutcome` | internal/booking/service_lifecycle.go:322-362 | CheckoutItem commits if and only if the item is live, checked in and of that version; only its status and version change. |
| `Outcomes.NoShowOutcome` | internal/booking/service_lifecycle.go:366-417 | MarkNoShow commits if and only if the item is live, booked, of that version and its arrival midnight has come; then exactly its rows from today on go. |
| `Outcomes.BatchesExactly` | internal/booking/service_lifecycle.go:165-320 | The batches never fail, and change exactly the live booked items with a room (check-in) and the live checked-in items (check-out) of the reservation. |
| `Outcomes.AssignCommitsIff` | internal/booking/service_update.go:199-245 | AssignRoom commits if and only if the item is live and of that version, do-not-move is overridden if set, a checked-in item may be changed, the room exists, no other live item assigned to it stays there on one of the nights, and the rows of the item find free slots there; the two permission refusals have their own errors. |
| `Outcomes.UpdateCommitsIff` | internal/booking/service_update.go:28-141 | UpdateItem commits if and only if the item is live and of that version, the dates are proper, the target room exists and is not contested, and the ledger step is possible: every claimed night has a rate and a free slot, or only nights are given up, or the rows can move. |
| `Outcomes.UpdateSellsPriced` | internal/booking/service_helpers.go:113-123 | No committed UpdateItem claims a night for which the item's rate plan has no rate. |
| `Outcomes.StayPeriodCommitsIff` | internal/booking/service_update.go:147-197 | UpdateItemStayPeriod commits if and only if the item is live and of that version, the dates are proper, a checked-in item may be changed and keeps its arrival, and its room is not contested. |
| `Outcomes.InsertCommitsIff` | internal/booking/service_create.go:312-430 | An item is inserted if and only if the room type exists, the guests are within its limits (no upper limit if that is not positive), every night has a rate, the dates are proper, an assigned room is not contested, and the assigned room or the first unlocked unblocked room of the type has no row on any night; the new row field by field. |
| `Outcomes.AddItemCommitsIff` | internal/booking/service_update.go:340-381 | AddItem commits if and only if the reservation is neither cancelled nor archived and the item can be inserted. |
| `Outcomes.CreateCommitsIff` | internal/booking/service_create.go:32-90 | Create commits if and only if the source is supported, there is an item, a walk-in has all rooms assigned and any other creation no arrival before today, and the items can be inserted one after the other; the first row by source, with 15 minutes for website holds and 30 for others. |
| `Outcomes.ReactivateOutcome` | internal/booking/service_lifecycle.go:420-484 | Reactivate commits only on a hold or cancelled reservation, under its version, not past or with the permission; what it writes to the row and to every item; the error of each refusal. |
| `Outcomes.ReactivateCommitsIff` | internal/booking/service_lifecycle.go:446-473 | When it may start, it commits exactly when the revived items do not overlap and the loop succeeds. |
| `Outcomes.LoopCommitsIff` | internal/booking/service_lifecycle.go:463-473 | The loop succeeds exactly when each turn does, on what the turns before it left. |
| `Outcomes.ReclaimCommitsIff` | internal/booking/service_helpers.go:166-214 | One turn succeeds if and only if every night has a rate and the assigned room, or the first unlocked unblocked room of the type, has no row on any night; when it answers that the room is not available or that none is free. |
| `Outcomes.ReactivateSellsPriced` | internal/booking/service_helpers.go:113-123 | No committed Reactivate sells a night for which the item's rate plan has no rate. |
| `Outcomes.ExclusiveIsNightly` | migrations/00003_reservations.sql:103-103 | The exclusion constraint means that on no night two live items are assigned to one room. |
| `Outcomes.SweepWritesExactly` | internal/booking/workers.go:72-131 | The hold sweep commits exactly on the version it read and writes what a cancellation writes. |
| `Outcomes.ArchiveWritesExactly` | internal/booking/workers.go:329-364 | Archival commits exactly on the version it read, archives the row, deletes its live items and leaves the ledger alone. |
| `Refusals.ItemWrite` | internal/store/reservation_crud.sql.go:268-310 | What an item write answers, in order: another version, improper dates, a room that does not exist, another live item in that room on a common night; otherwise the row is written and its version raised. |
| `Refusals.MoveRefusal` | internal/store/reservation_items.sql.go:440-456 | An item without ledger rows moves anywhere; otherwise the move fails on a room that does not exist, and on a slot another row holds or two of its own rows would share. |
| `Refusals.InsertRefusal` | internal/booking/service_create.go:312-430 | The error of every refused insertion, in the order of the code: unknown type, guest limits, missing rate, dates, unknown room, overlap, no free room, taken slot. |
| `Refusals.CreateRefusal` | internal/booking/service_create.go:104-170 | After its first guards a creation fails on an improper envelope or exactly as its first failing item does. |
| `Refusals.ReclaimRefusal` | internal/booking/service_helpers.go:166-214 | A turn of the reactivation loop that passes the conflict check or auto-pin fails on a missing rate, an unknown room or a taken slot, in this order. |
| `Refusals.AssignRefusal` | internal/booking/service_update.go:199-245 | The error of every refused AssignRoom, in order: not found, do-not-move, permission, version, unknown room, overlap, taken slot. |
| `Refusals.UpdateRefusal` | internal/booking/service_update.go:28-141 | The error of every refused UpdateItem: the ledger step fails (rate, room, slot) before the version is looked at, and the version before the overlap. |
| `Refusals.StayPeriodRefusal` | internal/booking/service_update.go:147-197 | The error of every refused UpdateItemStayPeriod, in the order of its guards. |
| `Refusals.OverstayOutcome` | internal/booking/workers.go:215-272 | In every reachable state: the overstay sweep commits exactly when the stored item is the one it read, and writes only its status and version; it is skipped on any other status. |
| `Sweeps.FindsExpiredHolds` | internal/store/reservation_workers.sql.go:62-74 | A read adds exactly the named rows that are holds whose expiry lies before now. |
| `Sweeps.FindsOverstays` | internal/store/reservation_workers.sql.go:161-172 | A read adds exactly the named checked-in items whose departure is over by more than 100 minutes. |
| `Sweeps.FindsArchivable` | internal/store/reservation_workers.sql.go:14-25 | A read adds exactly the named checked-out and cancelled reservations. |
| `Sweeps.OnlyExpiredHoldsAreSwept` | internal/booking/workers.go:54-131 | Over every run: a reservation the hold sweep changes is the very row that some earlier read found, and its expiry lay before the time of that read. |
| `Sweeps.OverdueWasLate` | internal/booking/workers.go:198-213 | Over every run: an item the overstay sweep still holds was checked in and more than 100 minutes overdue when it was read. |
| `Sweeps.HoldsLiveTheirTime` | internal/booking/service_create.go:252-265 | A website hold can be found expired exactly from 15 minutes after its creation on, any other from 30. |
| `IfMatch.AddItemIgnoresIfMatch` | internal/booking/service_update.go:340-381 | For all tables and any two versions, AddItem does exactly the same: the If-Match version it carries has no effect. |
| `IfMatch.StaleCommitIff` | internal/booking/router.go:37-58 | The exact law: of all requests that carry an If-Match version, those that can commit in some valid state against another stored version are the AddItem requests whose arrival precedes their departure, and no others. |
| `IfMatch.StaleAddCommits` | internal/booking/service_update.go:340-381 | At a real input: two AddItem requests carry the stored version, the first commits and raises it, and the second commits against the raised one. |
| `Invariants.CancelWritesGood` | internal/booking/service_lifecycle.go:76-95 | Cancelling keeps the tables valid and leaves the reservation cancelled, with no ledger row for it or any of its items and every item in a terminal status. |
| `Invariants.LifecycleGood` | internal/booking/service_lifecycle.go:110-160 | CancelItem, CheckinItem, CheckoutItem and MarkNoShow keep the ledger sound, items exclusive and versions counting. |
| `Invariants.BatchGood` | internal/booking/service_lifecycle.go:165-320 | The batch check-in and check-out loops keep the same invariants for any number of items. |
| `Invariants.ReactivateGood` | internal/booking/service_lifecycle.go:420-484 | Reactivation keeps them for any number of revived items, pinned or assigned. |
| `Invariants.CreateGood` | internal/booking/service_create.go:104-165 | Creation with any list of items keeps them. |
| `Invariants.AddItemGood` | internal/booking/service_update.go:340-381 | Adding an item keeps them. |
| `Invariants.ShiftSound` | internal/booking/service_update.go:85-113 | Whichever of the three delta branches a date change takes, every remaining row of the item lies on a night of the new stay and is sold to it, and no other item's row appears or changes. |
| `Invariants.UpdateItemGood` | internal/booking/service_update.go:60-141 | UpdateItem keeps the invariants on every branch. |
| `Invariants.AssignRoomGood` | internal/booking/service_update.go:199-245 | Room assignment keeps them. |
| `Invariants.OverstayGood` | internal/booking/workers.go:215-270 | Marking an overstay from an old snapshot keeps them. |
| `Invariants.ArchiveGood` | internal/booking/workers.go:329-364 | Archival keeps them. |
| `Repinning.RepinnedRoundTrip` | internal/booking/service_lifecycle.go:446-473 | For a confirmed reservation with resolvable rates and no checked-in item, with or without assigned rooms: cancel then reactivate succeeds and gives back ledger, statuses and every other column but the versions if and only if no live item is a no-show or an overstay and every deleted one is checked out or archived and has no row, every live item holds exactly its nights in one room (its assigned one if any), and every unassigned item is auto-pinned to that room again when its turn in creation order comes. |
| `Repinning.CancelReactivateRoundTrip` | internal/booking/service_lifecycle.go:446-473 | With assigned rooms throughout, that is: if and only if each live item is neither a no-show nor an overstay and is exactly covered by the ledger, and each deleted one is checked out or archived and has no row. |
| `Repinning.ComesBackElsewhere` | internal/booking/service_helpers.go:193-210 | At a real input: an unassigned item in room 1 that is cancelled and reactivated comes back in room 0. |
| `Interleaved.RoundTripAcrossRun` | internal/booking/service_lifecycle.go:446-473 | Cancel, any run of requests and sweeps that leaves the reservation and its items alone, then reactivate: this succeeds if and only if no slot the reservation held was taken and the revived items overlap no live item, and then the row, the items and exactly the old ledger rows are back and nothing else is touched. |
| `Reactivation.ReactivationSells` | internal/booking/service_lifecycle.go:463-473 | For every item that is live after a committed reactivation the rows it gains are exactly its nights in one room, its assigned one if it has any, on slots that were free; no other row is added and none is changed. |
| `Reactivation.SellsToRevivedIff` | internal/booking/service_lifecycle.go:462-473 | The comment promises inventory for each reactivated item; a committed reactivation sells to items that were not live before, and to no other, if and only if the reservation had no live item before the call. |
| `Reactivation.SoldTwiceIff` | internal/booking/service_lifecycle.go:462-473 | After a committed reactivation an item that is then live has two rows on a night if and only if it held a row for that night before the call. |
| `Reactivation.HoldIsSoldTwice` | internal/booking/state_machine.go:13-33 | At a real input, from empty tables: one unassigned item is created as a hold in room 0; reactivating the hold commits and sells the same item the same night in room 1 as well. |
| `Reactivation.SellsAgainExample` | internal/store/reservation_items.sql.go:367-374 | At a real input, for an item cancelled on its own and for a checked-out one: a cancelled reservation with that live item is reactivated and its night is sold to it again. |
| `Cancellation.CancelledStaysOver` | internal/store/reservation_items.sql.go:98-104 | Over every run: items of a cancelled reservation are checked out or cancelled, and no item is ever archived. |
| `Cancellation.StepKeepsCleanIff` | internal/booking/service_update.go:85-113 | If no row names a cancelled item, a step keeps this if and only if it is neither a committed UpdateItem that gives a cancelled item a night outside its old stay nor a committed Reactivate of a reservation with a live cancelled item. |
| `Cancellation.RunsStayCleanIff` | internal/booking/service_update.go:28-141 | Over every run: all states are free of rows of cancelled items if and only if no request of the run is of these two kinds. |
| `Cancellation.CancelledItemGainsNight` | internal/booking/service_update.go:60-113 | At a real input: UpdateItem has no status guard, and a date change sells night 6 to an item cancelled on its own of a cancelled reservation. |
| `RoundTrip.ReclaimAllSucceeds` | internal/booking/service_helpers.go:166-214 | The reactivation loop succeeds for any number of items when no wanted slot is taken and the items do not overlap. |
| `RoundTrip.ReclaimAllAdds` | internal/booking/service_helpers.go:96-161 | A successful pass of the loop adds exactly one sold row per night of each item in its room and touches no other row. |
| `Inventory.UpdateRefinesRebuild` | internal/booking/service_update.go:65-126 | Starting from exactly the old nights in some room, assigned or pinned, UpdateItem ends with the ledger of delete-all-and-reinsert if and only if the dates are unchanged, or both ends move the same way, or the room is kept and the arrival does not move later. |
| `Occupancy.StepKeepsIff` | internal/booking/service_update.go:85-126 | The converse of ledger soundness: suppose every live booked or checked-in item holds exactly its nights in one room, its assigned one if any, and deleted items have no row unless archived. A step keeps this if and only if it is neither a committed UpdateItem of such an item outside that condition nor a committed Reactivate of a reservation that has such an item. |
| `Occupancy.RunsStayStockedIff` | internal/booking/service_lifecycle.go:420-484 | Over every run: all states are such if and only if no request of the run is of these two kinds. |
| `Occupancy.UpdateKeepsIff` | internal/booking/service_update.go:28-141 | The exact condition for UpdateItem, with the item in an assigned or a pinned room. |
| `Occupancy.ReactivateKeepsIff` | internal/booking/service_lifecycle.go:420-484 | The exact condition for Reactivate. |
| `Inventory.DeltaWithRoomKept` | internal/booking/service_update.go:85-113 | With the room kept that condition fails exactly when the arrival moves later and the departure does not. |
| `Inventory.LaterArrivalLosesAllNights` | internal/booking/service_update.go:100-106 | In that failing family the item ends with no ledger row at all. |
| `Inventory.RebuiltIffHolds` | internal/booking/service_update.go:90-99 | A ledger that agrees on all other rows is the rebuilt one exactly when the item's rows are the nights of the stay in the room. |
| `Inventory.MoveHolds` | internal/booking/service_update.go:120-126 | Re-rooming an item that holds exactly its nights makes it hold exactly them in the new room. |
| `Envelope.LiveHullSpans` | internal/booking/service_helpers.go:217-252 | The recomputed envelope is the least interval that covers the live items' stays, and no other interval is. |
| `Envelope.CreateSpans` | internal/booking/service_create.go:236-249 | A new reservation's envelope is exactly the span of its items. |
| `Envelope.AddItemSpans` | internal/booking/service_update.go:361-369 | After AddItem the envelope is exactly the span of the items unless the zero-time guard skipped the write. |
| `Envelope.DateChangeSpansIff` | internal/booking/service_update.go:115-133 | After a date change the envelope is the span of the items if and only if the new stay lies in the old span and each end of it is still touched: the envelope is recomputed before the stay is written. |
| `Envelope.OnlyItemLeavesEnvelopeBehind` | internal/booking/service_update.go:115-133 | Every date change of a reservation's only live item leaves the envelope at the old stay. |
| `Envelope.LaterArrivalExample` | internal/booking/service_update.go:100-133 | A concrete date change (nights 5 and 6, new arrival 6) that commits, empties the item's ledger rows where a rebuild keeps night 6, and leaves the envelope at the old stay. |
| `Envelope.RoomChangeExample` | internal/booking/service_update.go:107-126 | At a real input: a change of dates and room at once (night 5 in room 0 to nights 5 and 6 in room 1) commits and leaves night 5 in room 0. |
| `Envelope.StayPeriodSpans` | internal/booking/service_update.go:147-197 | UpdateItemStayPeriod leaves the envelope exact, as it recomputes it last. |
| `Envelope.StayPeriodSoundIff` | internal/booking/service_update.go:165-177 | UpdateItemStayPeriod keeps the ledger sound if and only if the item is checked in or has no row outside the new stay. |
| `Envelope.StayPeriodExample` | internal/booking/service_update.go:165-177 | At a real input: a booked item moves from night 5 to night 8 and its row on night 5 stays. |
| `Availability.InsertUnassignedExactly` | internal/booking/service_create.go:312-430 | Over a ledger of blocking rows an unassigned item is inserted exactly when occupancy, dates and rates are in order and some unlocked room of its type is free on all nights; no constraint of the database is what stops it. |
| `Availability.AutoPinNeverDoubleBooks` | internal/booking/service_create.go:289-309 | For any list of unassigned items the batch never reaches a uniqueness, overlap or foreign-key error; on success each item holds exactly its nights in one room of its type and every older row is untouched. |
| `Blocks.RunKeepsBlocks` | internal/store/reservation_items.sql.go:183-222 | No run of requests and sweeps ever adds, changes or removes a ledger row that belongs to no item. |
| `Blocks.CreateNeverDoubleBooks` | internal/booking/service_create.go:289-309 | Over whole runs: from any valid start with blocking rows only, creating unassigned items after any run never meets a uniqueness, overlap or foreign-key error, and on success each item holds exactly its nights in one room of its type. |
| `Blocks.RunKeepsAllBlocking` | internal/booking/service_create.go:386-430 | A ledger of blocking rows stays one over every run. |
| `Availability.InlineMatchesBlockedCount` | internal/booking/availability.go:69-79 | The inline query lies in [0, rooms] and equals room count minus blocked rooms if and only if no soft-deleted row of the type lies on that day. |
| `Availability.AutoPinMeansAvailable` | internal/store/reservation_items.sql.go:410-423 | A successful auto-pin means availability of at least 1 on every requested night. |
| `Availability.OneNightAutoPinIsAvailability` | internal/store/reservation_items.sql.go:410-423 | For one night and no locked room, auto-pin succeeds if and only if availability is at least 1. |
| `Availability.TwoNightsNeedOneRoom` | internal/store/reservation_items.sql.go:410-423 | For two nights it does not: both nights can be available and no single room free. |
| `Availability.InsertLowersByOne` | internal/booking/service_create.go:386-430 | Inserting an auto-pinned item lowers the availability of its type by exactly 1 on exactly its nights, and of nothing else. |
| `ReadThrough.AvailabilityReader.CheckAvailability` | internal/booking/availability.go:27-115 | For every range of at least one night and every pattern of cached, missing and unparsable nights over a cache that agrees with the ledger, a successful answer is the direct count night by night, and afterwards the cache agrees and covers every night; the call fails, and changes nothing, exactly on an empty range, a failed MGET, or a failed range query that some missing night needs. |
| `ReadThrough.AvailabilityReader.Lookup` | internal/booking/availability.go:46-112 | Values for all nights from hits plus one range query, which is needed exactly when some night is no hit, and the cache content after the pipeline. |
| `ReadThrough.AvailabilityReader.QueryRange` | internal/booking/availability.go:66-92 | The range query counts every day from the first to the last, both included. |
| `ReadThrough.MissesWithin` | internal/booking/availability.go:58-79 | The missing nights come out in order, so the range from the first to the last covers every gap. |
| `ReadThrough.BuildAvailabilityResult` | internal/booking/availability.go:117-127 | One entry per night in order, 0 for a night without a value. |
| `ReadThrough.AvailabilityReader.InvalidateAvailabilityCache` | internal/booking/availability.go:130-138 | Exactly the keys of the room type on the nights of the stay are gone; all others keep their value. |
| `ReadThrough.AvailabilityReader.InvalidateAfterCreate` | internal/booking/service_create.go:92-101 | Exactly the nights of the first item of each room type are invalidated. |
| `ReadThrough.CreationInvalidatesAllIff` | internal/booking/service_create.go:92-101 | All nights of all created items are invalidated if and only if each item stays within the stay of the first item of its room type. |
| `ReadThrough.LaterNightIsMissed` | internal/booking/service_create.go:92-101 | At a real input: a second item of the same type that stays one night longer, whose last night is not invalidated. |
| `Coherence.StepKeepsCoherence` | internal/platform/events/listener.go:124-151 | Suppose every cached value is the ledger count, or is owed by an unhandled notification or unfinished handler, or sits in an outage whose flush has not reached it. A step keeps this exactly when it is neither a commit that outdates a cached key before the first LISTEN nor the write of a count, read earlier and outdated since, that nothing will delete any more. |
| `Coherence.RunsStayCoherent` | internal/platform/events/listener.go:85-151 | From a coherent start, any number of steps (commits, split fills, expiries, disconnects, flushes, night-by-night handler scans) stay coherent if and only if none of them is such a commit or such a write. |
| `Coherence.WindowExact` | internal/booking/availability.go:81-112 | A fill that reads a key at one moment of a run and stores it at a later one keeps coherence if and only if the count is the same at both moments or a queued notification, an unfinished handler or a pending flush still reaches the key. |
| `Coherence.QuietWindowExact` | internal/booking/availability.go:81-112 | When every handler is past the night of the key and nothing is queued, that is: if and only if the count is the same at both moments. |
| `Coherence.LeakNeedsCommitThenScan` | internal/booking/availability.go:81-112 | A fill leaks only if a commit between its read and its write changes the count and, unless that commit precedes the first LISTEN, a handler scan of that night or a flush begins between that commit and the write. |
| `Coherence.SplitFillLeaks` | internal/booking/availability.go:94-112 | A run with the listener up throughout in which a fill leaks: the cache is stale and nothing is pending. |
| `Coherence.QuiescentCacheAgrees` | internal/platform/cache/invalidation.go:91-112 | With the listener up and nothing pending every cached value is the ledger count. |
| `Coherence.FirstConnectDoesNotFlush` | cmd/server/main.go:126-134 | A run that shows the excluded case: the first connection never flushes, so a value cached before a commit that precedes it stays stale. |
| `Coherence.FlushBeforeListenWouldLeak` | internal/platform/events/listener.go:138-151 | A run of the protocol with flush and LISTEN swapped, without any late write, that ends up with a stale key and nothing pending. |
| `Settling.AlwaysSettles` | internal/platform/events/listener.go:124-151 | From every coherent state, in an outage or not and with any queue and handlers at work, the listener and its handlers can by their own steps reach a state with nothing pending, in which every cached value is the ledger count. |
| `Settling.FinishHandlers` | internal/platform/cache/invalidation.go:91-112 | Every unfinished handler can finish, night by night, whatever its scan still owes. |
| `Settling.ExpiryIsHarmless` | internal/platform/cache/invalidation.go:91-112 | Keys may expire at any moment without breaking coherence. |
| `Coherence.UnflushedReconnectWouldLeak` | internal/platform/events/listener.go:146-149 | Without the flush a notification lost with the connection leaves a stale key and nothing pending. |
| `Coherence.FailedConnectFlushes` | internal/platform/events/listener.go:96-116 | A listener whose first attempts failed flushes when it gets through. |
| `Coherence.RunsOwePresent` | internal/platform/cache/cache.go:75-103 | In every run the scans owe only keys that are in the cache. |
| `Outbox.StepSafe` | internal/platform/worker/engine.go:153-236 | Every step (poll, start, finish, crash, clock, enqueue) by any number of pollers keeps the invariant, if goroutines start within 290 s of their claim and maxRetries is at least 1. |
| `Outbox.OutcomesAreFinal` | internal/platform/worker/engine.go:194-284 | Over every run: an outcome is written only by the latest claim of its row, completed and failed rows never change again, and retry_count is the number of counted failures and at most maxRetries. |
| `Outbox.OutcomeExactly` | internal/platform/worker/engine.go:194-284 | A recorded success completes the row, a missing handler fails it at once, and a failure fails it if and only if it is the maxRetries-th counted one and otherwise makes it pending after min(2^k, 1800) seconds; no other row changes. |
| `Outbox.FinalExactly` | internal/platform/worker/engine.go:225-284 | Over every run: a row is completed if and only if a success was recorded for it, and failed if and only if its counted failures reached maxRetries or it had no handler. |
| `Outbox.EnqueuedBecomesDue` | internal/platform/worker/engine.go:153-192 | An event can be enqueued in every state, and its row can be claimed from its process_at on. |
| `Outbox.CrashedRowsComeBack` | internal/platform/worker/engine.go:153-192 | Over every run: if all goroutines die at any moment, each row in processing is due again after five minutes. |
| `Outbox.ClaimExactly` | internal/platform/worker/engine.go:153-175 | A poll takes only due rows, for exactly five minutes, and leaves the others as they are. |
| `Outbox.LateStartUndoesCompletion` | internal/platform/worker/engine.go:201-213 | The 290 s are exact: for any larger limit there is a run in which a completed row becomes pending again. |
| `Outbox.RetriesAreDelayed` | internal/platform/worker/engine.go:249-264 | A row claimed again after k counted failures is claimed no sooner than the sum of the first k backoffs after its first claim. |
| `Outbox.BackoffIsCappedPower` | internal/platform/worker/engine.go:310-316 | The backoff is min(2^n, 1800) for every n. |
| `Outbox.DueRowIsClaimed` | internal/platform/worker/engine.go:153-175 | With ordered polls and no back-dated enqueue, a due row with q rows due no later is claimed within q / batch + 1 polls. |
| `Outbox.QueueShrinks` | internal/platform/worker/engine.go:153-175 | While it is passed over, the row keeps its place and each poll takes a full batch out of the rows ahead of it. |
| `Idempotency.StepKeepsSafe` | internal/platform/middleware/idempotency.go:131-165 | Each request in or just back from the handler owns its key's processing record; a step keeps this if and only if it is neither a fail-open nor the expiry of a held record. |
| `Idempotency.MutualExclusion` | internal/platform/middleware/idempotency.go:198-217 | In every state of every clean run at most one request per key is in the handler, and the record then present is its own, so a different fingerprint never runs while a record is present. |
| `Idempotency.OneHandlerPerRecord` | internal/platform/middleware/idempotency.go:246-284 | As long as a record lives, across any stretch of a run, only one request ever gets into the handler. |
| `Idempotency.OneExecutionPerRecord` | internal/platform/middleware/idempotency.go:154-165 | Two handler calls for one key return only if the record was gone at some moment between them. |
| `Idempotency.StoreExactly` | internal/platform/middleware/idempotency.go:160-165 | After the handler returned, a status from 200 to 299 is stored as it is, and after any other the key has no record; no other key is touched. |
| `Idempotency.ReserveExactly` | internal/platform/middleware/idempotency.go:198-217 | A reservation attempt runs the handler if and only if the key has no record, and then leaves its processing record. |
| `Idempotency.CheckExactly` | internal/platform/middleware/idempotency.go:246-284 | A read finds nothing, another fingerprint, a running request or a completed one, and answers each as stated; no record changes. |
| `Idempotency.OtherStepsExactly` | internal/platform/middleware/idempotency.go:226-244 | Waiting, the deadline, a cancelled client, a crash and a lost store leave every record alone. |
| `Idempotency.FailureFreesKey` | internal/platform/middleware/idempotency.go:160-165 | Over clean runs: after an outcome outside 2xx the next request that tries to reserve the key, whatever its fingerprint, runs the handler. |
| `Idempotency.RequestsAreAnswered` | internal/platform/middleware/idempotency.go:219-284 | In every run, whatever other requests have done, a request can be answered by at most five steps of its own without any Redis error. |
| `Idempotency.OtherWaysOut` | internal/platform/middleware/idempotency.go:128-151 | A client that goes away is noticed in the poll and only there; a Redis error is possible at exactly the three commands before the handler and then runs the handler without a record. |
| `Idempotency.LaterRequestsReplay` | internal/platform/middleware/idempotency.go:246-284 | Once a 2xx outcome is stored and while its record lives, every read by a same-fingerprint request is answered with exactly that status and body, every other one with a conflict, and no request can reserve the key or be in the handler. |
| `Idempotency.ReplaysAreGenuine` | internal/platform/middleware/idempotency.go:287-323 | In every run, clean or not, a replayed response is what a handler returned, with a 2xx status, for an earlier request with the same key and fingerprint. |
| `Idempotency.ExpiredLockAdmitsTwo` | internal/platform/middleware/idempotency.go:209-216 | A run in which a handler outlives its lock and two requests of one key are in the handler. |
| `Idempotency.FailingOpenAdmitsTwo` | internal/platform/middleware/idempotency.go:131-137 | A run in which failing open on a Redis error puts two requests of one key in the handler. |
| `Idempotency.ResponseCapture.WriteHeader` | internal/platform/middleware/idempotency.go:66-81 | Only the first status counts, and what is captured is what was sent. |
| `Idempotency.ResponseCapture.Write` | internal/platform/middleware/idempotency.go:83-94 | A body without a status means 200; captured and sent bytes stay equal. |
| `Idempotency.ResponseCapture.Serve` | internal/platform/middleware/idempotency.go:154-165 | For any sequence of handler calls the captured status and body are the ones the client receives, and a success is stored exactly when the client received one and the handler wrote something: a silent handler is captured with status 0. |
| `Hub.RunValid` | internal/platform/realtime/hub.go:95-139 | In every interleaving the client map lists exactly the channels being streamed or left, and every stream is fair to its client. |
| `Hub.NoSendOnClosed` | internal/platform/realtime/hub.go:95-116 | In every run a channel in the client map is open, no send meets a closed channel, there are at most 1000 clients and at most 64 buffered messages each. |
| `Hub.ReceivedInOrder` | internal/platform/realtime/hub.go:185-231 | What a client has received is, apart from resyncs, an order-preserving subsequence of its own property's events since it subscribed, in the order in which their handlers took the mutex. |
| `Hub.EachDispatchedOnce` | internal/platform/events/listener.go:183-215 | In every run the notifications dispatched are, as a multiset, the events fanned out and those whose goroutine still waits for the mutex. |
| `Hub.DeliveredSwapped` | internal/platform/events/listener.go:207-215 | A run in which two notifications dispatched one after the other reach the client in the opposite order, since each is handled in its own goroutine. |
| `Hub.OnlyOverflowLoses` | internal/platform/realtime/hub.go:214-231 | Between fan-outs a connected client's stream lacks exactly the events that found its buffer full; it is complete, in order, without duplicates, if and only if none did. |
| `Hub.OverflowIsSignalledIff` | internal/platform/realtime/hub.go:219-229 | The resync sent in place of an event that found the buffer full goes out if and only if the client received something between the two attempts; otherwise the loss is silent. |
| `Hub.SilentLoss` | internal/platform/realtime/hub.go:219-229 | A run in which a client has missed an event and its stream contains no resync. |
| `Hub.AdmittedIff` | internal/platform/realtime/hub.go:95-106 | A subscriber is admitted, with an empty channel, exactly while fewer than 1000 are connected. |
| `Hub.BroadcastReachesAll` | internal/platform/realtime/hub.go:196-208 | A resync broadcast ends only after every client connected at its beginning has been nudged. |
| `Hub.NudgeExactly` | internal/platform/realtime/hub.go:200-205 | A nudge appends a resync exactly when fewer than 64 messages are buffered. |
| `Hub.MutexIsReleased` | internal/platform/realtime/hub.go:210-231 | From every state of every run, whatever clients do or fail to do, the fan-out or broadcast under way can finish by its own steps, and it changes neither the client map nor a phase. |
| `Hub.ClientsCanLeave` | internal/platform/realtime/hub.go:110-116 | A connected client can always leave: it ends deleted from the map with its channel closed. |
| `Hub.StreamIsReadable` | internal/platform/realtime/hub.go:122-132 | A streaming client can read all that is in its channel, in order, with one receive per message. |
| `Hub.NamesOfChanges` | internal/platform/realtime/hub.go:240-250 | The event name of each table. |
| `Paging.ListReservations` | internal/booking/service_read.go:45-85 | One request returns matching rows past the cursor in strictly descending order; a limit outside 1 to 200 counts as 50; a matching row past the cursor is left out only if the page is full and all its rows come before it; an absent cursor id is the zero UUID. |
| `Paging.FollowCursors` | internal/store/reservation_crud.sql.go:200-212 | For any fixed table with unique ids, filter and requested limit, following the cursor of each last row until a short page yields exactly the matching rows, each once, in descending order, in one request per full page and one more. |
| `Paging.CursorResumes` | internal/store/reservation_crud.sql.go:200-212 | The cursor of the n-th listed row selects exactly the rows listed after it, ties on the date included. |
| `Paging.PageIsFirstRows` | internal/store/reservation_crud.sql.go:200-212 | The keyset query returns a full or final stretch of the ordered matches past the cursor and skips none. |
| `Paging.ListingIsComplete` | internal/store/reservation_crud.sql.go:200-212 | The ordered selection lists exactly the matching rows in strictly descending order. |
| `StateMachine.RollupReservationStatus` | internal/booking/state_machine.go:96-152 | The counting loop returns the first matching rule of the documented list, stated by which statuses occur. |
| `StateMachine.RollupIgnoresOrder` | internal/booking/state_machine.go:96-152 | Both rollups depend only on the multiset of item statuses. |
| `StateMachine.RollupIdempotent` | internal/booking/state_machine.go:96-152 | Applying either rollup to its own result changes nothing. |
| `StateMachine.RollupsDifferExactly` | internal/store/reservation_items.sql.go:386-397 | The Go and SQL rollups differ exactly when all of a non-empty list are cancelled and current is not cancelled, or all are terminal or overstay with a checked-out and an overstay among them and current is not checked_out. |
| `StateMachine.TablesAsSets` | internal/booking/state_machine.go:13-76 | The edges of the two transition tables and the terminal statuses, one by one. |
| `Calendar.NightsBetween` | internal/platform/util/time.go:28-38 | The loop lists exactly the nights of the stay in order, none for an empty or inverted stay. |
| `Calendar.DatesOutside` | internal/platform/util/time.go:51-79 | RemovedDates and AddedDates: the days of one list outside the other, in order. |
| `Calendar.FirstRemovedNight` | internal/platform/util/time.go:51-64 | Nights are removed exactly when the new stay does not contain the old; the first one is the old arrival when the arrival moves later or the new stay lies before the old, else the new departure. |
| `Calendar.OverlapIsSharedNight` | migrations/00003_reservations.sql:103-103 | Two proper stays overlap exactly when they share a night. |
| `Calendar.WeekdaysRepeat` | internal/booking/service_helpers.go:113-123 | Weekdays count from Sunday, repeat every seven days, and 0001-01-01 and 2024-01-01 are Mondays. |
| `Tables.MoveRowsEffect` | internal/store/reservation_items.sql.go:440-445 | Re-rooming keeps every other row and puts each row of the item on the same day in the new room. |
| `Tables.InsertNights` | internal/store/reservation_items.sql.go:65-76 | The bulk insert succeeds exactly when the room exists and no slot is taken, and then adds exactly the sold rows. |
| `Tables.AutoPin` | internal/store/reservation_items.sql.go:410-423 | The pinned room is of the type, unlocked, free on all days, and the first such by name; none means there is none. |
| `Tables.LiveItemsAscend` | internal/store/reservation_items.sql.go:263-269 | The items of a reservation come in creation order, each once. |
| `Service.Backend.Handle` | internal/booking/router.go:37-58 | Each of the fourteen routed requests, run statement by statement with its loops and rollback, has exactly the effect and the error of its step in Runs and keeps every invariant. |
| `Service.Backend.Step` | internal/booking/workers.go:54-131 | One request, one read of a sweep or one transaction of a sweep is exactly one step of Runs and keeps the system valid. |
| `Service.Backend.Drive` | internal/platform/db/tx.go:34-76 | For any list of events the state of the program is the state that Runs reaches, so every theorem about runs is about this class. |
| `Service.Database.CreateReservation` | internal/booking/service_create.go:32-90 | The guard loops, the item loop and the rollback are the Create step of Runs; invariants are kept. |
| `Service.Database.CreateReservationInTx` | internal/booking/service_create.go:104-165 | The transactional body: envelope, reservation row, items. |
| `Service.ComputeEnvelope` | internal/booking/service_create.go:236-249 | The loop computes the hull of the requested stays. |
| `Service.Database.InsertAllItems` | internal/booking/service_create.go:289-309 | The loop equals inserting the items one after the other, and stops at the first error with that error. |
| `Service.Database.InsertSingleItem` | internal/booking/service_create.go:312-430 | One item row and its sold nights, in the assigned or the auto-pinned room. |
| `Service.Database.CancelReservation` | internal/booking/service_lifecycle.go:41-106 | The Cancel step of Runs; a version mismatch found after the item and ledger writes undoes them; on success no ledger row is left for the reservation or its items and all its items are over. |
| `Service.Database.CheckinReservation` | internal/booking/service_lifecycle.go:165-216 | The loop is the check-in step of Runs, and reports one line per live item in order: ok exactly for booked items with a room. |
| `Service.Database.CheckoutReservation` | internal/booking/service_lifecycle.go:266-320 | The loop is the check-out step of Runs, and reports one line per live item in order: ok exactly for items checked in, checked out, cancelled or archived. |
| `Service.Database.ReactivateReservation` | internal/booking/service_lifecycle.go:420-484 | The Reactivate step of Runs; an error in the loop undoes the status and item writes; invariants are kept. |
| `Service.Database.ReclaimItems` | internal/booking/service_lifecycle.go:463-473 | The loop equals reclaiming the items one after the other and stops at the first error. |
| `Service.Database.ReactivateItemInventory` | internal/booking/service_helpers.go:166-214 | One turn of the reactivation loop: the nights go to the assigned room, unless a blocking row of an item is reported there, or to the first free room of the type. |
| `Service.Database.InsertItemLedger` | internal/booking/service_helpers.go:96-161 | The rate loop and the row loop add one sold row per given day to the room, or nothing if a rate is missing, the room does not exist or a slot is taken. |
| `Service.Database.BulkInsertLedgerRows` | internal/store/reservation_items.sql.go:65-76 | Inserting row by row adds all nights or none. |
| `Service.Database.RecomputeStayEnvelope` | internal/booking/service_helpers.go:217-252 | The loop writes the hull of the live stays, or nothing when a bound is the zero time. |
| `Service.Database.AddReservationItem` | internal/booking/service_update.go:340-381 | The AddItem step of Runs whatever version is carried; an error in the envelope write undoes the insert; invariants are kept. |
| `Service.Database.UpdateReservationStay` | internal/booking/service_update.go:28-141 | The UpdateItem step of Runs: a version mismatch found last undoes the ledger and envelope writes; invariants are kept. |
| `Service.Database.ShiftItemLedger` | internal/booking/service_update.go:85-113 | Performs the three-way ledger delta. |
| `Service.Database.AssignItemRoom` | internal/booking/service_update.go:199-245 | The AssignRoom step of Runs: a slot conflict found after the item write undoes it; invariants are kept. |
| `Service.Database.CancelHold` | internal/booking/workers.go:72-131 | Commits if and only if the stored row is the hold the sweep read; then the reservation is released and nothing else changes; otherwise nothing changes at all. |
| `Service.Database.MarkItemOverstay` | internal/booking/workers.go:215-270 | Commits if and only if the stored item is the row the sweep read; then only its status and version change; otherwise nothing does. |
| `Service.Database.ArchiveReservation` | internal/booking/workers.go:329-364 | Commits if and only if the stored row is the one the sweep read; then it is archived and none of its items is live; otherwise nothing changes. |

## Left out

- HTTP handlers, routing, JSON, logging, tracing, configuration and the web client: no state worth proving about.
- Row-level security, permissions and authentication: one property, and a permission is a boolean input.
- `internal/platform/validation`, `internal/platform/constraints` and the command-line tools: reflection and text scanning.
- UpdateItem's room-type and rate-plan branches, which open a second transaction inside the first.
- Prices, guests (with the guest check of ConfirmReservation), notes and email payloads; a rate lookup is modelled only by whether it succeeds.
- The no-show reminder sweep, which only notifies, and the notifications of the booking transactions. These carry no dates (internal/booking/service_create.go:436-448), so the cache handler cannot use them; `Coherence` takes as a premise that a commit publishes an event covering the nights it changes, which is left to database triggers that are not part of this model.
- ActionIdempotency, a finite lookup table that only tests call.
- The status rollup at run time: `rollupAndNotify` returns without doing anything, so reservation status does not follow item status in `Runs`; both rollups are compared in `StateMachine`.
- Planner keys of the cache and the cursor loops of `internal/platform/cache/cache.go`: in `Coherence` a scan is a set of keys it still owes, deleted in any order and interleaved with everything else.
- The 32-bit width of versions and counts: they are unbounded here.
- Ties of `created_at`: items of a reservation are ordered by insertion.
- The 365-day and LIMIT conditions of the sweeps' reads: a read returns any of the rows with the right status, which allows more runs.
- Listener backoff and ping timing, and Redis time-to-live values: expiry is an event that can happen at any time.
- Rows of `Idempotency` that do not parse, response headers, informational 1xx statuses, and requests that are not POST or PATCH or lack the key.
- Heartbeats and event payloads of the hub, and events without a valid property id, which it drops.
- The fan-out and broadcast loops of the hub are steps of a state machine and not one method, because other goroutines run between two iterations; map order is arbitrary there.
- Paging.FollowCursors: the table does not change between two requests, as the source gives no snapshot across pages; cursor dates are taken at midnight in the database's time zone.
- Outbox.DueRowIsClaimed: assumes one poller, which the source does not enforce; with several, SKIP LOCKED may pass a row over.
