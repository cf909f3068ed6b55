# Rental engine: a verified model

A Dafny model of the rental-inventory engine of the backend, with proofs of what it promises. Each database
transaction is one atomic step. The layers are:

- **Rental desk** (`RentalModel`, `RentalMachine`): bookings, fulfilment requirements with their reservations,
  unit assignments and event logs, and a `Command` for each transaction. `Apply` says what a transaction commits or
  why it is rolled back; `Run` folds a list of commands. `RentalInvariant` and `RentalSafety` hold the inductive
  invariant, `RentalTheorems` and `RentalAudit` what follows for every reachable state. `RentalGates`, `RentalWork`,
  `RentalChecks`, `RentalReplay` and `RentalRefusals` say in terms of the stored rows when each transaction is accepted,
  what it writes, what its key stands for and why it is refused. `RentalDesk` is the same engine as a class that loops
  over rows and updates them in place; each method is proved to commit exactly what `Apply` says.
- **Capacity** (`RentalCapacity`, `RentalVarying`, `RentalRanges`, `RentalUnits`, `RentalAssignable`, `RentalPromises`,
  `RentalCounterexamples`, `Availability`, `NextAvailable`, `NextAvailableTried`, `NextAvailableExact`, `NextAvailableGaps`,
  `Policy`):
  admission by counting, its soundness per day, histories in which stock and policies change, the dates that rows store,
  the refinement of counts to physical units, the search for the next start date, and the resolution of availability
  policies.
- **Planning** (`Composition`, `CompositionComplete`, `SourcePlan`, `SourceAdmission`): expanding a product into requirements, choosing
  their sources, and turning the plan into reservations.
- **Money** (`Ledger`, `LedgerLaws`, `LedgerSafety`, `LedgerDue`, `LedgerDesk`): totals, late fees, extension charges, payments, claims, online
  sessions and cash on delivery of one booking.
- **Shipments** (`Shipment`, `ShipmentProgress`), **stock counts** (`StockCount`, `StockCountItems`) and the owner's **next
  action** (`Operations`, `OperationsOffers`).

`dafny verify dfyconfig.toml` checks the whole project.

## What the proofs found

Statements one would expect that do not hold are stated with the exact condition under which they do, and a concrete
history where they fail.

- `assignedQuantity` counts the active assignments, except that a cancellation or rejection releases them and leaves
  the counter behind: right exactly on the rows where it was zero
  (`RentalTheorems.CancellationLeavesCounterBehind`, `RejectionLeavesCounterBehind`, history
  `RentalCounterexamples.CounterLeftBehind`).
- The event log leads to the current status of a requirement exactly when its booking was not rejected: a rejection
  cancels the rows without an event (`RentalAudit.LogIsAnAuditTrail`, history `RejectionLeavesAGap`).
- A CANCELLED requirement can come back, exactly by a release: the hold sweep keeps its assignments, and releasing one
  puts the row in play again with a dead reservation (`RentalTheorems.CancelledComesBackOnlyByRelease`,
  `SweptRowComesBack`, history `RentalCounterexamples.CancelledRowReturns`).
- Renewing a hold checks no capacity. Every day of a history stays within its units exactly when each renewal in it
  finds room for the lapsed holds it brings back (`RentalCapacity.EveryDayFits`, `RenewalFitsIff`, history
  `RentalCounterexamples.RenewalOversells`).
- An extension moves the reservation's dates but not those copied to the assignments, so an assigned unit looks
  free for the added days (`RentalRanges.ExtensionTracksIff`) and can be promised to two live rentals (history
  `RentalCounterexamples.UnitPromisedTwice`). No unit is ever promised twice, exactly when every assignment avoids the
  units of overlapping reservations and every extension those of reservations that overlap its new range
  (`RentalPromises.NextPromisedIff`, `EveryUnitPromisedOnce`). The assignment still lies inside the reservation
  (`RentalRanges.ReachableWithin`), so counts stay sound for the units.
- A positive check leaves the promised units free but for those that lapsed holds still have: they are in use and not
  counted (`RentalUnits.CheckedUnitsAreFree` subtracts exactly these, history
  `RentalCounterexamples.LapsedHoldKeepsUnit`).
- A count per range admits bookings that no assignment can serve later, although no day is oversold. A reservation can
  be completed exactly when as many units are free over its whole range as it lacks (`RentalAssignable.AssignableIff`,
  history `RentalCounterexamples.ReservationStranded`).
- An extension is checked against the notice rule from the rental's old start, so a rental that has begun is never
  rewritten by a later extension (`RentalTheorems.StartedRentalsAreNeverExtended`).
- Revenue is attributed to the active assignments of a completed booking, and there are none
  (`RentalTheorems.CompletionFindsNothingAssigned`).
- The next-date search tries only days after stored conflicts, spaced by the buffer of one location. It is exact
  exactly when no other day on which a start can become possible is needed (`NextAvailableExact.ExactIff`); it misses days
  after unit-level blocks, days that only the notice rule excluded, and days that another location's buffer calls for
  (`NextAvailableGaps.UnitBlockMissed`, `ShortNoticeMissed`, `OtherBufferMissed`).
- Approved claims and confirmed online sessions can allocate a deposit twice. A history stays within the deposits
  exactly when each of them finds its deposit uncollected (`LedgerSafety.RunDepositsIff`, histories
  `ClaimAllocatesTwice`, `SessionAllocatesTwice`).
- A cash collection and a confirmed session can overpay, exactly when more was asked for than is due by then
  (`LedgerSafety.CollectionOverpaysIff`, `ConfirmationIff`, histories `CollectionOverpays`, `SessionAllocatesTwice`).
  A booking is never overpaid, exactly when these, late-fee recalculations and substitution credits all stay within
  what is due (`LedgerDue.NeverOverpaidIff`).
- Additional charges of deposit settlements belong to no item, so subtotal and fees exceed the item totals by
  exactly these charges (`LedgerSafety.LedgerHolds`).
- A courier can take a parcel back below a rank it had reached, exactly when the current status is unranked or ranks no
  higher than the report, and then something in between explains it (`Shipment.RankDropsIff`, histories
  `RankDropsAcrossHold`, `RankDropsAcrossManualUpdate`).
- A planned product set is refused at reservation time exactly when one of its products is not published
  (`SourceAdmission.PlanIsAdmittedIff`, witness `PlanIsNotAdmitted`).

## How the source is rendered

- Days are integers, instants are minutes; a location has a fixed offset to UTC.
- Units, blocks and policies (`Catalogue`) stay as they are during a history, except in `RentalVarying`, where they
  change from one transaction to the next; `offered` sums up the product's deletion and availability flags, which are
  repeated for each of its pools.
- A block ends no earlier than it begins, and an item total is not negative: constraints of the database.
- The review commands ask for a pending decision besides a pending booking; every decision is pending while the
  booking is, so the booking alone is tested.
- A row is addressed by its place in its table, as rows are never deleted. A requirement always has its
  reservation; quantity and dates, which both rows store, are kept once.
- `cancelBooking`, `applyProviderStatus` and the gateway notification read before their transaction, the start of an
  online session uses none, and a dispatch reads the balance before it writes; each is one step here.
- Request hashes are replaced by the request contents; the keys of the three keyed workflows share one table.
- Results of other tables enter as parameters: units in a fit state for an assignment or an approval, inspections and
  lifecycle checks of an event, deposits and open work at completion, late fees per item, and how composition rules
  resolve.
- The quantities, charges and payments that the request validation forces to be positive or non-negative are
  `nat`, or refused first.

## Model

| member | source | states |
|---|---|---|
| RentalSafety.RunKeeps | apps/backend/src/modules/inventory/fulfillment.service.ts:498-1059 | Every sequence of transactions, in any order, keeps the inductive invariant of all rows and of unit exclusivity. |
| RentalSafety.ApplyKeeps | apps/backend/src/modules/inventory/fulfillment.service.ts:876-1059 | One transaction of any kind, refused or committed, keeps the invariant. |
| RentalSafety.AssignExclusive | apps/backend/src/modules/inventory/inventory-assignment.service.ts:104-189 | An accepted assignment cannot overlap another active assignment of the same unit. |
| RentalSafety.SubstituteGood | apps/backend/src/modules/inventory/fulfillment.service.ts:700-718 | A row that passes the substitution guards has nothing handed out, although OVERDUE is missing from the list of refused statuses. |
| RentalInvariant.AssignKeeps | apps/backend/src/modules/inventory/inventory-assignment.service.ts:114-213 | After an assignment the counter equals the active rows and the status says whether the quantity is complete. |
| RentalInvariant.ReleaseKeeps | apps/backend/src/modules/inventory/inventory-assignment.service.ts:250-296 | After a release the counters still agree with the rows; there was at least one piece to take off. |
| RentalInvariant.PrepareKeeps | apps/backend/src/modules/inventory/fulfillment.service.ts:1107-1170 | READY is entered only with every piece assigned and is never left or entered while a piece is out. |
| RentalInvariant.ResolvedShape | apps/backend/src/modules/inventory/fulfillment.service.ts:1542-1589 | Ids that pass the log checks are active, new to the log for a handout and still out for a return or loss, and as many as the quantity. |
| RentalInvariant.HandOutKeeps | apps/backend/src/modules/inventory/fulfillment.service.ts:876-1059 | A recorded handout keeps counters, log and assignments in agreement. |
| RentalInvariant.ReturnKeeps | apps/backend/src/modules/inventory/fulfillment.service.ts:876-1059 | A recorded return or loss keeps counters, log and assignments in agreement. |
| RentalInvariant.MoveKeeps | apps/backend/src/modules/inventory/fulfillment.service.ts:498-656 | Every allowed booking transition whose gate opens keeps every row of the booking within the invariant of the new stage. |
| RentalInvariant.SweepKeeps | apps/backend/src/modules/inventory/inventory-reservation.service.ts:218-290 | A lapsed row of a pending booking, swept together with the booking, meets the invariant of a cancelled one although its assignments stay. |
| RentalInvariant.RejectKeeps | apps/backend/src/modules/operations/booking-review.service.ts:304-327 | Rejecting a request cancels every row of the booking, releases its units, and keeps counters, log and assignments within the invariant. |
| RentalInvariant.ExtendKeeps | apps/backend/src/modules/inventory/fulfillment.service.ts:386-446 | Rewriting a row's dates keeps the row invariant, with the overdue status resolved to HANDED_OUT. |
| RentalTheorems.CountersAreTheLog | apps/backend/src/modules/inventory/fulfillment.service.ts:1542-1619 | In every reachable state the three counters are the sizes of the id sets rebuilt from the log, returned and lost ids are disjoint subsets of the handed-out ids, exactly the pieces still out are active, and assignedQuantity counts the active rows unless the booking is cancelled. |
| RentalTheorems.CancellationLeavesCounterBehind | apps/backend/src/modules/inventory/fulfillment.service.ts:613-634 | Cancelling leaves assignedQuantity equal to the active rows exactly on the rows where it was zero. |
| RentalTheorems.RejectionLeavesCounterBehind | apps/backend/src/modules/operations/booking-review.service.ts:304-327 | Rejecting a request leaves it right on exactly the same rows. |
| RentalTheorems.GuardsBehindTheLogNeverRefuse | apps/backend/src/modules/inventory/fulfillment.service.ts:1591-1619 | Once the named assignments resolve, no counter guard can refuse and no clamp changes a value. |
| RentalTheorems.ReleaseClampNeverBites | apps/backend/src/modules/inventory/inventory-assignment.service.ts:271-274 | The clamp at zero of a release never changes the value. |
| RentalTheorems.StagesAgree | apps/backend/src/modules/inventory/fulfillment.service.ts:1107-1141 | READY means assigned, returned and lost pieces make up the quantity; anything handed out means READY; earlier statuses mean nothing handed out; OVERDUE means all handed out and some piece out. |
| RentalTheorems.ExtensionFallbackUnreachable | apps/backend/src/modules/inventory/fulfillment.service.ts:388-393 | Every overdue row that an extension rewrites becomes HANDED_OUT; the RESERVED fallback is dead. |
| RentalTheorems.NoSubstitutionWhileOut | apps/backend/src/modules/inventory/fulfillment.service.ts:700-709 | No row with a piece out can be substituted. |
| RentalTheorems.StartedRentalsAreNeverExtended | apps/backend/src/modules/inventory/fulfillment.service.ts:358-383 | Once the day on which a rental was to start has begun everywhere, no later extension that would rewrite it succeeds, whatever happens in between: the check measures notice from that day, and no transaction moves it. |
| RentalTheorems.CompletionFindsNothingAssigned | apps/backend/src/modules/inventory/inventory-reservation.service.ts:151-213 | When a booking completes no assignment is active, so no revenue is attributed to any unit. |
| RentalTheorems.AssignmentAddsUnits | apps/backend/src/modules/inventory/inventory-assignment.service.ts:114-213 | An assignment adds exactly the chosen units, with the reservation's blocked range, and never exceeds the quantity. |
| RentalTheorems.ReleaseFreesOne | apps/backend/src/modules/inventory/inventory-assignment.service.ts:250-296 | A release frees exactly the assignment it names. |
| RentalTheorems.RecordMovesPieces | apps/backend/src/modules/inventory/fulfillment.service.ts:944-1040 | A handout puts exactly the named pieces out; a return or loss brings exactly them in and frees their units. |
| RentalTheorems.SweepIsIdempotent | apps/backend/src/modules/inventory/inventory-reservation.service.ts:218-290 | A second sweep at the same time changes nothing, and no lapsed hold is left. |
| RentalTheorems.UnitsAreExclusive | apps/backend/src/modules/inventory/inventory-assignment.service.ts:104-189 | Two active assignments of one unit never have overlapping stored ranges, and no reservation has more active assignments than its quantity. |
| RentalTheorems.CancelledComesBackOnlyByRelease | apps/backend/src/modules/inventory/inventory-assignment.service.ts:271-296 | A cancelled row leaves CANCELLED exactly when one of its assignments is released. |
| RentalTheorems.SweptRowComesBack | apps/backend/src/modules/inventory/inventory-reservation.service.ts:218-260 | A lapsed row that still has an assignment is cancelled by the sweep, and releasing the assignment puts it back in play without a live reservation. |
| RentalTheorems.SweepTakesWholeBookings | apps/backend/src/modules/inventory/inventory-reservation.service.ts:218-290 | The holds of a pending booking lapse together, so a row is swept exactly when its whole booking is cancelled with it; no booking is left half swept. |
| RentalTheorems.ApprovalIsConfirmation | apps/backend/src/modules/operations/booking-review.service.ts:92-192 | In every reachable state approving a request commits exactly what confirming the booking by a status change commits, or both are refused, although the two look at different rows. |
| RentalTheorems.RunContinues | apps/backend/src/modules/booking/booking.service.ts:190-199 | Over any sequence of transactions rows keep booking, quantity and first day, keys keep their requests, and bookings and clock only move forward. |
| RentalTheorems.LifecycleIsSafe | apps/backend/src/modules/inventory/fulfillment.service.ts:537-656 | From delivery on every row stays fully handed out, from return on fully resolved, and a cancelled booking never has a piece out. |
| RentalTheorems.AtMostSixChanges | apps/backend/src/modules/booking/booking.service.ts:190-199 | However long the history, a booking changes status at most six times. |
| RentalTheorems.ReplaysChangeNothing | apps/backend/src/modules/inventory/fulfillment.service.ts:883-904 | A keyed request that succeeded changes nothing when it comes again at any later time, and its key is refused for any other request. |
| RentalReplay.RecordReplayIff | apps/backend/src/modules/inventory/fulfillment.service.ts:883-904 | After an event was recorded, at any later time another one with its key changes nothing exactly when row, kind, quantity, reason and the set of assignments are the same; otherwise it is refused as a reused key. |
| RentalReplay.PrepareReplayIff | apps/backend/src/modules/inventory/fulfillment.service.ts:1072-1099 | The same for a preparation: row, target and reason. |
| RentalReplay.SubstituteReplayIff | apps/backend/src/modules/inventory/fulfillment.service.ts:664-689 | The same for a substitution: row, SKU, price impact and reason. |
| RentalReplay.ExtendReplayIff | apps/backend/src/modules/inventory/fulfillment.service.ts:293-312 | The same for an extension: booking, end, charge, evidence and reason. |
| RentalReplay.EventKeysAreShared | apps/backend/src/modules/inventory/fulfillment.service.ts:1079-1093 | The key of an event is refused for a preparation and the other way round, as both are stored in one table. |
| RentalReplay.KeysOfATable | apps/backend/src/modules/inventory/fulfillment.service.ts:1040-1054 | A key is taken exactly by a committed transaction of its own table. |
| RentalReplay.NewKeysAreCarriedOut | apps/backend/src/modules/inventory/fulfillment.service.ts:890-904 | A request whose table does not have its key is carried out as if there were no keys. |
| RentalGates.ToConfirmedIff | apps/backend/src/modules/inventory/fulfillment.service.ts:505-536 | A booking is confirmed exactly from pending, with some open row, every open row reserved with all its pieces assigned, and every reservation confirmed or pending and not past its expiry. |
| RentalGates.ToDeliveredIff | apps/backend/src/modules/inventory/fulfillment.service.ts:537-541 | Delivered is entered exactly from confirmed, with every open row handed out in full. |
| RentalGates.ToOverdueIff | apps/backend/src/modules/inventory/fulfillment.service.ts:640-655 | Overdue is entered exactly from delivered, whatever the rows say. |
| RentalGates.ToReturnedIff | apps/backend/src/modules/inventory/fulfillment.service.ts:542-544 | Returned is entered exactly from delivered or overdue, with every open row returned or lost in full. |
| RentalGates.ToInspectedIff | apps/backend/src/modules/inventory/fulfillment.service.ts:542-564 | Inspected is entered exactly from returned, with every open row resolved and no returned unit without its inspection. |
| RentalGates.ToCompletedIff | apps/backend/src/modules/inventory/fulfillment.service.ts:542-615 | Completed is entered exactly from inspected, resolved and inspected, with deposits settled, nothing due and no work open. |
| RentalGates.ToCancelledIff | apps/backend/src/modules/inventory/fulfillment.service.ts:618-638 | A booking is cancelled exactly from pending or confirmed, by a customer from pending only, with nothing out. |
| RentalGates.TransitionWrites | apps/backend/src/modules/inventory/inventory-reservation.service.ts:95-166 | An accepted transition moves the booking and does to each of its rows, and to no other, what its target calls for: holds confirmed, cancelled or released, assignments let go, and one log entry with its quantity and statuses. |
| RentalGates.ApproveIff | apps/backend/src/modules/operations/booking-review.service.ts:437-515 | A request is approved exactly when it is pending, the units are fit, some row waits, and every waiting row has all its pieces assigned and a valid reservation. |
| RentalGates.ApproveWrites | apps/backend/src/modules/operations/booking-review.service.ts:181-191 | An approval confirms the booking and its pending holds, and changes nothing else. |
| RentalGates.RejectIff | apps/backend/src/modules/operations/booking-review.service.ts:304-327 | A pending request can always be rejected; this cancels the waiting rows and the live reservations, lets all units go and writes nothing into the logs. |
| RentalGates.RenewIff | apps/backend/src/modules/operations/booking-review.service.ts:363-382 | Holds are renewed exactly for a pending booking that has a pending hold, to a time still to come. |
| RentalGates.RenewWrites | apps/backend/src/modules/operations/booking-review.service.ts:384-391 | A renewal moves the expiry of all the pending holds of the booking, and nothing else. |
| RentalGates.SweepWrites | apps/backend/src/modules/inventory/inventory-reservation.service.ts:218-290 | Every hold that ran out expires and its row is cancelled with a log entry; a pending booking is cancelled exactly when a hold of it ran out and no other is live. |
| RentalWork.AssignIff | apps/backend/src/modules/inventory/inventory-assignment.service.ts:89-179 | Units are assigned exactly when the reservation is live, the row not ready, there is room for all of them, and each is eligible, of the row's SKU and location, and free of blocks and active assignments on the blocked days. |
| RentalWork.AssignAppends | apps/backend/src/modules/inventory/inventory-assignment.service.ts:180-213 | Each chosen unit gets one new assignment with the reservation's blocked days; counter, status and log follow. |
| RentalWork.ReleaseIff | apps/backend/src/modules/inventory/inventory-assignment.service.ts:250-296 | An active assignment is released exactly while nothing is handed out and the row is not ready; exactly that one is let go. |
| RentalWork.PrepareIff | apps/backend/src/modules/inventory/fulfillment.service.ts:1107-1166 | A row is prepared exactly while its booking is confirmed, it is reserved and nothing is handed out; it becomes ready only with every piece assigned. |
| RentalWork.MovableIff | apps/backend/src/modules/inventory/fulfillment.service.ts:1542-1589 | The named assignments resolve exactly when there is one for each piece, all active, and all still out according to the log, or none of them for a handout. |
| RentalWork.RecordIff | apps/backend/src/modules/inventory/fulfillment.service.ts:913-1012 | An event under a new key is recorded exactly when the booking's stage, preparation, inspection, counters, actor and lifecycle allow it and the named assignments can move. |
| RentalWork.RecordMoves | apps/backend/src/modules/inventory/fulfillment.service.ts:980-1057 | It moves counters, status, assignments and log by exactly the named pieces. |
| RentalWork.SubstituteIff | apps/backend/src/modules/inventory/fulfillment.service.ts:700-804 | A substitution is accepted exactly for a row that is not out, done with or assigned, with another SKU, when allowed and when the check at its location passes; the row starts over with the new SKU and its blocked days. |
| RentalChecks.LoadCounts | apps/backend/src/modules/inventory/inventory-availability.service.ts:426-449 | The reserved quantity adds up exactly the other reservations of the SKU and location that are valid and share a day with the dates. |
| RentalChecks.CapacityCounts | apps/backend/src/modules/inventory/inventory-availability.service.ts:462-490 | The capacity counts exactly the units that no block of their own keeps away on one of the days. |
| RentalChecks.CheckIff | apps/backend/src/modules/inventory/inventory-availability.service.ts:353-460 | A check passes exactly when the product can be rented at that time, nothing blocks the location, and the quantity fits next to the reserved one; it names the days blocked around the rental. |
| RentalChecks.ExtendIff | apps/backend/src/modules/inventory/fulfillment.service.ts:313-384 | An extension under a new key is accepted exactly when the booking is not closed, some row still runs, and each such row ends later than now and passes its own check. |
| RentalChecks.ExtendWrites | apps/backend/src/modules/inventory/fulfillment.service.ts:386-446 | It moves the end and the blocked days of exactly the rows that still run, and puts overdue rows on time again with a log entry. |
| RentalChecks.CreateIff | apps/backend/src/modules/inventory/fulfillment.service.ts:148-274 | A booking is opened exactly when each line passes the check next to the rows before it; each line becomes a reserved row with the days its check named. |
| RentalRefusals.TransitionRefusals | apps/backend/src/modules/inventory/fulfillment.service.ts:498-620 | A refused transition names what stands in the way, and nothing checked before it does: the row that is not reserved, assigned, handed out or resolved, the missing inspection, the open deposit, balance or work. |
| RentalRefusals.CancelRefusals | apps/backend/src/modules/booking/booking.service.ts:2943-2988 | A refused cancellation says that the booking is unknown, too far on, no longer the customer's to cancel, without rows, or has pieces out. |
| RentalRefusals.ReviewRefusals | apps/backend/src/modules/operations/booking-review.service.ts:304-397 | A refused decision on a request says that the booking is unknown, not under review, blocked, or without a hold or time to renew. |
| RentalRefusals.AssignRefusals | apps/backend/src/modules/inventory/inventory-assignment.service.ts:89-179 | A refused assignment names the dead reservation, the finished preparation, the missing room, or the unit that does not fit. |
| RentalRefusals.ReleaseRefusals | apps/backend/src/modules/inventory/inventory-assignment.service.ts:250-270 | A refused release says that the assignment is not active, that a piece is out, or that the row is ready. |
| RentalRefusals.PrepareRefusals | apps/backend/src/modules/inventory/fulfillment.service.ts:1107-1140 | A refused preparation names the stage, the missing reservation or assignment, or the handout that came before. |
| RentalRefusals.RecordRefusals | apps/backend/src/modules/inventory/fulfillment.service.ts:905-1012 | A refused event says what is wrong with it, its time, its assignments, its quantity, or its units, in that order. |
| RentalRefusals.CheckRefusals | apps/backend/src/modules/inventory/inventory-availability.service.ts:353-460 | A failed check gives the first of its reasons that holds: quantity, dates, location, product, notice, reach, block, capacity. |
| RentalRefusals.SubstituteRefusals | apps/backend/src/modules/inventory/fulfillment.service.ts:700-804 | A refused substitution names the row's status, the same SKU, the active assignment, the missing permission, or why the check fails. |
| RentalRefusals.ExtendRefusals | apps/backend/src/modules/inventory/fulfillment.service.ts:313-384 | A refused extension names the booking, its status, the missing rows, the end that is too early, or the conflict. |
| RentalAudit.LogIsAnAuditTrail | apps/backend/src/modules/inventory/fulfillment.service.ts:1023-1055 | After any history the events of a requirement are linked from PLANNED on and their quantities add up to the three counters; they lead to the current status exactly when the booking was not rejected. |
| RentalAudit.SubstitutedWasReserved | apps/backend/src/modules/inventory/fulfillment.service.ts:850-871 | A substitution sets RESERVED without an event because the row was RESERVED already. |
| RentalCapacity.AddedFits | apps/backend/src/modules/inventory/inventory-availability.service.ts:432-459 | A reservation admitted by the overlap count keeps every single day within the units eligible that day plus the shortage limit. |
| RentalCapacity.ReplacedFits | apps/backend/src/modules/inventory/inventory-availability.service.ts:432-459 | So does a reservation that takes the place of the one left out of its check. |
| RentalCapacity.EarliestSawThem | apps/backend/src/modules/inventory/fulfillment.service.ts:358-401 | The check of the earliest-starting row of an extension already counted all that any rewritten row will weigh. |
| RentalCapacity.ExtensionFits | apps/backend/src/modules/inventory/fulfillment.service.ts:358-401 | Rows checked one by one against the old ranges still fit together, every day at every pool. |
| RentalCapacity.RenewalLoad | apps/backend/src/modules/operations/booking-review.service.ts:384-391 | Renewing puts exactly the lapsed holds of the booking back into every count, unchecked. |
| RentalCapacity.RenewalFitsIff | apps/backend/src/modules/operations/booking-review.service.ts:362-397 | A renewal keeps every day within its units exactly when there is room for the lapsed quantity on top of the count. |
| RentalCapacity.SweepKeepsLoad | apps/backend/src/modules/inventory/inventory-reservation.service.ts:218-240 | Sweeping changes no availability count. |
| RentalCapacity.NextFits | apps/backend/src/modules/inventory/inventory-availability.service.ts:432-459 | Every transaction keeps every day within its units; a renewal does so exactly when every day has room for the lapsed holds it brings back. |
| RentalCapacity.EveryDayFits | apps/backend/src/modules/inventory/inventory-availability.service.ts:432-459 | In every state of a history every day at every pool is within its units and shortage limit, exactly when each renewal in it had room. |
| RentalCapacity.TimelyRenewalHasRoom | apps/backend/src/modules/operations/booking-review.service.ts:384-391 | A renewal before any hold of the booking has lapsed always has room. |
| RentalVarying.VaryingIsReachable | apps/backend/src/modules/inventory/inventory-availability.service.ts:462-490 | However counted units, blocks and policies change from one transaction to the next, within the stock and generosity of a fixed catalogue, a history reaches only states reachable under that catalogue, so all that holds there holds in them. |
| RentalVarying.EveryDayFitsUnder | apps/backend/src/modules/inventory/inventory-availability.service.ts:432-459 | In such histories every day stays within the units and shortage limit of the fixed catalogue, exactly when each renewal had room. |
| RentalUnits.HeldAtMostLoad | apps/backend/src/modules/inventory/inventory-availability.service.ts:432-459 | The countable units that are held during a range are no more than the quantity counted for it. |
| RentalUnits.CheckedUnitsAreFree | apps/backend/src/modules/inventory/inventory-availability.service.ts:422-490 | In every reachable state, extended rentals included, a positive check leaves at least the requested number of counted units free of blocks and assignments, less the shortage limit and the units that holds no longer counted still have. |
| RentalAssignable.AdmittedCanBeAssigned | apps/backend/src/modules/inventory/inventory-assignment.service.ts:114-189 | Without shortage selling and such units, whatever the check admits can be assigned at once, all of it: a set of units of that size passes every test. |
| RentalAssignable.AssignableIff | apps/backend/src/modules/inventory/inventory-assignment.service.ts:114-189 | At any time a live reservation can be completed exactly when as many stocked, unblocked and unused units are left over its whole range as it still lacks. |
| RentalPromises.NextPromisedIff | apps/backend/src/modules/inventory/fulfillment.service.ts:394-401 | In a reachable state in which no unit is held for two live overlapping reservations, a transaction keeps it so exactly when it is clean: an assignment whose units no other live overlapping reservation holds, an extension whose units no other live reservation overlapping the new range holds, or any other transaction. |
| RentalPromises.EveryUnitPromisedOnce | apps/backend/src/modules/inventory/inventory-assignment.service.ts:162-178 | Over any history no state holds a unit for two live overlapping reservations, exactly when every assignment and extension carried out was clean. |
| RentalRanges.ReachableDated | apps/backend/src/modules/inventory/availability-policy.service.ts:218-236 | In every reachable state each row blocks exactly the range its policy gives for its rental dates. |
| RentalRanges.ReachableWithin | apps/backend/src/modules/inventory/fulfillment.service.ts:394-401 | In every reachable state each active assignment lies inside the range of its reservation, extended or not. |
| RentalRanges.ReachableStocked | apps/backend/src/modules/inventory/inventory-assignment.service.ts:122-149 | In every reachable state a requirement holds only units of its own SKU and location, substitutions included. |
| RentalUnits.ExtensionMovesNoUnit | apps/backend/src/modules/inventory/fulfillment.service.ts:394-401 | An extension makes no unit busy or free on any day: it rewrites reservations, not assignments. |
| RentalRanges.ExtensionTracksIff | apps/backend/src/modules/inventory/fulfillment.service.ts:394-401 | After an extension the assignments still carry the reservation's range exactly on rows with nothing assigned. |
| RentalRanges.RangesTrackWithoutExtensions | apps/backend/src/modules/inventory/inventory-assignment.service.ts:180-189 | Without extensions every active assignment carries the range of its reservation. |
| RentalCounterexamples.RenewalOversells | apps/backend/src/modules/operations/booking-review.service.ts:384-391 | A concrete history in which a lapsed hold is renewed after its unit was booked again: a day is sold twice. |
| RentalCounterexamples.UnitPromisedTwice | apps/backend/src/modules/inventory/fulfillment.service.ts:394-401 | A concrete history in which one unit is actively assigned to two live rentals whose reservations overlap, after an extension. |
| RentalCounterexamples.ReservationStranded | apps/backend/src/modules/inventory/inventory-availability.service.ts:432-459 | A concrete history in which every day is within its units and yet a live reservation finds no unit free over its whole range. |
| RentalCounterexamples.CounterLeftBehind | apps/backend/src/modules/inventory/inventory-reservation.service.ts:135-148 | A concrete history that cancels a booking with an assigned unit: the requirement still counts an assignment it no longer has. |
| RentalCounterexamples.CancelledRowReturns | apps/backend/src/modules/inventory/inventory-reservation.service.ts:218-260 | A concrete history in which a swept requirement is in play again after a release, on a dead reservation of a cancelled booking. |
| RentalCounterexamples.RejectionLeavesAGap | apps/backend/src/modules/operations/booking-review.service.ts:304-327 | A concrete history after which a cancelled requirement's log still ends in RESERVED. |
| RentalCounterexamples.LapsedHoldKeepsUnit | apps/backend/src/modules/inventory/inventory-availability.service.ts:432-446 | A concrete history in which the check finds room although the only unit is in use: a lapsed hold is not counted but keeps its assignment. |
| RentalDesk.CountActive | apps/backend/src/modules/inventory/inventory-assignment.service.ts:139-141 | Counts the active assignments. |
| RentalDesk.CollectIds | apps/backend/src/modules/inventory/fulfillment.service.ts:1557-1568 | Rebuilds from the log the ids that the events of one kind name. |
| RentalDesk.ResolveRows | apps/backend/src/modules/inventory/fulfillment.service.ts:1542-1589 | Resolves the named assignments against log and rows, refusing for the reasons given in the order given. |
| RentalDesk.Desk.AssignUnits | apps/backend/src/modules/inventory/inventory-assignment.service.ts:78-220 | Commits exactly the specified assignment or changes nothing, and keeps the invariant. |
| RentalDesk.Desk.ReleaseUnit | apps/backend/src/modules/inventory/inventory-assignment.service.ts:241-301 | Commits exactly the specified release or changes nothing, and keeps the invariant. |
| RentalDesk.Desk.RecordEvent | apps/backend/src/modules/inventory/fulfillment.service.ts:876-1059 | Commits exactly the specified handover with its key remembered, replays a known key, or changes nothing. |
| RentalDesk.Desk.Prepare | apps/backend/src/modules/inventory/fulfillment.service.ts:1061-1170 | The same for starting or completing preparation. |
| RentalDesk.Desk.CheckAvailability | apps/backend/src/modules/inventory/inventory-availability.service.ts:353-460 | Sums the competing reservations and counts the unblocked units, and answers as the specified check, each refusal in its order. |
| RentalDesk.Desk.SubstituteSku | apps/backend/src/modules/inventory/fulfillment.service.ts:658-874 | The same for a substitution. |
| RentalDesk.Desk.CheckTargets | apps/backend/src/modules/inventory/fulfillment.service.ts:358-384 | Checks each row of an extension alone; fails as soon as one is refused. |
| RentalDesk.Desk.WriteExtension | apps/backend/src/modules/inventory/fulfillment.service.ts:386-446 | Rewrites exactly the target rows, each with its own checked range. |
| RentalDesk.Desk.ExtendRental | apps/backend/src/modules/inventory/fulfillment.service.ts:287-480 | Commits exactly the specified extension with its key remembered, or changes nothing. |
| RentalDesk.Desk.AssignedByRequirement | apps/backend/src/modules/inventory/fulfillment.service.ts:513-521 | The map counts the active assignments of every requirement of the booking. |
| RentalDesk.Desk.CheckTransition | apps/backend/src/modules/inventory/fulfillment.service.ts:498-616 | The gate's answer for every target status, each refusal in its order. |
| RentalDesk.Desk.MoveRequirements | apps/backend/src/modules/inventory/inventory-reservation.service.ts:95-166 | Cancel, complete, confirm and overdue loops together do to every row what the transition specifies. |
| RentalDesk.Desk.UpdateStatus | apps/backend/src/modules/booking/booking.service.ts:2875-2941 | Commits exactly the specified transition or changes nothing, and keeps the invariant. |
| RentalDesk.Desk.CancelBooking | apps/backend/src/modules/booking/booking.service.ts:2943-2988 | The same for a cancellation by owner or customer. |
| RentalDesk.Desk.RenewHold | apps/backend/src/modules/operations/booking-review.service.ts:362-397 | Commits exactly the specified renewal of the pending holds or changes nothing, and keeps the invariant. |
| RentalDesk.Desk.ApproveAndReserve | apps/backend/src/modules/operations/booking-review.service.ts:92-192 | Approves a request and confirms its holds exactly when no blocker is found, or changes nothing. |
| RentalDesk.Desk.RejectRequest | apps/backend/src/modules/operations/booking-review.service.ts:273-340 | Releases the units, cancels the reservations and rows of a pending booking without events, or changes nothing. |
| RentalDesk.Desk.SweepExpired | apps/backend/src/modules/inventory/inventory-reservation.service.ts:218-290 | Expires the lapsed holds, cancels their rows, and cancels the pending bookings left without a live hold. |
| RentalDesk.Desk.CreateBooking | apps/backend/src/modules/inventory/fulfillment.service.ts:148-274 | Admits the lines one by one; a refused line takes the whole booking back. |
| Availability.CheckLocations | apps/backend/src/modules/inventory/inventory-availability.service.ts:86-131 | Nothing when the product is not on offer or no location is; otherwise an available location if there is one, the largest remaining quantity of those that compare, the first of them on a tie; available exactly when some location is. |
| Availability.ResultReports | apps/backend/src/modules/inventory/inventory-availability.service.ts:552-590 | The result of a location reports what remains there: nothing for a product not on offer, the shortage allowance when a policy rule or a block stops the check, else capacity and shortage less the reserved quantity. |
| Availability.BestReportsMost | apps/backend/src/modules/inventory/inventory-availability.service.ts:128-131 | The location chosen can serve if any can; of those that can, or of all when none can, none reports more remaining pieces, and none before it as many. |
| NextAvailable.CollectCandidates | apps/backend/src/modules/inventory/inventory-availability.service.ts:185-204 | The candidate dates in order, without repeats. |
| NextAvailable.FindNextAvailable | apps/backend/src/modules/inventory/inventory-availability.service.ts:139-223 | Returns the first of the candidates considered that some location can serve, scanning in batches, or none when none can. |
| NextAvailableTried.ReturnedIff | apps/backend/src/modules/inventory/inventory-availability.service.ts:150-180 | Each query returns exactly the rows in view with fewer than 250 others ending before them. |
| NextAvailableTried.TriedIff | apps/backend/src/modules/inventory/inventory-availability.service.ts:182-205 | The days tried are exactly the first sixty days, within a year and the policy's reach, that clear a returned conflict by the buffer before a rental. |
| NextAvailableTried.AnswerIsFirstTried | apps/backend/src/modules/inventory/inventory-availability.service.ts:139-223 | The answer is the first of these days on which a rental of the same length passes the check at some location; there is none exactly when none of them fits. |
| NextAvailableExact.RoomFollowsAConflict | apps/backend/src/modules/inventory/inventory-availability.service.ts:185-199 | Room that appears at a location from one day to the next appears because a counted reservation, a full block or a block on a unit ended at the right distance. |
| NextAvailableExact.StartTurns | apps/backend/src/modules/inventory/inventory-availability.service.ts:383-459 | A start becomes possible at a location only on days that can be read off the stored rows: after the end of a reservation or block, on the first day meeting notice, or when the product is first rented out. |
| NextAvailableExact.EarliestIsConsidered | apps/backend/src/modules/inventory/inventory-availability.service.ts:139-223 | Over locations with one buffer, no unit-level block and notice enough, and within the limits, the earliest feasible start up to the horizon is always tried. |
| NextAvailableExact.ExactIff | apps/backend/src/modules/inventory/inventory-availability.service.ts:139-223 | In every reachable state the answer is exact exactly when every day read off the stored rows that is feasible and in reach is anticipated by a feasible candidate, and so by the answer. |
| NextAvailableExact.SearchIsExact | apps/backend/src/modules/inventory/inventory-availability.service.ts:139-223 | In every reachable state, over any number of locations with one buffer, for a request that meets the notice rule, without unit-level blocks and within the query limits, the search returns the earliest feasible start or says rightly that there is none. |
| NextAvailableGaps.UnitBlockMissed | apps/backend/src/modules/inventory/inventory-availability.service.ts:163-183 | A concrete search that misses the day after a block on a single unit. |
| NextAvailableGaps.ShortNoticeMissed | apps/backend/src/modules/inventory/inventory-availability.service.ts:505-519 | A concrete search that misses a day only the notice rule excluded. |
| NextAvailableGaps.OtherBufferMissed | apps/backend/src/modules/inventory/inventory-availability.service.ts:182-199 | A search over two locations that misses the day the other location's preparation buffer calls for. |
| Policy.ApplyPolicy | apps/backend/src/modules/inventory/availability-policy.service.ts:310-337 | Overwrites exactly the settings the policy has. |
| Policy.Resolve | apps/backend/src/modules/inventory/availability-policy.service.ts:178-212 | Each setting comes from the most specific policy that has it, else from the defaults. |
| Policy.AppliesCascades | apps/backend/src/modules/inventory/availability-policy.service.ts:195-212 | The SKU's setting applies; without one that of the location, then of the product, then of the tenant, then the default. |
| Policy.OrderDoesNotMatter | apps/backend/src/modules/inventory/availability-policy.service.ts:199-205 | The order in which policies are read cannot change a setting. |
| Policy.BlockedRangeIsTight | apps/backend/src/modules/inventory/availability-policy.service.ts:218-236 | The blocked days cover the buffers on both sides, and one day less would not. |
| LedgerSafety.SummaryAddsUp | apps/backend/src/modules/booking/booking.service.ts:117-132 | Subtotal and fees split the item totals without remainder. |
| LedgerSafety.PercentInRange | apps/backend/src/modules/booking/booking.service.ts:1619-1636 | A percentage discount is the smallest whole amount that reaches the percentage, and never more than the discountable amount. |
| LedgerSafety.OpenBalanced | apps/backend/src/modules/booking/booking.service.ts:1453-1515 | Every booking starts with totals, payments and payment status in agreement, whatever discount, terms of payment and initial payment it has. |
| LedgerSafety.LateItemsMove | apps/backend/src/modules/booking/booking.service.ts:3155-3183 | Late fees move each item total by exactly the change of its fee. |
| LedgerSafety.LateFeesForget | apps/backend/src/modules/booking/booking.service.ts:3155-3206 | Only the last calculation counts: an earlier one leaves no trace in the result or in a refusal. |
| LedgerSafety.SharesAreFair | apps/backend/src/modules/inventory/fulfillment.service.ts:447-453 | Every share of an extension charge is non-negative; a share that is not the last is the exact proportion rounded down; the last exceeds its proportion by less than one for each other item, and by nothing when it is alone. |
| LedgerSafety.ApportionmentConserves | apps/backend/src/modules/inventory/fulfillment.service.ts:447-465 | The shares add up to the charge. |
| LedgerSafety.ApportionmentConservesIff | apps/backend/src/modules/inventory/fulfillment.service.ts:447-465 | They do so exactly when there is an item or nothing to charge. |
| LedgerSafety.NextBalanced | apps/backend/src/modules/payment/payment.service.ts:65-205 | Late fees, extensions, substitutions, settlements, payments, claim reviews, online sessions and their confirmations, dispatches and collections all keep the ledger. |
| LedgerSafety.LedgerHolds | apps/backend/src/modules/booking/booking.service.ts:117-132 | After any history, subtotal and fees equal item totals plus settlement charges, the grand total follows from its parts, totalPaid is the sum of the verified payments, the payment status agrees, allocations add up, and no shipment was collected twice. |
| LedgerSafety.NextDepositsIff | apps/backend/src/modules/payment/payment.service.ts:112-135 | A step keeps the verified allocations within the booking's deposits exactly when the claim it approves or the session it confirms, if any, names a deposit still uncollected; no other step can exceed them. |
| LedgerSafety.ApprovalDepositsIff | apps/backend/src/modules/payment/payment.service.ts:249-286 | Approving a claim keeps within the deposits exactly when its deposit is still uncollected. |
| LedgerSafety.ConfirmationIff | apps/backend/src/modules/payment/payment.service.ts:630-668 | The gateway's confirmation keeps within the deposits exactly when its deposit is still uncollected, and overpays the booking exactly when less is due by then than its amount. |
| LedgerSafety.RunDepositsIff | apps/backend/src/modules/payment/payment.service.ts:249-286 | A whole history ends within the deposits exactly when each approved claim and each confirmed session in it found its deposit uncollected. |
| LedgerSafety.PayStaysWithin | apps/backend/src/modules/payment/payment.service.ts:105-140 | A recorded payment exceeds neither the balance nor the uncollected deposits nor the rental charges. |
| LedgerSafety.CollectionOverpaysIff | apps/backend/src/modules/fulfillment/fulfillment.service.ts:911-918 | A cash collection overpays the booking exactly when it was dispatched for more than is due by now. |
| LedgerDue.NextDueIff | apps/backend/src/modules/fulfillment/fulfillment.service.ts:893-918 | A step leaves the booking within its total exactly when what it takes off the balance, by collection, confirmation, late-fee recalculation or substitution credit, is still due; every other step is safe. |
| LedgerDue.NeverOverpaidIff | apps/backend/src/modules/payment/payment.service.ts:630-668 | From its opening on a booking is overpaid in no state of a history, exactly when every step of it stays within what is due. |
| LedgerSafety.CollectedOnce | apps/backend/src/modules/fulfillment/fulfillment.service.ts:868-921 | However often a delivery is reported, and whatever happens in between, it is paid for once. |
| LedgerSafety.FirstCollection | apps/backend/src/modules/fulfillment/fulfillment.service.ts:893-920 | The first collection pays the expected amount, deposits first, and leaves the payment status right. |
| LedgerSafety.ClaimAllocatesTwice | apps/backend/src/modules/payment/payment.service.ts:249-286 | A concrete history in which an approved claim allocates the deposit a second time. |
| LedgerSafety.SessionAllocatesTwice | apps/backend/src/modules/payment/payment.service.ts:435-485 | A concrete history in which cash is paid while an online session is pending: the confirmation allocates the deposit a second time and overpays the booking. |
| LedgerSafety.CollectionOverpays | apps/backend/src/modules/fulfillment/fulfillment.service.ts:893-918 | A concrete history in which a parcel dispatched for all that is due is half paid before delivery, and the courier collects too much. |
| LedgerLaws.ShippingIsTheLargest | apps/backend/src/modules/booking/booking.service.ts:117-132 | Shipping is charged once, at the rate of the item for which it is highest. |
| LedgerLaws.OpenIff | apps/backend/src/modules/booking/booking.service.ts:1619-1636 | A booking is priced exactly when it has items with no negative total, and a percentage is at most 100 or a flat discount within the non-deposit charges. |
| LedgerLaws.OpenWrites | apps/backend/src/modules/booking/booking.service.ts:1619-1636 | Its totals follow from its items, the shipping, the deposits and the discount: the flat amount, or the percentage rounded up. |
| LedgerLaws.InitialIff | apps/backend/src/modules/booking/booking.service.ts:1453-1515 | A first payment is taken exactly when it exceeds neither the total nor the deposits nor the rental charges. |
| LedgerLaws.PayIff | apps/backend/src/modules/payment/payment.service.ts:105-140 | A payment is taken exactly when it is positive and stays within the balance, the uncollected deposits and the rental charges. |
| LedgerLaws.PayingOffIff | apps/backend/src/modules/payment/payment.service.ts:105-140 | Paying all that is due with the uncollected deposit is accepted exactly when something is due and that deposit is no more than it; the booking is then paid. |
| LedgerLaws.ReviewIff | apps/backend/src/modules/payment/payment.service.ts:209-296 | A claim is reviewed exactly while pending, and approved exactly within the balance; only an approval changes what is paid. |
| LedgerLaws.SessionIff | apps/backend/src/modules/payment/payment.service.ts:396-485 | A session is opened exactly for a booking paid online with something due, deposits that fit into it and no session pending; it asks for all that is due, deposits first. |
| LedgerLaws.ConfirmIff | apps/backend/src/modules/payment/payment.service.ts:630-668 | A notification counts exactly for a pending session; only a valid one changes what is paid, by the session's amount. |
| LedgerLaws.DispatchIff | apps/backend/src/modules/fulfillment/fulfillment.service.ts:144-149 | A parcel is dispatched exactly when it is to collect no more than is due; a later dispatch keeps a collection made. |
| LedgerLaws.CollectWrites | apps/backend/src/modules/fulfillment/fulfillment.service.ts:868-921 | A delivered parcel pays its expected amount once: its deposits first, then the rental. |
| LedgerLaws.LateItemsIff | apps/backend/src/modules/booking/booking.service.ts:3155-3183 | Late fees are charged exactly when no changed item total falls below zero; each item then carries exactly its fee. |
| LedgerLaws.LateFeesIff | apps/backend/src/modules/booking/booking.service.ts:3184-3206 | The change in the item totals moves fees and grand total alike, exactly when neither falls below zero. |
| LedgerLaws.ExtendWrites | apps/backend/src/modules/inventory/fulfillment.service.ts:447-475 | Every item moves to the new end with the days and the share this adds; subtotal and grand total rise by the charge. |
| LedgerLaws.SubstituteIff | apps/backend/src/modules/inventory/fulfillment.service.ts:819-848 | A price impact is booked exactly when neither its item nor a total falls below zero. |
| LedgerLaws.SettleWrites | apps/backend/src/modules/payment/payment.service.ts:858-868 | A settlement's charge is listed and raises fees and grand total. |
| LedgerLaws.Refusals | apps/backend/src/modules/payment/payment.service.ts:105-140 | A refused step on the money names what stands in the way, and nothing checked before it does. |
| LedgerDesk.BookingAccount.CalculateLateFees | apps/backend/src/modules/booking/booking.service.ts:3122-3210 | The loop over items and the running difference give exactly the specified account, or change nothing. |
| LedgerDesk.BookingAccount.ExtendItemsAndTotals | apps/backend/src/modules/inventory/fulfillment.service.ts:447-475 | The loop with its running remainder gives every item exactly its share and moves the totals by the charge. |
| LedgerDesk.BookingAccount.ApplyPriceImpact | apps/backend/src/modules/inventory/fulfillment.service.ts:819-848 | A price impact moves one item and the totals alike, or is refused when a total would turn negative. |
| LedgerDesk.BookingAccount.RecordPayment | apps/backend/src/modules/payment/payment.service.ts:100-180 | Records a payment within all three balances, or refuses it. |
| LedgerDesk.BookingAccount.ReviewClaim | apps/backend/src/modules/payment/payment.service.ts:209-296 | Approves or rejects a pending claim once. |
| LedgerDesk.BookingAccount.InitiateSession | apps/backend/src/modules/payment/payment.service.ts:396-485 | Records a pending online payment of all that is due, deposits first, unless one is pending already. |
| LedgerDesk.BookingAccount.HandleNotification | apps/backend/src/modules/payment/payment.service.ts:630-668 | Verifies or fails a pending online payment once and adds the verified payments up again. |
| LedgerDesk.BookingAccount.ChargeSettlement | apps/backend/src/modules/payment/payment.service.ts:858-868 | An additional charge of a settlement raises fees and grand total by the same amount. |
| LedgerDesk.BookingAccount.DispatchParcel | apps/backend/src/modules/fulfillment/fulfillment.service.ts:144-149 | What the courier is to collect never exceeds what is due at dispatch, and a later dispatch keeps a collection. |
| LedgerDesk.BookingAccount.EnsureCodPayment | apps/backend/src/modules/fulfillment/fulfillment.service.ts:868-921 | Creates the payment for a delivered parcel exactly when it has not been created yet. |
| Shipment.RunKeeps | apps/backend/src/modules/fulfillment/fulfillment.service.ts:738-806 | Over any history the status is that of the last event, keys are unique, and every courier event respects time, rank and terminal statuses. |
| Shipment.AppliedInOrder | apps/backend/src/modules/fulfillment/fulfillment.service.ts:760-764 | Applied courier updates carry non-decreasing times. |
| Shipment.RankNeverDrops | apps/backend/src/modules/fulfillment/fulfillment.service.ts:68-81 | While only the courier reports and every status is ranked, the rank never drops. |
| Shipment.RankDropsAcrossHold | apps/backend/src/modules/fulfillment/fulfillment.service.ts:68-81 | With an unranked status in between, it can. |
| Shipment.RankDropsAcrossManualUpdate | apps/backend/src/modules/fulfillment/fulfillment.service.ts:68-81 | So it can after a manual step back. |
| Shipment.RankDropsIff | apps/backend/src/modules/fulfillment/fulfillment.service.ts:754-783 | A new and timely report that would take the parcel below an earlier courier report is applied exactly when the current status is unranked or ranks no higher than the report, and then an unranked status, or a step back by staff or system, lies in between. |
| Shipment.ReplayIsHarmless | apps/backend/src/modules/fulfillment/fulfillment.service.ts:938-942 | A key that was used changes neither status nor log at any later time. |
| Shipment.ArrivalOrderIsHarmless | apps/backend/src/modules/fulfillment/fulfillment.service.ts:738-806 | In whatever order the reports of a courier arrive, the shipment ends with the latest of them, if the others are older, rank no higher and do not close it differently. |
| ShipmentProgress.ReportIff | apps/backend/src/modules/fulfillment/fulfillment.service.ts:738-783 | A new report is always recorded, and moves the parcel exactly when no courier event is later and its status is no earlier on the journey, off the way, or a cancellation, and the parcel has not ended its journey elsewhere. |
| ShipmentProgress.OrderlyIsTaken | apps/backend/src/modules/fulfillment/fulfillment.service.ts:738-806 | A run of new reports, each no earlier than the one before and moving the parcel on, is taken one by one. |
| ShipmentProgress.JourneyIsTaken | apps/backend/src/modules/fulfillment/fulfillment.service.ts:68-81 | Reports that follow the journey from the preparation of the parcel to its partial delivery, and on to its return or delivery, are all taken. |
| ShipmentProgress.EndsStay | apps/backend/src/modules/fulfillment/fulfillment.service.ts:754-783 | A parcel that was delivered, returned or cancelled stays so, whatever the courier reports. |
| ShipmentProgress.PayloadsDiffer | apps/backend/src/modules/fulfillment/fulfillment.service.ts:685-736 | Different payloads have different keys. |
| Shipment.Tracker.TransitionShipment | apps/backend/src/modules/fulfillment/fulfillment.service.ts:923-959 | Appends the event and moves to its status, unless its key was used. |
| Shipment.Tracker.ApplyProviderStatus | apps/backend/src/modules/fulfillment/fulfillment.service.ts:738-783 | Records every report, and applies it unless it is stale or a step back. |
| Shipment.Tracker.ProcessWebhook | apps/backend/src/modules/fulfillment/fulfillment.service.ts:685-736 | A payload that was received before is dropped; a new one is recorded and applied once. |
| Composition.ExpansionIsATree | apps/backend/src/modules/inventory/fulfillment.service.ts:1190-1278 | Every successful expansion is a tree of distinct paths of at most five rules, parents first, no product twice on a path, quantities multiplied along the path, and every selection belonging to one of its rules. |
| Composition.AllocationsAddUp | apps/backend/src/modules/inventory/fulfillment.service.ts:148-187 | The revenue allocations of an item add up to the larger of its revenue and its positive component adjustments. |
| CompositionComplete.ExpandIff | apps/backend/src/modules/inventory/fulfillment.service.ts:1190-1278 | An expansion succeeds exactly when no rule that it comes to is rejected, unresolved though required, circular or for too few or too many pieces, none lies deeper than five rules, and the customer chose nothing that it does not come to. |
| CompositionComplete.ExpansionIsComplete | apps/backend/src/modules/inventory/fulfillment.service.ts:1190-1278 | It holds exactly the components that the rules lead to, each with its SKU, quantity and price. |
| CompositionComplete.CreditsAre | apps/backend/src/modules/inventory/fulfillment.service.ts:148-187 | A component row is credited its price, unless negative, and the main row what is left of the item's revenue, if anything. |
| Composition.Expander.ExpandProductRules | apps/backend/src/modules/inventory/fulfillment.service.ts:1190-1278 | The recursive calls push exactly the specified proposals onto the shared list, or refuse for the same reason. |
| Composition.Expander.ExpandProposal | apps/backend/src/modules/inventory/fulfillment.service.ts:104-142 | The expansion of the main product, refused when a selection belongs to no rule of it. |
| Composition.CreateRequirements | apps/backend/src/modules/inventory/fulfillment.service.ts:148-191 | The parent lookup never misses: every component row points to the earlier row of its parent, and carries its allocation. |
| SourcePlan.GroupDemands | apps/backend/src/modules/inventory/fulfillment.service.ts:1280-1305 | One group for each SKU, with the summed quantity and all the keys. |
| SourcePlan.CheckCommon | apps/backend/src/modules/inventory/fulfillment.service.ts:1318-1342 | A location serves all groups exactly when each is available there; its score is what is left over. |
| SourcePlan.FindCommon | apps/backend/src/modules/inventory/fulfillment.service.ts:1316-1346 | Finds the location with the largest score among those that serve everything, the earliest on a tie. |
| SourcePlan.ServesIff | apps/backend/src/modules/inventory/fulfillment.service.ts:1316-1336 | A location serves a plan exactly when its check passes for the summed quantity of every SKU. |
| SourcePlan.ScoreCounts | apps/backend/src/modules/inventory/fulfillment.service.ts:1337-1342 | Its score adds up what each SKU has remaining there beyond the summed quantity. |
| SourcePlan.ExpandGroups | apps/backend/src/modules/inventory/fulfillment.service.ts:1397-1413 | Every requirement is mapped to the result of its group. |
| SourcePlan.PlanSources | apps/backend/src/modules/inventory/fulfillment.service.ts:1280-1395 | A single best location whenever one serves everything; otherwise the refusal or the split that pinning, policy and availability call for, each SKU then from the location with the most remaining; every requirement supplied. |
| SourcePlan.NeverOverCommits | apps/backend/src/modules/inventory/fulfillment.service.ts:1280-1413 | What a plan takes of a SKU from a location is within what the check there left free. |
| SourceAdmission.PlanIsAdmittedIff | apps/backend/src/modules/inventory/fulfillment.service.ts:148-220 | A plan is carried out in full exactly when every planned product is published: planning does not ask for that, reserving does, and nothing else can fail in between. |
| SourceAdmission.PlanIsMade | apps/backend/src/modules/inventory/fulfillment.service.ts:148-262 | Carried out, a plan leaves one row for each requirement: its SKU at the planned location, its quantity and its dates. |
| SourceAdmission.PlanIsNotAdmitted | apps/backend/src/modules/inventory/fulfillment.service.ts:148-220 | A concrete plan of a set that succeeds and is refused when it is carried out, as one component is not published. |
| StockCount.WalkScans | apps/backend/src/modules/inventory/inventory-count.service.ts:188-220 | Each scan is the unit its identity names, asset code first, and a duplicate exactly when it was seen before; refused exactly when a scan names two units. |
| StockCount.ScansAddUp | apps/backend/src/modules/inventory/inventory-count.service.ts:190-216 | Every scan is counted on exactly one unit or as unknown. |
| StockCount.UnionOf | apps/backend/src/modules/inventory/inventory-count.service.ts:222-226 | The expected units and the observed ones, each once. |
| StockCount.SidesSplit | apps/backend/src/modules/inventory/inventory-count.service.ts:222-260 | Expected units are the missing ones and the shared ones; observed units are the unexpected ones and the shared ones. |
| StockCount.OddItemsAreUnexpected | apps/backend/src/modules/inventory/inventory-count.service.ts:229-241 | A unit in the wrong place or in need of review is always an unexpected one. |
| StockCountItems.ItemsTell | apps/backend/src/modules/inventory/inventory-count.service.ts:228-262 | Every item says how its unit's record and the scans agree: expected, observed, missing, unexpected, in the wrong place or to be reviewed, and scanned how often; every unit on hand and every unit scanned has an item. |
| StockCountItems.ScansTell | apps/backend/src/modules/inventory/inventory-count.service.ts:188-220 | Every scan names the recorded unit with its asset code, else with its barcode, else none, and is a duplicate exactly when it repeats an earlier one. |
| StockCount.DiscrepanciesAreTheDifference | apps/backend/src/modules/inventory/inventory-count.service.ts:287-291 | The discrepancies are exactly the units on one side of the count and not on the other. |
| StockCount.Reconcile | apps/backend/src/modules/inventory/inventory-count.service.ts:101-305 | A whole session: scans, units and discrepancies are conserved for every list of scans. |
| Operations.ReachableHasRows | apps/backend/src/modules/inventory/fulfillment.service.ts:504-509 | Every booking that is confirmed or further on has a requirement row. |
| Operations.StartRentalIff | apps/backend/src/modules/booking/booking-operations.ts:113-122 | START_RENTAL is offered exactly when the gate to delivered opens, in every reachable state. |
| Operations.ActiveBlockersIff | apps/backend/src/modules/booking/booking-operations.ts:138-143 | An active rental has no blockers exactly when the gate to returned opens. |
| Operations.PendingBlockersIff | apps/backend/src/modules/booking/booking-operations.ts:129-137 | A booking under review has no blockers exactly when the gate to confirmed opens. |
| Operations.CompleteIff | apps/backend/src/modules/booking/booking-operations.ts:125-131 | COMPLETE is offered exactly when the gate to completed opens, but for uninspected units and service orders that the view does not look at. |
| Operations.ViewDisagreesIff | apps/backend/src/modules/booking/booking-operations.ts:113-122 | Over good rows of a confirmed booking the view offers a start that the gate refuses exactly when there are no rows at all. |
| OperationsOffers.ConfirmedOffer | apps/backend/src/modules/booking/booking-operations.ts:105-122 | In every reachable state the action offered for a confirmed booking is the first step that some open row still needs: units, preparation or handover. |
| OperationsOffers.OtherOffers | apps/backend/src/modules/booking/booking-operations.ts:123-130 | At the other stages each action is offered exactly when it is due. |
| OperationsOffers.BlockersAre | apps/backend/src/modules/booking/booking-operations.ts:131-154 | The blockers shown are exactly the problems there are at this stage, each with its size. |

## Left out

- NextAvailableExact.SearchIsExact: asks for one preparation buffer at all locations, no unit-level block and notice enough, as the code misses days without them; NextAvailableExact.ExactIff gives the exact condition.
- NextAvailable.FindNextAvailable: which block rows the second query returns is a parameter; those that stop a check are among them.
- LedgerSafety.PercentInRange: takes the percentage exactly, because the code computes it in floating point and may round one unit higher.
- LedgerDesk.BookingAccount.InitiateSession: a session that the gateway declines leaves no row; transactions that it marks as risky stay pending and are no step.
- RentalAssignable.AdmittedCanBeAssigned: asks for no shortage selling and no unit still held by a lapsed hold; RentalAssignable.AssignableIff gives the exact condition.
- RentalDesk.Desk.RenewHold: the expected version of the booking and the replay of a review key, here and in ApproveAndReserve and RejectRequest.
- RentalDesk.Desk.ApproveAndReserve: the fulfilment groups and booking versions it writes besides.
- RentalDesk.Desk.CreateBooking: planning comes before it, and booking versions are not written.
- RentalDesk.Desk.SubstituteSku: the location that the search picks for the substitute is a parameter; the check at that location is what admits it. Approval evidence and compatibility are one flag.
- Shipment.Tracker.ProcessWebhook: a payload whose processing fails is recorded all the same, and never taken up again; the failure of the booking update behind it is not modelled.
- StockCount.Reconcile: the replay of its key, the check of the location, and the sorting of items by asset code, which changes no count.
- SourcePlan.PlanSources: whether the main product's policy demands one location is a parameter.
- Composition.Expander.ExpandProposal: how one rule resolves to a product and SKU is a parameter.
- Packing and handover work, dispatch to couriers, remittance reconciliation and refunds: further workflows beside these rows.
- Time zones with daylight saving: one offset for each location.
- Changes between transactions that add units, remove blocks or loosen a policy beyond the fixed catalogue of `RentalVarying`, or alter buffers.
- Row locks and retries of serialisable transactions: replaced by atomic steps.
- Listings, dashboards, notifications, sessions and the web front end.
