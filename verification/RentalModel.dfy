/**
 The rental engine as one state machine. A `Tenant` holds the booking rows and the
 fulfilment requirement rows (each with its reservation, its physical-unit assignment
 rows and its append-only event log). A `Command` is one database transaction and
 `Apply` is what that transaction commits, or why it is rolled back.

 Days are whole numbers, instants are minutes. Rows are never deleted, so a row id is
 its position in its table.
 */
module RentalModel {
  import opened Common

  datatype BookingStatus =
    Pending | Confirmed | Delivered | Overdue | Returned | Inspected | Completed | Cancelled

  datatype ReqStatus =
    | PLANNED | RESERVED | PARTIALLY_ASSIGNED | ASSIGNED | PARTIALLY_HANDED_OUT | HANDED_OUT
    | PARTIALLY_RETURNED | RETURNED | LOST | OVERDUE | CANCELLED | SUPERSEDED

  datatype PrepStatus = NOT_STARTED | IN_PROGRESS | READY

  datatype HoldStatus = PENDING | CONFIRMED | RELEASED | CANCELLED | EXPIRED

  datatype EventKind =
    | RESERVED | ASSIGNED | ASSIGNMENT_RELEASED | PREPARATION_STARTED | PREPARATION_COMPLETED
    | HANDED_OUT | RETURNED | MARKED_LOST | OVERDUE | OVERDUE_RESOLVED | CANCELLED

  /** `ids` are the assignment rows named in the event's metadata. */
  datatype Event = Event(kind: EventKind, quantity: int, ids: set<nat>, from: ReqStatus, to: ReqStatus)

  /** One physical unit held for one reservation; the range is copied when it is assigned. */
  datatype Assignment = Assignment(unit: nat, range: Range, released: bool)

  /** An inventory reservation: rental dates, blocked dates and liveness. */
  datatype Hold = Hold(status: HoldStatus, expiresAt: Option<int>, start: int, end: int, blocked: Range)

  /** A stock-keeping unit at one location. */
  datatype Pool = Pool(sku: nat, location: nat)

  datatype Requirement = Requirement(
    booking: nat, pool: Pool, quantity: int,
    assignedQty: int, handedOutQty: int, returnedQty: int, lostQty: int,
    status: ReqStatus, prep: PrepStatus,
    hold: Hold, rows: seq<Assignment>, events: seq<Event>)

  /** Why a transaction is rolled back. */
  datatype Reason =
    | AlreadyHandedOut | AssignmentNotActive | AssignmentNotFound | AssignmentRequired
    | BookingApprovalBlocked | BookingBalanceDue | BookingNotFound | BookingReviewNotOpen | CapacityConflict | Clock
    | CustomerTooLate | DatesInvalid | DedicatedWorkflow | DepositSettlementRequired | EndBeforeStart
    | ExactAssignmentRequired | ExtensionMustIncreaseEndDate | ExtensionStatusInvalid
    | FulfillmentBookingStatusInvalid | HandedOut | HandoutExceedsRequirement | HoldExpiryInvalid
    | IdempotencyKeyReused | InvalidTransition | InventoryBlocked | InventoryNotReserved
    | InventoryReservationExpired | InventoryReservationMissing | LifecycleTransitionInvalid
    | LocationNotOperational | LossActorRequired | NoActiveRequirements | NoRequirements | NoUnits
    | NotCancellable | NotHandedOut | NotInspected | NotOut | NotReserved | NotResolved
    | NotSubstitutable | NoticeTooShort | PiecesOut | PreRentalInspectionRequired
    | PreparationAlreadyHandedOut | PreparationNotAllowed | PreparationReopenRequired
    | PreparationRequired | ProductUnavailable | QuantityInvalid | ReleaseFirst | RentalExtensionConflict
    | RequirementNotFound | ReservationNotActive | ReturnExceedsHandedOut | ReturnWorkUnresolved
    | SameSku | SelectOnePerItem | StockUnitAssignmentConflict | StockUnitNotEligible
    | SubstitutionNotAllowed | TooFarAhead

  type Outcome<T> = Result<T, Reason>

  /**
   What the availability policy and the stock tables say about a pool: `units` are the
   ones its capacity counts, `others` are stocked there in a state that is not counted.
   */
  datatype PoolConfig = PoolConfig(
    units: set<nat>, others: set<nat>, unitBlocks: map<nat, seq<Span>>, fullBlocks: seq<Span>,
    beforeMinutes: nat, afterMinutes: nat, noticeMinutes: nat, maxAdvanceDays: nat,
    shortage: nat, utcOffset: int,
    offered: bool, published: bool, availableFrom: Option<int>)

  type Catalogue = map<Pool, PoolConfig>

  /** The content hashed with an idempotency key. */
  datatype Request =
    | RecordRequest(req: nat, kind: EventKind, quantity: int, reason: string, ids: set<nat>)
    | PrepareRequest(req: nat, ready: bool, reason: string)
    | ExtendRequest(booking: nat, end: int, charge: int, evidence: string, reason: string)
    | SubstituteRequest(req: nat, sku: nat, impact: int, reason: string)

  /** Idempotency keys are unique within the table that stores them. */
  datatype KeyTable = EventTable | ExtensionTable | SubstitutionTable

  datatype Tenant = Tenant(
    bookings: seq<BookingStatus>, reqs: seq<Requirement>, now: int,
    keys: map<(KeyTable, string), Request>)

  // ------------------------------------------------------------------ Availability

  const MINUTES_PER_DAY := 1440

  /** Whole days that cover a buffer given in minutes. */
  function DaysFor(minutes: nat): nat {
    (minutes + MINUTES_PER_DAY - 1) / MINUTES_PER_DAY
  }

  function BlockedRange(c: PoolConfig, start: int, end: int): Range {
    Range(start - DaysFor(c.beforeMinutes), end + DaysFor(c.afterMinutes))
  }

  function DayStart(c: PoolConfig, day: int): int {
    day * MINUTES_PER_DAY - c.utcOffset
  }

  /** Staff workflows may also use products that are not published. */
  predicate Offered(c: PoolConfig, start: int, enforcePublished: bool) {
    c.offered && (enforcePublished ==> c.published) && (c.availableFrom.Some? ==> c.availableFrom.value <= start)
  }

  /** The units whose SKU and location are those of the pool. */
  function Stock(env: Catalogue, pool: Pool): set<nat> {
    if pool in env then env[pool].units + env[pool].others else {}
  }

  predicate UnitBlocked(c: PoolConfig, unit: nat, w: Range) {
    unit in c.unitBlocks && exists b | b in c.unitBlocks[unit] :: Overlaps(b, w)
  }

  /** The units that a capacity count over `w` counts. */
  function CountedUnits(c: PoolConfig, w: Range): set<nat> {
    set u | u in c.units && !UnitBlocked(c, u, w)
  }

  function Capacity(c: PoolConfig, w: Range): nat {
    |CountedUnits(c, w)|
  }

  /** A reservation that the capacity query adds up. */
  predicate Counted(h: Hold, now: int) {
    h.status == HoldStatus.CONFIRMED
    || (h.status == HoldStatus.PENDING && (h.expiresAt == None || h.expiresAt.value > now))
  }

  predicate Weighs(r: Requirement, pool: Pool, w: Range, now: int) {
    r.pool == pool && Counted(r.hold, now) && Overlaps(r.hold.blocked, w)
  }

  /** Reserved quantity whose blocked range overlaps `w`, leaving out row `skip`. */
  function Load(reqs: seq<Requirement>, pool: Pool, w: Range, now: int, skip: Option<nat>): int {
    if reqs == [] then 0
    else
      var i := |reqs| - 1;
      Load(reqs[..i], pool, w, now, skip)
      + if skip != Some(i) && Weighs(reqs[i], pool, w, now) then reqs[i].quantity else 0
  }

  predicate FullyBlocked(c: PoolConfig, w: Range) {
    exists b | b in c.fullBlocks :: Overlaps(b, w)
  }

  function Remaining(c: PoolConfig, reqs: seq<Requirement>, pool: Pool, w: Range, now: int, skip: Option<nat>): int {
    Max(0, Capacity(c, w) + c.shortage - Load(reqs, pool, w, now, skip))
  }

  /** The availability check at one location; on success, the dates to block. */
  function Check(env: Catalogue, reqs: seq<Requirement>, pool: Pool, start: int, end: int,
                 quantity: int, now: int, skip: Option<nat>, enforce: bool): Outcome<Range>
  {
    if quantity < 1 then Refused(QuantityInvalid)
    else if start > end then Refused(DatesInvalid)
    else if pool !in env then Refused(LocationNotOperational)
    else
      var c := env[pool];
      var w := BlockedRange(c, start, end);
      if !Offered(c, start, enforce) then Refused(ProductUnavailable)
      else if DayStart(c, start) < now + c.noticeMinutes then Refused(NoticeTooShort)
      else if DayStart(c, start) > now + c.maxAdvanceDays * MINUTES_PER_DAY then Refused(TooFarAhead)
      else if FullyBlocked(c, w) then Refused(InventoryBlocked)
      else if Remaining(c, reqs, pool, w, now, skip) < quantity then Refused(CapacityConflict)
      else Ok(w)
  }

  // ------------------------------------------------------------------ One requirement

  /** The assignment rows not yet released. */
  function ActiveRows(rows: seq<Assignment>): set<nat> {
    set i: nat | i < |rows| && !rows[i].released
  }

  /** The assignment ids that the log's events of one kind name. */
  function IdsOf(events: seq<Event>, kind: EventKind): set<nat> {
    if events == [] then {}
    else
      var e := events[|events| - 1];
      IdsOf(events[..|events| - 1], kind) + if e.kind == kind then e.ids else {}
  }

  function HandedOutIds(r: Requirement): set<nat> { IdsOf(r.events, EventKind.HANDED_OUT) }
  function ReturnedIds(r: Requirement): set<nat> { IdsOf(r.events, EventKind.RETURNED) }
  function LostIds(r: Requirement): set<nat> { IdsOf(r.events, EventKind.MARKED_LOST) }
  function ResolvedIds(r: Requirement): set<nat> { ReturnedIds(r) + LostIds(r) }

  function ReleaseRows(rows: seq<Assignment>, ids: set<nat>): seq<Assignment> {
    seq(|rows|, i requires 0 <= i < |rows| => if i in ids then rows[i].(released := true) else rows[i])
  }

  function Log(r: Requirement, kind: EventKind, quantity: int, ids: set<nat>, to: ReqStatus): Requirement {
    r.(events := r.events + [Event(kind, quantity, ids, r.status, to)], status := to)
  }

  predicate HoldLive(h: Hold) {
    h.status == HoldStatus.PENDING || h.status == HoldStatus.CONFIRMED
  }

  /** New rows for `units`; `taken` are units with an overlapping active assignment, `barred` with a block. */
  function AssignTo(r: Requirement, units: seq<nat>, eligible: set<nat>, barred: set<nat>, taken: set<nat>): Outcome<Requirement> {
    var chosen := Distinct(units);
    var existing := |ActiveRows(r.rows)|;
    if !HoldLive(r.hold) then Refused(ReservationNotActive)
    else if r.prep == READY then Refused(PreparationReopenRequired)
    else if chosen == [] then Refused(NoUnits)
    else if existing + |chosen| > r.quantity then Refused(StockUnitAssignmentConflict)
    else if !(ToSet(chosen) <= eligible) then Refused(StockUnitNotEligible)
    else if ToSet(chosen) * (barred + taken) != {} then Refused(StockUnitAssignmentConflict)
    else
      var count := existing + |chosen|;
      var to := if count == r.quantity then ReqStatus.ASSIGNED else ReqStatus.PARTIALLY_ASSIGNED;
      var added := seq(|chosen|, i requires 0 <= i < |chosen| => Assignment(chosen[i], r.hold.blocked, false));
      Ok(Log(r.(rows := r.rows + added, assignedQty := count), EventKind.ASSIGNED, |chosen|, {}, to))
  }

  function ReleaseFrom(r: Requirement, row: nat): Outcome<Requirement> {
    if row !in ActiveRows(r.rows) then Refused(AssignmentNotFound)
    else if r.handedOutQty > 0 then Refused(HandedOut)
    else if r.prep == READY then Refused(PreparationReopenRequired)
    else
      var left := Max(0, r.assignedQty - 1);
      var to := if left > 0 then ReqStatus.PARTIALLY_ASSIGNED else ReqStatus.RESERVED;
      Ok(Log(r.(rows := ReleaseRows(r.rows, {row}), assignedQty := left), EventKind.ASSIGNMENT_RELEASED, 1, {row}, to))
  }

  function PrepareIt(r: Requirement, booking: BookingStatus, ready: bool): Outcome<Requirement> {
    if booking != Confirmed then Refused(PreparationNotAllowed)
    else if r.status == ReqStatus.PLANNED then Refused(InventoryNotReserved)
    else if r.handedOutQty > 0 then Refused(PreparationAlreadyHandedOut)
    else if ready && r.assignedQty != r.quantity then Refused(AssignmentRequired)
    else
      var kind := if ready then EventKind.PREPARATION_COMPLETED else EventKind.PREPARATION_STARTED;
      Ok(Log(r.(prep := if ready then READY else IN_PROGRESS), kind, r.quantity, {}, r.status))
  }

  predicate IsHandover(kind: EventKind) {
    kind == EventKind.HANDED_OUT || kind == EventKind.RETURNED || kind == EventKind.MARKED_LOST
  }

  /** The assignment rows an event names, checked against the log and the active rows. */
  function ResolveAssignments(r: Requirement, kind: EventKind, quantity: int, ids: seq<nat>): Outcome<set<nat>> {
    var chosen := ToSet(ids);
    if |chosen| != quantity then Refused(SelectOnePerItem)
    else if kind == EventKind.HANDED_OUT && chosen * (HandedOutIds(r) - ResolvedIds(r)) != {} then
      Refused(AlreadyHandedOut)
    else if kind != EventKind.HANDED_OUT && !(chosen <= HandedOutIds(r) - ResolvedIds(r)) then
      Refused(NotOut)
    else if !(chosen <= ActiveRows(r.rows)) then Refused(AssignmentNotActive)
    else Ok(chosen)
  }

  function NextCounters(r: Requirement, kind: EventKind, quantity: int): Outcome<Requirement> {
    if kind == EventKind.HANDED_OUT then
      if r.handedOutQty + quantity > r.quantity then Refused(HandoutExceedsRequirement)
      else
        var out := r.handedOutQty + quantity;
        Ok(r.(handedOutQty := out,
              status := if out == r.quantity then ReqStatus.HANDED_OUT else PARTIALLY_HANDED_OUT))
    else if quantity > r.handedOutQty - r.returnedQty - r.lostQty then Refused(ReturnExceedsHandedOut)
    else
      var returned := r.returnedQty + if kind == EventKind.RETURNED then quantity else 0;
      var lost := r.lostQty + if kind == EventKind.MARKED_LOST then quantity else 0;
      Ok(r.(returnedQty := returned, lostQty := lost, assignedQty := Max(0, r.assignedQty - quantity),
            status := if returned + lost == r.quantity
                      then (if lost > 0 then LOST else ReqStatus.RETURNED)
                      else PARTIALLY_RETURNED))
  }

  /** What the stock tables say about the units named in an event. */
  datatype UnitChecks = UnitChecks(inspected: bool, actor: bool, lifecycleAllows: bool)

  predicate EventAllowed(booking: BookingStatus, kind: EventKind) {
    if kind == EventKind.HANDED_OUT then booking == Confirmed else booking == Delivered || booking == Overdue
  }

  /** Why an event may not be recorded in the first place. */
  function EventRefusal(r: Requirement, booking: BookingStatus, kind: EventKind, quantity: int): Option<Reason> {
    if quantity < 1 then Some(QuantityInvalid)
    else if !IsHandover(kind) then Some(DedicatedWorkflow)
    else if !EventAllowed(booking, kind) then Some(FulfillmentBookingStatusInvalid)
    else if kind == EventKind.HANDED_OUT && r.prep != READY then Some(PreparationRequired)
    else None
  }

  /** The row once an event about the assignment rows `chosen` is written. */
  function Recorded(r: Requirement, kind: EventKind, quantity: int, chosen: set<nat>, checks: UnitChecks): Outcome<Requirement> {
    if kind == EventKind.HANDED_OUT && !checks.inspected then Refused(PreRentalInspectionRequired)
    else match NextCounters(r, kind, quantity)
      case Refused(why) => Refused(why)
      case Ok(next) =>
        if kind == EventKind.MARKED_LOST && !checks.actor then Refused(LossActorRequired)
        else if !checks.lifecycleAllows then Refused(LifecycleTransitionInvalid)
        else Ok(next.(
          rows := if kind == EventKind.HANDED_OUT then r.rows else ReleaseRows(r.rows, chosen),
          events := r.events + [Event(kind, quantity, chosen, r.status, next.status)]))
  }

  function RecordOn(r: Requirement, booking: BookingStatus, kind: EventKind, quantity: int, ids: seq<nat>,
                    checks: UnitChecks): Outcome<Requirement>
  {
    match EventRefusal(r, booking, kind, quantity)
    case Some(why) => Refused(why)
    case None =>
      match ResolveAssignments(r, kind, quantity, ids)
      case Refused(why) => Refused(why)
      case Ok(chosen) => Recorded(r, kind, quantity, chosen, checks)
  }

  // ------------------------------------------------------------------ Whole bookings

  /** Rows that the transition checks look at. */
  predicate InPlay(r: Requirement) {
    r.status != ReqStatus.CANCELLED && r.status != SUPERSEDED
  }

  /** Rows that an extension rewrites. */
  predicate Extendable(r: Requirement) {
    InPlay(r) && r.status != ReqStatus.RETURNED && r.status != LOST
  }

  predicate Allowed(from: BookingStatus, to: BookingStatus) {
    match from
    case Pending => to == Confirmed || to == Cancelled
    case Confirmed => to == Delivered || to == Cancelled
    case Delivered => to == Returned || to == Overdue
    case Overdue => to == Returned
    case Returned => to == Inspected
    case Inspected => to == Completed
    case Completed => false
    case Cancelled => false
  }

  /** What other tables say when a booking is closed. */
  datatype CloseChecks = CloseChecks(uninspected: nat, unsettledDeposits: nat, balanceDue: int, openWork: nat)

  predicate Unresolved(r: Requirement) {
    r.handedOutQty > r.returnedQty + r.lostQty
  }

  /** Why a booking with the in-play rows `live` may not move to `to`. */
  function TransitionRefusal(live: set<Requirement>, to: BookingStatus, checks: CloseChecks): Option<Reason> {
    if live == {} then Some(NoRequirements)
    else match to
      case Confirmed =>
        if exists r | r in live :: r.status != ReqStatus.RESERVED && r.status != PARTIALLY_ASSIGNED && r.status != ReqStatus.ASSIGNED
        then Some(NotReserved)
        else if exists r | r in live :: |ActiveRows(r.rows)| != r.quantity then Some(ExactAssignmentRequired)
        else None
      case Delivered =>
        if exists r | r in live :: r.handedOutQty != r.quantity then Some(NotHandedOut) else None
      case Returned => if exists r | r in live :: r.returnedQty + r.lostQty != r.quantity then Some(NotResolved) else None
      case Inspected =>
        if exists r | r in live :: r.returnedQty + r.lostQty != r.quantity then Some(NotResolved)
        else if checks.uninspected > 0 then Some(NotInspected) else None
      case Completed =>
        if exists r | r in live :: r.returnedQty + r.lostQty != r.quantity then Some(NotResolved)
        else if checks.uninspected > 0 then Some(NotInspected)
        else if checks.unsettledDeposits > 0 then Some(DepositSettlementRequired)
        else if checks.balanceDue > 0 then Some(BookingBalanceDue)
        else if checks.openWork > 0 then Some(ReturnWorkUnresolved) else None
      case Cancelled => if exists r | r in live :: Unresolved(r) then Some(PiecesOut) else None
      case Overdue => None
      case Pending => None
  }

  /** Why the reservations of a booking may not be confirmed at `now`. */
  function HoldRefusal(rows: set<Requirement>, now: int): Option<Reason> {
    if rows == {} then Some(InventoryReservationMissing)
    else if exists r | r in rows :: !Counted(r.hold, now) then Some(InventoryReservationExpired)
    else None
  }

  /** One row after its booking has moved to `to`. */
  function Moved(r: Requirement, to: BookingStatus): Requirement {
    match to
    case Confirmed =>
      if r.hold.status == HoldStatus.PENDING
      then r.(hold := r.hold.(status := HoldStatus.CONFIRMED, expiresAt := None)) else r
    case Overdue =>
      if InPlay(r) && Unresolved(r)
      then Log(r, EventKind.OVERDUE, r.handedOutQty - r.returnedQty - r.lostQty, {}, ReqStatus.OVERDUE) else r
    case Cancelled =>
      var c := if InPlay(r) then Log(r, EventKind.CANCELLED, r.quantity, {}, ReqStatus.CANCELLED) else r;
      Closed(c, HoldStatus.CANCELLED)
    case Completed => Closed(r, HoldStatus.RELEASED)
    case _ => r
  }

  /** Every assignment released and the reservation, when live, ended with `end`. */
  function Closed(r: Requirement, end: HoldStatus): Requirement {
    r.(rows := ReleaseRows(r.rows, ActiveRows(r.rows)),
       hold := if HoldLive(r.hold) then r.hold.(status := end) else r.hold)
  }

  /** Rows that a review of the booking request looks at. */
  predicate Reviewable(r: Requirement) {
    r.status == PLANNED || r.status == ReqStatus.RESERVED || r.status == PARTIALLY_ASSIGNED || r.status == ReqStatus.ASSIGNED
  }

  /**
   What blocks the approval of a request with the reviewable rows `rows`. `fit` says that
   every assigned unit is still eligible and in place and no substitution awaits approval.
   */
  function ApprovalRefusal(rows: set<Requirement>, now: int, fit: bool): Option<Reason> {
    if rows == {} || !fit || exists r | r in rows :: !Counted(r.hold, now) || |ActiveRows(r.rows)| != r.quantity
    then Some(BookingApprovalBlocked) else None
  }

  /** One row after its booking request was rejected: cancelled, but without an event. */
  function Rejected(r: Requirement): Requirement {
    Closed(if Reviewable(r) then r.(status := ReqStatus.CANCELLED) else r, HoldStatus.CANCELLED)
  }

  /** A pending hold past its expiry. */
  predicate Lapsed(r: Requirement, now: int) {
    r.hold.status == HoldStatus.PENDING && r.hold.expiresAt != None && r.hold.expiresAt.value <= now
  }

  /** The sweep ends the hold and cancels the row, but leaves its assignments as they are. */
  function Swept(r: Requirement, now: int): Requirement {
    if Lapsed(r, now)
    then Log(r, EventKind.CANCELLED, r.quantity, {}, ReqStatus.CANCELLED).(hold := r.hold.(status := HoldStatus.EXPIRED))
    else r
  }

  /** One row after an extension to `end` that blocks `w`. */
  function Extended(r: Requirement, end: int, w: Range): Requirement {
    var h := r.(hold := r.hold.(end := end, blocked := w));
    if r.status == ReqStatus.OVERDUE
    then Log(h, EventKind.OVERDUE_RESOLVED, Max(1, r.handedOutQty - r.returnedQty - r.lostQty), {},
             if r.handedOutQty == r.quantity then ReqStatus.HANDED_OUT else ReqStatus.RESERVED)
    else h
  }
}
