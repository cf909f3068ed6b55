/** Transactions on the whole tenant, and runs of them. */
module RentalMachine {
  import opened Common
  import opened RentalModel

  datatype Line = Line(pool: Pool, quantity: int, start: int, end: int)

  datatype Command =
    | Create(expiresAt: Option<int>, lines: seq<Line>)
    | Assign(req: nat, units: seq<nat>, eligible: set<nat>)
    | Release(req: nat, row: nat)
    | Prepare(req: nat, ready: bool, reason: string, key: string)
    | Record(req: nat, kind: EventKind, quantity: int, ids: seq<nat>, reason: string, key: string, unitChecks: UnitChecks)
    | Substitute(req: nat, pool: Pool, allowed: bool, impact: int, reason: string, key: string)
    | Extend(booking: nat, end: int, charge: int, evidence: string, reason: string, key: string)
    | Transition(booking: nat, to: BookingStatus, closeChecks: CloseChecks)
    | Cancel(booking: nat, byCustomer: bool)
    | Approve(booking: nat, fit: bool)
    | Reject(booking: nat)
    | Renew(booking: nat, renewed: int)
    | Sweep
    | Tick(instant: int)

  function Empty(now: int): Tenant {
    Tenant([], [], now, map[])
  }

  /** The rows of one booking. */
  function RowsOf(s: Tenant, b: nat): set<Requirement> {
    set r | r in s.reqs && r.booking == b
  }

  function LiveRowsOf(s: Tenant, b: nat): set<Requirement> {
    set r | r in s.reqs && r.booking == b && InPlay(r)
  }

  /** Units with an active assignment that overlaps `w`. */
  function TakenUnits(s: Tenant, w: Range): set<nat> {
    set i: nat, a: nat | i < |s.reqs| && a < |s.reqs[i].rows| && !s.reqs[i].rows[a].released
                         && Overlaps(s.reqs[i].rows[a].range, w) :: s.reqs[i].rows[a].unit
  }

  function BarredUnits(env: Catalogue, pool: Pool, units: seq<nat>, w: Range): set<nat> {
    set u | u in units && pool in env && UnitBlocked(env[pool], u, w)
  }

  function PutRow(s: Tenant, i: nat, outcome: Outcome<Requirement>): Outcome<Tenant>
    requires i < |s.reqs|
  {
    match outcome
    case Ok(r) => Ok(s.(reqs := s.reqs[i := r]))
    case Refused(why) => Refused(why)
  }

  function NewRow(b: nat, expiresAt: Option<int>, line: Line, w: Range): Requirement {
    Requirement(b, line.pool, line.quantity, 0, 0, 0, 0, ReqStatus.RESERVED, NOT_STARTED,
                Hold(HoldStatus.PENDING, expiresAt, line.start, line.end, w), [],
                [Event(EventKind.RESERVED, line.quantity, {}, PLANNED, ReqStatus.RESERVED)])
  }

  function AdmitAll(env: Catalogue, s: Tenant, b: nat, expiresAt: Option<int>, lines: seq<Line>): Outcome<Tenant>
    decreases lines
  {
    if lines == [] then Ok(s)
    else
      var line := lines[0];
      match Check(env, s.reqs, line.pool, line.start, line.end, line.quantity, s.now, None, true)
      case Refused(why) => Refused(why)
      case Ok(w) => AdmitAll(env, s.(reqs := s.reqs + [NewRow(b, expiresAt, line, w)]), b, expiresAt, lines[1..])
  }

  function SubstituteRow(env: Catalogue, s: Tenant, i: nat, pool: Pool, allowed: bool): Outcome<Requirement>
    requires i < |s.reqs|
  {
    var r := s.reqs[i];
    if r.status in {ReqStatus.HANDED_OUT, PARTIALLY_HANDED_OUT, PARTIALLY_RETURNED, ReqStatus.RETURNED, LOST,
                    ReqStatus.CANCELLED, SUPERSEDED}
    then Refused(NotSubstitutable)
    else if pool.sku == r.pool.sku then Refused(SameSku)
    else if ActiveRows(r.rows) != {} then Refused(ReleaseFirst)
    else if !allowed then Refused(SubstitutionNotAllowed)
    else match Check(env, s.reqs, pool, r.hold.start, r.hold.end, r.quantity, s.now, Some(i), false)
      case Refused(why) => Refused(why)
      case Ok(w) => Ok(r.(pool := pool, hold := r.hold.(blocked := w), status := ReqStatus.RESERVED, prep := NOT_STARTED))
  }

  /** The rows an extension of booking `b` rewrites. */
  function Targets(s: Tenant, b: nat): set<nat> {
    set i: nat | i < |s.reqs| && s.reqs[i].booking == b && Extendable(s.reqs[i])
  }

  /** The check of one row of an extension: against the old ranges, with only itself left out. */
  function ExtensionCheck(env: Catalogue, s: Tenant, i: nat, end: int): Outcome<Range>
    requires i < |s.reqs|
  {
    var r := s.reqs[i];
    Check(env, s.reqs, r.pool, r.hold.start, end, r.quantity, s.now, Some(i), false)
  }

  predicate MayExtend(b: BookingStatus) {
    b == Pending || b == Confirmed || b == Delivered || b == Overdue
  }

  function ExtendRows(env: Catalogue, s: Tenant, b: nat, end: int): seq<Requirement>
    requires forall i | i in Targets(s, b) :: ExtensionCheck(env, s, i, end).Ok?
  {
    seq(|s.reqs|, i requires 0 <= i < |s.reqs| =>
      if i in Targets(s, b) then Extended(s.reqs[i], end, ExtensionCheck(env, s, i, end).value) else s.reqs[i])
  }

  function ExtendBooking(env: Catalogue, s: Tenant, b: nat, end: int): Outcome<Tenant> {
    if b >= |s.bookings| then Refused(BookingNotFound)
    else if !MayExtend(s.bookings[b]) then Refused(ExtensionStatusInvalid)
    else if Targets(s, b) == {} then Refused(NoActiveRequirements)
    else if exists i | i in Targets(s, b) :: end <= s.reqs[i].hold.start then Refused(EndBeforeStart)
    else if exists i | i in Targets(s, b) :: end <= s.reqs[i].hold.end then Refused(ExtensionMustIncreaseEndDate)
    else if exists i | i in Targets(s, b) :: ExtensionCheck(env, s, i, end).Refused? then Refused(RentalExtensionConflict)
    else Ok(s.(reqs := ExtendRows(env, s, b, end)))
  }

  function MoveRows(reqs: seq<Requirement>, b: nat, to: BookingStatus): seq<Requirement> {
    seq(|reqs|, i requires 0 <= i < |reqs| => if reqs[i].booking == b then Moved(reqs[i], to) else reqs[i])
  }

  function Enter(s: Tenant, b: nat, to: BookingStatus, checks: CloseChecks): Outcome<Tenant>
    requires b < |s.bookings|
  {
    match TransitionRefusal(LiveRowsOf(s, b), to, checks)
    case Some(why) => Refused(why)
    case None =>
      match (if to == Confirmed then HoldRefusal(RowsOf(s, b), s.now) else None)
      case Some(why) => Refused(why)
      case None => Ok(s.(bookings := s.bookings[b := to], reqs := MoveRows(s.reqs, b, to)))
  }

  function SweepRows(s: Tenant): seq<Requirement> {
    seq(|s.reqs|, i requires 0 <= i < |s.reqs| => Swept(s.reqs[i], s.now))
  }

  /** A pending booking that had a lapsed hold and has no live hold left is cancelled. */
  predicate SweptOut(s: Tenant, b: nat) {
    b < |s.bookings| && s.bookings[b] == Pending
    && (exists i :: 0 <= i < |s.reqs| && s.reqs[i].booking == b && Lapsed(s.reqs[i], s.now))
    && (forall i :: 0 <= i < |s.reqs| && s.reqs[i].booking == b ==> !HoldLive(Swept(s.reqs[i], s.now).hold))
  }

  function SweepBookings(s: Tenant): seq<BookingStatus> {
    seq(|s.bookings|, b requires 0 <= b < |s.bookings| => if SweptOut(s, b) then Cancelled else s.bookings[b])
  }

  function RenewRows(reqs: seq<Requirement>, b: nat, until: int): seq<Requirement> {
    seq(|reqs|, i requires 0 <= i < |reqs| =>
      if reqs[i].booking == b && reqs[i].hold.status == HoldStatus.PENDING
      then reqs[i].(hold := reqs[i].hold.(expiresAt := Some(until))) else reqs[i])
  }

  function ReviewableRowsOf(s: Tenant, b: nat): set<Requirement> {
    set r | r in s.reqs && r.booking == b && Reviewable(r)
  }

  /** Why the request of booking `b` is not open for review. */
  function ReviewRefusal(s: Tenant, b: nat): Option<Reason> {
    if b >= |s.bookings| then Some(BookingNotFound)
    else if s.bookings[b] != Pending then Some(BookingReviewNotOpen) else None
  }

  function ApproveRequest(s: Tenant, b: nat, fit: bool): Outcome<Tenant>
    requires b < |s.bookings|
  {
    match ApprovalRefusal(ReviewableRowsOf(s, b), s.now, fit)
    case Some(why) => Refused(why)
    case None => Ok(s.(bookings := s.bookings[b := Confirmed], reqs := MoveRows(s.reqs, b, Confirmed)))
  }

  function RejectRows(reqs: seq<Requirement>, b: nat): seq<Requirement> {
    seq(|reqs|, i requires 0 <= i < |reqs| => if reqs[i].booking == b then Rejected(reqs[i]) else reqs[i])
  }

  function RenewHolds(s: Tenant, b: nat, until: int): Outcome<Tenant> {
    if until <= s.now then Refused(HoldExpiryInvalid)
    else if forall r | r in RowsOf(s, b) :: r.hold.status != HoldStatus.PENDING then Refused(InventoryReservationMissing)
    else Ok(s.(reqs := RenewRows(s.reqs, b, until)))
  }

  /** Decisions on a booking request under review. */
  predicate IsReview(c: Command) {
    c.Approve? || c.Reject? || c.Renew?
  }

  function Decide(s: Tenant, c: Command): Outcome<Tenant>
    requires IsReview(c)
  {
    match ReviewRefusal(s, c.booking)
    case Some(why) => Refused(why)
    case None =>
      match c
      case Approve(b, fit) => ApproveRequest(s, b, fit)
      case Reject(b) => Ok(s.(bookings := s.bookings[b := Cancelled], reqs := RejectRows(s.reqs, b)))
      case Renew(b, until) => RenewHolds(s, b, until)
  }

  /** Commands that rewrite a single row. */
  predicate OneRow(c: Command) {
    c.Assign? || c.Release? || c.Prepare? || c.Record? || c.Substitute?
  }

  function RowStep(env: Catalogue, s: Tenant, c: Command): Outcome<Requirement>
    requires OneRow(c) && c.req < |s.reqs| && s.reqs[c.req].booking < |s.bookings|
  {
    var r := s.reqs[c.req];
    match c
    case Assign(_, units, eligible) =>
      AssignTo(r, units, eligible * Stock(env, r.pool), BarredUnits(env, r.pool, units, r.hold.blocked), TakenUnits(s, r.hold.blocked))
    case Release(_, row) => ReleaseFrom(r, row)
    case Prepare(_, ready, _, _) => PrepareIt(r, s.bookings[r.booking], ready)
    case Record(_, kind, quantity, ids, _, _, checks) => RecordOn(r, s.bookings[r.booking], kind, quantity, ids, checks)
    case Substitute(i, pool, allowed, _, _, _) => SubstituteRow(env, s, i, pool, allowed)
  }

  /** What a command does when it is not a replay. */
  function Attempt(env: Catalogue, s: Tenant, c: Command): Outcome<Tenant> {
    if OneRow(c) then
      if c.req >= |s.reqs| || s.reqs[c.req].booking >= |s.bookings| then Refused(RequirementNotFound)
      else PutRow(s, c.req, RowStep(env, s, c))
    else if IsReview(c) then Decide(s, c)
    else match c
      case Create(expiresAt, lines) =>
        AdmitAll(env, s.(bookings := s.bookings + [Pending]), |s.bookings|, expiresAt, lines)
      case Extend(b, end, _, _, _, _) => ExtendBooking(env, s, b, end)
      case Transition(b, to, checks) =>
        if b >= |s.bookings| then Refused(BookingNotFound)
        else if !Allowed(s.bookings[b], to) then Refused(InvalidTransition)
        else Enter(s, b, to, checks)
      case Cancel(b, byCustomer) =>
        if b >= |s.bookings| then Refused(BookingNotFound)
        else if s.bookings[b] != Pending && s.bookings[b] != Confirmed then Refused(NotCancellable)
        else if byCustomer && s.bookings[b] != Pending then Refused(CustomerTooLate)
        else Enter(s, b, Cancelled, CloseChecks(0, 0, 0, 0))
      case Sweep => Ok(s.(bookings := SweepBookings(s), reqs := SweepRows(s)))
      case Tick(to) => if to < s.now then Refused(Clock) else Ok(s.(now := to))
  }

  /** The key a command carries, with the content it is compared by. */
  function KeyOf(c: Command): Option<((KeyTable, string), Request)> {
    match c
    case Prepare(i, ready, reason, key) => Some(((EventTable, key), PrepareRequest(i, ready, reason)))
    case Record(i, kind, quantity, ids, reason, key, _) =>
      Some(((EventTable, key), RecordRequest(i, kind, quantity, reason, ToSet(ids))))
    case Substitute(i, pool, _, impact, reason, key) =>
      Some(((SubstitutionTable, key), SubstituteRequest(i, pool.sku, impact, reason)))
    case Extend(b, end, charge, evidence, reason, key) =>
      Some(((ExtensionTable, key), ExtendRequest(b, end, charge, evidence, reason)))
    case _ => None
  }

  /** What one transaction commits: a known key is replayed, a new one is remembered. */
  function Apply(env: Catalogue, s: Tenant, c: Command): Outcome<Tenant> {
    match KeyOf(c)
    case None => Attempt(env, s, c)
    case Some((id, request)) =>
      if id in s.keys then
        if s.keys[id] == request then Ok(s) else Refused(IdempotencyKeyReused)
      else match Attempt(env, s, c)
        case Ok(t) => Ok(t.(keys := t.keys[id := request]))
        case Refused(why) => Refused(why)
  }

  /** The state after one transaction: unchanged when it is refused. */
  function Next(env: Catalogue, s: Tenant, c: Command): Tenant {
    match Apply(env, s, c)
    case Ok(t) => t
    case Refused(_) => s
  }

  function Run(env: Catalogue, s: Tenant, commands: seq<Command>): Tenant {
    if commands == [] then s
    else Next(env, Run(env, s, commands[..|commands| - 1]), commands[|commands| - 1])
  }
}
