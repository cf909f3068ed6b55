/** Every refusal is honest: the reason given names what stands in the way, and nothing checked before it does. */
module RentalRefusals {
  import opened Common
  import opened RentalModel
  import opened RentalMachine
  import opened RentalGates
  import opened RentalWork
  import opened RentalChecks

  /** `to` can be entered from `from` at all. */
  predicate Leads(from: BookingStatus, to: BookingStatus) {
    || (from == Pending && (to == Confirmed || to == Cancelled)) || (from == Confirmed && (to == Delivered || to == Cancelled))
    || (from == Delivered && (to == Returned || to == Overdue)) || (from == Overdue && to == Returned)
    || (from == Returned && to == Inspected) || (from == Inspected && to == Completed)
  }

  predicate IsReserved(r: Requirement) {
    r.status == ReqStatus.RESERVED || r.status == PARTIALLY_ASSIGNED || r.status == ReqStatus.ASSIGNED
  }

  ghost predicate AllReserved(s: Tenant, b: nat) {
    forall i: nat :: Open(s, b, i) ==> IsReserved(s.reqs[i])
  }

  ghost predicate AllHeld(s: Tenant, b: nat) {
    forall i: nat :: Open(s, b, i) ==> Held(s.reqs[i]) == s.reqs[i].quantity
  }

  /** What the rows of a booking say to the gates. */
  datatype Facts = Facts(open: bool, reserved: bool, held: bool, resolved: bool)

  ghost function FactsOf(s: Tenant, b: nat): Facts {
    Facts(AnyOpen(s, b), AllReserved(s, b), AllHeld(s, b), AllResolved(s, b))
  }

  /** What stands in the way when the gate to `to` refuses for `why`. */
  predicate GateExplains(f: Facts, to: BookingStatus, checks: CloseChecks, why: Reason) {
    match why
    case NoRequirements => !f.open
    case NotReserved => f.open && to == Confirmed && !f.reserved
    case ExactAssignmentRequired => f.open && to == Confirmed && f.reserved && !f.held
    case NotHandedOut => f.open && to == Delivered
    case NotResolved => f.open && (to == Returned || to == Inspected || to == Completed) && !f.resolved
    case NotInspected => f.open && (to == Inspected || to == Completed) && f.resolved && checks.uninspected > 0
    case DepositSettlementRequired => f.open && to == Completed && f.resolved && checks.uninspected == 0 && checks.unsettledDeposits > 0
    case BookingBalanceDue =>
      && f.open && to == Completed && f.resolved && checks.uninspected == 0 && checks.unsettledDeposits == 0
      && checks.balanceDue > 0
    case ReturnWorkUnresolved =>
      && f.open && to == Completed && f.resolved && checks.uninspected == 0 && checks.unsettledDeposits == 0
      && checks.balanceDue <= 0 && checks.openWork > 0
    case PiecesOut => f.open && to == Cancelled
    case _ => false
  }

  /** What stands in the way of a transition that is refused for `why`. */
  ghost predicate Explains(s: Tenant, b: nat, to: BookingStatus, checks: CloseChecks, why: Reason) {
    match why
    case BookingNotFound => b >= |s.bookings|
    case InvalidTransition => b < |s.bookings| && !Leads(s.bookings[b], to)
    case InventoryReservationExpired =>
      && b < |s.bookings| && Leads(s.bookings[b], to) && to == Confirmed && FactsOf(s, b).open && FactsOf(s, b).reserved && FactsOf(s, b).held
      && !AllValid(s, b)
    case _ => b < |s.bookings| && Leads(s.bookings[b], to) && GateExplains(FactsOf(s, b), to, checks, why)
  }

  lemma TransitionRefusals(env: Catalogue, s: Tenant, b: nat, to: BookingStatus, checks: CloseChecks)
    requires Apply(env, s, Transition(b, to, checks)).Refused?
    ensures Explains(s, b, to, checks, Apply(env, s, Transition(b, to, checks)).reason)
  {
    if b < |s.bookings| && Leads(s.bookings[b], to) {
      assert Enter(s, b, to, checks) == Refused(Apply(env, s, Transition(b, to, checks)).reason);
      EntryRefusal(s, b, to, checks);
    }
    hide Enter;
  }

  lemma EntryRefusal(s: Tenant, b: nat, to: BookingStatus, checks: CloseChecks)
    requires b < |s.bookings| && Leads(s.bookings[b], to) && Enter(s, b, to, checks).Refused?
    ensures Explains(s, b, to, checks, Enter(s, b, to, checks).reason)
  {
    LiveFacts(s, b);
    RowsAreValid(s, b);
    if AnyOpen(s, b) { OnlyExpired(s, b); }
    hide LiveRowsOf, MoveRows, AllValid, AnyOpen, AllReserved, AllHeld, AllResolved, RowsOf, HoldRefusal;
    GateRefusal(LiveRowsOf(s, b), FactsOf(s, b), to, checks);
    hide TransitionRefusal, GateExplains;
  }

  lemma GateRefusal(live: set<Requirement>, f: Facts, to: BookingStatus, checks: CloseChecks)
    requires f.open <==> live != {}
    requires f.reserved <==> forall r | r in live :: r.status == ReqStatus.RESERVED || r.status == PARTIALLY_ASSIGNED || r.status == ReqStatus.ASSIGNED
    requires f.held <==> forall r | r in live :: |ActiveRows(r.rows)| == r.quantity
    requires f.resolved <==> forall r | r in live :: r.returnedQty + r.lostQty == r.quantity
    ensures match TransitionRefusal(live, to, checks)
            case Some(why) => GateExplains(f, to, checks, why)
            case None => f.open && (to == Confirmed ==> f.reserved && f.held)
  {
    if to == Confirmed {
      ConfirmRefusal(live, f, checks);
    } else if to == Returned || to == Inspected || to == Completed {
      ClosingRefusal(live, f, to, checks);
    } else {
      OtherRefusal(live, f, to, checks);
    }
    hide *;
  }

  lemma ConfirmRefusal(live: set<Requirement>, f: Facts, checks: CloseChecks)
    requires f.open <==> live != {}
    requires f.reserved <==> forall r | r in live :: r.status == ReqStatus.RESERVED || r.status == PARTIALLY_ASSIGNED || r.status == ReqStatus.ASSIGNED
    requires f.held <==> forall r | r in live :: |ActiveRows(r.rows)| == r.quantity
    ensures match TransitionRefusal(live, Confirmed, checks)
            case Some(why) => GateExplains(f, Confirmed, checks, why)
            case None => f.open && f.reserved && f.held
  {
    hide ActiveRows;
  }

  lemma ClosingRefusal(live: set<Requirement>, f: Facts, to: BookingStatus, checks: CloseChecks)
    requires to == Returned || to == Inspected || to == Completed
    requires f.open <==> live != {}
    requires f.resolved <==> forall r | r in live :: r.returnedQty + r.lostQty == r.quantity
    ensures match TransitionRefusal(live, to, checks) case Some(why) => GateExplains(f, to, checks, why) case None => f.open
  {
  }

  lemma OtherRefusal(live: set<Requirement>, f: Facts, to: BookingStatus, checks: CloseChecks)
    requires to == Pending || to == Delivered || to == Overdue || to == Cancelled
    requires f.open <==> live != {}
    ensures match TransitionRefusal(live, to, checks) case Some(why) => GateExplains(f, to, checks, why) case None => f.open
  {
    hide Unresolved;
  }

  /** What the gates ask of the in-play rows, in terms of the open ones. */
  lemma LiveFacts(s: Tenant, b: nat)
    ensures LiveRowsOf(s, b) == {} <==> !AnyOpen(s, b)
    ensures (forall r | r in LiveRowsOf(s, b) :: r.status == ReqStatus.RESERVED || r.status == PARTIALLY_ASSIGNED || r.status == ReqStatus.ASSIGNED)
            <==> AllReserved(s, b)
    ensures (forall r | r in LiveRowsOf(s, b) :: |ActiveRows(r.rows)| == r.quantity) <==> AllHeld(s, b)
    ensures (forall r | r in LiveRowsOf(s, b) :: r.returnedQty + r.lostQty == r.quantity) <==> AllResolved(s, b)
  {
    LiveIsOpen(s, b);
    AllLive(s, b, (r: Requirement) => IsReserved(r));
    AllLive(s, b, (r: Requirement) => Held(r) == r.quantity);
    AllLive(s, b, (r: Requirement) => r.returnedQty + r.lostQty == r.quantity);
    hide Open, LiveRowsOf;
  }

  lemma OnlyExpired(s: Tenant, b: nat)
    requires AnyOpen(s, b)
    ensures HoldRefusal(RowsOf(s, b), s.now) != Some(InventoryReservationMissing)
    ensures HoldRefusal(RowsOf(s, b), s.now).Some? ==> HoldRefusal(RowsOf(s, b), s.now).value == InventoryReservationExpired
  {
    var i: nat :| Open(s, b, i);
    assert s.reqs[i] in RowsOf(s, b);
  }

  /** Why a booking is not cancelled. */
  lemma CancelRefusals(env: Catalogue, s: Tenant, b: nat, byCustomer: bool)
    requires Apply(env, s, Cancel(b, byCustomer)).Refused?
    ensures var why := Apply(env, s, Cancel(b, byCustomer)).reason;
            if b >= |s.bookings| then why == BookingNotFound
            else if s.bookings[b] != Pending && s.bookings[b] != Confirmed then why == NotCancellable
            else if byCustomer && s.bookings[b] == Confirmed then why == CustomerTooLate
            else why == if AnyOpen(s, b) then PiecesOut else NoRequirements
  {
    LiveIsOpen(s, b);
    hide AnyOpen, LiveRowsOf, MoveRows, Unresolved;
  }

  /** Why a request is not approved, rejected or renewed. */
  lemma ReviewRefusals(env: Catalogue, s: Tenant, c: Command)
    requires (c.Approve? || c.Reject? || c.Renew?) && Apply(env, s, c).Refused?
    ensures var why := Apply(env, s, c).reason;
            if c.booking >= |s.bookings| then why == BookingNotFound
            else if s.bookings[c.booking] != Pending then why == BookingReviewNotOpen
            else if c.Approve? then why == BookingApprovalBlocked
            else c.Renew? && why == if c.renewed <= s.now then HoldExpiryInvalid else InventoryReservationMissing
  {
    hide MoveRows, RejectRows, RenewRows, RowsOf, ReviewableRowsOf;
  }

  // ------------------------------------------------------------------ One row

  /** Why units are not assigned. */
  lemma AssignRefusals(env: Catalogue, s: Tenant, i: nat, units: seq<nat>, eligible: set<nat>)
    requires Apply(env, s, Assign(i, units, eligible)).Refused?
    ensures var why := Apply(env, s, Assign(i, units, eligible)).reason;
            if !Known(s, i) then why == RequirementNotFound
            else var r := s.reqs[i];
                 var live := r.hold.status == HoldStatus.PENDING || r.hold.status == HoldStatus.CONFIRMED;
                 match why
                 case ReservationNotActive => !live
                 case PreparationReopenRequired => live && r.prep == READY
                 case NoUnits => live && r.prep != READY && units == []
                 case StockUnitNotEligible =>
                   && live && r.prep != READY && Held(r) + |ToSet(units)| <= r.quantity
                   && exists u | u in units :: u !in eligible || !InStock(env, r.pool, u)
                 case StockUnitAssignmentConflict =>
                   && live && r.prep != READY && units != []
                   && (Held(r) + |ToSet(units)| <= r.quantity ==> forall u | u in units :: u in eligible && InStock(env, r.pool, u))
                 case _ => false
  {
    RowRefusal(env, s, Assign(i, units, eligible));
    if Known(s, i) {
      StepIsAssign(env, s, i, units, eligible);
      var r := s.reqs[i];
      var stock := eligible * Stock(env, r.pool);
      assert forall u :: u in stock <==> u in eligible && InStock(env, r.pool, u);
      hide Apply, RowStep, BarredUnits, TakenUnits, InStock, Stock, AssignTo;
      NotAssigned(r, units, stock, BarredUnits(env, r.pool, units, r.hold.blocked), TakenUnits(s, r.hold.blocked));
    }
  }

  lemma NotAssigned(r: Requirement, units: seq<nat>, stock: set<nat>, barred: set<nat>, taken: set<nat>)
    requires AssignTo(r, units, stock, barred, taken).Refused?
    ensures var live := r.hold.status == HoldStatus.PENDING || r.hold.status == HoldStatus.CONFIRMED;
            match AssignTo(r, units, stock, barred, taken).reason
            case ReservationNotActive => !live
            case PreparationReopenRequired => live && r.prep == READY
            case NoUnits => live && r.prep != READY && units == []
            case StockUnitNotEligible =>
              live && r.prep != READY && Held(r) + |ToSet(units)| <= r.quantity && exists u | u in units :: u !in stock
            case StockUnitAssignmentConflict =>
              live && r.prep != READY && units != [] && (Held(r) + |ToSet(units)| <= r.quantity ==> forall u | u in units :: u in stock)
            case _ => false
  {
    DistinctSize(Distinct(units));
    assert Distinct(units) == [] <==> units == [] by { if units != [] { assert units[0] in ToSet(units); } }
    MembersOf(units, stock);
    hide Distinct, ToSet;
  }

  /** A refused command on one row is refused for what its step says, or because there is no such row. */
  lemma RowRefusal(env: Catalogue, s: Tenant, c: Command)
    requires OneRow(c) && (KeyOf(c).Some? ==> KeyOf(c).value.0 !in s.keys) && Apply(env, s, c).Refused?
    ensures if Known(s, c.req) then RowStep(env, s, c) == Refused(Apply(env, s, c).reason) else Apply(env, s, c).reason == RequirementNotFound
  {
    hide RowStep;
  }

  lemma ReleaseRefusals(env: Catalogue, s: Tenant, i: nat, row: nat)
    requires Apply(env, s, Release(i, row)).Refused?
    ensures var why := Apply(env, s, Release(i, row)).reason;
            if !Known(s, i) then why == RequirementNotFound
            else var active := row < |s.reqs[i].rows| && !s.reqs[i].rows[row].released;
                 match why
                 case AssignmentNotFound => !active
                 case HandedOut => active && s.reqs[i].handedOutQty > 0
                 case PreparationReopenRequired => active && s.reqs[i].handedOutQty <= 0 && s.reqs[i].prep == READY
                 case _ => false
  {
    RowRefusal(env, s, Release(i, row));
    hide Apply;
  }

  lemma PrepareRefusals(env: Catalogue, s: Tenant, i: nat, ready: bool, reason: string, key: string)
    requires (EventTable, key) !in s.keys && Apply(env, s, Prepare(i, ready, reason, key)).Refused?
    ensures var why := Apply(env, s, Prepare(i, ready, reason, key)).reason;
            if !Known(s, i) then why == RequirementNotFound
            else var r, confirmed := s.reqs[i], s.bookings[s.reqs[i].booking] == Confirmed;
                 match why
                 case PreparationNotAllowed => !confirmed
                 case InventoryNotReserved => confirmed && r.status == PLANNED
                 case PreparationAlreadyHandedOut => confirmed && r.status != PLANNED && r.handedOutQty > 0
                 case AssignmentRequired => confirmed && r.status != PLANNED && r.handedOutQty <= 0 && ready && r.assignedQty != r.quantity
                 case _ => false
  {
    RowRefusal(env, s, Prepare(i, ready, reason, key));
    hide Apply;
  }

  /** The booking's stage and the preparation allow the event. */
  predicate InTime(r: Requirement, booking: BookingStatus, kind: EventKind) {
    match kind
    case HANDED_OUT => booking == Confirmed && r.prep == READY
    case RETURNED => booking == Delivered || booking == Overdue
    case MARKED_LOST => booking == Delivered || booking == Overdue
    case _ => false
  }

  /** Why an event is not recorded: first what it is, then when, then which assignments, then how many, then what the units say. */
  ghost predicate RecordExplains(r: Requirement, b: BookingStatus, kind: EventKind, quantity: int, ids: seq<nat>, checks: UnitChecks, why: Reason) {
    var open := quantity >= 1 && InTime(r, b, kind);
    var moves := open && Movable(r, kind, quantity, ids);
    match why
    case QuantityInvalid => quantity < 1
    case DedicatedWorkflow => quantity >= 1 && kind != EventKind.HANDED_OUT && kind != EventKind.RETURNED && kind != EventKind.MARKED_LOST
    case FulfillmentBookingStatusInvalid => quantity >= 1 && if kind == EventKind.HANDED_OUT then b != Confirmed else !open
    case PreparationRequired => quantity >= 1 && kind == EventKind.HANDED_OUT && b == Confirmed && r.prep != READY
    case SelectOnePerItem => open && |ToSet(ids)| != quantity
    case AlreadyHandedOut => open && kind == EventKind.HANDED_OUT && exists a | a in ids :: StillOut(r, a)
    case NotOut => open && kind != EventKind.HANDED_OUT && exists a | a in ids :: !StillOut(r, a)
    case AssignmentNotActive => open && exists a | a in ids :: a >= |r.rows| || r.rows[a].released
    case PreRentalInspectionRequired => moves && kind == EventKind.HANDED_OUT && !checks.inspected
    case HandoutExceedsRequirement => moves && kind == EventKind.HANDED_OUT && r.handedOutQty + quantity > r.quantity
    case ReturnExceedsHandedOut => moves && kind != EventKind.HANDED_OUT && quantity > r.handedOutQty - r.returnedQty - r.lostQty
    case LossActorRequired => moves && kind == EventKind.MARKED_LOST && !checks.actor
    case LifecycleTransitionInvalid => moves && !checks.lifecycleAllows
    case _ => false
  }

  lemma RecordRefusals(env: Catalogue, s: Tenant, i: nat, kind: EventKind, quantity: int, ids: seq<nat>, reason: string, key: string,
                       checks: UnitChecks)
    requires (EventTable, key) !in s.keys && Apply(env, s, Record(i, kind, quantity, ids, reason, key, checks)).Refused?
    ensures var why := Apply(env, s, Record(i, kind, quantity, ids, reason, key, checks)).reason;
            if !Known(s, i) then why == RequirementNotFound
            else RecordExplains(s.reqs[i], s.bookings[s.reqs[i].booking], kind, quantity, ids, checks, why)
  {
    RowRefusal(env, s, Record(i, kind, quantity, ids, reason, key, checks));
    hide Apply, RecordOn, RecordExplains;
    if Known(s, i) { NotRecorded(s.reqs[i], s.bookings[s.reqs[i].booking], kind, quantity, ids, checks); }
  }

  lemma NotRecorded(r: Requirement, b: BookingStatus, kind: EventKind, quantity: int, ids: seq<nat>, checks: UnitChecks)
    requires RecordOn(r, b, kind, quantity, ids, checks).Refused?
    ensures RecordExplains(r, b, kind, quantity, ids, checks, RecordOn(r, b, kind, quantity, ids, checks).reason)
  {
    MovableIff(r, kind, quantity, ids);
    ResolutionRefusal(r, kind, quantity, ids);
    hide ResolveAssignments, Movable, StillOut, ToSet;
  }

  lemma ResolutionSets(r: Requirement, kind: EventKind, quantity: int, ids: seq<nat>)
    ensures ResolveAssignments(r, kind, quantity, ids).Refused? ==>
            match ResolveAssignments(r, kind, quantity, ids).reason
            case SelectOnePerItem => |ToSet(ids)| != quantity
            case AlreadyHandedOut => kind == EventKind.HANDED_OUT && ToSet(ids) * (HandedOutIds(r) - ResolvedIds(r)) != {}
            case NotOut => kind != EventKind.HANDED_OUT && !(ToSet(ids) <= HandedOutIds(r) - ResolvedIds(r))
            case AssignmentNotActive => !(ToSet(ids) <= ActiveRows(r.rows))
            case _ => false
  {
    hide HandedOutIds, ResolvedIds, ActiveRows, ToSet;
  }

  lemma ResolutionRefusal(r: Requirement, kind: EventKind, quantity: int, ids: seq<nat>)
    ensures ResolveAssignments(r, kind, quantity, ids).Refused? ==>
            match ResolveAssignments(r, kind, quantity, ids).reason
            case SelectOnePerItem => |ToSet(ids)| != quantity
            case AlreadyHandedOut => kind == EventKind.HANDED_OUT && exists a | a in ids :: StillOut(r, a)
            case NotOut => kind != EventKind.HANDED_OUT && exists a | a in ids :: !StillOut(r, a)
            case AssignmentNotActive => exists a | a in ids :: a >= |r.rows| || r.rows[a].released
            case _ => false
  {
    var out := HandedOutIds(r) - ResolvedIds(r);
    MembersOf(ids, out);
    MembersOf(ids, ActiveRows(r.rows));
    ResolutionSets(r, kind, quantity, ids);
    hide StillOut, HandedOutIds, ResolvedIds, ToSet, ResolveAssignments;
    if kind == EventKind.HANDED_OUT && ToSet(ids) * out != {} {
      var a :| a in ids && a in out;
      OutIffListed(r, a);
    }
    if kind != EventKind.HANDED_OUT && !(ToSet(ids) <= out) {
      var a :| a in ids && a !in out;
      OutIffListed(r, a);
    }
    if !(ToSet(ids) <= ActiveRows(r.rows)) {
      var a :| a in ids && a !in ActiveRows(r.rows);
      assert a >= |r.rows| || r.rows[a].released;
    }
  }

  // ------------------------------------------------------------------ Checks and what rests on them

  /** Why a check fails, in the order in which it asks. */
  lemma CheckRefusals(env: Catalogue, reqs: seq<Requirement>, pool: Pool, start: int, end: int, quantity: int, now: int,
                      skip: Option<nat>, enforce: bool)
    requires Check(env, reqs, pool, start, end, quantity, now, skip, enforce).Refused?
    ensures var why := Check(env, reqs, pool, start, end, quantity, now, skip, enforce).reason;
            if quantity < 1 then why == QuantityInvalid
            else if start > end then why == DatesInvalid
            else if pool !in env then why == LocationNotOperational
            else var c, at := env[pool], start * 1440 - env[pool].utcOffset;
                 if !c.offered || (enforce && !c.published) || (c.availableFrom.Some? && start < c.availableFrom.value) then why == ProductUnavailable
                 else if at < now + c.noticeMinutes then why == NoticeTooShort
                 else if at > now + c.maxAdvanceDays * 1440 then why == TooFarAhead
                 else why == InventoryBlocked || why == CapacityConflict
    ensures Check(env, reqs, pool, start, end, quantity, now, skip, enforce).reason == InventoryBlocked
            ==> pool in env && exists b, w :: b in env[pool].fullBlocks && Blocks(env[pool], start, end, w) && Meet(b, w)
    ensures Check(env, reqs, pool, start, end, quantity, now, skip, enforce).reason == CapacityConflict
            ==> pool in env && forall b, w :: b in env[pool].fullBlocks && Blocks(env[pool], start, end, w) ==> !Meet(b, w)
  {
    if pool in env {
      forall w ensures Blocks(env[pool], start, end, w) <==> w == BlockedRange(env[pool], start, end) { BlocksIff(env[pool], start, end, w); }
      hide Load, Capacity, Blocks, BlockedRange;
      var c, w := env[pool], BlockedRange(env[pool], start, end);
      if FullyBlocked(c, w) {
        var b :| b in c.fullBlocks && Overlaps(b, w);
        assert b in c.fullBlocks && Blocks(c, start, end, w) && Meet(b, w);
      }
    }
  }

  lemma SubstituteRefusals(env: Catalogue, s: Tenant, i: nat, pool: Pool, allowed: bool, impact: int, reason: string, key: string)
    requires (SubstitutionTable, key) !in s.keys && Apply(env, s, Substitute(i, pool, allowed, impact, reason, key)).Refused?
    ensures var why := Apply(env, s, Substitute(i, pool, allowed, impact, reason, key)).reason;
            if !Known(s, i) then why == RequirementNotFound
            else var r := s.reqs[i];
                 var open := IsReserved(r) || r.status == PLANNED || r.status == ReqStatus.OVERDUE;
                 if !open then why == NotSubstitutable
                 else if pool.sku == r.pool.sku then why == SameSku
                 else if Held(r) > 0 then why == ReleaseFirst
                 else if !allowed then why == SubstitutionNotAllowed
                 else Check(env, s.reqs, pool, r.hold.start, r.hold.end, r.quantity, s.now, Some(i), false) == Refused(why)
  {
    RowRefusal(env, s, Substitute(i, pool, allowed, impact, reason, key));
    hide Apply, Check;
  }

  lemma ExtendRefusals(env: Catalogue, s: Tenant, b: nat, end: int, charge: int, evidence: string, reason: string, key: string)
    requires (ExtensionTable, key) !in s.keys && Apply(env, s, Extend(b, end, charge, evidence, reason, key)).Refused?
    ensures var why := Apply(env, s, Extend(b, end, charge, evidence, reason, key)).reason;
            if b >= |s.bookings| then why == BookingNotFound
            else if s.bookings[b] == Returned || s.bookings[b] == Inspected || s.bookings[b] == Completed || s.bookings[b] == Cancelled
            then why == ExtensionStatusInvalid
            else match why
                 case NoActiveRequirements => !exists i: nat :: Runs(s, b, i)
                 case EndBeforeStart => exists i: nat :: Runs(s, b, i) && end <= s.reqs[i].hold.start
                 case ExtensionMustIncreaseEndDate =>
                   && (forall i: nat :: Runs(s, b, i) ==> s.reqs[i].hold.start < end)
                   && exists i: nat :: Runs(s, b, i) && end <= s.reqs[i].hold.end
                 case RentalExtensionConflict => forall i: nat :: Runs(s, b, i) ==> s.reqs[i].hold.start < end && s.reqs[i].hold.end < end
                 case _ => false
  {
    TargetsRun(s, b);
    assert ExtendBooking(env, s, b, end) == Refused(Apply(env, s, Extend(b, end, charge, evidence, reason, key)).reason) by {
      hide ExtendBooking;
    }
    hide Apply, Targets, Runs, ExtendBooking;
    NotExtended(env, s, b, end);
  }

  lemma NotExtended(env: Catalogue, s: Tenant, b: nat, end: int)
    requires ExtendBooking(env, s, b, end).Refused?
    ensures var why, rows := ExtendBooking(env, s, b, end).reason, Targets(s, b);
            if b >= |s.bookings| then why == BookingNotFound
            else if s.bookings[b] == Returned || s.bookings[b] == Inspected || s.bookings[b] == Completed || s.bookings[b] == Cancelled
            then why == ExtensionStatusInvalid
            else match why
                 case NoActiveRequirements => rows == {}
                 case EndBeforeStart => exists i | i in rows :: end <= s.reqs[i].hold.start
                 case ExtensionMustIncreaseEndDate =>
                   (forall i | i in rows :: s.reqs[i].hold.start < end) && exists i | i in rows :: end <= s.reqs[i].hold.end
                 case RentalExtensionConflict => forall i | i in rows :: s.reqs[i].hold.start < end && s.reqs[i].hold.end < end
                 case _ => false
  {
    hide ExtensionCheck, ExtendRows;
  }
}
