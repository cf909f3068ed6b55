/**
 The money side of one booking: item rows, booking totals, payments and cash-on-delivery
 remittances. Five operations adjust the totals by separate increments; the invariant
 says that they stay the totals of the rows.
 */
module Ledger {
  import opened Common

  datatype Item = Item(
    baseRental: nat, cleaningFee: nat, backupSizeFee: nat, tryOnFee: nat, shippingFee: nat, depositAmount: nat,
    itemTotal: int, lateDays: nat, lateFee: nat, end: int, rentalDays: int, extendedDays: int, extendedCost: int,
    adjustment: int)

  datatype PaymentStatus = Unpaid | Partial | Paid

  datatype TransactionStatus = PENDING | VERIFIED | FAILED

  /** How a payment came in: recorded by staff, claimed by the customer, online, or with a parcel. */
  datatype Channel = Desk | Claim | Gateway | Courier(shipment: nat)

  datatype Payment = Payment(amount: int, rental: int, deposit: int, status: TransactionStatus, via: Channel)

  datatype Remittance = Remittance(expected: nat, payment: Option<nat>)

  datatype Account = Account(
    items: seq<Item>,
    subtotal: int, totalFees: int, shippingFee: int, totalDeposit: int, discount: int, grandTotal: int,
    totalPaid: int, paymentStatus: PaymentStatus, online: bool,
    payments: seq<Payment>, charges: seq<nat>, remittances: map<nat, Remittance>)

  datatype Reason =
    | NoItems | DiscountTooLarge | PaymentTooLarge | DepositTooLarge | RentalTooLarge | ItemTotalNegative
    | TotalsNegative | NotFound | NotAClaim | AlreadyReviewed | NotOnline | AlreadyPaid | SessionPending
    | AllocationInconsistent

  type Outcome<T> = Result<T, Reason>

  // ------------------------------------------------------------------ Sums

  function Fees(i: Item): nat {
    i.cleaningFee + i.backupSizeFee + i.tryOnFee
  }

  function ItemsTotal(items: seq<Item>): int {
    if items == [] then 0 else ItemsTotal(items[..|items| - 1]) + items[|items| - 1].itemTotal
  }

  function FeesTotal(items: seq<Item>): nat {
    if items == [] then 0 else FeesTotal(items[..|items| - 1]) + Fees(items[|items| - 1])
  }

  function DepositsTotal(items: seq<Item>): nat {
    if items == [] then 0 else DepositsTotal(items[..|items| - 1]) + items[|items| - 1].depositAmount
  }

  function LargestShipping(items: seq<Item>): nat {
    if items == [] then 0
    else
      var most := LargestShipping(items[..|items| - 1]);
      if most < items[|items| - 1].shippingFee then items[|items| - 1].shippingFee else most
  }

  function ChargesTotal(charges: seq<nat>): nat {
    if charges == [] then 0 else ChargesTotal(charges[..|charges| - 1]) + charges[|charges| - 1]
  }

  /** Amounts of the verified payments. */
  function Verified(payments: seq<Payment>): int {
    if payments == [] then 0
    else
      var p := payments[|payments| - 1];
      Verified(payments[..|payments| - 1]) + if p.status == VERIFIED then p.amount else 0
  }

  /** Deposit allocations of the verified payments. */
  function VerifiedDeposits(payments: seq<Payment>): int {
    if payments == [] then 0
    else
      var p := payments[|payments| - 1];
      VerifiedDeposits(payments[..|payments| - 1]) + if p.status == VERIFIED then p.deposit else 0
  }

  /** How many payments were collected with shipment `s`. */
  function Collections(payments: seq<Payment>, s: nat): nat {
    if payments == [] then 0
    else Collections(payments[..|payments| - 1], s) + if payments[|payments| - 1].via == Courier(s) then 1 else 0
  }

  function StatusFor(totalPaid: int, grandTotal: int): PaymentStatus {
    if totalPaid <= 0 then Unpaid else if totalPaid < grandTotal then Partial else Paid
  }

  // ------------------------------------------------------------------ Opening a booking

  datatype Summary = Summary(subtotal: int, totalFees: int, totalDeposit: int, shippingFee: int, grandTotal: int)

  function SubtotalOf(items: seq<Item>): int {
    if items == [] then 0
    else SubtotalOf(items[..|items| - 1]) + items[|items| - 1].itemTotal - Fees(items[|items| - 1])
  }

  function Summarize(items: seq<Item>): Summary {
    Summary(SubtotalOf(items), FeesTotal(items), DepositsTotal(items), LargestShipping(items),
            ItemsTotal(items) + LargestShipping(items) + DepositsTotal(items))
  }

  datatype Discount = Percentage(value: nat) | Flat(value: nat)

  /** The smallest whole amount that is at least `amount * percent / 100`. */
  function PercentOf(amount: int, percent: nat): int {
    -((-amount * percent) / 100)
  }

  function DiscountAmount(discount: Option<Discount>, s: Summary): Outcome<int> {
    var discountable := s.subtotal + s.totalFees + s.shippingFee;
    match discount
    case None => Ok(0)
    case Some(Percentage(value)) => if value > 100 then Refused(DiscountTooLarge) else Ok(PercentOf(discountable, value))
    case Some(Flat(value)) => if value > discountable then Refused(DiscountTooLarge) else Ok(value)
  }

  /** An amount that request validation keeps above zero. */
  type Amount = n: int | n > 0 witness 1

  datatype InitialPayment = InitialPayment(amount: Amount, deposit: nat)

  /** How a booking is to be paid: later, by a mobile payment the customer claims to have made, or online. */
  datatype Terms = Later | Claimed | Online

  /** A new account; a claim is for the whole amount, and is to be reviewed. */
  function Opened(items: seq<Item>, discount: Option<Discount>, terms: Terms): Outcome<Account> {
    if items == [] then Refused(NoItems)
    else
      var s := Summarize(items);
      match DiscountAmount(discount, s)
      case Refused(why) => Refused(why)
      case Ok(off) =>
        var grand := s.grandTotal - off;
        var claims := if terms == Claimed then [Payment(grand, grand - s.totalDeposit, s.totalDeposit, PENDING, Claim)] else [];
        if exists i | i in items :: i.itemTotal < 0 then Refused(ItemTotalNegative)
        else Ok(Account(items, s.subtotal, s.totalFees, s.shippingFee, s.totalDeposit, off, grand, 0, Unpaid, terms == Online,
                        claims, [], map[]))
  }

  /** The payment taken when the booking is made. */
  function WithInitial(a: Account, p: InitialPayment): Outcome<Account> {
    if p.amount > a.grandTotal then Refused(PaymentTooLarge)
    else if p.deposit > p.amount || p.deposit > a.totalDeposit then Refused(DepositTooLarge)
    else if p.amount - p.deposit > a.grandTotal - a.totalDeposit then Refused(RentalTooLarge)
    else Ok(a.(payments := a.payments + [Payment(p.amount, p.amount - p.deposit, p.deposit, VERIFIED, Desk)],
               totalPaid := p.amount,
               paymentStatus := if p.amount >= a.grandTotal then Paid else Partial))
  }

  function Open(items: seq<Item>, discount: Option<Discount>, terms: Terms, initial: Option<InitialPayment>): Outcome<Account> {
    match Opened(items, discount, terms)
    case Refused(why) => Refused(why)
    case Ok(a) => if initial.Some? then WithInitial(a, initial.value) else Ok(a)
  }

  // ------------------------------------------------------------------ Late fees

  datatype LateFee = LateFee(days: nat, fee: nat)

  function FeeAt(fees: seq<LateFee>, k: nat): LateFee {
    if k < |fees| then fees[k] else LateFee(0, 0)
  }

  function LateItem(i: Item, f: LateFee): Outcome<Item> {
    if f.days == i.lateDays && f.fee == i.lateFee then Ok(i)
    else if i.itemTotal + f.fee - i.lateFee < 0 then Refused(ItemTotalNegative)
    else Ok(i.(lateDays := f.days, lateFee := f.fee, itemTotal := i.itemTotal + f.fee - i.lateFee))
  }

  function LateItems(items: seq<Item>, fees: seq<LateFee>): Outcome<seq<Item>> {
    if items == [] then Ok([])
    else
      var n := |items| - 1;
      match LateItems(items[..n], fees)
      case Refused(why) => Refused(why)
      case Ok(done) =>
        match LateItem(items[n], FeeAt(fees, n))
        case Refused(why) => Refused(why)
        case Ok(i) => Ok(done + [i])
  }

  /** The booking after its items' late fees changed by `delta` in all. */
  function WithFeeDelta(a: Account, items: seq<Item>, delta: int): Outcome<Account> {
    if delta == 0 then Ok(a.(items := items))
    else if a.grandTotal + delta < 0 || a.totalFees + delta < 0 then Refused(TotalsNegative)
    else Ok(a.(items := items, totalFees := a.totalFees + delta, grandTotal := a.grandTotal + delta,
               paymentStatus := StatusFor(a.totalPaid, a.grandTotal + delta)))
  }

  function LateFees(a: Account, fees: seq<LateFee>): Outcome<Account> {
    match LateItems(a.items, fees)
    case Refused(why) => Refused(why)
    case Ok(items) => WithFeeDelta(a, items, ItemsTotal(items) - ItemsTotal(a.items))
  }

  // ------------------------------------------------------------------ Extension charges

  function Weight(i: Item): nat {
    if i.baseRental < 1 then 1 else i.baseRental
  }

  function WeightTotal(items: seq<Item>): nat {
    if items == [] then 0 else WeightTotal(items[..|items| - 1]) + Weight(items[|items| - 1])
  }

  /** The share of an item that is not the last: its proportion, rounded down. */
  function FloorShare(i: Item, charge: nat, total: nat): nat
    requires total > 0
  {
    charge * Weight(i) / total
  }

  function FloorShares(items: seq<Item>, charge: nat, total: nat): nat
    requires total > 0
  {
    if items == [] then 0 else FloorShares(items[..|items| - 1], charge, total) + FloorShare(items[|items| - 1], charge, total)
  }

  function ExtendItem(i: Item, end: int, share: int): Item {
    var added := Max(0, end - i.end);
    i.(end := end, rentalDays := i.rentalDays + added, extendedDays := i.extendedDays + added,
       extendedCost := i.extendedCost + share, itemTotal := i.itemTotal + share)
  }

  /** The share of item `k`; the last item takes what is left. */
  function Share(items: seq<Item>, charge: nat, k: nat): int
    requires k < |items| && WeightTotal(items) > 0
  {
    if k == |items| - 1 then charge - FloorShares(items[..k], charge, WeightTotal(items))
    else FloorShare(items[k], charge, WeightTotal(items))
  }

  lemma {:induction false} WeightPositive(items: seq<Item>)
    requires items != []
    ensures WeightTotal(items) > 0
  {
    if |items| > 1 { WeightPositive(items[..|items| - 1]); }
  }

  function ExtendItems(items: seq<Item>, end: int, charge: nat): seq<Item> {
    if items == [] then []
    else
      WeightPositive(items);
      seq(|items|, k requires 0 <= k < |items| => ExtendItem(items[k], end, Share(items, charge, k)))
  }

  function Extend(a: Account, end: int, charge: nat): Account {
    a.(items := ExtendItems(a.items, end, charge), subtotal := a.subtotal + charge, grandTotal := a.grandTotal + charge,
       paymentStatus := StatusFor(a.totalPaid, a.grandTotal + charge))
  }

  // ------------------------------------------------------------------ Other adjustments

  /** The price impact of a substitution on one item. */
  function Substitute(a: Account, k: nat, impact: int): Outcome<Account> {
    if k >= |a.items| then Refused(NotFound)
    else if impact == 0 then Ok(a)
    else
      var i := a.items[k];
      if i.itemTotal + impact < 0 || a.subtotal + impact < 0 || a.grandTotal + impact < 0 then Refused(TotalsNegative)
      else Ok(a.(items := a.items[k := i.(adjustment := i.adjustment + impact, itemTotal := i.itemTotal + impact)],
                 subtotal := a.subtotal + impact, grandTotal := a.grandTotal + impact,
                 paymentStatus := StatusFor(a.totalPaid, a.grandTotal + impact)))
  }

  /** An additional charge of a deposit settlement: it belongs to no item. */
  function Settle(a: Account, charge: nat): Account {
    if charge == 0 then a
    else a.(charges := a.charges + [charge], totalFees := a.totalFees + charge, grandTotal := a.grandTotal + charge,
            paymentStatus := StatusFor(a.totalPaid, a.grandTotal + charge))
  }

  // ------------------------------------------------------------------ Payments

  function Pay(a: Account, amount: nat, deposit: nat): Outcome<Account> {
    var paid := Verified(a.payments);
    if amount < 1 || amount > a.grandTotal - paid then Refused(PaymentTooLarge)
    else if deposit > amount || deposit > a.totalDeposit - VerifiedDeposits(a.payments) then Refused(DepositTooLarge)
    else if amount - deposit > a.grandTotal - a.totalDeposit - (paid - VerifiedDeposits(a.payments)) then Refused(RentalTooLarge)
    else Ok(a.(payments := a.payments + [Payment(amount, amount - deposit, deposit, VERIFIED, Desk)],
               totalPaid := paid + amount, paymentStatus := StatusFor(paid + amount, a.grandTotal)))
  }

  /** Reviewing a payment claim. Approval looks at the balance, not at the deposits. */
  function Review(a: Account, p: nat, approve: bool): Outcome<Account> {
    if p >= |a.payments| then Refused(NotFound)
    else
      var claim := a.payments[p];
      if claim.via.Gateway? || claim.via.Courier? then Refused(NotAClaim)
      else if claim.status != PENDING then Refused(AlreadyReviewed)
      else if !approve then Ok(a.(payments := a.payments[p := claim.(status := FAILED)]))
      else
        var paid := Verified(a.payments);
        if claim.amount > a.grandTotal - paid then Refused(PaymentTooLarge)
        else Ok(a.(payments := a.payments[p := claim.(status := VERIFIED)],
                   totalPaid := paid + claim.amount, paymentStatus := StatusFor(paid + claim.amount, a.grandTotal)))
  }

  predicate PendingSession(p: Payment) {
    p.via == Gateway && p.status == PENDING
  }

  /** Opening an online payment session records a pending payment of all that is due, deposits first. */
  function OpenSession(a: Account): Outcome<Account> {
    var due := a.grandTotal - Verified(a.payments);
    var deposit := Max(0, a.totalDeposit - VerifiedDeposits(a.payments));
    if !a.online then Refused(NotOnline)
    else if due <= 0 then Refused(AlreadyPaid)
    else if exists p | p in a.payments :: PendingSession(p) then Refused(SessionPending)
    else if due - deposit < 0 then Refused(AllocationInconsistent)
    else Ok(a.(payments := a.payments + [Payment(due, due - deposit, deposit, PENDING, Gateway)]))
  }

  /**
   The gateway's notification about a session. `valid` says that the gateway confirms the
   transaction and its amount; neither the balance nor the deposits are looked at again.
   */
  function Confirm(a: Account, p: nat, valid: bool): Outcome<Account> {
    if p >= |a.payments| || !PendingSession(a.payments[p]) then Refused(NotFound)
    else if !valid then Ok(a.(payments := a.payments[p := a.payments[p].(status := FAILED)]))
    else
      var payments := a.payments[p := a.payments[p].(status := VERIFIED)];
      Ok(a.(payments := payments, totalPaid := Verified(payments), paymentStatus := StatusFor(Verified(payments), a.grandTotal)))
  }

  /** Dispatching a parcel records what the courier is to collect. */
  function Dispatch(a: Account, shipment: nat, cod: nat): Outcome<Account> {
    if cod > Max(0, a.grandTotal - a.totalPaid) then Refused(PaymentTooLarge)
    else if cod == 0 then Ok(a)
    else
      var payment := if shipment in a.remittances then a.remittances[shipment].payment else None;
      Ok(a.(remittances := a.remittances[shipment := Remittance(cod, payment)]))
  }

  /** The payment for a delivered parcel: made once, deposits first. */
  function Collect(a: Account, shipment: nat): Account {
    if shipment !in a.remittances then a
    else
      var r := a.remittances[shipment];
      if r.expected <= 0 || r.payment.Some? then a
      else
        var deposit := Min(r.expected, Max(0, a.totalDeposit - VerifiedDeposits(a.payments)));
        var paid := Verified(a.payments) + r.expected;
        a.(payments := a.payments + [Payment(r.expected, r.expected - deposit, deposit, VERIFIED, Courier(shipment))],
           totalPaid := paid, paymentStatus := if paid >= a.grandTotal then Paid else Partial,
           remittances := a.remittances[shipment := r.(payment := Some(|a.payments|))])
  }

  // ------------------------------------------------------------------ Runs

  datatype Step =
    | LateFeeStep(fees: seq<LateFee>)
    | ExtendStep(end: int, charge: nat)
    | SubstituteStep(item: nat, impact: int)
    | SettleStep(settlement: nat)
    | PayStep(amount: nat, deposit: nat)
    | ReviewStep(payment: nat, approve: bool)
    | SessionStep
    | ConfirmStep(session: nat, valid: bool)
    | DispatchStep(shipment: nat, cod: nat)
    | CollectStep(shipment: nat)

  function Apply(a: Account, step: Step): Outcome<Account> {
    match step
    case LateFeeStep(fees) => LateFees(a, fees)
    case ExtendStep(end, charge) => Ok(Extend(a, end, charge))
    case SubstituteStep(k, impact) => Substitute(a, k, impact)
    case SettleStep(charge) => Ok(Settle(a, charge))
    case PayStep(amount, deposit) => Pay(a, amount, deposit)
    case ReviewStep(p, approve) => Review(a, p, approve)
    case SessionStep => OpenSession(a)
    case ConfirmStep(p, valid) => Confirm(a, p, valid)
    case DispatchStep(s, cod) => Dispatch(a, s, cod)
    case CollectStep(s) => Ok(Collect(a, s))
  }

  function Next(a: Account, step: Step): Account {
    match Apply(a, step)
    case Ok(b) => b
    case Refused(_) => a
  }

  function Run(a: Account, steps: seq<Step>): Account {
    if steps == [] then a else Next(Run(a, steps[..|steps| - 1]), steps[|steps| - 1])
  }
}
