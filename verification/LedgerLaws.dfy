/**
 What each operation on the money of a booking asks for and what it writes, amount by amount:
 proper requests are accepted, and only those.
 */
module LedgerLaws {
  import opened Common
  import opened Ledger
  import opened LedgerSafety

  predicate AcceptedIff(a: Account, step: Step, may: bool) {
    Apply(a, step).Ok? <==> may
  }

  /** The payment status says whether nothing, part or all of the total has been paid. */
  predicate StatusTells(a: Account) {
    (a.paymentStatus == Unpaid <==> a.totalPaid <= 0) && (a.paymentStatus == Paid <==> 0 < a.totalPaid && a.grandTotal <= a.totalPaid)
  }

  // ------------------------------------------------------------------ Sums over rows

  /** What one more item adds to each sum over the items. */
  lemma ItemCounts(items: seq<Item>, i: Item)
    ensures ItemsTotal([]) == SubtotalOf([]) == 0 && FeesTotal([]) == DepositsTotal([]) == WeightTotal([]) == 0
    ensures ItemsTotal(items + [i]) == ItemsTotal(items) + i.itemTotal
    ensures FeesTotal(items + [i]) == FeesTotal(items) + i.cleaningFee + i.backupSizeFee + i.tryOnFee
    ensures SubtotalOf(items + [i]) == SubtotalOf(items) + i.itemTotal - i.cleaningFee - i.backupSizeFee - i.tryOnFee
    ensures DepositsTotal(items + [i]) == DepositsTotal(items) + i.depositAmount
    ensures WeightTotal(items + [i]) == WeightTotal(items) + Max(1, i.baseRental)
  {
    assert (items + [i])[..|items|] == items;
  }

  /** Shipping is charged once, at the rate of the most expensive item. */
  lemma {:induction false} ShippingIsTheLargest(items: seq<Item>)
    ensures forall k :: 0 <= k < |items| ==> items[k].shippingFee <= LargestShipping(items)
    ensures if items == [] then LargestShipping(items) == 0 else exists k :: 0 <= k < |items| && items[k].shippingFee == LargestShipping(items)
  {
    if items != [] {
      var n := |items| - 1;
      ShippingIsTheLargest(items[..n]);
      if items[..n] != [] && LargestShipping(items) != items[n].shippingFee {
        var k :| 0 <= k < n && items[..n][k].shippingFee == LargestShipping(items[..n]);
        assert items[k].shippingFee == LargestShipping(items);
      }
    }
  }

  // ------------------------------------------------------------------ Opening

  /** A discount of `off` is what was asked for of the amount `of`. */
  predicate Discounts(discount: Option<Discount>, of: int, off: int) {
    match discount
    case None => off == 0
    case Some(Flat(value)) => off == value
    case Some(Percentage(value)) => 100 * (off - 1) < of * value <= 100 * off
  }

  /** A booking is priced when it has items, none at a negative total, and its discount is within what it takes off from. */
  lemma OpenIff(items: seq<Item>, discount: Option<Discount>, terms: Terms)
    ensures Open(items, discount, terms, None).Ok?
            <==> && items != [] && (forall k :: 0 <= k < |items| ==> items[k].itemTotal >= 0)
                 && match discount
                    case None => true
                    case Some(Percentage(value)) => value <= 100
                    case Some(Flat(value)) => value <= ItemsTotal(items) + LargestShipping(items)
  {
    SummaryAddsUp(items);
    assert (exists i | i in items :: i.itemTotal < 0) <==> !forall k :: 0 <= k < |items| ==> items[k].itemTotal >= 0;
    hide ItemsTotal, SubtotalOf, FeesTotal, DepositsTotal, LargestShipping, PercentOf;
  }

  /** Its totals are those of its items, the shipping, the deposits and the discount; a claim is for all of it. */
  lemma OpenWrites(items: seq<Item>, discount: Option<Discount>, terms: Terms)
    requires Open(items, discount, terms, None).Ok?
    ensures var a := Open(items, discount, terms, None).value;
            && a == Account(items, SubtotalOf(items), FeesTotal(items), LargestShipping(items), DepositsTotal(items), a.discount, a.grandTotal,
                            0, Unpaid, terms == Online, a.payments, [], map[])
            && Discounts(discount, ItemsTotal(items) + LargestShipping(items), a.discount)
            && a.grandTotal == ItemsTotal(items) + LargestShipping(items) + DepositsTotal(items) - a.discount
            && a.payments == if terms == Claimed then [Payment(a.grandTotal, a.grandTotal - a.totalDeposit, a.totalDeposit, PENDING, Claim)] else []
  {
    OpenIff(items, discount, terms);
    SummaryAddsUp(items);
    ItemsTotalNonNegative(items);
    hide ItemsTotal, SubtotalOf, FeesTotal, DepositsTotal, LargestShipping, PercentOf;
    if discount.Some? && discount.value.Percentage? {
      PercentInRange(ItemsTotal(items) + LargestShipping(items), discount.value.value);
    }
  }

  /** A first payment is taken exactly when it exceeds neither the total, nor the deposits, nor the rental charges. */
  lemma InitialIff(items: seq<Item>, discount: Option<Discount>, terms: Terms, p: InitialPayment)
    ensures Open(items, discount, terms, Some(p)).Ok?
            <==> && Open(items, discount, terms, None).Ok?
                 && var a := Open(items, discount, terms, None).value;
                    && p.amount <= a.grandTotal && p.deposit <= p.amount && p.deposit <= a.totalDeposit
                    && p.amount - p.deposit <= a.grandTotal - a.totalDeposit
    ensures Open(items, discount, terms, Some(p)).Ok? ==>
              var a, b := Open(items, discount, terms, None).value, Open(items, discount, terms, Some(p)).value;
              && b == a.(payments := a.payments + [Payment(p.amount, p.amount - p.deposit, p.deposit, VERIFIED, Desk)],
                         totalPaid := p.amount, paymentStatus := b.paymentStatus)
              && StatusTells(b)
  {
    hide Opened;
  }

  // ------------------------------------------------------------------ Payments at the desk and claims

  /** A payment is taken exactly when it stays within the balance, the deposits and the rental charges. */
  lemma PayIff(a: Account, amount: nat, deposit: nat)
    ensures var paid, deposits := Verified(a.payments), VerifiedDeposits(a.payments);
            AcceptedIff(a, PayStep(amount, deposit),
              && 1 <= amount && deposit <= amount && paid + amount <= a.grandTotal && deposits + deposit <= a.totalDeposit
              && (paid - deposits) + (amount - deposit) <= a.grandTotal - a.totalDeposit)
    ensures Apply(a, PayStep(amount, deposit)).Ok? ==>
              var b := Next(a, PayStep(amount, deposit));
              && b == a.(payments := a.payments + [Payment(amount, amount - deposit, deposit, VERIFIED, Desk)],
                         totalPaid := Verified(a.payments) + amount, paymentStatus := b.paymentStatus)
              && StatusTells(b)
  {
  }

  /**
   Paying all that is due with the deposit not yet collected is accepted exactly when something
   is due and that deposit is no more than it; the booking is then paid, with all its deposits.
   */
  lemma PayingOffIff(a: Account)
    requires Balanced(a) && DepositsWithin(a)
    ensures var due, deposit := a.grandTotal - a.totalPaid, a.totalDeposit - VerifiedDeposits(a.payments);
            due >= 0 ==>
              && AcceptedIff(a, PayStep(due, deposit), 0 < due && deposit <= due)
              && (0 < due && deposit <= due ==>
                    var b := Next(a, PayStep(due, deposit));
                    b.paymentStatus == Paid && b.totalPaid == b.grandTotal && VerifiedDeposits(b.payments) == b.totalDeposit)
  {
    var due, deposit := a.grandTotal - a.totalPaid, a.totalDeposit - VerifiedDeposits(a.payments);
    if due >= 0 {
      PaymentAdded(a.payments, Payment(due, due - deposit, deposit, VERIFIED, Desk));
      assert a.totalPaid >= 0 by { VerifiedNonNegative(a.payments); }
      hide TotalsOk, CollectionsOk;
    }
  }

  /** A claim is reviewed while it is pending, and approved only within the balance. */
  lemma ReviewIff(a: Account, p: nat, approve: bool)
    ensures AcceptedIff(a, ReviewStep(p, approve),
              && p < |a.payments| && (a.payments[p].via == Desk || a.payments[p].via == Claim) && a.payments[p].status == PENDING
              && (approve ==> Verified(a.payments) + a.payments[p].amount <= a.grandTotal))
    ensures Apply(a, ReviewStep(p, approve)).Ok? ==>
              var b := Next(a, ReviewStep(p, approve));
              && b == a.(payments := a.payments[p := a.payments[p].(status := if approve then VERIFIED else FAILED)],
                         totalPaid := if approve then Verified(a.payments) + a.payments[p].amount else a.totalPaid,
                         paymentStatus := b.paymentStatus)
              && if approve then StatusTells(b) else b.paymentStatus == a.paymentStatus
  {
  }

  // ------------------------------------------------------------------ Online sessions

  /** A session is opened for a booking paid online when something is due, the deposits fit into it, and no other session is pending. */
  lemma SessionIff(a: Account)
    ensures var due, deposit := a.grandTotal - Verified(a.payments), Max(0, a.totalDeposit - VerifiedDeposits(a.payments));
            && AcceptedIff(a, SessionStep,
                 && a.online && 0 < due && deposit <= due
                 && forall p | p in a.payments :: !(p.via == Gateway && p.status == PENDING))
            && (Apply(a, SessionStep).Ok? ==>
                  Next(a, SessionStep) == a.(payments := a.payments + [Payment(due, due - deposit, deposit, PENDING, Gateway)]))
  {
  }

  /** A notification counts once, for a pending session; only a valid one changes what is paid. */
  lemma ConfirmIff(a: Account, p: nat, valid: bool)
    ensures AcceptedIff(a, ConfirmStep(p, valid), p < |a.payments| && a.payments[p].via == Gateway && a.payments[p].status == PENDING)
    ensures Apply(a, ConfirmStep(p, valid)).Ok? ==>
              var b := Next(a, ConfirmStep(p, valid));
              && b == a.(payments := a.payments[p := a.payments[p].(status := if valid then VERIFIED else FAILED)],
                         totalPaid := if valid then Verified(a.payments) + a.payments[p].amount else a.totalPaid,
                         paymentStatus := b.paymentStatus)
              && if valid then StatusTells(b) else b.paymentStatus == a.paymentStatus
  {
    if Apply(a, ConfirmStep(p, valid)).Ok? && valid { PaymentReviewed(a.payments, p, VERIFIED); }
    hide Verified;
  }

  // ------------------------------------------------------------------ Cash on delivery

  /** A parcel is dispatched for at most what is due; with something to collect, that is what its courier is to bring. */
  lemma DispatchIff(a: Account, shipment: nat, cod: nat)
    ensures AcceptedIff(a, DispatchStep(shipment, cod), cod == 0 || a.totalPaid + cod <= a.grandTotal)
    ensures Apply(a, DispatchStep(shipment, cod)).Ok? ==>
              var b := Next(a, DispatchStep(shipment, cod));
              if cod == 0 then b == a
              else && b == a.(remittances := b.remittances) && b.remittances.Keys == a.remittances.Keys + {shipment}
                   && b.remittances[shipment].expected == cod
                   && (b.remittances[shipment].payment == if shipment in a.remittances then a.remittances[shipment].payment else None)
                   && forall s | s in a.remittances && s != shipment :: b.remittances[s] == a.remittances[s]
  {
  }

  /** What a delivered parcel brings, and has not brought before, is paid: its deposits first, then the rental. */
  lemma CollectWrites(a: Account, shipment: nat)
    requires Balanced(a)
    ensures var b := Next(a, CollectStep(shipment));
            if shipment in a.remittances && a.remittances[shipment].expected > 0 && a.remittances[shipment].payment == None
            then var amount, open := a.remittances[shipment].expected, Max(0, a.totalDeposit - VerifiedDeposits(a.payments));
                 && b == a.(payments := a.payments + [Payment(amount, Max(0, amount - open), Min(amount, open), VERIFIED, Courier(shipment))],
                            totalPaid := Verified(a.payments) + amount, paymentStatus := b.paymentStatus,
                            remittances := a.remittances[shipment := Remittance(amount, Some(|a.payments|))])
                 && StatusTells(b)
            else b == a
  {
    VerifiedNonNegative(a.payments);
    hide TotalsOk, CollectionsOk;
  }

  // ------------------------------------------------------------------ Changes of price

  /** Late fees are charged when no item total, and none of the booking's totals, falls below zero. */
  lemma {:induction false} LateItemsIff(items: seq<Item>, fees: seq<LateFee>)
    ensures LateItems(items, fees).Ok? <==> forall k :: 0 <= k < |items| ==> TakesFee(items[k], DueFee(fees, k))
    ensures LateItems(items, fees).Ok? ==>
              var next := LateItems(items, fees).value;
              && |next| == |items|
              && forall k :: 0 <= k < |items| ==>
                   next[k] == items[k].(lateDays := DueFee(fees, k).days, lateFee := DueFee(fees, k).fee,
                                        itemTotal := items[k].itemTotal - items[k].lateFee + DueFee(fees, k).fee)
  {
    if items != [] {
      var n := |items| - 1;
      LateItemsIff(items[..n], fees);
      assert forall k :: 0 <= k < n ==> items[..n][k] == items[k];
      assert LateItem(items[n], FeeAt(fees, n)).Ok? <==> TakesFee(items[n], DueFee(fees, n));
      hide TakesFee, DueFee;
    }
  }

  /** The late fee named for item `k`: none when the list is shorter. */
  function DueFee(fees: seq<LateFee>, k: nat): LateFee {
    if k >= |fees| then LateFee(0, 0) else fees[k]
  }

  predicate TakesFee(i: Item, f: LateFee) {
    f == LateFee(i.lateDays, i.lateFee) || i.itemTotal - i.lateFee + f.fee >= 0
  }

  /** The change in the item totals moves fees and grand total alike. */
  lemma LateFeesIff(a: Account, fees: seq<LateFee>)
    requires LateItems(a.items, fees).Ok?
    ensures var items := LateItems(a.items, fees).value;
            var change := ItemsTotal(items) - ItemsTotal(a.items);
            && AcceptedIff(a, LateFeeStep(fees), change == 0 || (a.totalFees + change >= 0 && a.grandTotal + change >= 0))
            && (Apply(a, LateFeeStep(fees)).Ok? ==>
                  var b := Next(a, LateFeeStep(fees));
                  && b == a.(items := items, totalFees := a.totalFees + change, grandTotal := a.grandTotal + change, paymentStatus := b.paymentStatus)
                  && if change == 0 then b.paymentStatus == a.paymentStatus else StatusTells(b))
  {
    hide LateItems, ItemsTotal;
  }

  /** An extension moves every item to the new end, with the days and the share of the charge that this adds. */
  lemma ExtendWrites(a: Account, end: int, charge: nat)
    requires a.items != []
    ensures WeightTotal(a.items) > 0 && Apply(a, ExtendStep(end, charge)).Ok?
    ensures var b := Next(a, ExtendStep(end, charge));
            && b == a.(items := b.items, subtotal := a.subtotal + charge, grandTotal := a.grandTotal + charge, paymentStatus := b.paymentStatus)
            && StatusTells(b) && |b.items| == |a.items|
            && forall k: nat :: k < |a.items| ==>
                 var i, added, share := a.items[k], if end > a.items[k].end then end - a.items[k].end else 0, Share(a.items, charge, k);
                 b.items[k] == i.(end := end, rentalDays := i.rentalDays + added, extendedDays := i.extendedDays + added,
                                  extendedCost := i.extendedCost + share, itemTotal := i.itemTotal + share)
  {
    WeightPositive(a.items);
    hide WeightTotal, Share;
  }

  /** A price impact is booked on its item and the totals, when none of them falls below zero. */
  lemma SubstituteIff(a: Account, k: nat, impact: int)
    ensures AcceptedIff(a, SubstituteStep(k, impact),
              && k < |a.items|
              && (impact == 0 || (a.items[k].itemTotal + impact >= 0 && a.subtotal + impact >= 0 && a.grandTotal + impact >= 0)))
    ensures Apply(a, SubstituteStep(k, impact)).Ok? ==>
              var b, i := Next(a, SubstituteStep(k, impact)), a.items[k];
              && b == a.(items := b.items, subtotal := a.subtotal + impact, grandTotal := a.grandTotal + impact, paymentStatus := b.paymentStatus)
              && b.items == a.items[k := i.(adjustment := i.adjustment + impact, itemTotal := i.itemTotal + impact)]
              && if impact == 0 then b == a else StatusTells(b)
  {
  }

  /** A settlement's charge is listed, and raises fees and grand total. */
  lemma SettleWrites(a: Account, charge: nat)
    ensures Apply(a, SettleStep(charge)).Ok?
    ensures var b := Next(a, SettleStep(charge));
            if charge == 0 then b == a
            else && b == a.(charges := a.charges + [charge], totalFees := a.totalFees + charge, grandTotal := a.grandTotal + charge,
                            paymentStatus := b.paymentStatus)
                 && StatusTells(b)
  {
  }

  // ------------------------------------------------------------------ Refusals

  /** A refused step names what stands in the way, and nothing checked before it does. */
  lemma Refusals(a: Account, step: Step)
    requires Apply(a, step).Refused?
    ensures var paid, deposits := Verified(a.payments), VerifiedDeposits(a.payments);
            match Apply(a, step).reason
            case PaymentTooLarge =>
              || (step.PayStep? && (step.amount < 1 || paid + step.amount > a.grandTotal))
              || (step.ReviewStep? && step.approve && step.payment < |a.payments| && paid + a.payments[step.payment].amount > a.grandTotal)
              || (step.DispatchStep? && a.totalPaid + step.cod > a.grandTotal)
            case DepositTooLarge =>
              && step.PayStep? && 1 <= step.amount <= a.grandTotal - paid
              && (step.deposit > step.amount || deposits + step.deposit > a.totalDeposit)
            case RentalTooLarge =>
              step.PayStep? && 1 <= step.amount <= a.grandTotal - paid && step.deposit <= step.amount && deposits + step.deposit <= a.totalDeposit
            case NotFound =>
              || (step.ReviewStep? && step.payment >= |a.payments|) || (step.SubstituteStep? && step.item >= |a.items|) || step.ConfirmStep?
            case NotAClaim => step.ReviewStep? && step.payment < |a.payments| && (a.payments[step.payment].via.Gateway? || a.payments[step.payment].via.Courier?)
            case AlreadyReviewed =>
              && step.ReviewStep? && step.payment < |a.payments| && a.payments[step.payment].status != PENDING
              && (a.payments[step.payment].via.Desk? || a.payments[step.payment].via.Claim?)
            case NotOnline => step.SessionStep? && !a.online
            case AlreadyPaid => step.SessionStep? && a.online && a.grandTotal <= paid
            case SessionPending =>
              step.SessionStep? && a.online && paid < a.grandTotal && exists p | p in a.payments :: p.via == Gateway && p.status == PENDING
            case AllocationInconsistent =>
              && step.SessionStep? && a.online && paid < a.grandTotal && a.grandTotal - paid < a.totalDeposit - deposits
              && forall p | p in a.payments :: !(p.via == Gateway && p.status == PENDING)
            case ItemTotalNegative => step.LateFeeStep? && LateItems(a.items, step.fees).Refused?
            case TotalsNegative =>
              || (step.LateFeeStep? && LateItems(a.items, step.fees).Ok?)
              || (step.SubstituteStep? && step.item < |a.items| && step.impact != 0)
            case _ => false
  {
    if step.LateFeeStep? { LateRefusals(a.items, step.fees); }
    hide LateItems, ItemsTotal, Verified, VerifiedDeposits, Extend;
  }

  lemma {:induction false} LateRefusals(items: seq<Item>, fees: seq<LateFee>)
    ensures LateItems(items, fees).Refused? ==> LateItems(items, fees).reason == ItemTotalNegative
  {
    if items != [] { LateRefusals(items[..|items| - 1], fees); }
  }
}
