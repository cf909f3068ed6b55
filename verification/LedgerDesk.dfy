/** The account of one booking as the services update it: loops over item rows, running sums, fields in place. */
module LedgerDesk {
  import opened Common
  import opened Ledger
  import opened LedgerSafety

  /** `b` and `refusal` are what the step makes of `a`. */
  ghost predicate Follows(a: Account, step: Step, b: Account, refusal: Option<Reason>) {
    match Apply(a, step)
    case Ok(next) => b == next && refusal == None
    case Refused(why) => b == a && refusal == Some(why)
  }

  lemma FollowsKeeps(a: Account, step: Step, b: Account, refusal: Option<Reason>)
    requires Balanced(a) && Follows(a, step, b, refusal)
    ensures Balanced(b)
  {
    hide Balanced, Apply;
    NextBalanced(a, step);
  }

  lemma LatePrefix(items: seq<Item>, fees: seq<LateFee>, k: nat)
    requires k < |items|
    ensures items[..k + 1][..k] == items[..k]
    ensures LateItems(items[..k + 1], fees)
            == match LateItems(items[..k], fees)
               case Refused(why) => Refused(why)
               case Ok(done) =>
                 match LateItem(items[k], FeeAt(fees, k))
                 case Refused(why) => Refused(why)
                 case Ok(i) => Ok(done + [i])
  {
    assert items[..k + 1][..k] == items[..k];
  }

  lemma {:induction false} LateRefusalStays(items: seq<Item>, fees: seq<LateFee>, k: nat)
    requires k <= |items| && LateItems(items[..k], fees).Refused?
    ensures LateItems(items, fees) == Refused(LateItems(items[..k], fees).reason)
    decreases |items| - k
  {
    if k < |items| {
      LatePrefix(items, fees, k);
      LateRefusalStays(items, fees, k + 1);
    } else {
      assert items[..k] == items;
    }
  }

  lemma ItemsTotalStep(items: seq<Item>, k: nat)
    requires k < |items|
    ensures ItemsTotal(items[..k + 1]) == ItemsTotal(items[..k]) + items[k].itemTotal
  {
    assert items[..k + 1][..k] == items[..k];
  }

  class BookingAccount {
    var items: seq<Item>
    var subtotal: int
    var totalFees: int
    var shippingFee: int
    var totalDeposit: int
    var discount: int
    var grandTotal: int
    var totalPaid: int
    var paymentStatus: PaymentStatus
    const online: bool
    var payments: seq<Payment>
    var charges: seq<nat>
    var remittances: map<nat, Remittance>

    ghost function State(): Account
      reads this
    {
      Account(items, subtotal, totalFees, shippingFee, totalDeposit, discount, grandTotal, totalPaid, paymentStatus,
              online, payments, charges, remittances)
    }

    ghost predicate Valid()
      reads this
    {
      Balanced(State())
    }

    constructor (a: Account)
      requires Balanced(a)
      ensures State() == a && Valid()
    {
      items, subtotal, totalFees, shippingFee, totalDeposit := a.items, a.subtotal, a.totalFees, a.shippingFee, a.totalDeposit;
      discount, grandTotal, totalPaid, paymentStatus := a.discount, a.grandTotal, a.totalPaid, a.paymentStatus;
      payments, charges, remittances := a.payments, a.charges, a.remittances;
      online := a.online;
    }

    /** Recalculates every item's late fee and moves the booking's totals by the difference. */
    method CalculateLateFees(fees: seq<LateFee>) returns (refusal: Option<Reason>)
      requires Valid()
      modifies this
      ensures Follows(old(State()), LateFeeStep(fees), State(), refusal) && Valid()
    {
      hide Balanced, LateItems, ItemsTotal, WithFeeDelta;
      ghost var a := State();
      var delta, was := 0, items;
      refusal := None;
      LateItemsNone(was, fees);
      var k := 0;
      while k < |was|
        invariant k <= |was| && |items| == |was| && items[k..] == was[k..]
        invariant LateItems(was[..k], fees) == Ok(items[..k])
        invariant delta == ItemsTotal(items[..k]) - ItemsTotal(was[..k])
        invariant State() == a.(items := items)
      {
        var item, fee := was[k], FeeAt(fees, k);
        LatePrefix(was, fees, k);
        ItemsTotalStep(was, k);
        assert items[k] == item;
        if fee.days != item.lateDays || fee.fee != item.lateFee {
          var itemDelta := fee.fee - item.lateFee;
          if item.itemTotal + itemDelta < 0 {
            LateRefusalStays(was, fees, k + 1);
            items, refusal := was, Some(ItemTotalNegative);
            FollowsKeeps(a, LateFeeStep(fees), State(), refusal);
            return;
          }
          var next := item.(lateDays := fee.days, lateFee := fee.fee, itemTotal := item.itemTotal + itemDelta);
          items := items[k := next];
          delta := delta + itemDelta;
        }
        assert items[..k + 1] == items[..k] + [items[k]];
        ItemsTotalStep(items, k);
        k := k + 1;
      }
      assert was[..k] == was && items[..k] == items;
      refusal := MoveFees(was, delta);
      FollowsKeeps(a, LateFeeStep(fees), State(), refusal);
    }

    /** Moves the totals by `delta`, or takes the items back when a total would turn negative. */
    method MoveFees(was: seq<Item>, delta: int) returns (refusal: Option<Reason>)
      modifies this
      ensures match WithFeeDelta(old(State()).(items := was), old(items), delta)
              case Ok(b) => State() == b && refusal == None
              case Refused(why) => State() == old(State()).(items := was) && refusal == Some(why)
    {
      refusal := None;
      if delta != 0 {
        if grandTotal + delta < 0 || totalFees + delta < 0 {
          items, refusal := was, Some(TotalsNegative);
        } else {
          totalFees, grandTotal := totalFees + delta, grandTotal + delta;
          paymentStatus := if totalPaid <= 0 then Unpaid else if totalPaid >= grandTotal then Paid else Partial;
        }
      }
    }

    /** Apportions an extension charge over the items and moves the return dates. */
    method ExtendItemsAndTotals(end: int, charge: nat)
      requires Valid()
      modifies this
      ensures Follows(old(State()), ExtendStep(end, charge), State(), None) && Valid()
    {
      hide Balanced, WeightTotal, FloorShares, FloorShare, Weight;
      ghost var a := State();
      var was, total := items, WeightTotal(items);
      var spent := 0;
      if was != [] {
        WeightPositive(was);
        NoFloors(charge, total);
      }
      var k := 0;
      while k < |was|
        invariant k <= |was| && |items| == |was| && items[k..] == was[k..]
        invariant was != [] ==> total == WeightTotal(was) && total > 0
        invariant k < |was| ==> spent == FloorShares(was[..k], charge, total)
        invariant forall j :: 0 <= j < k ==> items[j] == ExtendItem(was[j], end, Share(was, charge, j))
        invariant State() == a.(items := items)
      {
        var item := was[k];
        assert items[k] == item;
        var itemCharge := if k == |was| - 1 then charge - spent else FloorShare(item, charge, total);
        if k < |was| - 1 { FloorStep(was, charge, total, k); }
        spent := spent + itemCharge;
        var added := Max(0, end - item.end);
        items := items[k := item.(end := end, rentalDays := item.rentalDays + added, extendedDays := item.extendedDays + added,
                                  extendedCost := item.extendedCost + itemCharge, itemTotal := item.itemTotal + itemCharge)];
        k := k + 1;
      }
      assert items == ExtendItems(was, end, charge);
      subtotal, grandTotal := subtotal + charge, grandTotal + charge;
      paymentStatus := if totalPaid <= 0 then Unpaid else if totalPaid >= grandTotal then Paid else Partial;
      FollowsKeeps(a, ExtendStep(end, charge), State(), None);
    }

    /** Charges or credits one item for a substitution. */
    method ApplyPriceImpact(k: nat, impact: int) returns (refusal: Option<Reason>)
      requires Valid()
      modifies this
      ensures Follows(old(State()), SubstituteStep(k, impact), State(), refusal) && Valid()
    {
      hide Balanced;
      refusal := None;
      if k >= |items| {
        refusal := Some(NotFound);
      } else if impact != 0 {
        var item := items[k];
        if item.itemTotal + impact < 0 || subtotal + impact < 0 || grandTotal + impact < 0 {
          refusal := Some(TotalsNegative);
        } else {
          items := items[k := item.(adjustment := item.adjustment + impact, itemTotal := item.itemTotal + impact)];
          subtotal, grandTotal := subtotal + impact, grandTotal + impact;
          paymentStatus := if totalPaid <= 0 then Unpaid else if totalPaid >= grandTotal then Paid else Partial;
        }
      }
      FollowsKeeps(old(State()), SubstituteStep(k, impact), State(), refusal);
    }

    method ChargeSettlement(charge: nat)
      requires Valid()
      modifies this
      ensures Follows(old(State()), SettleStep(charge), State(), None) && Valid()
    {
      hide Balanced;
      if charge > 0 {
        charges, totalFees, grandTotal := charges + [charge], totalFees + charge, grandTotal + charge;
        paymentStatus := StatusFor(totalPaid, grandTotal);
      }
      FollowsKeeps(old(State()), SettleStep(charge), State(), None);
    }

    /** The verified payments, added up. */
    method SumVerified() returns (amount: int, deposit: int)
      ensures amount == Verified(payments) && deposit == VerifiedDeposits(payments)
    {
      amount, deposit := 0, 0;
      for k := 0 to |payments|
        invariant amount == Verified(payments[..k]) && deposit == VerifiedDeposits(payments[..k])
      {
        assert payments[..k + 1] == payments[..k] + [payments[k]];
        PaymentAdded(payments[..k], payments[k]);
        if payments[k].status == VERIFIED {
          amount, deposit := amount + payments[k].amount, deposit + payments[k].deposit;
        }
      }
      assert payments[..|payments|] == payments;
    }

    method RecordPayment(amount: nat, deposit: nat) returns (refusal: Option<Reason>)
      requires Valid()
      modifies this
      ensures Follows(old(State()), PayStep(amount, deposit), State(), refusal) && Valid()
    {
      hide Balanced, Verified, VerifiedDeposits;
      var paid, deposits := SumVerified();
      refusal := None;
      if amount < 1 || amount > grandTotal - paid {
        refusal := Some(PaymentTooLarge);
      } else if deposit > amount || deposit > totalDeposit - deposits {
        refusal := Some(DepositTooLarge);
      } else if amount - deposit > grandTotal - totalDeposit - (paid - deposits) {
        refusal := Some(RentalTooLarge);
      } else {
        payments := payments + [Payment(amount, amount - deposit, deposit, VERIFIED, Desk)];
        totalPaid := paid + amount;
        paymentStatus := StatusFor(totalPaid, grandTotal);
      }
      FollowsKeeps(old(State()), PayStep(amount, deposit), State(), refusal);
    }

    method ReviewClaim(p: nat, approve: bool) returns (refusal: Option<Reason>)
      requires Valid()
      modifies this
      ensures Follows(old(State()), ReviewStep(p, approve), State(), refusal) && Valid()
    {
      hide Balanced, Verified, VerifiedDeposits;
      var paid, deposits := SumVerified();
      refusal := None;
      if p >= |payments| {
        refusal := Some(NotFound);
      } else if payments[p].via == Gateway || payments[p].via.Courier? {
        refusal := Some(NotAClaim);
      } else if payments[p].status != PENDING {
        refusal := Some(AlreadyReviewed);
      } else if !approve {
        payments := payments[p := payments[p].(status := FAILED)];
      } else if payments[p].amount > grandTotal - paid {
        refusal := Some(PaymentTooLarge);
      } else {
        totalPaid := paid + payments[p].amount;
        payments := payments[p := payments[p].(status := VERIFIED)];
        paymentStatus := StatusFor(totalPaid, grandTotal);
      }
      FollowsKeeps(old(State()), ReviewStep(p, approve), State(), refusal);
    }

    /** Starts an online payment of all that is due, as a pending payment row. */
    method InitiateSession() returns (refusal: Option<Reason>)
      requires Valid()
      modifies this
      ensures Follows(old(State()), SessionStep, State(), refusal) && Valid()
    {
      hide Balanced, Verified, VerifiedDeposits;
      var paid, deposits := SumVerified();
      refusal := None;
      if !online {
        refusal := Some(NotOnline);
      } else if grandTotal - paid <= 0 {
        refusal := Some(AlreadyPaid);
      } else if exists p | p in payments :: PendingSession(p) {
        refusal := Some(SessionPending);
      } else {
        var deposit := Max(0, totalDeposit - deposits);
        if grandTotal - paid - deposit < 0 {
          refusal := Some(AllocationInconsistent);
        } else {
          payments := payments + [Payment(grandTotal - paid, grandTotal - paid - deposit, deposit, PENDING, Gateway)];
        }
      }
      FollowsKeeps(old(State()), SessionStep, State(), refusal);
    }

    /** The gateway's notification: the pending row is verified or failed, and the payments are added up again. */
    method HandleNotification(p: nat, valid: bool) returns (refusal: Option<Reason>)
      requires Valid()
      modifies this
      ensures Follows(old(State()), ConfirmStep(p, valid), State(), refusal) && Valid()
    {
      hide Balanced, Verified, VerifiedDeposits;
      refusal := None;
      if p >= |payments| || !PendingSession(payments[p]) {
        refusal := Some(NotFound);
      } else if !valid {
        payments := payments[p := payments[p].(status := FAILED)];
      } else {
        payments := payments[p := payments[p].(status := VERIFIED)];
        var paid, deposits := SumVerified();
        totalPaid := paid;
        paymentStatus := StatusFor(paid, grandTotal);
      }
      FollowsKeeps(old(State()), ConfirmStep(p, valid), State(), refusal);
    }

    method DispatchParcel(shipment: nat, cod: nat) returns (refusal: Option<Reason>)
      requires Valid()
      modifies this
      ensures Follows(old(State()), DispatchStep(shipment, cod), State(), refusal) && Valid()
    {
      hide Balanced;
      refusal := None;
      if cod > Max(0, grandTotal - totalPaid) {
        refusal := Some(PaymentTooLarge);
      } else if cod > 0 {
        var payment := if shipment in remittances then remittances[shipment].payment else None;
        remittances := remittances[shipment := Remittance(cod, payment)];
      }
      FollowsKeeps(old(State()), DispatchStep(shipment, cod), State(), refusal);
    }

    /** Records the money a courier collected, the first time its delivery is reported. */
    method EnsureCodPayment(shipment: nat)
      requires Valid()
      modifies this
      ensures Follows(old(State()), CollectStep(shipment), State(), None) && Valid()
    {
      hide Balanced, Verified, VerifiedDeposits;
      if shipment in remittances {
        var remittance := remittances[shipment];
        if remittance.expected > 0 && remittance.payment == None {
          var paid, deposits := SumVerified();
          var deposit := Min(remittance.expected, Max(0, totalDeposit - deposits));
          var id := |payments|;
          payments := payments + [Payment(remittance.expected, remittance.expected - deposit, deposit, VERIFIED, Courier(shipment))];
          totalPaid := paid + remittance.expected;
          paymentStatus := if totalPaid >= grandTotal then Paid else Partial;
          remittances := remittances[shipment := remittance.(payment := Some(id))];
        }
      }
      FollowsKeeps(old(State()), CollectStep(shipment), State(), None);
    }
  }

  lemma LateItemsNone(items: seq<Item>, fees: seq<LateFee>)
    ensures items[..0] == [] && LateItems(items[..0], fees) == Ok(items[..0]) && ItemsTotal(items[..0]) == 0
  {
  }

  lemma NoFloors(charge: nat, total: nat)
    requires total > 0
    ensures FloorShares([], charge, total) == 0
  {
  }

  lemma FloorStep(items: seq<Item>, charge: nat, total: nat, k: nat)
    requires total > 0 && k < |items|
    ensures FloorShares(items[..k + 1], charge, total) == FloorShares(items[..k], charge, total) + FloorShare(items[k], charge, total)
  {
    assert items[..k + 1][..k] == items[..k];
  }
}
