/** What every account keeps, from its opening through any run of adjustments and payments. */
module LedgerSafety {
  import opened Common
  import opened Ledger

  /** The booking's totals are the totals of its rows. */
  ghost predicate TotalsOk(a: Account) {
    && a.items != [] && (forall k :: 0 <= k < |a.items| ==> a.items[k].itemTotal >= 0)
    && a.subtotal + a.totalFees == ItemsTotal(a.items) + ChargesTotal(a.charges)
    && a.grandTotal == a.subtotal + a.totalFees + a.shippingFee + a.totalDeposit - a.discount
    && a.totalFees >= 0 && a.grandTotal >= 0 && a.totalDeposit >= 0
  }

  predicate ProperPayment(p: Payment) {
    p.rental + p.deposit == p.amount && p.deposit >= 0 && p.amount >= 0
  }

  ghost predicate PaymentsOk(a: Account) {
    && (forall k :: 0 <= k < |a.payments| ==> ProperPayment(a.payments[k]))
    && a.totalPaid == Verified(a.payments)
    && a.paymentStatus == StatusFor(a.totalPaid, a.grandTotal)
  }

  /** A shipment has one collected payment once its remittance says so, and none before. */
  ghost predicate CollectionsOk(a: Account) {
    forall s: nat :: Collections(a.payments, s) == if s in a.remittances && a.remittances[s].payment.Some? then 1 else 0
  }

  ghost predicate Balanced(a: Account) {
    TotalsOk(a) && PaymentsOk(a) && CollectionsOk(a)
  }

  // ------------------------------------------------------------------ Sums

  lemma {:induction false} SummaryAddsUp(items: seq<Item>)
    ensures SubtotalOf(items) + FeesTotal(items) == ItemsTotal(items)
  {
    if items != [] { SummaryAddsUp(items[..|items| - 1]); }
  }

  lemma {:induction false} ItemsTotalWith(items: seq<Item>, k: nat, i: Item)
    requires k < |items|
    ensures ItemsTotal(items[k := i]) == ItemsTotal(items) - items[k].itemTotal + i.itemTotal
  {
    var n := |items| - 1;
    if k == n {
      assert items[k := i][..n] == items[..n];
    } else {
      assert items[k := i][..n] == items[..n][k := i];
      ItemsTotalWith(items[..n], k, i);
    }
  }

  lemma PaymentAdded(payments: seq<Payment>, p: Payment)
    ensures Verified(payments + [p]) == Verified(payments) + if p.status == VERIFIED then p.amount else 0
    ensures VerifiedDeposits(payments + [p]) == VerifiedDeposits(payments) + if p.status == VERIFIED then p.deposit else 0
    ensures forall s: nat :: Collections(payments + [p], s) == Collections(payments, s) + if p.via == Courier(s) then 1 else 0
  {
    assert (payments + [p])[..|payments|] == payments;
  }

  lemma {:induction false} PaymentReviewed(payments: seq<Payment>, k: nat, status: TransactionStatus)
    requires k < |payments| && payments[k].status == PENDING
    ensures var next := payments[k := payments[k].(status := status)];
            && Verified(next) == Verified(payments) + (if status == VERIFIED then payments[k].amount else 0)
            && VerifiedDeposits(next) == VerifiedDeposits(payments) + (if status == VERIFIED then payments[k].deposit else 0)
            && forall s: nat :: Collections(next, s) == Collections(payments, s)
  {
    var n := |payments| - 1;
    var next := payments[k := payments[k].(status := status)];
    if k == n {
      assert next[..n] == payments[..n];
    } else {
      assert next[..n] == payments[..n][k := payments[k].(status := status)];
      PaymentReviewed(payments[..n], k, status);
    }
  }

  lemma {:induction false} VerifiedNonNegative(payments: seq<Payment>)
    requires forall k :: 0 <= k < |payments| ==> ProperPayment(payments[k])
    ensures Verified(payments) >= 0 && VerifiedDeposits(payments) >= 0
  {
    if payments != [] { VerifiedNonNegative(payments[..|payments| - 1]); }
  }

  // ------------------------------------------------------------------ Opening

  lemma DiscountInRange(discount: Option<Discount>, s: Summary)
    requires s.subtotal + s.totalFees + s.shippingFee >= 0 && DiscountAmount(discount, s).Ok?
    ensures 0 <= DiscountAmount(discount, s).value <= s.subtotal + s.totalFees + s.shippingFee
  {
    if discount.Some? && discount.value.Percentage? {
      PercentInRange(s.subtotal + s.totalFees + s.shippingFee, discount.value.value);
    }
  }

  lemma PercentInRange(amount: int, percent: nat)
    requires amount >= 0 && percent <= 100
    ensures 0 <= PercentOf(amount, percent) <= amount
    ensures 100 * (PercentOf(amount, percent) - 1) < amount * percent <= 100 * PercentOf(amount, percent)
  {
    var x := amount * percent;
    assert -amount * percent == -x;
    assert 0 <= x <= amount * 100;
    assert PercentOf(amount, percent) == -(-x / 100);
  }

  lemma {:induction false} ItemsTotalNonNegative(items: seq<Item>)
    requires forall k :: 0 <= k < |items| ==> items[k].itemTotal >= 0
    ensures ItemsTotal(items) >= 0
  {
    if items != [] { ItemsTotalNonNegative(items[..|items| - 1]); }
  }

  lemma OpenedBalanced(items: seq<Item>, discount: Option<Discount>, terms: Terms)
    requires Opened(items, discount, terms).Ok?
    ensures var a := Opened(items, discount, terms).value;
            Balanced(a) && a.totalPaid == 0 && VerifiedDeposits(a.payments) == 0
  {
    OpenedTotals(items, discount, terms);
    OpenedPayments(items, discount, terms);
    hide Opened, TotalsOk, PaymentsOk, CollectionsOk;
  }

  lemma OpenedTotals(items: seq<Item>, discount: Option<Discount>, terms: Terms)
    requires Opened(items, discount, terms).Ok?
    ensures TotalsOk(Opened(items, discount, terms).value)
  {
    hide DiscountAmount, ItemsTotal, FeesTotal, DepositsTotal, SubtotalOf, LargestShipping;
    assert ChargesTotal([]) == 0;
    SummaryAddsUp(items);
    ItemsTotalNonNegative(items);
    DiscountInRange(discount, Summarize(items));
  }

  lemma OpenedPayments(items: seq<Item>, discount: Option<Discount>, terms: Terms)
    requires Opened(items, discount, terms).Ok? && TotalsOk(Opened(items, discount, terms).value)
    ensures var a := Opened(items, discount, terms).value;
            PaymentsOk(a) && CollectionsOk(a) && a.totalPaid == 0 && VerifiedDeposits(a.payments) == 0
  {
    hide DiscountAmount, Summarize, ItemsTotal, FeesTotal;
    var a := Opened(items, discount, terms).value;
    assert Verified([]) == 0 && VerifiedDeposits([]) == 0;
    if terms == Claimed {
      assert a.payments == [] + [a.payments[0]];
      PaymentAdded([], a.payments[0]);
    }
  }

  lemma InitialBalanced(a: Account, p: InitialPayment)
    requires Balanced(a) && a.totalPaid == 0 && VerifiedDeposits(a.payments) == 0
    requires WithInitial(a, p).Ok?
    ensures var b := WithInitial(a, p).value; Balanced(b) && VerifiedDeposits(b.payments) <= b.totalDeposit
  {
    PaymentAdded(a.payments, Payment(p.amount, p.amount - p.deposit, p.deposit, VERIFIED, Desk));
  }

  /** Every booking starts out balanced, with no more deposit allocated than it takes. */
  lemma OpenBalanced(items: seq<Item>, discount: Option<Discount>, terms: Terms, initial: Option<InitialPayment>)
    requires Open(items, discount, terms, initial).Ok?
    ensures Balanced(Open(items, discount, terms, initial).value)
    ensures var a := Open(items, discount, terms, initial).value; VerifiedDeposits(a.payments) <= a.totalDeposit
  {
    hide Opened, WithInitial;
    OpenedBalanced(items, discount, terms);
    if initial.Some? {
      InitialBalanced(Opened(items, discount, terms).value, initial.value);
    }
  }

  // ------------------------------------------------------------------ Late fees

  /** A late fee changes an item's total and its fee by the same amount, and nothing else about the money. */
  lemma LateItemMoves(i: Item, f: LateFee)
    requires i.itemTotal >= 0 && LateItem(i, f).Ok?
    ensures var j := LateItem(i, f).value;
            && j.itemTotal - j.lateFee == i.itemTotal - i.lateFee && j.itemTotal >= 0
            && j.lateDays == f.days && j.lateFee == f.fee
  {
  }

  lemma {:induction false} LateItemsMove(items: seq<Item>, fees: seq<LateFee>)
    requires (forall k :: 0 <= k < |items| ==> items[k].itemTotal >= 0) && LateItems(items, fees).Ok?
    ensures var next := LateItems(items, fees).value;
            && |next| == |items|
            && forall k :: 0 <= k < |items| ==>
                 && next[k].itemTotal >= 0 && next[k].itemTotal - next[k].lateFee == items[k].itemTotal - items[k].lateFee
                 && next[k].lateDays == FeeAt(fees, k).days && next[k].lateFee == FeeAt(fees, k).fee
  {
    if items != [] {
      var n := |items| - 1;
      LateItemsMove(items[..n], fees);
      LateItemMoves(items[n], FeeAt(fees, n));
    }
  }

  lemma LateFeesBalanced(a: Account, fees: seq<LateFee>)
    requires Balanced(a) && LateFees(a, fees).Ok?
    ensures Balanced(LateFees(a, fees).value)
  {
    LateItemsMove(a.items, fees);
  }

  lemma {:induction false} LateItemsForget(items: seq<Item>, first: seq<LateFee>, second: seq<LateFee>)
    requires (forall k :: 0 <= k < |items| ==> items[k].itemTotal >= 0) && LateItems(items, first).Ok?
    ensures LateItems(LateItems(items, first).value, second) == LateItems(items, second)
  {
    if items != [] {
      var n := |items| - 1;
      LateItemsForget(items[..n], first, second);
      LateItemsMove(items, first);
      var next := LateItems(items, first).value;
      assert |LateItems(items[..n], first).value| == n by { LateItemsMove(items[..n], first); }
      assert next[..n] == LateItems(items[..n], first).value;
      LateItemMoves(items[n], FeeAt(first, n));
    }
  }

  /** Only the last calculation counts: whatever was calculated before leaves no trace, not even in a refusal. */
  lemma LateFeesForget(a: Account, first: seq<LateFee>, second: seq<LateFee>)
    requires Balanced(a) && LateFees(a, first).Ok?
    ensures LateFees(LateFees(a, first).value, second) == LateFees(a, second)
  {
    hide LateItems, WithFeeDelta, Balanced, ItemsTotal;
    LateFeesBalanced(a, first);
    BalancedItems(a);
    LateItemsForget(a.items, first, second);
    var b := LateFees(a, first).value;
    LateFeesItems(a, first);
    if LateItems(a.items, second).Ok? {
      FeeDeltasCompose(a, b, LateItems(a.items, second).value);
    }
  }

  lemma BalancedItems(a: Account)
    requires Balanced(a)
    ensures forall k :: 0 <= k < |a.items| ==> a.items[k].itemTotal >= 0
  {
  }

  lemma LateFeesItems(a: Account, fees: seq<LateFee>)
    requires LateFees(a, fees).Ok?
    ensures LateItems(a.items, fees) == Ok(LateFees(a, fees).value.items)
  {
    hide LateItems;
  }

  lemma FeeDeltasCompose(a: Account, b: Account, items: seq<Item>)
    requires Balanced(a) && Balanced(b) && WithFeeDelta(a, b.items, ItemsTotal(b.items) - ItemsTotal(a.items)) == Ok(b)
    ensures WithFeeDelta(b, items, ItemsTotal(items) - ItemsTotal(b.items)) == WithFeeDelta(a, items, ItemsTotal(items) - ItemsTotal(a.items))
  {
    hide ItemsTotal, ChargesTotal, Verified, CollectionsOk, ProperPayment;
  }

  // ------------------------------------------------------------------ Extension charges

  lemma FloorBounds(i: Item, charge: nat, total: nat)
    requires total > 0
    ensures total * FloorShare(i, charge, total) <= charge * Weight(i) < total * FloorShare(i, charge, total) + total
    ensures FloorShare(i, charge, total) >= 0
  {
  }

  lemma Distribute(x: int, y: int, z: int)
    ensures x * (y + z) == x * y + x * z
  {
  }

  /** One more rounded-down share, with the products spelled out. */
  lemma AddBounds(charge: int, total: int, floors: int, weights: int, n: int, share: int, weight: int)
    requires total * floors <= charge * weights <= total * floors + n * (total - 1)
    requires total * share <= charge * weight < total * share + total
    ensures total * (floors + share) <= charge * (weights + weight) <= total * (floors + share) + (n + 1) * (total - 1)
  {
    Distribute(total, floors, share);
    Distribute(charge, weights, weight);
    Distribute(total - 1, n, 1);
  }

  /** The rounded-down shares of some items fall short of their exact proportions by less than one each. */
  lemma {:induction false} FloorSharesBounds(items: seq<Item>, charge: nat, total: nat)
    requires total > 0
    ensures total * FloorShares(items, charge, total) <= charge * WeightTotal(items)
    ensures charge * WeightTotal(items) <= total * FloorShares(items, charge, total) + |items| * (total - 1)
  {
    hide FloorShare, Weight;
    if items != [] {
      var n := |items| - 1;
      FloorSharesBounds(items[..n], charge, total);
      FloorBounds(items[n], charge, total);
      AddBounds(charge, total, FloorShares(items[..n], charge, total), WeightTotal(items[..n]), n,
                FloorShare(items[n], charge, total), Weight(items[n]));
    }
  }

  /** What is left for the last item, with the products spelled out. */
  lemma RestBounds(charge: int, total: int, floors: int, weights: int, n: int, weight: int)
    requires total == weights + weight && total > 0 && charge >= 0 && weight >= 0
    requires total * floors <= charge * weights <= total * floors + n * (total - 1)
    ensures charge * weight <= total * (charge - floors) <= charge * weight + n * (total - 1)
    ensures charge - floors >= 0
  {
    Distribute(charge, weights, weight);
    Distribute(total, charge - floors, floors);
    assert total * charge == charge * total;
    if charge - floors < 0 {
      NegativeProduct(total, charge - floors);
      NonNegativeProduct(charge, weight);
    }
  }

  lemma NegativeProduct(x: int, y: int)
    requires x > 0 && y < 0
    ensures x * y < 0
  {
  }

  lemma NonNegativeProduct(x: int, y: int)
    requires x >= 0 && y >= 0
    ensures x * y >= 0
  {
  }

  lemma LastShare(items: seq<Item>, charge: nat)
    requires items != [] && WeightTotal(items) > 0
    ensures var n, total := |items| - 1, WeightTotal(items);
            var share, exact := Share(items, charge, n), charge * Weight(items[n]);
            share >= 0 && exact <= total * share <= exact + n * (total - 1)
  {
    hide FloorShare, Weight;
    var n, total := |items| - 1, WeightTotal(items);
    FloorSharesBounds(items[..n], charge, total);
    RestBounds(charge, total, FloorShares(items[..n], charge, total), WeightTotal(items[..n]), n, Weight(items[n]));
  }

  /** A share that is not the last is its exact proportion, rounded down. */
  lemma EarlierShare(items: seq<Item>, charge: nat, k: nat)
    requires k < |items| - 1
    ensures WeightTotal(items) > 0
    ensures var total, share, exact := WeightTotal(items), Share(items, charge, k), charge * Weight(items[k]);
            share >= 0 && total * share <= exact < total * (share + 1)
  {
    WeightPositive(items);
    var total := WeightTotal(items);
    FloorBounds(items[k], charge, total);
    hide FloorShare, Weight, WeightTotal;
    Distribute(total, Share(items, charge, k), 1);
  }

  lemma OnlyShare(items: seq<Item>, charge: nat)
    requires |items| == 1 && WeightTotal(items) > 0
    ensures Share(items, charge, 0) == charge
  {
  }

  lemma FewRemainders(n: nat, total: nat)
    requires n > 0 && total > 0
    ensures n * (total - 1) < n * total
  {
    Distribute(n, total, -1);
  }

  /**
   With at least one item, every share is non-negative. The last one takes up all the
   remainders: it exceeds its exact proportion by less than one for each other item.
   */
  lemma SharesAreFair(items: seq<Item>, charge: nat)
    requires items != []
    ensures WeightTotal(items) > 0
    ensures forall k :: 0 <= k < |items| ==> Share(items, charge, k) >= 0
    ensures forall k :: 0 <= k < |items| - 1 ==>
              WeightTotal(items) * Share(items, charge, k) <= charge * Weight(items[k]) < WeightTotal(items) * (Share(items, charge, k) + 1)
    ensures var n, total := |items| - 1, WeightTotal(items);
            var share, exact := Share(items, charge, n), charge * Weight(items[n]);
            && exact <= total * share
            && (if n == 0 then share == charge else total * share < exact + n * total)
  {
    hide FloorShare, FloorShares, Weight, WeightTotal;
    WeightPositive(items);
    LastShare(items, charge);
    var n, total := |items| - 1, WeightTotal(items);
    if n == 0 { OnlyShare(items, charge); } else { FewRemainders(n, total); }
    hide Share;
    forall k | 0 <= k < n
      ensures Share(items, charge, k) >= 0
      ensures total * Share(items, charge, k) <= charge * Weight(items[k]) < total * (Share(items, charge, k) + 1)
    {
      EarlierShare(items, charge, k);
    }
  }

  /** The item totals grow by exactly the charge. */
  lemma {:induction false} ExtendedTotals(items: seq<Item>, next: seq<Item>, charge: nat, total: nat)
    requires |next| == |items| && total > 0
    requires forall k :: 0 <= k < |items| ==> next[k].itemTotal == items[k].itemTotal + FloorShare(items[k], charge, total)
    ensures ItemsTotal(next) == ItemsTotal(items) + FloorShares(items, charge, total)
  {
    if items != [] { ExtendedTotals(items[..|items| - 1], next[..|next| - 1], charge, total); }
  }

  lemma ApportionmentConserves(items: seq<Item>, end: int, charge: nat)
    requires items != []
    ensures ItemsTotal(ExtendItems(items, end, charge)) == ItemsTotal(items) + charge
  {
    WeightPositive(items);
    var n := |items| - 1;
    var next := ExtendItems(items, end, charge);
    ExtendedTotals(items[..n], next[..n], charge, WeightTotal(items));
  }

  /** With no items there is nobody to charge: then only a free extension conserves. */
  lemma ApportionmentConservesIff(items: seq<Item>, end: int, charge: nat)
    ensures ItemsTotal(ExtendItems(items, end, charge)) == ItemsTotal(items) + charge <==> items != [] || charge == 0
  {
    if items != [] { ApportionmentConserves(items, end, charge); }
  }

  lemma ExtendBalanced(a: Account, end: int, charge: nat)
    requires Balanced(a)
    ensures Balanced(Extend(a, end, charge))
  {
    ApportionmentConserves(a.items, end, charge);
    var b := Extend(a, end, charge);
    forall k | 0 <= k < |a.items| ensures |b.items| == |a.items| && b.items[k].itemTotal >= 0 {
      SharesAreFair(a.items, charge);
    }
  }

  // ------------------------------------------------------------------ The other steps

  lemma SubstituteBalanced(a: Account, k: nat, impact: int)
    requires Balanced(a) && Substitute(a, k, impact).Ok?
    ensures Balanced(Substitute(a, k, impact).value)
  {
    var i := a.items[k];
    ItemsTotalWith(a.items, k, i.(adjustment := i.adjustment + impact, itemTotal := i.itemTotal + impact));
  }

  lemma SettleBalanced(a: Account, charge: nat)
    requires Balanced(a)
    ensures Balanced(Settle(a, charge))
  {
    assert (a.charges + [charge])[..|a.charges|] == a.charges;
  }

  lemma PayBalanced(a: Account, amount: nat, deposit: nat)
    requires Balanced(a) && Pay(a, amount, deposit).Ok?
    ensures Balanced(Pay(a, amount, deposit).value)
  {
    PaymentAdded(a.payments, Payment(amount, amount - deposit, deposit, VERIFIED, Desk));
  }

  lemma ReviewBalanced(a: Account, p: nat, approve: bool)
    requires Balanced(a) && Review(a, p, approve).Ok?
    ensures Balanced(Review(a, p, approve).value)
  {
    PaymentReviewed(a.payments, p, if approve then VERIFIED else FAILED);
  }

  lemma SessionBalanced(a: Account)
    requires Balanced(a) && OpenSession(a).Ok?
    ensures Balanced(OpenSession(a).value)
  {
    PaymentAdded(a.payments, OpenSession(a).value.payments[|a.payments|]);
  }

  lemma ConfirmBalanced(a: Account, p: nat, valid: bool)
    requires Balanced(a) && Confirm(a, p, valid).Ok?
    ensures Balanced(Confirm(a, p, valid).value)
  {
    PaymentReviewed(a.payments, p, if valid then VERIFIED else FAILED);
  }

  lemma CollectBalanced(a: Account, s: nat)
    requires Balanced(a)
    ensures Balanced(Collect(a, s))
  {
    VerifiedNonNegative(a.payments);
    if Collect(a, s) != a {
      PaymentAdded(a.payments, Collect(a, s).payments[|a.payments|]);
    }
  }

  /** Every step keeps the account balanced. */
  lemma NextBalanced(a: Account, step: Step)
    requires Balanced(a)
    ensures Balanced(Next(a, step))
  {
    hide Balanced, LateFees, Extend, Substitute, Settle, Pay, Review, OpenSession, Confirm, Collect;
    if Apply(a, step).Ok? {
      match step
      case LateFeeStep(fees) => LateFeesBalanced(a, fees);
      case ExtendStep(end, charge) => ExtendBalanced(a, end, charge);
      case SubstituteStep(k, impact) => SubstituteBalanced(a, k, impact);
      case SettleStep(charge) => SettleBalanced(a, charge);
      case PayStep(amount, deposit) => PayBalanced(a, amount, deposit);
      case ReviewStep(p, approve) => ReviewBalanced(a, p, approve);
      case SessionStep => SessionBalanced(a);
      case ConfirmStep(p, valid) => ConfirmBalanced(a, p, valid);
      case DispatchStep(s, cod) => DispatchBalanced(a, s, cod);
      case CollectStep(s) => CollectBalanced(a, s);
    }
  }

  lemma DispatchBalanced(a: Account, s: nat, cod: nat)
    requires Balanced(a) && Dispatch(a, s, cod).Ok?
    ensures Balanced(Dispatch(a, s, cod).value)
  {
  }

  lemma {:induction false} RunBalanced(a: Account, steps: seq<Step>)
    requires Balanced(a)
    ensures Balanced(Run(a, steps))
  {
    hide Balanced;
    if steps != [] {
      RunBalanced(a, steps[..|steps| - 1]);
      NextBalanced(Run(a, steps[..|steps| - 1]), steps[|steps| - 1]);
    }
  }

  /** The ledger, over every run from every opening. */
  lemma LedgerHolds(items: seq<Item>, discount: Option<Discount>, terms: Terms, initial: Option<InitialPayment>, steps: seq<Step>)
    requires Open(items, discount, terms, initial).Ok?
    ensures var a := Run(Open(items, discount, terms, initial).value, steps);
            && a.subtotal + a.totalFees == ItemsTotal(a.items) + ChargesTotal(a.charges)
            && a.grandTotal == a.subtotal + a.totalFees + a.shippingFee + a.totalDeposit - a.discount
            && a.totalPaid == Verified(a.payments) && a.paymentStatus == StatusFor(a.totalPaid, a.grandTotal)
            && (forall k :: 0 <= k < |a.payments| ==> a.payments[k].rental + a.payments[k].deposit == a.payments[k].amount)
            && (forall s: nat :: Collections(a.payments, s) <= 1)
  {
    hide Open, Run;
    OpenBalanced(items, discount, terms, initial);
    RunBalanced(Open(items, discount, terms, initial).value, steps);
  }

  // ------------------------------------------------------------------ Deposits

  predicate DepositsWithin(a: Account) {
    VerifiedDeposits(a.payments) <= a.totalDeposit
  }

  predicate Collected(a: Account, s: nat) {
    s in a.remittances && a.remittances[s].payment.Some?
  }

  /** Steps that adjust totals or dispatch parcels touch neither payments nor collections. */
  lemma TotalsKeepPayments(a: Account, step: Step)
    requires !step.PayStep? && !step.ReviewStep? && !step.SessionStep? && !step.ConfirmStep? && !step.CollectStep?
    ensures Next(a, step).payments == a.payments && Next(a, step).totalDeposit == a.totalDeposit
    ensures forall s: nat | Collected(a, s) :: Collected(Next(a, step), s)
  {
    hide LateItems, ExtendItems, StatusFor, ItemsTotal;
  }

  /** The pending payment that a step verifies: a claim that is approved, or a session that is confirmed. */
  function VerifiesPending(a: Account, step: Step): Option<nat> {
    if Apply(a, step).Refused? then None
    else if step.ReviewStep? && step.approve then Some(step.payment)
    else if step.ConfirmStep? && step.valid then Some(step.session)
    else None
  }

  /** The deposit that a pending payment names is still uncollected when the payment is verified. */
  predicate DepositHasRoom(a: Account, step: Step) {
    var p := VerifiesPending(a, step);
    p.Some? && p.value < |a.payments| ==> a.payments[p.value].deposit <= a.totalDeposit - VerifiedDeposits(a.payments)
  }

  /** What a step adds to the verified deposits: what a recorded payment, a collection or a verified payment names. */
  lemma DepositsMove(a: Account, step: Step)
    requires Balanced(a)
    ensures Next(a, step).totalDeposit == a.totalDeposit
    ensures VerifiedDeposits(Next(a, step).payments) >= VerifiedDeposits(a.payments)
    ensures match VerifiesPending(a, step)
            case Some(p) => p < |a.payments|
                            && VerifiedDeposits(Next(a, step).payments) == VerifiedDeposits(a.payments) + a.payments[p].deposit
            case None => DepositsWithin(a) ==> DepositsWithin(Next(a, step))
  {
    if step.PayStep? || step.CollectStep? || step.SessionStep? {
      AddedDeposits(a, step);
    } else if step.ReviewStep? || step.ConfirmStep? {
      ReviewedDeposits(a, step);
    } else {
      TotalsKeepPayments(a, step);
      hide Next, Balanced, LateFees, Extend, Substitute, Settle, Dispatch;
    }
  }

  lemma AddedDeposits(a: Account, step: Step)
    requires Balanced(a) && (step.PayStep? || step.CollectStep? || step.SessionStep?)
    ensures var b := Next(a, step);
            && b.totalDeposit == a.totalDeposit && VerifiedDeposits(b.payments) >= VerifiedDeposits(a.payments)
            && (DepositsWithin(a) ==> DepositsWithin(b))
  {
    hide StatusFor, TotalsOk, CollectionsOk;
    var b := Next(a, step);
    if b != a {
      assert b.payments == a.payments + [b.payments[|a.payments|]];
      PaymentAdded(a.payments, b.payments[|a.payments|]);
    }
  }

  lemma ReviewedDeposits(a: Account, step: Step)
    requires Balanced(a) && (step.ReviewStep? || step.ConfirmStep?)
    ensures Next(a, step).totalDeposit == a.totalDeposit
    ensures match VerifiesPending(a, step)
            case Some(p) => && p < |a.payments| && a.payments[p].deposit >= 0
                            && VerifiedDeposits(Next(a, step).payments) == VerifiedDeposits(a.payments) + a.payments[p].deposit
            case None => VerifiedDeposits(Next(a, step).payments) == VerifiedDeposits(a.payments)
  {
    hide StatusFor, TotalsOk, CollectionsOk, Verified, VerifiedDeposits;
    if Apply(a, step).Ok? {
      var p := if step.ReviewStep? then step.payment else step.session;
      var good := if step.ReviewStep? then step.approve else step.valid;
      PaymentReviewed(a.payments, p, if good then VERIFIED else FAILED);
    }
  }

  /** A step keeps within the deposits exactly when the pending payment it verifies, if any, finds room. */
  lemma NextDepositsIff(a: Account, step: Step)
    requires Balanced(a) && DepositsWithin(a)
    ensures DepositsWithin(Next(a, step)) <==> DepositHasRoom(a, step)
  {
    DepositsMove(a, step);
    hide Next, VerifiesPending, Balanced;
  }

  /** Every pending payment that the run verifies finds room for the deposit it names. */
  predicate DepositsAlwaysFit(a: Account, steps: seq<Step>) {
    steps != [] ==>
      && DepositsAlwaysFit(a, steps[..|steps| - 1])
      && DepositHasRoom(Run(a, steps[..|steps| - 1]), steps[|steps| - 1])
  }

  /**
   Over any run the verified payments allocate no more deposit than the booking takes, exactly
   when this held each time a claim was approved or a session confirmed. What is allocated once
   is never taken back, so one such payment too many is never made good.
   */
  lemma {:induction false} RunDepositsIff(a: Account, steps: seq<Step>)
    requires Balanced(a) && DepositsWithin(a)
    ensures DepositsWithin(Run(a, steps)) <==> DepositsAlwaysFit(a, steps)
  {
    hide Next, Balanced, DepositHasRoom;
    if steps != [] {
      var before := Run(a, steps[..|steps| - 1]);
      RunDepositsIff(a, steps[..|steps| - 1]);
      RunBalanced(a, steps[..|steps| - 1]);
      if DepositsWithin(before) {
        NextDepositsIff(before, steps[|steps| - 1]);
      } else {
        DepositsMove(before, steps[|steps| - 1]);
      }
    }
  }

  /** Approving a claim keeps within the deposits exactly when its deposit is still uncollected. */
  lemma ApprovalDepositsIff(a: Account, p: nat)
    requires Balanced(a) && Review(a, p, true).Ok?
    ensures DepositsWithin(Review(a, p, true).value) <==> a.payments[p].deposit <= a.totalDeposit - VerifiedDeposits(a.payments)
  {
    PaymentReviewed(a.payments, p, VERIFIED);
  }

  /**
   So does the gateway's confirmation of a session. It does not look at the balance either:
   it overpays the booking exactly when less is due by then than when the session was opened.
   */
  lemma ConfirmationIff(a: Account, p: nat)
    requires Balanced(a) && Confirm(a, p, true).Ok?
    ensures var b := Confirm(a, p, true).value;
            && (DepositsWithin(b) <==> a.payments[p].deposit <= a.totalDeposit - VerifiedDeposits(a.payments))
            && (b.totalPaid > a.grandTotal <==> a.payments[p].amount > a.grandTotal - a.totalPaid)
  {
    PaymentReviewed(a.payments, p, VERIFIED);
  }

  /** A recorded payment never overpays: not the booking, not its deposits, not its rental charges. */
  lemma PayStaysWithin(a: Account, amount: nat, deposit: nat)
    requires Balanced(a) && Pay(a, amount, deposit).Ok?
    ensures var b := Pay(a, amount, deposit).value;
            && b.totalPaid == a.totalPaid + amount <= b.grandTotal
            && VerifiedDeposits(b.payments) <= b.totalDeposit
            && Verified(b.payments) - VerifiedDeposits(b.payments) <= b.grandTotal - b.totalDeposit
  {
    PaymentAdded(a.payments, Payment(amount, amount - deposit, deposit, VERIFIED, Desk));
  }

  /** A cash collection overpays the booking exactly when it was dispatched for more than is due by now. */
  lemma CollectionOverpaysIff(a: Account, s: nat)
    requires Balanced(a) && s in a.remittances && a.remittances[s].expected > 0 && !Collected(a, s)
    ensures Collect(a, s).totalPaid > a.grandTotal <==> a.remittances[s].expected > a.grandTotal - a.totalPaid
  {
    FirstCollection(a, s);
  }

  // ------------------------------------------------------------------ Cash on delivery

  lemma CollectedStays(a: Account, step: Step, s: nat)
    requires Collected(a, s)
    ensures Collected(Next(a, step), s)
  {
    hide LateFees, Extend, Substitute, Settle, Dispatch, StatusFor, Verified, VerifiedDeposits;
    if !step.PayStep? && !step.ReviewStep? && !step.SessionStep? && !step.ConfirmStep? && !step.CollectStep? {
      TotalsKeepPayments(a, step);
      hide Next;
    }
  }

  /** However often a delivery is reported, and whatever happens in between, it is paid for once. */
  lemma {:induction false} CollectedOnce(a: Account, steps: seq<Step>, s: nat)
    requires Balanced(a) && Collected(a, s)
    ensures var b := Run(a, steps); Collected(b, s) && Collect(b, s) == b && Collections(b.payments, s) == 1
  {
    RunBalanced(a, steps);
    CollectedForever(a, steps, s);
    hide Run;
  }

  lemma {:induction false} CollectedForever(a: Account, steps: seq<Step>, s: nat)
    requires Collected(a, s)
    ensures Collected(Run(a, steps), s)
  {
    hide Next;
    if steps != [] {
      CollectedForever(a, steps[..|steps| - 1], s);
      CollectedStays(Run(a, steps[..|steps| - 1]), steps[|steps| - 1], s);
    }
  }

  /** The first collection pays the expected amount: uncollected deposits first, the rest as rental. */
  lemma FirstCollection(a: Account, s: nat)
    requires Balanced(a) && s in a.remittances && a.remittances[s].expected > 0 && !Collected(a, s)
    ensures var b := Collect(a, s);
            && Collected(b, s) && |b.payments| == |a.payments| + 1
            && b.totalPaid == a.totalPaid + a.remittances[s].expected && b.paymentStatus == StatusFor(b.totalPaid, b.grandTotal)
            && (DepositsWithin(a) ==> DepositsWithin(b))
            && (b.payments[|a.payments|].rental > 0 ==> VerifiedDeposits(b.payments) >= b.totalDeposit)
  {
    CollectBalanced(a, s);
    PaymentAdded(a.payments, Collect(a, s).payments[|a.payments|]);
  }

  /** A claim and a deposit payment, with an extension in between, allocate the deposit twice. */
  lemma ClaimAllocatesTwice(i: Item) returns (steps: seq<Step>)
    requires i.itemTotal == 60 && i.depositAmount == 40 && Fees(i) == 0 && i.shippingFee == 0
    ensures Open([i], None, Claimed, None).Ok? && !DepositsWithin(Run(Open([i], None, Claimed, None).value, steps))
  {
    var s1, s2, s3 := ExtendStep(i.end + 1, 100), PayStep(50, 40), ReviewStep(0, true);
    steps := [s1, s2, s3];
    OneItem(i);
    var a := Open([i], None, Claimed, None).value;
    var b, c := Next(a, s1), Next(Next(a, s1), s2);
    ExtendedClaim(a, i.end + 1);
    hide Open, ExtendItems;
    PaymentsAfterClaim(b);
    hide Next, DepositsWithin;
    RunOfThree(a, s1, s2, s3);
  }

  lemma ExtendedClaim(a: Account, end: int)
    requires a.grandTotal == 100 && a.totalDeposit == 40 && a.payments == [Payment(100, 60, 40, PENDING, Claim)]
    ensures var b := Next(a, ExtendStep(end, 100));
            b.grandTotal == 200 && b.totalDeposit == 40 && b.payments == a.payments
  {
    hide ExtendItems, StatusFor;
  }

  /** The deposit is paid, and then the claim that also names it is approved. */
  lemma PaymentsAfterClaim(b: Account)
    requires b.grandTotal == 200 && b.totalDeposit == 40 && b.payments == [Payment(100, 60, 40, PENDING, Claim)]
    ensures !DepositsWithin(Next(Next(b, PayStep(50, 40)), ReviewStep(0, true)))
  {
    hide StatusFor;
    PaymentAdded([], b.payments[0]);
    assert [] + [b.payments[0]] == b.payments;
    PaymentAdded(b.payments, Payment(50, 10, 40, VERIFIED, Desk));
    PaymentReviewed(Next(b, PayStep(50, 40)).payments, 0, VERIFIED);
  }

  lemma RunOfThree(a: Account, s1: Step, s2: Step, s3: Step)
    ensures Run(a, [s1, s2, s3]) == Next(Next(Next(a, s1), s2), s3)
  {
    hide Next;
    assert [s1, s2, s3][..2] == [s1, s2] && [s1, s2][..1] == [s1] && [s1][..0] == [];
    assert Run(a, []) == a;
    assert Run(a, [s1]) == Next(a, s1);
    assert Run(a, [s1, s2]) == Next(Next(a, s1), s2);
  }

  lemma OneItem(i: Item)
    requires i.itemTotal == 60 && i.depositAmount == 40 && Fees(i) == 0 && i.shippingFee == 0
    ensures Summarize([i]) == Summary(60, 0, 40, 0, 100)
  {
    var none: seq<Item> := [];
    assert [i][..|[i]| - 1] == none;
    assert ItemsTotal([i]) == ItemsTotal(none) + 60 && DepositsTotal([i]) == DepositsTotal(none) + 40;
    assert SubtotalOf([i]) == SubtotalOf(none) + 60 && FeesTotal([i]) == FeesTotal(none) + 0;
    assert LargestShipping([i]) == 0;
  }

  /** An online session and a cash payment while it is pending: both take the deposit. */
  lemma SessionAllocatesTwice(i: Item) returns (steps: seq<Step>)
    requires i.itemTotal == 60 && i.depositAmount == 40 && Fees(i) == 0 && i.shippingFee == 0
    ensures Open([i], None, Online, None).Ok?
    ensures var a := Run(Open([i], None, Online, None).value, steps); !DepositsWithin(a) && a.totalPaid > a.grandTotal
  {
    var s1, s2, s3 := SessionStep, PayStep(50, 40), ConfirmStep(0, true);
    steps := [s1, s2, s3];
    OneItem(i);
    var a := Open([i], None, Online, None).value;
    SessionOpened(a);
    hide Open;
    SessionConfirmed(Next(a, s1));
    hide Next, DepositsWithin;
    RunOfThree(a, s1, s2, s3);
  }

  lemma SessionOpened(a: Account)
    requires a.grandTotal == 100 && a.totalDeposit == 40 && a.payments == [] && a.online
    ensures Next(a, SessionStep) == a.(payments := [Payment(100, 60, 40, PENDING, Gateway)])
  {
  }

  lemma SessionConfirmed(b: Account)
    requires b.grandTotal == 100 && b.totalDeposit == 40 && b.payments == [Payment(100, 60, 40, PENDING, Gateway)]
    ensures var c := Next(Next(b, PayStep(50, 40)), ConfirmStep(0, true)); !DepositsWithin(c) && c.totalPaid > c.grandTotal
  {
    hide StatusFor;
    PaymentAdded([], b.payments[0]);
    assert [] + [b.payments[0]] == b.payments;
    PaymentAdded(b.payments, Payment(50, 10, 40, VERIFIED, Desk));
    PaymentReviewed(Next(b, PayStep(50, 40)).payments, 0, VERIFIED);
  }

  /** A parcel dispatched for all that is due, half of it paid meanwhile: the courier collects too much. */
  lemma CollectionOverpays(i: Item) returns (steps: seq<Step>)
    requires i.itemTotal == 60 && i.depositAmount == 40 && Fees(i) == 0 && i.shippingFee == 0
    ensures Open([i], None, Later, None).Ok?
    ensures var a := Run(Open([i], None, Later, None).value, steps); a.totalPaid == 150 && a.grandTotal == 100
  {
    var s1, s2, s3 := DispatchStep(7, 100), PayStep(50, 40), CollectStep(7);
    steps := [s1, s2, s3];
    OneItem(i);
    var a := Open([i], None, Later, None).value;
    ParcelDispatched(a);
    hide Open;
    ParcelCollected(Next(a, s1));
    hide Next;
    RunOfThree(a, s1, s2, s3);
  }

  lemma ParcelDispatched(a: Account)
    requires a.grandTotal == 100 && a.totalPaid == 0 && a.remittances == map[]
    ensures Next(a, DispatchStep(7, 100)) == a.(remittances := map[7 := Remittance(100, None)])
  {
  }

  lemma ParcelCollected(b: Account)
    requires b.grandTotal == 100 && b.totalDeposit == 40 && b.payments == [] && b.remittances == map[7 := Remittance(100, None)]
    ensures var c := Next(Next(b, PayStep(50, 40)), CollectStep(7)); c.totalPaid == 150 && c.grandTotal == 100
  {
    hide StatusFor;
    PaymentAdded([], Payment(50, 10, 40, VERIFIED, Desk));
    assert [] + [Payment(50, 10, 40, VERIFIED, Desk)] == [Payment(50, 10, 40, VERIFIED, Desk)];
  }
}
