/**
 When a booking is overpaid. Recorded payments and approved claims look at what is due; cash
 collections and gateway confirmations do not, and late-fee recalculations and substitution
 credits can take the total below what was paid.
 */
module LedgerDue {
  import opened Common
  import opened Ledger
  import opened LedgerSafety

  function Due(a: Account): int {
    a.grandTotal - a.totalPaid
  }

  predicate NotOverpaid(a: Account) {
    a.totalPaid <= a.grandTotal
  }

  /** How much the new late fees exceed the old ones, over all items. */
  function FeeChange(items: seq<Item>, fees: seq<LateFee>): int {
    if items == [] then 0
    else
      var n := |items| - 1;
      FeeChange(items[..n], fees) + FeeAt(fees, n).fee - items[n].lateFee
  }

  lemma {:induction false} LateItemsChange(items: seq<Item>, fees: seq<LateFee>)
    requires LateItems(items, fees).Ok?
    ensures ItemsTotal(LateItems(items, fees).value) == ItemsTotal(items) + FeeChange(items, fees)
  {
    if items != [] {
      var n := |items| - 1;
      LateItemsChange(items[..n], fees);
      var done := LateItems(items[..n], fees).value;
      assert LateItems(items, fees).value[..|done|] == done;
    }
  }

  /** What a step takes off the balance is still due when it is carried out. */
  predicate WithinDue(a: Account, step: Step) {
    match step
    case LateFeeStep(fees) => LateFees(a, fees).Ok? ==> -FeeChange(a.items, fees) <= Due(a)
    case SubstituteStep(k, impact) => Substitute(a, k, impact).Ok? ==> -impact <= Due(a)
    case ConfirmStep(p, valid) => valid && Confirm(a, p, valid).Ok? ==> a.payments[p].amount <= Due(a)
    case CollectStep(s) => s in a.remittances && !Collected(a, s) ==> a.remittances[s].expected <= Due(a)
    case _ => true
  }

  lemma LateFeesWithinIff(a: Account, fees: seq<LateFee>)
    requires LateFees(a, fees).Ok?
    ensures Due(LateFees(a, fees).value) == Due(a) + FeeChange(a.items, fees)
  {
    hide LateItems, ItemsTotal, FeeChange;
    LateFeesItems(a, fees);
    LateItemsChange(a.items, fees);
  }

  /** Steps that look at what is due, that only add to it, or that leave it alone. */
  lemma GuardedStaysWithin(a: Account, step: Step)
    requires Balanced(a) && NotOverpaid(a)
    requires step.ExtendStep? || step.SettleStep? || step.PayStep? || step.ReviewStep? || step.SessionStep? || step.DispatchStep?
    ensures NotOverpaid(Next(a, step))
  {
    hide TotalsOk, CollectionsOk, Verified, VerifiedDeposits, ExtendItems, StatusFor;
  }

  /** Unguarded steps move the balance by exactly what they add, and are safe exactly while that is due. */
  lemma UnguardedWithinIff(a: Account, step: Step)
    requires Balanced(a) && NotOverpaid(a) && (step.SubstituteStep? || step.ConfirmStep? || step.CollectStep?)
    ensures NotOverpaid(Next(a, step)) <==> WithinDue(a, step)
  {
    hide TotalsOk, CollectionsOk, StatusFor;
    match step
    case ConfirmStep(p, valid) =>
      if Confirm(a, p, valid).Ok? { PaymentReviewed(a.payments, p, if valid then VERIFIED else FAILED); }
    case _ =>
  }

  /** A step leaves the booking within its total exactly when it takes no more off the balance than is due. */
  lemma NextDueIff(a: Account, step: Step)
    requires Balanced(a) && NotOverpaid(a)
    ensures NotOverpaid(Next(a, step)) <==> WithinDue(a, step)
  {
    if step.LateFeeStep? {
      hide Balanced, FeeChange, LateFees;
      if LateFees(a, step.fees).Ok? { LateFeesWithinIff(a, step.fees); }
    } else if step.SubstituteStep? || step.ConfirmStep? || step.CollectStep? {
      UnguardedWithinIff(a, step);
    } else {
      GuardedStaysWithin(a, step);
      hide Balanced, Next, NotOverpaid;
    }
  }

  /** In every state that the run passes through the booking is not overpaid. */
  predicate NeverOverpaid(a: Account, steps: seq<Step>) {
    NotOverpaid(Run(a, steps)) && (steps != [] ==> NeverOverpaid(a, steps[..|steps| - 1]))
  }

  /** Every step of the run takes no more off the balance than is due. */
  predicate AlwaysWithinDue(a: Account, steps: seq<Step>) {
    steps != [] ==>
      AlwaysWithinDue(a, steps[..|steps| - 1]) && WithinDue(Run(a, steps[..|steps| - 1]), steps[|steps| - 1])
  }

  /** A new booking is not overpaid, whatever its initial payment. */
  lemma OpenNotOverpaid(items: seq<Item>, discount: Option<Discount>, terms: Terms, initial: Option<InitialPayment>)
    requires Open(items, discount, terms, initial).Ok?
    ensures Balanced(Open(items, discount, terms, initial).value) && NotOverpaid(Open(items, discount, terms, initial).value)
  {
    OpenBalanced(items, discount, terms, initial);
    hide PaymentsOk, CollectionsOk, Summarize, DiscountAmount;
  }

  lemma {:induction false} RunDueIff(a: Account, steps: seq<Step>)
    requires Balanced(a) && NotOverpaid(a)
    ensures NeverOverpaid(a, steps) <==> AlwaysWithinDue(a, steps)
  {
    hide Next, Balanced, WithinDue, NotOverpaid;
    if steps != [] {
      var before := Run(a, steps[..|steps| - 1]);
      RunDueIff(a, steps[..|steps| - 1]);
      RunBalanced(a, steps[..|steps| - 1]);
      if NeverOverpaid(a, steps[..|steps| - 1]) { NextDueIff(before, steps[|steps| - 1]); }
    }
  }

  /**
   From its opening on a booking is never overpaid, exactly when every collection, every
   confirmation, every late-fee recalculation and every substitution credit stays within
   what is due by then. All other steps are safe by themselves.
   */
  lemma NeverOverpaidIff(items: seq<Item>, discount: Option<Discount>, terms: Terms, initial: Option<InitialPayment>, steps: seq<Step>)
    requires Open(items, discount, terms, initial).Ok?
    ensures var a := Open(items, discount, terms, initial).value; NeverOverpaid(a, steps) <==> AlwaysWithinDue(a, steps)
  {
    hide Open, NeverOverpaid, AlwaysWithinDue, Balanced, NotOverpaid;
    OpenNotOverpaid(items, discount, terms, initial);
    RunDueIff(Open(items, discount, terms, initial).value, steps);
  }
}
