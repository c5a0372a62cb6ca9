/** When a process is killed: how many more file operations it performs. */
module Budgets {

  datatype Budget = Unlimited | Left(operations: nat)

  /** What one file operation leaves. */
  function Charge(b: Budget): Budget {
    match b
    case Unlimited => Unlimited
    case Left(operations) => if operations == 0 then b else Left(operations - 1)
  }

  /** A step drew on the budget. It is killed only when nothing is left, so a process without a limit never is. */
  predicate Draws(before: Budget, after: Budget, killed: bool) {
    && (killed ==> after == Left(0))
    && (after.Unlimited? <==> before.Unlimited?)
    && (before.Left? && after.Left? ==> after.operations <= before.operations)
  }
}
