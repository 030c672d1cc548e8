/** Outcome of an action: a new value, or the `check` that aborted it. */
module Outcomes {

  /** The `check`s of the modelled actions, one constructor per message. */
  datatype Check =
    // celes.token transfers
    | TransferToSelf
    | TransferNotPositive
    | Overdrawn
    // REX funds, orders and balances
    | AmountNotPositive
    | FundTransferNotPositive
    | FundMissing
    | FundInsufficient
    | VotingRequirement
    | NoRexBalance
    | InsufficientMaturedRex
    | NegligibleProceeds
    | B1OrderQueued
    | OrdersExceedMaturedRex
    | NoSellOrder
    | OrderAlreadyFilled
    | InsufficientRex
    | InsufficientSavings
    | RemainingRex
    // REX loans
    | RexNotInitialized
    | LoansNotAvailable
    | LoanPriceUnfavorable
    | LoanNotFound
    | NotLoanCreator
    | LoanExpired
    | LoanBalanceInsufficient
    // bandwidth
    | NothingToStake
    | StakeNotPositive
    | OppositeSigns
    | TransferFlagToSelf
    | DelegationMissing
    | StakedNetInsufficient
    | StakedCpuInsufficient
    | TotalNetInsufficient
    | TotalCpuInsufficient
    | RefundMissing
    | RefundTooEarly
    // RAM
    | RamNotReserved
    | NoResourceRow
    | RamQuotaExceeded
    | RamProceedsTooLow
    | RamOnlyIncreases
    | RamUnrealistic
    | RamBelowReserved
    // the chain's clock
    | ClockOutOfRange
    // checks that the source says cannot fail
    | LogicErrorResourceLimits
    | LogicErrorMoveToSavings
    | ProgrammerErrorMoveToSavings
    | LendablePoolEmpty
    | UnlentNegative
    | RefundNegative
    | RamStakeNegative
    | DivisionByZero

  datatype Result<+T> = Ok(value: T) | Abort(check: Check) {
    predicate IsFailure() {
      Abort?
    }

    function PropagateFailure<U>(): Result<U>
      requires Abort?
    {
      Abort(check)
    }

    function Extract(): T
      requires Ok?
    {
      value
    }
  }

  datatype Option<+T> = None | Some(value: T)
}
