/** Failure values of the Fundlock program and the result types that carry them.

    The program's own error codes are grouped as in its error enums
    (access control, token validator, fundlock, ledger). The remaining
    constructors stand for failures raised by the account framework, the
    token program or the Rust runtime before or around the handler body. */
module Errors {

  datatype Error =
    // access control
    | UnauthorizedAdmin
    | InvalidRole
    | LastMember
    | NoRole
    // token validator
    | NonFungibleToken
    | TokenNotWhitelisted
    // fundlock
    | AmountZero
    | InsufficientFunds
    | WithdrawalLimitReached
    | InvalidIndex
    | ReleaseLockActive
    | InsufficientFundsInVault
    | InvalidAccountsAmount
    | AccountOrderViolated
    // ledger
    | EmptyFundMovementArray
    | EmptyAmountsArray
    // an account the instruction reads does not exist
    | AccountNotInitialized
    // an account the instruction creates with `init` already exists
    | AccountAlreadyInUse
    // a `constraint = ...` on an account without a custom error failed
    | ConstraintRaw
    // the token program refused a transfer: the source holds too little
    | TokenInsufficientFunds
    // the program aborted: index out of bounds, integer overflow, `expect` on an error
    | Panic

  /** Outcome of an instruction: the new value, or the error that aborted it
      (an aborted instruction changes nothing). */
  datatype Result<+T> = Ok(value: T) | Err(error: Error) {
    predicate IsFailure() {
      Err?
    }

    function PropagateFailure<U>(): Result<U>
      requires Err?
    {
      Err(error)
    }

    function Extract(): T
      requires Ok?
    {
      value
    }
  }

  datatype Option<+T> = None | Some(value: T)

  /** Outcome of a validation step that produces no value. */
  datatype Check = Pass | Fail(error: Error)
}
