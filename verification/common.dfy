/** Shared vocabulary of the wallet model: optional values, request
    results, identifiers and the engine's amount constants.

    Every money field of the wallet schema is a decimal with two places, so
    amounts are held here as whole cents (hundredths of a currency unit). */
module Common {

  /** An absent or present value (a nullable column, a missing form field). */
  datatype Option<T> = None | Some(value: T)

  /** Amounts in cents. */
  type Cents = int

  /** Timestamps in whole seconds. */
  type Time = int

  type UserId = nat
  type WalletId = nat

  /** Transactions are numbered by their position in the store. */
  type TxId = nat

  /** Amounts above this need a manager's approval (100000 units). */
  const TransactionThreshold: Cents := 100000 * 100

  /** The high-value fraud limit (500000 units); the handler, the approval
      view and the risk predicate all compare against this number, but not
      with the same comparison. */
  const FraudAmountLimit: Cents := 500000 * 100

  /** How a request ends when it does not commit. */
  datatype Failure =
    | FormInvalid(fields: set<Field>)   // the form reported errors on these fields
    | InsufficientBalance               // the view's own balance check refused
    | NotFound                          // no PENDING transaction with that id (HTTP 404)
    | Forbidden                         // the requester is not a manager
    | ServerError                       // an uncaught exception rolled the request back
    | IntegrityError                    // a row violated a NOT NULL constraint

  /** Form fields that errors attach to. */
  datatype Field = WalletField | TargetField | AmountField | AccountNumberField

  datatype Result<T> = Ok(value: T) | Err(failure: Failure)
}
