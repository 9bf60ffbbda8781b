/** The request forms' own validation: which wallets a user may pick, and
    the cross-field checks that add errors to the amount, target and
    account-number fields. Field-level parsing (required fields, decimal
    digits) happens before these and is not modelled. */
module Forms {
  import opened Common
  import opened Models

  /** The wallets offered as source of a deposit, withdrawal or transfer:
      those the requesting user owns. */
  function SourceChoices(wallets: map<WalletId, Wallet>, user: UserId): (r: set<WalletId>)
    ensures forall k :: k in r <==> k in wallets && wallets[k].user == user
  {
    set k | k in wallets && wallets[k].user == user
  }

  /** The transfer target choices: wallets not owned by the user, joined
      with the user's own. */
  function TargetChoices(wallets: map<WalletId, Wallet>, user: UserId): set<WalletId> {
    (wallets.Keys - SourceChoices(wallets, user)) + SourceChoices(wallets, user)
  }

  /** The union covers every wallet, so any wallet at all may be a target,
      the source itself included (the clean step, not the choices, refuses
      that one). */
  lemma TargetChoicesAreAllWallets(wallets: map<WalletId, Wallet>, user: UserId)
    ensures TargetChoices(wallets, user) == wallets.Keys
  {
  }

  /** The source's balance check, as both forms write it: only when a wallet
      and a non-zero amount were parsed, and against the full balance (held
      funds are not deducted). */
  predicate ShortOfFunds(wallet: Option<Wallet>, amount: Option<Cents>) {
    wallet.Some? && amount.Some? && amount.value != 0 && wallet.value.balance < amount.value
  }

  /** The withdrawal form's errors. */
  function WithdrawClean(wallet: Option<Wallet>, amount: Option<Cents>): (errors: set<Field>)
    ensures errors <= {AmountField}
    ensures AmountField in errors <==> ShortOfFunds(wallet, amount)
  {
    if ShortOfFunds(wallet, amount) then {AmountField} else {}
  }

  /** The transfer form's errors. Wallets come with their ids, since the
      same-wallet check compares ids. */
  function TransferClean(wallet: Option<(WalletId, Wallet)>, target: Option<(WalletId, Wallet)>,
                         amount: Option<Cents>): (errors: set<Field>)
    ensures errors <= {TargetField, AmountField}
    ensures TargetField in errors <==> wallet.Some? && target.Some? && wallet.value.0 == target.value.0
    ensures AmountField in errors <==>
      ShortOfFunds(if wallet.Some? then Some(wallet.value.1) else None, amount)
  {
    var same := if wallet.Some? && target.Some? && wallet.value.0 == target.value.0 then {TargetField} else {};
    var short := if ShortOfFunds(if wallet.Some? then Some(wallet.value.1) else None, amount)
      then {AmountField} else {};
    // a cross-currency pair is deliberately let through
    same + short
  }

  /** All the errors of a transfer form. A source the user does not own
      and a target id naming no wallet are refused by their choice fields,
      and the clean step then runs on the fields that survived. */
  function TransferFormErrors(wallets: map<WalletId, Wallet>, user: UserId, wid: WalletId,
                              target: Option<WalletId>, amount: Cents): (errors: set<Field>)
    ensures errors <= {WalletField, TargetField, AmountField}
    ensures WalletField in errors <==> wid !in SourceChoices(wallets, user)
    ensures TargetField in errors <==>
      || (target.Some? && target.value !in wallets)
      || (wid in SourceChoices(wallets, user) && target == Some(wid))
    ensures AmountField in errors <==>
      wid in SourceChoices(wallets, user) && amount != 0 && wallets[wid].balance < amount
  {
    TargetChoicesAreAllWallets(wallets, user);
    var src := if wid in SourceChoices(wallets, user) then Some((wid, wallets[wid])) else None;
    var tgt := if target.Some? && target.value in TargetChoices(wallets, user)
      then Some((target.value, wallets[target.value])) else None;
    (if src.None? then {WalletField} else {}) +
    (if target.Some? && tgt.None? then {TargetField} else {}) +
    TransferClean(src, tgt, Some(amount))
  }

  /** Currencies play no part in the transfer form: with distinct wallets
      and enough balance it reports nothing, whatever the two currencies,
      and its amount check is the withdrawal form's. */
  lemma TransferCleanIgnoresCurrency(sid: WalletId, w: Wallet, tid: WalletId, t: Wallet, amount: Cents)
    requires sid != tid && w.currency != t.currency && w.balance >= amount
    ensures TransferClean(Some((sid, w)), Some((tid, t)), Some(amount)) == {}
    ensures (AmountField in TransferClean(Some((sid, w)), Some((tid, t)), Some(amount)))
        == (AmountField in WithdrawClean(Some(w), Some(amount)))
  {
  }

  /** The registration roles a user may choose. */
  datatype RegisterRole = RegisterUser | RegisterManager

  datatype Registration = Registration(errors: set<Field>, accountNumber: Option<string>)

  /** The registration form's clean step: users must give an account number;
      managers have theirs cleared. */
  function RegisterClean(role: Option<RegisterRole>, accountNumber: Option<string>): (r: Registration)
    ensures r.errors <= {AccountNumberField}
    ensures AccountNumberField in r.errors <==>
      role == Some(RegisterUser) && (accountNumber.None? || accountNumber.value == [])
    ensures role == Some(RegisterManager) ==> r.accountNumber.None?
    ensures role != Some(RegisterManager) ==> r.accountNumber == accountNumber
  {
    var missing := role == Some(RegisterUser) && (accountNumber == None || accountNumber == Some([]));
    Registration(if missing then {AccountNumberField} else {},
                 if role == Some(RegisterManager) then None else accountNumber)
  }

  /** A user registration that passes carries a non-empty account number;
      a manager registration always passes and carries none. */
  lemma RegistrationOutcome(role: RegisterRole, accountNumber: Option<string>)
    ensures role == RegisterUser && RegisterClean(Some(role), accountNumber).errors == {} ==>
      RegisterClean(Some(role), accountNumber).accountNumber.Some? &&
      RegisterClean(Some(role), accountNumber).accountNumber.value != []
    ensures role == RegisterManager ==>
      RegisterClean(Some(role), accountNumber) == Registration({}, None)
  {
  }
}
