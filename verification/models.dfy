/** The records of the wallet schema and the small pieces of behaviour that
    live on them: the hold arithmetic on a wallet, account-number
    assignment on save, the currency display name and the risk predicate. */
module Models {
  import opened Common

  datatype TxType = Deposit | Withdraw | Transfer
  datatype Status = Pending | Approved | Rejected
  datatype EntryType = Credit | Debit
  datatype Role = UserRole | ManagerRole | AdminRole

  /** A user, reduced to what the engine consults. */
  datatype User = User(id: UserId, role: Role)

  /** The manager capability the approval views test. */
  predicate IsManager(u: User) {
    u.role == ManagerRole
  }

  /** Reference data: a currency code and its display name. */
  datatype Currency = Currency(code: string, name: string)

  /** A wallet row. `currency` is the currency's code, which is unique, so
      two wallets share a currency exactly when their codes agree. */
  datatype Wallet = Wallet(
    user: UserId,
    currency: string,
    balance: Cents,
    frozen: Cents,
    isFrozen: bool,
    accountNumber: string)

  datatype Transaction = Transaction(
    wallet: WalletId,
    target: Option<WalletId>,
    kind: TxType,
    amount: Cents,
    converted: Option<Cents>,
    status: Status,
    createdAt: Time,
    processedAt: Option<Time>,
    approvedBy: Option<UserId>,
    note: string)

  datatype LedgerEntry = LedgerEntry(
    tx: TxId,
    wallet: WalletId,
    kind: EntryType,
    amount: Cents,
    balanceAfter: Cents,
    timestamp: Time)

  /** Why a fraud flag was raised. The source stores free text; each variant
      stands for one message template, and `Velocity` carries the count that
      its message embeds, so equal reasons are equal texts. */
  datatype Reason = HighValue | Velocity(count: nat) | WithdrawAboveLimit

  datatype FraudLog = FraudLog(user: UserId, tx: TxId, reason: Reason, flaggedAt: Time)

  /** The key a fraud flag is deduplicated on. */
  function FlagKey(f: FraudLog): (UserId, TxId, Reason) {
    (f.user, f.tx, f.reason)
  }

  // ---------------------------------------------------------------------
  // Currency

  /** The display names of the currency choices. */
  function DisplayName(code: string): (r: Option<string>)
    ensures r.Some? <==> code in {"INR", "USD", "EUR", "BTC"}
  {
    if code == "INR" then Some("Indian Rupee")
    else if code == "USD" then Some("US Dollar")
    else if code == "EUR" then Some("Euro")
    else if code == "BTC" then Some("Bitcoin")
    else None
  }

  /** Saving a currency fills an empty name from the code's display name,
      falling back to the code itself; a non-empty name is kept. */
  function SaveCurrency(c: Currency): (r: Currency)
    ensures r.code == c.code
    ensures c.name != [] ==> r.name == c.name
    ensures c.name == [] && c.code in {"INR", "USD", "EUR", "BTC"} ==> r.name == DisplayName(c.code).value
    ensures c.name == [] && c.code !in {"INR", "USD", "EUR", "BTC"} ==> r.name == c.code
  {
    if c.name != [] then c
    else
      match DisplayName(c.code)
      case Some(n) => c.(name := n)
      case None => c.(name := c.code)
  }

  /** Saving twice is saving once. */
  lemma SaveCurrencyIdempotent(c: Currency)
    ensures SaveCurrency(SaveCurrency(c)) == SaveCurrency(c)
  {
  }

  // ---------------------------------------------------------------------
  // Wallet

  /** Saving a wallet assigns `uuid` (a 16-digit identifier newly drawn by the
      caller) as account number when the wallet has none. */
  function SaveWallet(w: Wallet, uuid: string): (r: Wallet)
    ensures w.accountNumber != [] ==> r == w
    ensures w.accountNumber == [] ==> r == w.(accountNumber := uuid)
  {
    if w.accountNumber == [] then w.(accountNumber := uuid) else w
  }

  /** A run of saves, each offered its own newly drawn identifier. */
  function SaveAll(w: Wallet, uuids: seq<string>): Wallet
    decreases |uuids|
  {
    if |uuids| == 0 then w else SaveAll(SaveWallet(w, uuids[0]), uuids[1..])
  }

  /** Once a wallet has an account number, no number of later saves
      changes it. */
  lemma {:induction false} AccountNumberStable(w: Wallet, uuids: seq<string>)
    requires w.accountNumber != []
    ensures SaveAll(w, uuids) == w
    decreases |uuids|
  {
    if |uuids| > 0 {
      AccountNumberStable(SaveWallet(w, uuids[0]), uuids[1..]);
    }
  }

  /** The first save of a wallet without a number fixes the first drawn
      value for good. */
  lemma {:induction false} FirstSaveAssigns(w: Wallet, uuids: seq<string>)
    requires w.accountNumber == [] && |uuids| > 0 && uuids[0] != []
    ensures SaveAll(w, uuids).accountNumber == uuids[0]
  {
    AccountNumberStable(SaveWallet(w, uuids[0]), uuids[1..]);
  }

  /** Funds of the wallet that no pending request holds. */
  function AvailableBalance(w: Wallet): Cents {
    w.balance - w.frozen
  }

  /** Places a hold of `a` on the wallet. */
  function Freeze(w: Wallet, a: Cents): (r: Wallet)
    ensures r.frozen == w.frozen + a && r.isFrozen
    ensures r.balance == w.balance
    ensures AvailableBalance(r) == AvailableBalance(w) - a
    ensures r.user == w.user && r.currency == w.currency && r.accountNumber == w.accountNumber
  {
    w.(frozen := w.frozen + a, isFrozen := true)
  }

  /** Releases up to `a` of the wallet's hold, never below zero; the flag
      drops exactly when nothing stays held. */
  function Unfreeze(w: Wallet, a: Cents): (r: Wallet)
    ensures r.frozen >= 0
    ensures w.frozen - a >= 0 ==> r.frozen == w.frozen - a
    ensures w.frozen - a < 0 ==> r.frozen == 0
    ensures r.frozen == 0 ==> !r.isFrozen
    ensures r.frozen != 0 ==> r.isFrozen == w.isFrozen
    ensures r.balance == w.balance
    ensures r.user == w.user && r.currency == w.currency && r.accountNumber == w.accountNumber
  {
    var f := if w.frozen - a > 0 then w.frozen - a else 0;
    w.(frozen := f, isFrozen := if f == 0 then false else w.isFrozen)
  }

  /** Releasing a hold never frees more than was asked for, and frees
      exactly that when the wallet held at least as much. */
  lemma UnfreezeReleasesAtMost(w: Wallet, a: Cents)
    requires a >= 0
    ensures AvailableBalance(Unfreeze(w, a)) <= AvailableBalance(w) + a
    ensures w.frozen >= a ==> AvailableBalance(Unfreeze(w, a)) == AvailableBalance(w) + a
  {
  }

  /** Freezing and then unfreezing the same amount restores a
      non-negative hold, and leaves the flag saying whether anything is
      held. */
  lemma FreezeThenUnfreeze(w: Wallet, a: Cents)
    requires w.frozen >= 0
    ensures Unfreeze(Freeze(w, a), a).frozen == w.frozen
    ensures Unfreeze(Freeze(w, a), a).isFrozen == (w.frozen != 0)
    ensures Unfreeze(Freeze(w, a), a).balance == w.balance
  {
  }

  // ---------------------------------------------------------------------
  // Transaction

  /** A withdrawal strictly above the fraud limit. */
  predicate IsHighRisk(t: Transaction) {
    t.kind == Withdraw && t.amount > FraudAmountLimit
  }
}
