/** The persistent state the engine works on: the wallet table, the
    transaction table (a transaction's id is its position), the ledger in
    insertion order and the fraud log; the integrity conditions the engine
    is meant to keep; and the sums those conditions are stated with. */
module Store {
  import opened Common
  import opened Models

  datatype Store = Store(
    wallets: map<WalletId, Wallet>,
    txs: seq<Transaction>,
    ledger: seq<LedgerEntry>,
    frauds: seq<FraudLog>)

  // ---------------------------------------------------------------------
  // Row writes

  function PutWallet(s: Store, id: WalletId, w: Wallet): Store {
    s.(wallets := s.wallets[id := w])
  }

  function AppendTx(s: Store, t: Transaction): Store {
    s.(txs := s.txs + [t])
  }

  function SetTx(s: Store, id: TxId, t: Transaction): Store
    requires id < |s.txs|
  {
    s.(txs := s.txs[id := t])
  }

  function AddEntry(s: Store, e: LedgerEntry): Store {
    s.(ledger := s.ledger + [e])
  }

  /** An unconditional insert into the fraud log. */
  function AddFlag(s: Store, f: FraudLog): Store {
    s.(frauds := s.frauds + [f])
  }

  /** Writing a wallet a second time replaces the first write. */
  lemma RewriteOne(m: map<WalletId, Wallet>, a: WalletId, x: Wallet, x2: Wallet)
    ensures m[a := x][a := x2] == m[a := x2]
  {
  }

  /** Writing two wallets a second time replaces the first writes. */
  lemma RewriteTwo(m: map<WalletId, Wallet>, a: WalletId, b: WalletId, x: Wallet, y: Wallet, x2: Wallet, y2: Wallet)
    requires a != b
    ensures m[a := x][b := y][a := x2][b := y2] == m[a := x2][b := y2]
  {
  }

  /** Whether any ledger row belongs to transaction `id`. */
  predicate HasLedger(ledger: seq<LedgerEntry>, id: TxId) {
    exists i :: 0 <= i < |ledger| && ledger[i].tx == id
  }

  // ---------------------------------------------------------------------
  // Integrity

  predicate TxRefs(wallets: map<WalletId, Wallet>, t: Transaction) {
    t.wallet in wallets && (t.target.Some? ==> t.target.value in wallets)
  }

  /** Every foreign key resolves. */
  predicate WellFormed(s: Store) {
    && (forall i :: 0 <= i < |s.txs| ==> TxRefs(s.wallets, s.txs[i]))
    && (forall i :: 0 <= i < |s.ledger| ==> s.ledger[i].tx < |s.txs| && s.ledger[i].wallet in s.wallets)
    && (forall i :: 0 <= i < |s.frauds| ==> s.frauds[i].tx < |s.txs|)
  }

  /** What a request leaves behind when it parks a transaction: a positive
      amount and, for a transfer, a distinct target and a non-negative
      converted amount. */
  predicate PendingShaped(t: Transaction) {
    t.status == Pending ==>
      && t.amount > 0
      && (t.kind == Transfer ==>
            t.target.Some? && t.target.value != t.wallet && t.converted.Some? && t.converted.value >= 0)
  }

  /** The hold a transaction places on wallet `w`: its amount on the source
      and, for a transfer, its converted amount on the target, while it is
      pending. */
  function Hold(t: Transaction, w: WalletId): Cents {
    if t.status != Pending then 0
    else
      (if t.wallet == w then t.amount else 0) +
      (if t.kind == Transfer && t.target == Some(w) && t.converted.Some? then t.converted.value else 0)
  }

  /** The sum of the holds of all transactions on `w`. */
  function Holds(txs: seq<Transaction>, w: WalletId): Cents
    decreases |txs|
  {
    if |txs| == 0 then 0 else Holds(txs[..|txs| - 1], w) + Hold(txs[|txs| - 1], w)
  }

  /** Hold conservation: each wallet's frozen amount is exactly what its
      pending transactions hold. */
  predicate HoldsConserved(s: Store) {
    forall k :: k in s.wallets ==> s.wallets[k].frozen == Holds(s.txs, k)
  }

  /** No two fraud flags share (user, transaction, reason). */
  predicate FlagsDistinct(frauds: seq<FraudLog>) {
    forall i, j :: 0 <= i < j < |frauds| ==> FlagKey(frauds[i]) != FlagKey(frauds[j])
  }

  /** The approval view's own flag only sits on resolved transactions. */
  predicate ApprovalFlagsSettled(s: Store) {
    forall i :: 0 <= i < |s.frauds| && s.frauds[i].reason == WithdrawAboveLimit ==>
      s.frauds[i].tx < |s.txs| && s.txs[s.frauds[i].tx].status != Pending
  }

  /** The engine's invariant. */
  predicate Valid(s: Store) {
    && WellFormed(s)
    && (forall i :: 0 <= i < |s.txs| ==> PendingShaped(s.txs[i]))
    && HoldsConserved(s)
    && FlagsDistinct(s.frauds)
    && ApprovalFlagsSettled(s)
  }

  /** Freshly opened wallets with nothing held and no history satisfy the
      invariant. */
  lemma InitialValid(wallets: map<WalletId, Wallet>)
    requires forall k :: k in wallets ==> wallets[k].frozen == 0
    ensures Valid(Store(wallets, [], [], []))
  {
  }

  // ---------------------------------------------------------------------
  // Facts about holds

  lemma HoldsAppend(txs: seq<Transaction>, t: Transaction, w: WalletId)
    ensures Holds(txs + [t], w) == Holds(txs, w) + Hold(t, w)
  {
    assert (txs + [t])[..|txs|] == txs;
  }

  /** Replacing one transaction changes the sum by the change of its hold. */
  lemma {:induction false} HoldsUpdate(txs: seq<Transaction>, i: nat, t: Transaction, w: WalletId)
    requires i < |txs|
    ensures Holds(txs[i := t], w) == Holds(txs, w) - Hold(txs[i], w) + Hold(t, w)
    decreases |txs|
  {
    var n := |txs| - 1;
    if i < n {
      assert txs[i := t][..n] == txs[..n][i := t];
      HoldsUpdate(txs[..n], i, t, w);
    } else {
      assert txs[i := t][..n] == txs[..n];
    }
  }

  /** With every hold non-negative, the sum covers each single hold. */
  lemma {:induction false} HoldsCover(txs: seq<Transaction>, i: nat, w: WalletId)
    requires i < |txs|
    requires forall j :: 0 <= j < |txs| ==> PendingShaped(txs[j])
    ensures Holds(txs, w) >= Hold(txs[i], w)
    decreases |txs|
  {
    var n := |txs| - 1;
    HoldsNonNegative(txs[..n], w);
    if i < n {
      HoldsCover(txs[..n], i, w);
    }
  }

  lemma {:induction false} HoldsNonNegative(txs: seq<Transaction>, w: WalletId)
    requires forall j :: 0 <= j < |txs| ==> PendingShaped(txs[j])
    ensures Holds(txs, w) >= 0
    decreases |txs|
  {
    if |txs| > 0 {
      HoldsNonNegative(txs[..|txs| - 1], w);
    }
  }

  /** Under the invariant no wallet ever holds a negative amount. */
  lemma FrozenNonNegative(s: Store, k: WalletId)
    requires Valid(s) && k in s.wallets
    ensures s.wallets[k].frozen >= 0
  {
    HoldsNonNegative(s.txs, k);
  }

  // ---------------------------------------------------------------------
  // Ledger replay

  function Signed(e: LedgerEntry): Cents {
    if e.kind == Credit then e.amount else -e.amount
  }

  /** The signed sum of the ledger entries of wallet `w`, in order. */
  function Replay(ledger: seq<LedgerEntry>, w: WalletId): Cents
    decreases |ledger|
  {
    if |ledger| == 0 then 0
    else Replay(ledger[..|ledger| - 1], w) + (if ledger[|ledger| - 1].wallet == w then Signed(ledger[|ledger| - 1]) else 0)
  }

  lemma ReplayAppend(ledger: seq<LedgerEntry>, e: LedgerEntry, w: WalletId)
    ensures Replay(ledger + [e], w) == Replay(ledger, w) + (if e.wallet == w then Signed(e) else 0)
  {
    assert (ledger + [e])[..|ledger|] == ledger;
  }

  /** A step from `s` to `t` keeps the books when every wallet's balance
      moved by exactly the signed sum of the ledger entries it added. */
  predicate BooksKept(s: Store, t: Store) {
    && s.wallets.Keys <= t.wallets.Keys
    && forall k :: k in s.wallets ==>
         t.wallets[k].balance - s.wallets[k].balance == Replay(t.ledger, k) - Replay(s.ledger, k)
  }

  /** Books are kept from `base` when replaying the ledger on top of the
      base balances gives the current balances. */
  predicate Reconciled(base: map<WalletId, Cents>, s: Store) {
    && base.Keys == s.wallets.Keys
    && forall k :: k in s.wallets ==> s.wallets[k].balance == base[k] + Replay(s.ledger, k)
  }

  /** Steps that keep the books keep a reconciled store reconciled. */
  lemma ReconciledStep(base: map<WalletId, Cents>, s: Store, t: Store)
    requires Reconciled(base, s) && BooksKept(s, t) && t.wallets.Keys == s.wallets.Keys
    ensures Reconciled(base, t)
  {
  }
}
