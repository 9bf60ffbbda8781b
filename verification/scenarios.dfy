/** A worked example, in cents. */
module Scenarios {
  import opened Common
  import opened Models
  import opened Forms
  import opened Store
  import opened Signals
  import opened Views
  import opened Divergences

  /** The two-wallet store of the example: wallet 0 is `a`, wallet 1 is `b`,
      and nothing has happened yet. */
  function Pair(a: Wallet, b: Wallet): Store {
    Store(map[0 := a, 1 := b], [], [], [])
  }

  /** User 1, owning wallet 0 with 1,000,000 INR, transferring 50,000 INR to
      wallet 1 of user 2, which holds none, leaves wallet 0 at 900,000 and
      wallet 1 at 100,000, while the two ledger rows record 50,000 each. */
  lemma TransferScenario(a: Wallet, b: Wallet)
    requires a.user == 1 && b.user == 2 && a.currency == "INR" && b.currency == "INR"
    requires a.balance == 100000000 && b.balance == 0
    ensures TransferRequest(Pair(a, b), 1, 0, Some(1), 5000000, "", 0).Ok?
    ensures var r := TransferRequest(Pair(a, b), 1, 0, Some(1), 5000000, "", 0).value;
      && r.wallets[0].balance == 90000000
      && r.wallets[1].balance == 10000000
      && r.ledger[0].amount == 5000000 && r.ledger[1].amount == 5000000
      && !BooksKept(Pair(a, b), r)
  {
    TransferScenarioCommits(a, b);
    TransferScenarioOutcome(Pair(a, b));
  }

  /** The example's request passes every check and commits an immediate
      transfer with nothing to convert. */
  lemma TransferScenarioCommits(a: Wallet, b: Wallet)
    requires a.user == 1 && b.user == 2 && a.currency == "INR" && b.currency == "INR"
    requires a.balance == 100000000 && b.balance == 0
    ensures TransferRequest(Pair(a, b), 1, 0, Some(1), 5000000, "", 0)
         == Ok(TransferNow(Pair(a, b), 0, 1, 5000000, 5000000, "", 0))
  {
    assert 0 in SourceChoices(Pair(a, b).wallets, 1);
    assert ConvertedAmount(a, b, 5000000) == 5000000;
  }

  /** What the example's immediate transfer leaves, in any store where
      the two wallets hold those balances. */
  lemma TransferScenarioOutcome(s: Store)
    requires WellFormed(s) && 0 in s.wallets && 1 in s.wallets
    requires s.wallets[0].balance == 100000000 && s.wallets[1].balance == 0 && s.ledger == []
    ensures var r := TransferNow(s, 0, 1, 5000000, 5000000, "", 0);
      && r.wallets[0].balance == 90000000
      && r.wallets[1].balance == 10000000
      && r.ledger[0].amount == 5000000 && r.ledger[1].amount == 5000000
      && !BooksKept(s, r)
  {
    TransferNowAmounts(s, 0, 1, 5000000, 5000000, "", 0);
    TransferAppliedTwice(s, 0, 1, 5000000, 5000000, "", 0);
  }

  /** The two balances and the two row amounts of an immediate transfer. */
  lemma TransferNowAmounts(s: Store, wid: WalletId, tid: WalletId, amount: Cents, c: Cents, note: string, now: Time)
    requires WellFormed(s) && wid in s.wallets && tid in s.wallets && wid != tid
    ensures var r := TransferNow(s, wid, tid, amount, c, note, now);
      var credited := if c != 0 then c else amount;
      && r.wallets[wid].balance == s.wallets[wid].balance - 2 * amount
      && r.wallets[tid].balance == s.wallets[tid].balance + credited + c
      && |r.ledger| == |s.ledger| + 2
      && r.ledger[|s.ledger|].amount == amount && r.ledger[|s.ledger| + 1].amount == credited
  {
  }
}
