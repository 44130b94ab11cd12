/**
 * The money in the system, counted two ways: the sum of all wallet
 * balances, and the sum of the amounts of the deposits that still stand
 * (COMPLETED, not reversed). The store keeps the two equal.
 */
module Accounting {
  import opened Schema

  function BalanceAt(wallets: map<WalletId, Wallet>, id: WalletId): int {
    if id in wallets then wallets[id].balanceInCents else 0
  }

  /** Sum of the balances of the wallets whose id is below n. */
  function SumBalances(wallets: map<WalletId, Wallet>, n: nat): int {
    if n == 0 then 0 else SumBalances(wallets, n - 1) + BalanceAt(wallets, n - 1)
  }

  /** The money a transaction row has brought into the system. */
  function LiveDeposit(t: Transaction): int {
    if t.txType == Deposit && t.status == Completed then t.amountInCents else 0
  }

  function LiveDepositAt(txs: map<TxId, Transaction>, id: TxId): int {
    if id in txs then LiveDeposit(txs[id]) else 0
  }

  /** Sum of the standing deposits whose id is below n. */
  function LiveDeposits(txs: map<TxId, Transaction>, n: nat): int {
    if n == 0 then 0 else LiveDeposits(txs, n - 1) + LiveDepositAt(txs, n - 1)
  }

  /** Replacing one wallet changes the sum by the change of its balance, if it is counted at all. */
  lemma {:induction false} SumBalancesUpdate(wallets: map<WalletId, Wallet>, id: WalletId, w: Wallet, n: nat)
    ensures SumBalances(wallets[id := w], n)
         == SumBalances(wallets, n) + (if id < n then w.balanceInCents - BalanceAt(wallets, id) else 0)
  {
    if n > 0 {
      SumBalancesUpdate(wallets, id, w, n - 1);
    }
  }

  /** Replacing one transaction row changes the standing deposits by the change of its contribution. */
  lemma {:induction false} LiveDepositsUpdate(txs: map<TxId, Transaction>, id: TxId, t: Transaction, n: nat)
    ensures LiveDeposits(txs[id := t], n)
         == LiveDeposits(txs, n) + (if id < n then LiveDeposit(t) - LiveDepositAt(txs, id) else 0)
  {
    if n > 0 {
      LiveDepositsUpdate(txs, id, t, n - 1);
    }
  }

  /** Moving an amount from one wallet to a distinct one leaves the total unchanged. */
  lemma TransferConservesTotal(wallets: map<WalletId, Wallet>, s: WalletId, r: WalletId, amount: int, n: nat)
    requires s in wallets && r in wallets && s != r && s < n && r < n
    ensures var debited := wallets[s := Adjusted(wallets[s], -amount)];
            SumBalances(debited[r := Adjusted(wallets[r], amount)], n) == SumBalances(wallets, n)
  {
    var debited := wallets[s := Adjusted(wallets[s], -amount)];
    SumBalancesUpdate(wallets, s, debited[s], n);
    SumBalancesUpdate(debited, r, Adjusted(wallets[r], amount), n);
  }
}
