/**
 * The three atomic steps of the wallet ledger (one store transaction each),
 * written as functions from the store before the step to the store after
 * it, with the rows they insert, and the proofs that each step keeps the
 * store invariant, moves exactly the money it should, and that a reversal
 * undoes the balance effect of the transaction it reverses.
 */
module Ledger {
  import opened Wrappers
  import opened Schema
  import opened Accounting
  import opened Store

  // ---------------------------------------------------------------------
  // Rows inserted by the steps
  // ---------------------------------------------------------------------

  function DepositRow(id: TxId, walletId: WalletId, amountInCents: int, after: int,
                      key: string, revertExpiresAt: int): Transaction
  {
    Transaction(id, Deposit, Completed, amountInCents, Some(after - amountInCents), Some(after),
                None, Some(walletId), NoDescription, key, Some(revertExpiresAt), None)
  }

  /** The before/after balances are the sender's. */
  function TransferRow(id: TxId, senderId: WalletId, receiverId: WalletId, amountInCents: int,
                       senderAfter: int, description: string, key: string, revertExpiresAt: int): Transaction
  {
    Transaction(id, Transfer, Completed, amountInCents, Some(senderAfter + amountInCents), Some(senderAfter),
                Some(senderId), Some(receiverId), Text(description), key, Some(revertExpiresAt), None)
  }

  /** The reversal of `o`: same amount, no balances, no expiry, linked to `o`.
      Its sender is `o`'s receiver whatever `o`'s type; its receiver is `o`'s
      sender for a transfer and nobody for a deposit. */
  function ReversalRow(id: TxId, o: Transaction, key: string): Transaction {
    Transaction(id, Reversal, Completed, o.amountInCents, None, None,
                o.receiverWalletId,
                if o.txType == Transfer then o.senderWalletId else None,
                ReversalOf(o.id), key, None, Some(o.id))
  }

  // ---------------------------------------------------------------------
  // The steps
  // ---------------------------------------------------------------------

  /** Store `row` under the next transaction id, with the wallet table now `wallets'`. */
  function Appended(t: Tables, wallets': map<WalletId, Wallet>, row: Transaction): Tables {
    t.(wallets := wallets', transactions := t.transactions[t.nextTxId := row], nextTxId := t.nextTxId + 1)
  }

  /** Credit a wallet and record the deposit. */
  function DepositApplied(t: Tables, w: WalletId, amountInCents: int, key: string, revertExpiresAt: int): Tables
    requires w in t.wallets
  {
    var updated := Adjusted(t.wallets[w], amountInCents);
    Appended(t, t.wallets[w := updated],
      DepositRow(t.nextTxId, w, amountInCents, updated.balanceInCents, key, revertExpiresAt))
  }

  /** Debit the sender, credit the receiver (in that order) and record the transfer. */
  function TransferApplied(t: Tables, s: WalletId, rcv: WalletId, amountInCents: int,
                           description: string, key: string, revertExpiresAt: int): Tables
    requires s in t.wallets && rcv in t.wallets
  {
    var sender := Adjusted(t.wallets[s], -amountInCents);
    var debited := t.wallets[s := sender];
    Appended(t, debited[rcv := Adjusted(debited[rcv], amountInCents)],
      TransferRow(t.nextTxId, s, rcv, amountInCents, sender.balanceInCents, description, key, revertExpiresAt))
  }

  /** The inverse money movement of `o`: a deposit's receiver is debited; a
      transfer's sender is credited and its receiver debited. No balance is
      checked, so a balance may go below zero. */
  function ReversedWallets(wallets: map<WalletId, Wallet>, o: Transaction): map<WalletId, Wallet>
    requires PartiesExist(o, wallets)
  {
    match o.txType
    case Deposit =>
      if o.receiverWalletId.Some? then
        wallets[o.receiverWalletId.value := Adjusted(wallets[o.receiverWalletId.value], -o.amountInCents)]
      else wallets
    case Transfer =>
      var credited :=
        if o.senderWalletId.Some? then
          wallets[o.senderWalletId.value := Adjusted(wallets[o.senderWalletId.value], o.amountInCents)]
        else wallets;
      if o.receiverWalletId.Some? then
        credited[o.receiverWalletId.value := Adjusted(credited[o.receiverWalletId.value], -o.amountInCents)]
      else credited
    case Reversal => wallets
  }

  /** Undo the money movement of `o`, mark `o` REVERSED and record the reversal. */
  function ReversalApplied(t: Tables, o: Transaction, key: string): Tables
    requires o.id in t.transactions && PartiesExist(o, t.wallets)
  {
    t.(wallets := ReversedWallets(t.wallets, o),
       transactions := t.transactions[o.id := t.transactions[o.id].(status := Reversed)]
                                     [t.nextTxId := ReversalRow(t.nextTxId, o, key)],
       nextTxId := t.nextTxId + 1)
  }

  // ---------------------------------------------------------------------
  // Each step keeps the invariant
  // ---------------------------------------------------------------------

  /** Two wallet tables with the same rows up to balances and versions. */
  ghost predicate SameWalletRows(a: map<WalletId, Wallet>, b: map<WalletId, Wallet>) {
    forall id :: (id in a <==> id in b) && (id in a ==> a[id].id == b[id].id && a[id].userId == b[id].userId)
  }

  /** A reversal stays once the rows keep their links. */
  lemma HasReversalGrows(txs: map<TxId, Transaction>, txs': map<TxId, Transaction>, o: TxId)
    requires HasReversal(txs, o)
    requires forall k :: k in txs ==> k in txs' && txs'[k].originalTransactionId == txs[k].originalTransactionId
    ensures HasReversal(txs', o)
  {
  }

  /** Moving balances and versions keeps the wallet table well formed. */
  lemma WalletRowsKept(wallets: map<WalletId, Wallet>, wallets': map<WalletId, Wallet>,
                       users: map<UserId, User>, n: nat)
    requires WalletsWellFormed(wallets, users, n) && SameWalletRows(wallets, wallets')
    ensures WalletsWellFormed(wallets', users, n)
  {
  }

  /** Appending a well-formed row under a fresh key keeps the transaction table well formed. */
  lemma AppendRowsWellFormed(txs: map<TxId, Transaction>, wallets: map<WalletId, Wallet>,
                             wallets': map<WalletId, Wallet>, n: nat, row: Transaction)
    requires TransactionsWellFormed(txs, wallets, n) && SameWalletRows(wallets, wallets')
    requires row.id == n && RowWellFormed(row, wallets) && !KeyUsed(txs, row.idempotencyKey)
    ensures TransactionsWellFormed(txs[n := row], wallets', n + 1)
  {
  }

  /** Appending a COMPLETED row that reverses nothing keeps the reversal links. */
  lemma AppendLinksHold(txs: map<TxId, Transaction>, row: Transaction)
    requires ReversalsLinked(txs) && row.id !in txs
    requires row.originalTransactionId.None? && row.status == Completed
    ensures ReversalsLinked(txs[row.id := row])
  {
    var txs' := txs[row.id := row];
    forall o | o in txs' && txs'[o].status == Reversed
      ensures HasReversal(txs', o)
    {
      HasReversalGrows(txs, txs', o);
    }
  }

  /** Balances moved by the money a new row brings in stay equal to the standing deposits. */
  lemma AppendConserves(t: Tables, wallets': map<WalletId, Wallet>, row: Transaction)
    requires Conserved(t)
    requires SumBalances(wallets', t.nextWalletId) == SumBalances(t.wallets, t.nextWalletId) + LiveDeposit(row)
    ensures Conserved(Appended(t, wallets', row))
  {
    LiveDepositsUpdate(t.transactions, t.nextTxId, row, t.nextTxId);
  }

  /** Appending a deposit or transfer row, with wallet balances moved by the
      money the row brings in, keeps the invariant. */
  lemma AppendKeepsInvariant(t: Tables, wallets': map<WalletId, Wallet>, row: Transaction)
    requires Invariant(t)
    requires SameWalletRows(t.wallets, wallets')
    requires row.id == t.nextTxId && row.txType != Reversal && row.status == Completed
    requires RowWellFormed(row, t.wallets) && !KeyUsed(t.transactions, row.idempotencyKey)
    requires SumBalances(wallets', t.nextWalletId) == SumBalances(t.wallets, t.nextWalletId) + LiveDeposit(row)
    ensures Invariant(Appended(t, wallets', row))
  {
    WalletRowsKept(t.wallets, wallets', t.users, t.nextWalletId);
    AppendRowsWellFormed(t.transactions, t.wallets, wallets', t.nextTxId, row);
    AppendLinksHold(t.transactions, row);
    AppendConserves(t, wallets', row);
  }

  lemma DepositKeepsInvariant(t: Tables, w: WalletId, amountInCents: int, key: string, revertExpiresAt: int)
    requires Invariant(t) && w in t.wallets && !KeyUsed(t.transactions, key)
    ensures Invariant(DepositApplied(t, w, amountInCents, key, revertExpiresAt))
    ensures Total(DepositApplied(t, w, amountInCents, key, revertExpiresAt)) == Total(t) + amountInCents
  {
    var updated := Adjusted(t.wallets[w], amountInCents);
    SumBalancesUpdate(t.wallets, w, updated, t.nextWalletId);
    AppendKeepsInvariant(t, t.wallets[w := updated],
      DepositRow(t.nextTxId, w, amountInCents, updated.balanceInCents, key, revertExpiresAt));
  }

  lemma TransferKeepsInvariant(t: Tables, s: WalletId, rcv: WalletId, amountInCents: int,
                               description: string, key: string, revertExpiresAt: int)
    requires Invariant(t) && s in t.wallets && rcv in t.wallets && s != rcv
    requires !KeyUsed(t.transactions, key)
    ensures Invariant(TransferApplied(t, s, rcv, amountInCents, description, key, revertExpiresAt))
    ensures Total(TransferApplied(t, s, rcv, amountInCents, description, key, revertExpiresAt)) == Total(t)
  {
    var sender := Adjusted(t.wallets[s], -amountInCents);
    var debited := t.wallets[s := sender];
    TransferConservesTotal(t.wallets, s, rcv, amountInCents, t.nextWalletId);
    AppendKeepsInvariant(t, debited[rcv := Adjusted(debited[rcv], amountInCents)],
      TransferRow(t.nextTxId, s, rcv, amountInCents, sender.balanceInCents, description, key, revertExpiresAt));
  }

  /** The money a reversal takes out of the system: a deposit's amount, nothing for a transfer. */
  lemma ReversedWalletsTotal(wallets: map<WalletId, Wallet>, n: nat, o: Transaction)
    requires RowWellFormed(o, wallets) && o.txType != Reversal
    requires forall id :: id in wallets ==> id < n
    ensures SameWalletRows(wallets, ReversedWallets(wallets, o))
    ensures SumBalances(ReversedWallets(wallets, o), n)
         == SumBalances(wallets, n) - (if o.txType == Deposit then o.amountInCents else 0)
  {
    if o.txType == Deposit {
      var r := o.receiverWalletId.value;
      SumBalancesUpdate(wallets, r, Adjusted(wallets[r], -o.amountInCents), n);
    } else {
      var s, r := o.senderWalletId.value, o.receiverWalletId.value;
      TransferConservesTotal(wallets, r, s, o.amountInCents, n);
      assert ReversedWallets(wallets, o)
          == wallets[r := Adjusted(wallets[r], -o.amountInCents)][s := Adjusted(wallets[s], o.amountInCents)];
    }
  }

  /** Marking `o` REVERSED and appending its reversal under a fresh key keeps
      the transaction table well formed. */
  lemma ReversalRowsWellFormed(txs: map<TxId, Transaction>, wallets: map<WalletId, Wallet>,
                               wallets': map<WalletId, Wallet>, n: nat, o: Transaction, key: string)
    requires TransactionsWellFormed(txs, wallets, n) && SameWalletRows(wallets, wallets')
    requires o.id in txs && txs[o.id] == o && o.txType != Reversal && !KeyUsed(txs, key)
    ensures TransactionsWellFormed(txs[o.id := txs[o.id].(status := Reversed)][n := ReversalRow(n, o, key)],
                                   wallets', n + 1)
  {
  }

  /** After reversing `o`, every reversal still points at an earlier, REVERSED transaction. */
  lemma ReversalTargetsHold(txs: map<TxId, Transaction>, n: TxId, o: Transaction, key: string)
    requires ReversalsLinked(txs) && n !in txs && o.id in txs && o.id < n
    ensures var txs' := txs[o.id := txs[o.id].(status := Reversed)][n := ReversalRow(n, o, key)];
            forall k :: k in txs' && txs'[k].originalTransactionId.Some? ==>
              var p := txs'[k].originalTransactionId.value;
              p in txs' && p < k && txs'[p].status == Reversed
  {
  }

  /** After reversing `o`, which had no reversal, no transaction has two reversals. */
  lemma ReversalStaysSingle(txs: map<TxId, Transaction>, n: TxId, o: Transaction, key: string)
    requires ReversalsLinked(txs) && n !in txs && o.id in txs && !HasReversal(txs, o.id)
    ensures var txs' := txs[o.id := txs[o.id].(status := Reversed)][n := ReversalRow(n, o, key)];
            forall a, b ::
              (a in txs' && b in txs' && txs'[a].originalTransactionId.Some? &&
               txs'[a].originalTransactionId == txs'[b].originalTransactionId) ==> a == b
  {
  }

  /** After reversing `o`, every REVERSED transaction, `o` included, has its reversal. */
  lemma ReversedHaveReversals(txs: map<TxId, Transaction>, n: TxId, o: Transaction, key: string)
    requires ReversalsLinked(txs) && n !in txs && o.id in txs
    ensures var txs' := txs[o.id := txs[o.id].(status := Reversed)][n := ReversalRow(n, o, key)];
            forall p :: p in txs' && txs'[p].status == Reversed ==> HasReversal(txs', p)
  {
    var txs' := txs[o.id := txs[o.id].(status := Reversed)][n := ReversalRow(n, o, key)];
    forall p | p in txs' && txs'[p].status == Reversed
      ensures HasReversal(txs', p)
    {
      if p == o.id {
        assert txs'[n].originalTransactionId == Some(p);
      } else {
        HasReversalGrows(txs, txs', p);
      }
    }
  }

  /** After reversing `o`, which had no reversal, the reversal links still hold. */
  lemma ReversalLinksHold(txs: map<TxId, Transaction>, n: TxId, o: Transaction, key: string)
    requires ReversalsLinked(txs) && n !in txs && o.id in txs && o.id < n && !HasReversal(txs, o.id)
    ensures ReversalsLinked(txs[o.id := txs[o.id].(status := Reversed)][n := ReversalRow(n, o, key)])
  {
    ReversalTargetsHold(txs, n, o, key);
    ReversalStaysSingle(txs, n, o, key);
    ReversedHaveReversals(txs, n, o, key);
  }

  /** Marking `o` REVERSED and appending its reversal removes `o`'s amount
      from the standing deposits if `o` is a deposit, and nothing otherwise. */
  lemma ReversalTakesDeposit(txs: map<TxId, Transaction>, n: TxId, o: Transaction, key: string)
    requires o.id in txs && txs[o.id] == o && o.id < n && o.status == Completed
    ensures LiveDeposits(txs[o.id := txs[o.id].(status := Reversed)][n := ReversalRow(n, o, key)], n + 1)
         == LiveDeposits(txs, n) - (if o.txType == Deposit then o.amountInCents else 0)
  {
    var marked := txs[o.id := o.(status := Reversed)];
    var row := ReversalRow(n, o, key);
    LiveDepositsUpdate(txs, o.id, o.(status := Reversed), n);
    LiveDepositsUpdate(marked, n, row, n);
  }

  /** A reversal takes out of the balances exactly what it takes out of the standing deposits. */
  lemma ReversalConserves(t: Tables, o: Transaction, key: string)
    requires Conserved(t) && o.id in t.transactions && t.transactions[o.id] == o && o.id < t.nextTxId
    requires o.status == Completed && o.txType != Reversal && RowWellFormed(o, t.wallets)
    requires forall id :: id in t.wallets ==> id < t.nextWalletId
    ensures PartiesExist(o, t.wallets)
    ensures Conserved(ReversalApplied(t, o, key))
    ensures Total(ReversalApplied(t, o, key)) == Total(t) - (if o.txType == Deposit then o.amountInCents else 0)
  {
    ReversedWalletsTotal(t.wallets, t.nextWalletId, o);
    ReversalTakesDeposit(t.transactions, t.nextTxId, o, key);
  }

  lemma ReversalKeepsInvariant(t: Tables, o: Transaction, key: string)
    requires Invariant(t) && o.id in t.transactions && t.transactions[o.id] == o
    requires o.status == Completed && o.txType != Reversal && !HasReversal(t.transactions, o.id)
    requires !KeyUsed(t.transactions, key)
    ensures PartiesExist(o, t.wallets)
    ensures Invariant(ReversalApplied(t, o, key))
    ensures Total(ReversalApplied(t, o, key)) == Total(t) - (if o.txType == Deposit then o.amountInCents else 0)
  {
    assert RowWellFormed(o, t.wallets);
    var wallets' := ReversedWallets(t.wallets, o);
    ReversedWalletsTotal(t.wallets, t.nextWalletId, o);
    WalletRowsKept(t.wallets, wallets', t.users, t.nextWalletId);
    ReversalRowsWellFormed(t.transactions, t.wallets, wallets', t.nextTxId, o, key);
    ReversalLinksHold(t.transactions, t.nextTxId, o, key);
    ReversalConserves(t, o, key);
  }

  // ---------------------------------------------------------------------
  // A reversal is the inverse of the transaction it reverses
  // ---------------------------------------------------------------------

  /** Reverting a deposit right after it was made restores every balance;
      the receiver's version has risen by two. */
  lemma DepositThenReversalRestoresBalances(t: Tables, w: WalletId, amountInCents: int,
                                            key: string, revertExpiresAt: int, reversalKey: string)
    requires w in t.wallets
    ensures var t1 := DepositApplied(t, w, amountInCents, key, revertExpiresAt);
            var o := t1.transactions[t.nextTxId];
            && PartiesExist(o, t1.wallets)
            && var t2 := ReversalApplied(t1, o, reversalKey);
            && t2.wallets.Keys == t.wallets.Keys
            && (forall id :: id in t.wallets ==> t2.wallets[id].balanceInCents == t.wallets[id].balanceInCents)
            && t2.wallets[w].version == t.wallets[w].version + 2
            && t2.transactions[t.nextTxId].status == Reversed
            && t2.transactions[t.nextTxId + 1].originalTransactionId == Some(t.nextTxId)
  {
  }

  /** Reverting a transfer right after it was made restores every balance;
      both parties' versions have risen by two. */
  lemma TransferThenReversalRestoresBalances(t: Tables, s: WalletId, rcv: WalletId, amountInCents: int,
                                             description: string, key: string, revertExpiresAt: int,
                                             reversalKey: string)
    requires s in t.wallets && rcv in t.wallets && s != rcv
    ensures var t1 := TransferApplied(t, s, rcv, amountInCents, description, key, revertExpiresAt);
            var o := t1.transactions[t.nextTxId];
            && PartiesExist(o, t1.wallets)
            && var t2 := ReversalApplied(t1, o, reversalKey);
            && t2.wallets.Keys == t.wallets.Keys
            && (forall id :: id in t.wallets ==> t2.wallets[id].balanceInCents == t.wallets[id].balanceInCents)
            && t2.wallets[s].version == t.wallets[s].version + 2
            && t2.wallets[rcv].version == t.wallets[rcv].version + 2
  {
  }
}
