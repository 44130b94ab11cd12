/**
 * The wallet service: deposits, transfers, reversals, the balance and the
 * transaction history of the caller's wallet. Every public operation checks
 * the idempotency key first, then runs its ordered validation chain, then
 * performs one atomic step of the ledger; any failure leaves the store as
 * it was.
 */
module WalletService {
  import opened Wrappers
  import opened Schema
  import opened Accounting
  import opened Store
  import opened Ledger
  import opened Pagination

  /** The reversal window: 30 days, with time counted in milliseconds. */
  const RevertWindowDays: nat := 30
  const MillisPerDay: nat := 86_400_000
  const RevertWindow: nat := RevertWindowDays * MillisPerDay

  datatype WalletError =
    | Duplicate
    | WalletNotFound
    | ReceiverNotFound
    | SelfTransfer
    | InsufficientFunds
    | ConcurrencyConflict   // the version-guarded update matched no row
    | TransactionNotFound
    | AlreadyReverted
    | NotCompleted
    | InvalidRevertType
    | RevertExpired
    | Unauthorized
    | InternalFailure       // any other store failure, reported as an internal error

  /** What a deposit or a transfer returns: the caller's new balance and the new transaction's id. */
  datatype Receipt = Receipt(newBalance: int, transactionId: TxId)

  datatype HistoryPage = HistoryPage(data: seq<Transaction>, total: nat, page: nat, limit: nat, totalPages: nat)

  // ---------------------------------------------------------------------
  // Reversal policy
  // ---------------------------------------------------------------------

  /** The wallet allowed to revert a transaction: a deposit's receiver or a transfer's sender. */
  predicate AuthorizedParty(tx: Transaction, w: WalletId) {
    && (tx.txType == Deposit ==> tx.receiverWalletId == Some(w))
    && (tx.txType == Transfer ==> tx.senderWalletId == Some(w))
  }

  /** When the owner of wallet `w` may revert `tx` at time `now`. */
  predicate Reversible(tx: Transaction, hasReversal: bool, now: int, w: WalletId) {
    && !hasReversal
    && tx.status == Completed
    && tx.txType != Reversal
    && (tx.revertExpiresAt.Some? ==> now <= tx.revertExpiresAt.value)
    && AuthorizedParty(tx, w)
  }

  /** The reversal checks in order, first failure wins. The deadline itself
      is still in time: only a strictly later `now` has expired. */
  function ValidateReversibility(tx: Transaction, hasReversal: bool, now: int, requestWalletId: WalletId)
    : (r: Option<WalletError>)
    ensures r.None? <==> Reversible(tx, hasReversal, now, requestWalletId)
    ensures r == Some(AlreadyReverted) <==> hasReversal || tx.status == Reversed
    ensures r == Some(NotCompleted) <==> !hasReversal && tx.status != Reversed && tx.status != Completed
    ensures r == Some(InvalidRevertType) <==> !hasReversal && tx.status == Completed && tx.txType == Reversal
    ensures r == Some(RevertExpired) <==>
              && !hasReversal && tx.status == Completed && tx.txType != Reversal
              && tx.revertExpiresAt.Some? && now > tx.revertExpiresAt.value
    ensures r == Some(Unauthorized) <==>
              && !hasReversal && tx.status == Completed && tx.txType != Reversal
              && (tx.revertExpiresAt.Some? ==> now <= tx.revertExpiresAt.value)
              && !AuthorizedParty(tx, requestWalletId)
  {
    if hasReversal || tx.status == Reversed then Some(AlreadyReverted)
    else if tx.status != Completed then Some(NotCompleted)
    else if tx.txType == Reversal then Some(InvalidRevertType)
    else if tx.revertExpiresAt.Some? && now > tx.revertExpiresAt.value then Some(RevertExpired)
    else if tx.txType == Deposit then
      (if tx.receiverWalletId != Some(requestWalletId) then Some(Unauthorized) else None)
    else if tx.txType == Transfer then
      (if tx.senderWalletId != Some(requestWalletId) then Some(Unauthorized) else None)
    else None
  }

  /** Once reversed, a transaction can never be reversed again, whoever asks and whenever. */
  lemma ReversedIsTerminal(t: Tables, o: Transaction, key: string, now: int, w: WalletId)
    requires o.id in t.transactions && PartiesExist(o, t.wallets)
    ensures var t' := ReversalApplied(t, o, key);
            ValidateReversibility(t'.transactions[o.id], HasReversal(t'.transactions, o.id), now, w)
              == Some(AlreadyReverted)
  {
  }

  // ---------------------------------------------------------------------
  // Transaction history
  // ---------------------------------------------------------------------

  predicate KeyedById(txs: map<TxId, Transaction>) {
    forall id :: id in txs ==> txs[id].id == id
  }

  /** The transactions with id below n in which wallet w is sender or
      receiver, newest (highest id) first. */
  function History(txs: map<TxId, Transaction>, w: WalletId, n: nat): (h: seq<Transaction>)
    requires KeyedById(txs)
    ensures forall i :: 0 <= i < |h| ==>
              h[i].id < n && h[i].id in txs && txs[h[i].id] == h[i] && Involves(h[i], w)
    ensures forall i, j :: 0 <= i < j < |h| ==> h[j].id < h[i].id
    ensures forall id :: id in txs && id < n && Involves(txs[id], w) ==> txs[id] in h
  {
    if n == 0 then []
    else
      var older := History(txs, w, n - 1);
      if n - 1 in txs && Involves(txs[n - 1], w) then [txs[n - 1]] + older else older
  }

  // ---------------------------------------------------------------------
  // The service
  // ---------------------------------------------------------------------

  class WalletService {
    const prisma: Database

    constructor (prisma: Database)
      ensures this.prisma == prisma
    {
      this.prisma := prisma;
    }

    ghost predicate Valid()
      reads prisma
    {
      prisma.Valid()
    }

    /** The caller's wallet, or WalletNotFound. */
    method GetWalletByUserId(userId: UserId) returns (r: Result<Wallet, WalletError>)
      requires Valid()
      ensures r.Ok? <==> HasWallet(prisma.wallets, userId)
      ensures r.Ok? ==> r.value.userId == userId && r.value.id in prisma.wallets && prisma.wallets[r.value.id] == r.value
      ensures r.Err? ==> r.error == WalletNotFound
    {
      if HasWallet(prisma.wallets, userId) {
        r := Ok(prisma.wallets[WalletOf(prisma.wallets, userId)]);
      } else {
        r := Err(WalletNotFound);
      }
    }

    /** Duplicate when some transaction already carries the key. */
    method VerifyIdempotency(idempotencyKey: string) returns (r: Option<WalletError>)
      ensures r.Some? <==> exists id :: id in prisma.transactions && prisma.transactions[id].idempotencyKey == idempotencyKey
      ensures r.Some? ==> r.value == Duplicate
    {
      if KeyUsed(prisma.transactions, idempotencyKey) {
        r := Some(Duplicate);
      } else {
        r := None;
      }
    }

    /** The transaction with this id, or TransactionNotFound. */
    method FindTransactionById(transactionId: int) returns (r: Result<Transaction, WalletError>)
      ensures r.Ok? <==> transactionId in prisma.transactions
      ensures r.Ok? ==> r.value == prisma.transactions[transactionId]
      ensures r.Err? ==> r.error == TransactionNotFound
    {
      if transactionId in prisma.transactions {
        r := Ok(prisma.transactions[transactionId]);
      } else {
        r := Err(TransactionNotFound);
      }
    }

    /** Credit the wallet and record the deposit, as one atomic step. The
        insert fails, and the credit is rolled back, when the key is taken. */
    method ExecuteDepositTransaction(walletId: WalletId, amountInCents: int, idempotencyKey: string,
                                     revertExpiresAt: int)
      returns (r: Result<Receipt, WalletError>)
      requires Valid()
      modifies prisma
      ensures Valid()
      ensures r.Ok? <==> old(walletId in prisma.wallets && !KeyUsed(prisma.transactions, idempotencyKey))
      ensures r.Err? ==> r.error == InternalFailure && unchanged(prisma)
      ensures r.Ok? ==>
                && prisma.Snapshot() == DepositApplied(old(prisma.Snapshot()), walletId, amountInCents, idempotencyKey, revertExpiresAt)
                && r.value == Receipt(prisma.wallets[walletId].balanceInCents, old(prisma.nextTxId))
                && Total(prisma.Snapshot()) == old(Total(prisma.Snapshot())) + amountInCents
    {
      if walletId !in prisma.wallets || KeyUsed(prisma.transactions, idempotencyKey) {
        return Err(InternalFailure);
      }
      ghost var after := DepositApplied(prisma.Snapshot(), walletId, amountInCents, idempotencyKey, revertExpiresAt);
      DepositKeepsInvariant(prisma.Snapshot(), walletId, amountInCents, idempotencyKey, revertExpiresAt);
      var updatedWallet := Adjusted(prisma.wallets[walletId], amountInCents);
      prisma.UpdateWallet(walletId, updatedWallet);
      var id := prisma.nextTxId;
      prisma.CreateTransaction(
        DepositRow(id, walletId, amountInCents, updatedWallet.balanceInCents, idempotencyKey, revertExpiresAt));
      assert prisma.Snapshot() == after;
      r := Ok(Receipt(updatedWallet.balanceInCents, id));
    }

    /** Debit the sender under its version guard, credit the receiver and
        record the transfer, as one atomic step. A version that no longer
        matches, or a wallet that is gone, makes the step fail with a
        ConcurrencyConflict; a taken key makes the insert fail. Either way
        nothing is changed. */
    method ExecuteTransferTransaction(senderWalletId: WalletId, senderVersion: int, receiverWalletId: WalletId,
                                      amountInCents: int, description: string, idempotencyKey: string,
                                      revertExpiresAt: int)
      returns (r: Result<Receipt, WalletError>)
      requires Valid()
      requires senderWalletId != receiverWalletId
      modifies prisma
      ensures Valid()
      ensures r == Err(ConcurrencyConflict) <==>
                old(|| senderWalletId !in prisma.wallets
                    || prisma.wallets[senderWalletId].version != senderVersion
                    || receiverWalletId !in prisma.wallets)
      ensures r == Err(InternalFailure) <==>
                old(&& senderWalletId in prisma.wallets
                    && prisma.wallets[senderWalletId].version == senderVersion
                    && receiverWalletId in prisma.wallets
                    && KeyUsed(prisma.transactions, idempotencyKey))
      ensures r.Err? ==> r.error in {ConcurrencyConflict, InternalFailure} && unchanged(prisma)
      ensures r.Ok? ==>
                && prisma.Snapshot() == TransferApplied(old(prisma.Snapshot()), senderWalletId, receiverWalletId,
                                                        amountInCents, description, idempotencyKey, revertExpiresAt)
                && r.value == Receipt(prisma.wallets[senderWalletId].balanceInCents, old(prisma.nextTxId))
                && Total(prisma.Snapshot()) == old(Total(prisma.Snapshot()))
    {
      if senderWalletId !in prisma.wallets || prisma.wallets[senderWalletId].version != senderVersion {
        return Err(ConcurrencyConflict);
      }
      if receiverWalletId !in prisma.wallets {
        return Err(ConcurrencyConflict);
      }
      if KeyUsed(prisma.transactions, idempotencyKey) {
        return Err(InternalFailure);
      }
      ghost var after := TransferApplied(prisma.Snapshot(), senderWalletId, receiverWalletId, amountInCents,
                                         description, idempotencyKey, revertExpiresAt);
      TransferKeepsInvariant(prisma.Snapshot(), senderWalletId, receiverWalletId, amountInCents, description,
                             idempotencyKey, revertExpiresAt);
      var updatedSender := Adjusted(prisma.wallets[senderWalletId], -amountInCents);
      prisma.UpdateWallet(senderWalletId, updatedSender);
      prisma.UpdateWallet(receiverWalletId, Adjusted(prisma.wallets[receiverWalletId], amountInCents));
      var id := prisma.nextTxId;
      prisma.CreateTransaction(
        TransferRow(id, senderWalletId, receiverWalletId, amountInCents, updatedSender.balanceInCents,
                    description, idempotencyKey, revertExpiresAt));
      assert prisma.Snapshot() == after;
      r := Ok(Receipt(updatedSender.balanceInCents, id));
    }

    /** The inverse money movement of `originalTx`, inside the reversal's atomic step. */
    method ReverseBalances(originalTx: Transaction)
      requires PartiesExist(originalTx, prisma.wallets)
      modifies prisma
      ensures prisma.Snapshot() == old(prisma.Snapshot()).(wallets := ReversedWallets(old(prisma.wallets), originalTx))
    {
      var amount := originalTx.amountInCents;
      if originalTx.txType == TxType.Deposit {
        if originalTx.receiverWalletId.Some? {
          var rw := originalTx.receiverWalletId.value;
          prisma.UpdateWallet(rw, Adjusted(prisma.wallets[rw], -amount));
        }
      } else if originalTx.txType == TxType.Transfer {
        if originalTx.senderWalletId.Some? {
          var sw := originalTx.senderWalletId.value;
          prisma.UpdateWallet(sw, Adjusted(prisma.wallets[sw], amount));
        }
        if originalTx.receiverWalletId.Some? {
          var rw := originalTx.receiverWalletId.value;
          prisma.UpdateWallet(rw, Adjusted(prisma.wallets[rw], -amount));
        }
      }
    }

    /** Apply the inverse money movement of a transaction that passed the
        reversal checks, mark it REVERSED and record the reversal, as one
        atomic step. */
    method ExecuteReversalTransaction(originalTx: Transaction, idempotencyKey: string)
      returns (r: Result<Transaction, WalletError>)
      requires Valid()
      requires originalTx.id in prisma.transactions && prisma.transactions[originalTx.id] == originalTx
      requires originalTx.status == Completed && originalTx.txType != Reversal
      requires !HasReversal(prisma.transactions, originalTx.id)
      modifies prisma
      ensures Valid()
      ensures r.Ok? <==> old(!KeyUsed(prisma.transactions, idempotencyKey))
      ensures r.Err? ==> r.error == InternalFailure && unchanged(prisma)
      ensures r.Ok? ==>
                && PartiesExist(originalTx, old(prisma.wallets))
                && prisma.Snapshot() == ReversalApplied(old(prisma.Snapshot()), originalTx, idempotencyKey)
                && r.value == ReversalRow(old(prisma.nextTxId), originalTx, idempotencyKey)
                && Total(prisma.Snapshot())
                     == old(Total(prisma.Snapshot())) - (if originalTx.txType == TxType.Deposit then originalTx.amountInCents else 0)
    {
      if KeyUsed(prisma.transactions, idempotencyKey) {
        return Err(InternalFailure);
      }
      ReversalKeepsInvariant(prisma.Snapshot(), originalTx, idempotencyKey);
      ghost var after := ReversalApplied(prisma.Snapshot(), originalTx, idempotencyKey);
      ReverseBalances(originalTx);
      prisma.UpdateTransaction(originalTx.(status := Reversed));
      var id := prisma.nextTxId;
      var reversalTx := ReversalRow(id, originalTx, idempotencyKey);
      prisma.CreateTransaction(reversalTx);
      assert prisma.Snapshot() == after;
      r := Ok(reversalTx);
    }

    /** The caller's balance, or WalletNotFound. */
    method GetBalance(userId: UserId) returns (r: Result<int, WalletError>)
      requires Valid()
      ensures r.Ok? <==> HasWallet(prisma.wallets, userId)
      ensures r.Ok? ==> r.value == prisma.wallets[WalletOf(prisma.wallets, userId)].balanceInCents
      ensures r.Err? ==> r.error == WalletNotFound
    {
      var wallet := GetWalletByUserId(userId);
      if wallet.Err? {
        return Err(wallet.error);
      }
      r := Ok(wallet.value.balanceInCents);
    }

    /** One page of the caller's history, newest first, with the total count
        and the number of pages; page and limit default to 1 and 10. */
    method GetTransactions(userId: UserId, page: Option<nat>, limit: Option<nat>)
      returns (r: Result<HistoryPage, WalletError>)
      requires Valid()
      requires page.Some? ==> page.value >= 1
      requires limit.Some? ==> limit.value >= 1
      ensures r.Ok? <==> HasWallet(prisma.wallets, userId)
      ensures r.Err? ==> r.error == WalletNotFound
      ensures r.Ok? ==>
                var p := page.GetOr(DefaultPage);
                var l := limit.GetOr(DefaultLimit);
                var h := History(prisma.transactions, WalletOf(prisma.wallets, userId), prisma.nextTxId);
                && r.value.data == Window(h, Offset(p, l), l)
                && r.value.total == |h|
                && r.value.page == p && r.value.limit == l
                && r.value.totalPages == TotalPages(|h|, l)
    {
      var p := page.GetOr(DefaultPage);
      var l := limit.GetOr(DefaultLimit);
      var skip := (p - 1) * l;
      var wallet := GetWalletByUserId(userId);
      if wallet.Err? {
        return Err(wallet.error);
      }
      var h := History(prisma.transactions, wallet.value.id, prisma.nextTxId);
      var total := |h|;
      r := Ok(HistoryPage(Window(h, skip, l), total, p, l, (total + l - 1) / l));
    }

    /** Deposit: idempotency check, then the caller's wallet, then the atomic
        credit with a reversal deadline of now + 30 days. */
    method Deposit(userId: UserId, amountInCents: int, idempotencyKey: string, now: int)
      returns (r: Result<Receipt, WalletError>)
      requires Valid()
      requires amountInCents > 0 && idempotencyKey != []
      modifies prisma
      ensures Valid()
      ensures old(KeyUsed(prisma.transactions, idempotencyKey)) ==> r == Err(Duplicate)
      ensures (old(!KeyUsed(prisma.transactions, idempotencyKey) && !HasWallet(prisma.wallets, userId)))
                ==> r == Err(WalletNotFound)
      ensures r.Ok? <==> old(!KeyUsed(prisma.transactions, idempotencyKey) && HasWallet(prisma.wallets, userId))
      ensures r.Err? ==> unchanged(prisma)
      ensures r.Ok? ==>
                var w := old(WalletOf(prisma.wallets, userId));
                && prisma.Snapshot() == DepositApplied(old(prisma.Snapshot()), w, amountInCents, idempotencyKey, now + RevertWindow)
                && prisma.wallets[w].balanceInCents == old(prisma.wallets[w].balanceInCents) + amountInCents
                && prisma.wallets[w].version == old(prisma.wallets[w].version) + 1
                && r.value == Receipt(prisma.wallets[w].balanceInCents, old(prisma.nextTxId))
                && Total(prisma.Snapshot()) == old(Total(prisma.Snapshot())) + amountInCents
    {
      var duplicate := VerifyIdempotency(idempotencyKey);
      if duplicate.Some? {
        return Err(duplicate.value);
      }
      var wallet := GetWalletByUserId(userId);
      if wallet.Err? {
        return Err(wallet.error);
      }
      var revertExpiresAt := now + RevertWindow;
      ghost var before := prisma.Snapshot();
      DepositKeepsInvariant(before, wallet.value.id, amountInCents, idempotencyKey, revertExpiresAt);
      r := ExecuteDepositTransaction(wallet.value.id, amountInCents, idempotencyKey, revertExpiresAt);
    }

    /** Transfer: idempotency check, the caller's wallet, no transfer to
        oneself, the receiver by username, enough funds, then the atomic
        debit (guarded by the version just read) and credit. */
    method Transfer(userId: UserId, amountInCents: int, receiverUsername: string, description: Option<string>,
                    idempotencyKey: string, now: int)
      returns (r: Result<Receipt, WalletError>)
      requires Valid()
      requires amountInCents > 0 && receiverUsername != [] && idempotencyKey != []
      modifies prisma
      ensures Valid()
      ensures old(KeyUsed(prisma.transactions, idempotencyKey)) ==> r == Err(Duplicate)
      ensures (old(!KeyUsed(prisma.transactions, idempotencyKey) && !HasWallet(prisma.wallets, userId)))
                ==> r == Err(WalletNotFound)
      ensures (old(&& !KeyUsed(prisma.transactions, idempotencyKey) && HasWallet(prisma.wallets, userId)
                  && prisma.users[userId].username == receiverUsername))
                ==> r == Err(SelfTransfer)
      ensures (old(&& !KeyUsed(prisma.transactions, idempotencyKey) && HasWallet(prisma.wallets, userId)
                  && prisma.users[userId].username != receiverUsername
                  && ReceiverOf(prisma.users, prisma.wallets, receiverUsername).None?))
                ==> r == Err(ReceiverNotFound)
      ensures (old(&& !KeyUsed(prisma.transactions, idempotencyKey) && HasWallet(prisma.wallets, userId)
                  && prisma.users[userId].username != receiverUsername
                  && ReceiverOf(prisma.users, prisma.wallets, receiverUsername).Some?
                  && prisma.wallets[WalletOf(prisma.wallets, userId)].balanceInCents < amountInCents))
                ==> r == Err(InsufficientFunds)
      ensures r.Err? ==> unchanged(prisma)
      ensures r.Ok? <==>
                old(&& !KeyUsed(prisma.transactions, idempotencyKey) && HasWallet(prisma.wallets, userId)
                    && prisma.users[userId].username != receiverUsername
                    && ReceiverOf(prisma.users, prisma.wallets, receiverUsername).Some?
                    && prisma.wallets[WalletOf(prisma.wallets, userId)].balanceInCents >= amountInCents)
      ensures r.Ok? ==>
                var s := old(WalletOf(prisma.wallets, userId));
                var rcv := old(ReceiverOf(prisma.users, prisma.wallets, receiverUsername)).value;
                && s != rcv
                && prisma.Snapshot() == TransferApplied(old(prisma.Snapshot()), s, rcv, amountInCents,
                                                        description.GetOr(""), idempotencyKey, now + RevertWindow)
                && prisma.wallets[s].balanceInCents == old(prisma.wallets[s].balanceInCents) - amountInCents >= 0
                && prisma.wallets[rcv].balanceInCents == old(prisma.wallets[rcv].balanceInCents) + amountInCents
                && prisma.wallets[s].version == old(prisma.wallets[s].version) + 1
                && prisma.wallets[rcv].version == old(prisma.wallets[rcv].version) + 1
                && r.value == Receipt(prisma.wallets[s].balanceInCents, old(prisma.nextTxId))
                && Total(prisma.Snapshot()) == old(Total(prisma.Snapshot()))
    {
      var duplicate := VerifyIdempotency(idempotencyKey);
      if duplicate.Some? {
        return Err(duplicate.value);
      }
      var senderWallet := GetWalletByUserId(userId);
      if senderWallet.Err? {
        return Err(senderWallet.error);
      }
      var sender := senderWallet.value;
      if prisma.users[sender.userId].username == receiverUsername {
        return Err(SelfTransfer);
      }
      var receiverUser := UserByUsername(prisma.users, receiverUsername);
      if receiverUser.None? || !HasWallet(prisma.wallets, receiverUser.value.id) {
        return Err(ReceiverNotFound);
      }
      var receiverWalletId := WalletOf(prisma.wallets, receiverUser.value.id);
      if sender.balanceInCents < amountInCents {
        return Err(InsufficientFunds);
      }
      var revertExpiresAt := now + RevertWindow;
      r := ExecuteTransferTransaction(sender.id, sender.version, receiverWalletId, amountInCents,
                                      description.GetOr(""), idempotencyKey, revertExpiresAt);
    }

    /** Revert: idempotency check, the transaction, the caller's wallet, the
        reversal checks, then the atomic inverse movement. */
    method Revert(userId: UserId, transactionId: int, idempotencyKey: string, now: int)
      returns (r: Result<Transaction, WalletError>)
      requires Valid()
      requires idempotencyKey != []
      modifies prisma
      ensures Valid()
      ensures old(KeyUsed(prisma.transactions, idempotencyKey)) ==> r == Err(Duplicate)
      ensures (old(!KeyUsed(prisma.transactions, idempotencyKey) && transactionId !in prisma.transactions))
                ==> r == Err(TransactionNotFound)
      ensures (old(&& !KeyUsed(prisma.transactions, idempotencyKey) && transactionId in prisma.transactions
                  && !HasWallet(prisma.wallets, userId)))
                ==> r == Err(WalletNotFound)
      ensures (old(&& !KeyUsed(prisma.transactions, idempotencyKey) && transactionId in prisma.transactions
                  && HasWallet(prisma.wallets, userId)
                  && ValidateReversibility(prisma.transactions[transactionId],
                                           HasReversal(prisma.transactions, transactionId),
                                           now, WalletOf(prisma.wallets, userId)).Some?))
                ==> r == Err(old(ValidateReversibility(prisma.transactions[transactionId],
                                                       HasReversal(prisma.transactions, transactionId),
                                                       now, WalletOf(prisma.wallets, userId))).value)
      ensures r.Err? ==> unchanged(prisma)
      ensures r.Ok? <==>
                old(&& !KeyUsed(prisma.transactions, idempotencyKey) && transactionId in prisma.transactions
                    && HasWallet(prisma.wallets, userId)
                    && Reversible(prisma.transactions[transactionId], HasReversal(prisma.transactions, transactionId),
                                  now, WalletOf(prisma.wallets, userId)))
      ensures r.Ok? ==>
                var o := old(prisma.transactions[transactionId]);
                && PartiesExist(o, old(prisma.wallets))
                && prisma.Snapshot() == ReversalApplied(old(prisma.Snapshot()), o, idempotencyKey)
                && r.value == ReversalRow(old(prisma.nextTxId), o, idempotencyKey)
                && prisma.transactions[transactionId].status == Reversed
                && Total(prisma.Snapshot()) == old(Total(prisma.Snapshot())) - (if o.txType == TxType.Deposit then o.amountInCents else 0)
    {
      var duplicate := VerifyIdempotency(idempotencyKey);
      if duplicate.Some? {
        return Err(duplicate.value);
      }
      var found := FindTransactionById(transactionId);
      if found.Err? {
        return Err(found.error);
      }
      var originalTx := found.value;
      var requestWallet := GetWalletByUserId(userId);
      if requestWallet.Err? {
        return Err(requestWallet.error);
      }
      var refusal := ValidateReversibility(originalTx, HasReversal(prisma.transactions, transactionId),
                                           now, requestWallet.value.id);
      if refusal.Some? {
        return Err(refusal.value);
      }
      r := ExecuteReversalTransaction(originalTx, idempotencyKey);
    }
  }

  /** The wallet of the user with this username, if both exist. */
  function ReceiverOf(users: map<UserId, User>, wallets: map<WalletId, Wallet>, username: string)
    : (r: Option<WalletId>)
    requires (forall id :: id in users ==> users[id].id == id) && UniqueUsernames(users) && UniqueOwners(wallets)
    ensures r.Some? <==> exists id :: id in users && users[id].username == username && HasWallet(wallets, id)
    ensures r.Some? ==>
              && r.value in wallets && wallets[r.value].userId in users
              && users[wallets[r.value].userId].username == username
  {
    match UserByUsername(users, username)
    case None => None
    case Some(u) => if HasWallet(wallets, u.id) then Some(WalletOf(wallets, u.id)) else None
  }
}
