/**
 * Rows of the three tables the services share: users, wallets and
 * transactions. Ids are the store's auto-increment keys and start at 1.
 */
module Schema {
  import opened Wrappers

  type UserId = nat
  type WalletId = nat
  type TxId = nat

  datatype User = User(
    id: UserId,
    username: string,
    email: string,
    password: string,  // the bcrypt hash, never the clear password
    isActive: bool)

  datatype Wallet = Wallet(
    id: WalletId,
    userId: UserId,
    balanceInCents: int,
    version: int)

  datatype TxType = Deposit | Transfer | Reversal

  /** The ledger only ever writes Completed and Reversed. Pending and Failed
      are assumed values of the status type, so that the reversal check's
      not-completed branch has statuses to refuse. */
  datatype TxStatus = Pending | Completed | Failed | Reversed

  /** A transfer's free text, or the text a reversal generates from the id
      of the transaction it reverses; deposits carry none. */
  datatype Description = NoDescription | Text(text: string) | ReversalOf(originalId: TxId)

  datatype Transaction = Transaction(
    id: TxId,
    txType: TxType,
    status: TxStatus,
    amountInCents: int,
    beforeBalanceInCents: Option<int>,
    afterBalanceInCents: Option<int>,
    senderWalletId: Option<WalletId>,
    receiverWalletId: Option<WalletId>,
    description: Description,
    idempotencyKey: string,
    revertExpiresAt: Option<int>,
    originalTransactionId: Option<TxId>)

  /** A wallet row after one balance update: the balance moves by delta and
      the version, the optimistic-lock token, rises by one. */
  function Adjusted(w: Wallet, delta: int): Wallet {
    w.(balanceInCents := w.balanceInCents + delta, version := w.version + 1)
  }

  /** Whether the wallet takes part in the transaction, as sender or receiver. */
  predicate Involves(t: Transaction, w: WalletId) {
    t.senderWalletId == Some(w) || t.receiverWalletId == Some(w)
  }
}
