/**
 * The transactional store the services share: the users, wallets and
 * transactions tables with their auto-increment counters, the lookups the
 * services make by a unique column, and the invariant every atomic step
 * keeps (the store's unique constraints and foreign keys, how reversals are
 * linked, and conservation of money).
 */
module Store {
  import opened Wrappers
  import opened Schema
  import opened Accounting

  /** A snapshot of the whole store as a value. */
  datatype Tables = Tables(
    users: map<UserId, User>,
    wallets: map<WalletId, Wallet>,
    transactions: map<TxId, Transaction>,
    nextUserId: nat,
    nextWalletId: nat,
    nextTxId: nat)

  // ---------------------------------------------------------------------
  // Lookups by a unique column
  // ---------------------------------------------------------------------

  /** Some transaction already carries this idempotency key. */
  predicate KeyUsed(txs: map<TxId, Transaction>, key: string) {
    exists id :: id in txs && txs[id].idempotencyKey == key
  }

  /** Some transaction is a reversal of transaction `id`. */
  predicate HasReversal(txs: map<TxId, Transaction>, id: TxId) {
    exists k :: k in txs && txs[k].originalTransactionId == Some(id)
  }

  predicate HasWallet(wallets: map<WalletId, Wallet>, userId: UserId) {
    exists w :: w in wallets && wallets[w].userId == userId
  }

  /** The unique constraint on Wallet.userId. */
  predicate UniqueOwners(wallets: map<WalletId, Wallet>) {
    forall a, b :: a in wallets && b in wallets && wallets[a].userId == wallets[b].userId ==> a == b
  }

  predicate UniqueUsernames(users: map<UserId, User>) {
    forall a, b :: a in users && b in users && users[a].username == users[b].username ==> a == b
  }

  predicate UniqueEmails(users: map<UserId, User>) {
    forall a, b :: a in users && b in users && users[a].email == users[b].email ==> a == b
  }

  predicate UniqueKeys(txs: map<TxId, Transaction>) {
    forall a, b :: a in txs && b in txs && txs[a].idempotencyKey == txs[b].idempotencyKey ==> a == b
  }

  /** The wallet owned by a user (a read of Wallet by its unique userId). */
  function WalletOf(wallets: map<WalletId, Wallet>, userId: UserId): (w: WalletId)
    requires UniqueOwners(wallets) && HasWallet(wallets, userId)
    ensures w in wallets && wallets[w].userId == userId
  {
    var w :| w in wallets && wallets[w].userId == userId; w
  }

  /** The user with this username, if any (a read of User by its unique username). */
  function UserByUsername(users: map<UserId, User>, username: string): (r: Option<User>)
    requires UniqueUsernames(users)
    ensures r.None? <==> forall id :: id in users ==> users[id].username != username
    ensures r.Some? ==> r.value in users.Values && r.value.username == username
  {
    if exists id :: id in users && users[id].username == username then
      var id :| id in users && users[id].username == username; Some(users[id])
    else
      None
  }

  /** The user with this email, if any (a read of User by its unique email). */
  function UserByEmail(users: map<UserId, User>, email: string): (r: Option<User>)
    requires UniqueEmails(users)
    ensures r.None? <==> forall id :: id in users ==> users[id].email != email
    ensures r.Some? ==> r.value in users.Values && r.value.email == email
  {
    if exists id :: id in users && users[id].email == email then
      var id :| id in users && users[id].email == email; Some(users[id])
    else
      None
  }

  // ---------------------------------------------------------------------
  // The invariant
  // ---------------------------------------------------------------------

  /** User rows: keyed by their id, below the next id, usernames and emails unique. */
  ghost predicate UsersWellFormed(users: map<UserId, User>, nextUserId: nat) {
    && 1 <= nextUserId
    && (forall id :: id in users ==> users[id].id == id && 1 <= id < nextUserId)
    && UniqueUsernames(users)
    && UniqueEmails(users)
  }

  /** Wallet rows: keyed by their id, at most one per user, owned by an existing user. */
  ghost predicate WalletsWellFormed(wallets: map<WalletId, Wallet>, users: map<UserId, User>, nextWalletId: nat) {
    && 1 <= nextWalletId
    && (forall id :: id in wallets ==>
          wallets[id].id == id && 1 <= id < nextWalletId && wallets[id].userId in users)
    && UniqueOwners(wallets)
  }

  /** The parties a transaction names exist as wallets. */
  predicate PartiesExist(o: Transaction, wallets: map<WalletId, Wallet>) {
    && (o.senderWalletId.Some? ==> o.senderWalletId.value in wallets)
    && (o.receiverWalletId.Some? ==> o.receiverWalletId.value in wallets)
  }

  /** The parties of a transaction row exist, and its shape fits its type: a
      deposit has a receiver only, a transfer two distinct parties, a reversal
      a sender and the id of the transaction it reverses. */
  ghost predicate RowWellFormed(row: Transaction, wallets: map<WalletId, Wallet>) {
    && PartiesExist(row, wallets)
    && (row.txType == Reversal <==> row.originalTransactionId.Some?)
    && match row.txType
       case Deposit => row.senderWalletId.None? && row.receiverWalletId.Some?
       case Transfer => row.senderWalletId.Some? && row.receiverWalletId.Some? && row.senderWalletId != row.receiverWalletId
       case Reversal => row.senderWalletId.Some?
  }

  /** Transaction rows: keyed by their id, below the next id, well formed, idempotency keys unique. */
  ghost predicate TransactionsWellFormed(txs: map<TxId, Transaction>, wallets: map<WalletId, Wallet>, nextTxId: nat) {
    && 1 <= nextTxId
    && (forall id :: id in txs ==>
          && txs[id].id == id && 1 <= id < nextTxId
          && RowWellFormed(txs[id], wallets))
    && UniqueKeys(txs)
  }

  /** Every reversal points at an earlier, now REVERSED transaction; no
      transaction has two reversals; and a transaction is REVERSED only when
      its reversal exists. */
  ghost predicate ReversalsLinked(txs: map<TxId, Transaction>) {
    && (forall k :: k in txs && txs[k].originalTransactionId.Some? ==>
          var o := txs[k].originalTransactionId.value;
          o in txs && o < k && txs[o].status == Reversed)
    && (forall a, b ::
          (a in txs && b in txs && txs[a].originalTransactionId.Some? &&
           txs[a].originalTransactionId == txs[b].originalTransactionId) ==> a == b)
    && (forall o :: o in txs && txs[o].status == Reversed ==> HasReversal(txs, o))
  }

  /** All the money held in wallets. */
  function Total(t: Tables): int {
    SumBalances(t.wallets, t.nextWalletId)
  }

  /** Conservation of money: the balances add up to the deposits that still stand. */
  ghost predicate Conserved(t: Tables) {
    SumBalances(t.wallets, t.nextWalletId) == LiveDeposits(t.transactions, t.nextTxId)
  }

  ghost predicate Invariant(t: Tables) {
    && UsersWellFormed(t.users, t.nextUserId)
    && WalletsWellFormed(t.wallets, t.users, t.nextWalletId)
    && TransactionsWellFormed(t.transactions, t.wallets, t.nextTxId)
    && ReversalsLinked(t.transactions)
    && Conserved(t)
  }

  /** The tables as the services see them inside one atomic step. */
  class Database {
    var users: map<UserId, User>
    var wallets: map<WalletId, Wallet>
    var transactions: map<TxId, Transaction>
    var nextUserId: nat
    var nextWalletId: nat
    var nextTxId: nat

    function Snapshot(): Tables
      reads this
    {
      Tables(users, wallets, transactions, nextUserId, nextWalletId, nextTxId)
    }

    ghost predicate Valid()
      reads this
    {
      Invariant(Snapshot())
    }

    /** Replace one wallet row (an update by primary key). */
    method UpdateWallet(id: WalletId, w: Wallet)
      requires id in wallets
      modifies this
      ensures Snapshot() == old(Snapshot()).(wallets := old(wallets)[id := w])
    {
      wallets := wallets[id := w];
    }

    /** Replace one transaction row (an update by primary key). */
    method UpdateTransaction(row: Transaction)
      requires row.id in transactions
      modifies this
      ensures Snapshot() == old(Snapshot()).(transactions := old(transactions)[row.id := row])
    {
      transactions := transactions[row.id := row];
    }

    /** Replace one user row (an update by primary key). */
    method UpdateUser(u: User)
      requires u.id in users
      modifies this
      ensures Snapshot() == old(Snapshot()).(users := old(users)[u.id := u])
    {
      users := users[u.id := u];
    }

    /** Insert a user and, in the same nested create, its wallet, each under
        the next auto-increment id of its table. */
    method CreateUser(u: User, w: Wallet)
      requires u.id == nextUserId && w.id == nextWalletId && w.userId == u.id
      modifies this
      ensures Snapshot() == old(Snapshot()).(users := old(users)[u.id := u], nextUserId := old(nextUserId) + 1,
                                             wallets := old(wallets)[w.id := w], nextWalletId := old(nextWalletId) + 1)
    {
      users := users[u.id := u];
      nextUserId := nextUserId + 1;
      wallets := wallets[w.id := w];
      nextWalletId := nextWalletId + 1;
    }

    /** Insert a transaction row under the next auto-increment id. */
    method CreateTransaction(row: Transaction)
      requires row.id == nextTxId
      modifies this
      ensures Snapshot() == old(Snapshot()).(transactions := old(transactions)[row.id := row],
                                             nextTxId := old(nextTxId) + 1)
    {
      transactions := transactions[row.id := row];
      nextTxId := nextTxId + 1;
    }

    /** An empty store. */
    constructor ()
      ensures Valid()
      ensures Snapshot() == Tables(map[], map[], map[], 1, 1, 1)
    {
      users, wallets, transactions := map[], map[], map[];
      nextUserId, nextWalletId, nextTxId := 1, 1, 1;
    }
  }
}
