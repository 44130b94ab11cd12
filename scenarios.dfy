/**
 * End-to-end runs of the services over a fresh store, following the
 * wallet endpoints' test cases: a deposit and its replay, a transfer and an
 * overdraft, a reversal and its repetition, the reversal deadline, and a
 * lost optimistic-lock race.
 */
module Scenarios {
  import opened Wrappers
  import opened Schema
  import opened Store
  import opened Ledger
  import US = UserService
  import opened WalletService

  /** A deposit of 1000 into an empty wallet, then the same request again. */
  method DepositThenReplay() returns (first: Result<Receipt, WalletError>, replay: Result<Receipt, WalletError>)
    ensures first == Ok(Receipt(1000, 1))
    ensures replay == Err(Duplicate)
  {
    var db := new Database();
    var users := new US.UserService(db);
    var service := new WalletService(db);
    assert !US.Taken(db.users, "testuser", "test@example.com");
    var created := users.Create("testuser", "test@example.com", "hash");
    assert db.wallets == map[1 := Wallet(1, 1, 0, 1)] && db.transactions == map[] && db.nextTxId == 1;
    OwnWallet(db.wallets, 1);
    assert !KeyUsed(db.transactions, "unique-key-1");
    first := service.Deposit(1, 1000, "unique-key-1", 0);
    assert db.transactions[1].idempotencyKey == "unique-key-1";
    replay := service.Deposit(1, 1000, "unique-key-1", 0);
  }

  const Sender := User(1, "sender", "sender@example.com", "hash", true)
  const Receiver := User(2, "receiver", "receiver@example.com", "hash", true)

  /** 500 of a 1000 balance go to another user, who then holds 500. */
  method TransferSucceeds() returns (sent: Result<Receipt, WalletError>, receiverBalance: Result<int, WalletError>)
    ensures sent == Ok(Receipt(500, 2))
    ensures receiverBalance == Ok(500)
  {
    var db := new Database();
    var users := new US.UserService(db);
    var service := new WalletService(db);
    TwoUsersFunded(db, users, service);
    sent := PayReceiver(db, service);
    OwnWallet(db.wallets, 2);
    receiverBalance := service.GetBalance(2);
  }

  /** A transfer from an empty wallet is refused. */
  method TransferOverdraft() returns (r: Result<Receipt, WalletError>)
    ensures r == Err(InsufficientFunds)
  {
    var db := new Database();
    var users := new US.UserService(db);
    var service := new WalletService(db);
    TwoUsers(db, users, service);
    ReceiverIsSecondWallet(db.users, db.wallets);
    OwnWallet(db.wallets, 1);
    assert !KeyUsed(db.transactions, "key");
    r := service.Transfer(1, 500, "receiver", None, "key", 0);
  }

  /** A transfer to one's own username is refused. */
  method TransferToSelf() returns (r: Result<Receipt, WalletError>)
    ensures r == Err(SelfTransfer)
  {
    var db := new Database();
    var users := new US.UserService(db);
    var service := new WalletService(db);
    TwoUsers(db, users, service);
    OwnWallet(db.wallets, 1);
    assert !KeyUsed(db.transactions, "key");
    r := service.Transfer(1, 100, "sender", None, "key", 0);
  }

  /** In these runs user i owns wallet i. */
  lemma OwnWallet(wallets: map<WalletId, Wallet>, id: nat)
    requires UniqueOwners(wallets) && id in wallets && wallets[id].userId == id
    ensures HasWallet(wallets, id) && WalletOf(wallets, id) == id
  {
  }

  lemma ReceiverIsSecondWallet(users: map<UserId, User>, wallets: map<WalletId, Wallet>)
    requires users == map[1 := Sender, 2 := Receiver]
    requires wallets.Keys == {1, 2} && wallets[1].userId == 1 && wallets[2].userId == 2
    ensures UniqueUsernames(users) && UniqueOwners(wallets)
    ensures ReceiverOf(users, wallets, "receiver") == Some(2)
  {
    assert users[1].username != users[2].username;
    var r := ReceiverOf(users, wallets, "receiver");
    assert users[2].username == "receiver" && HasWallet(wallets, 2);
    assert r.Some?;
    assert wallets[r.value].userId == 2;
  }

  /** Users "sender" (id 1, wallet 1) and "receiver" (id 2, wallet 2), both wallets empty. */
  method TwoUsers(db: Database, users: US.UserService, service: WalletService)
    requires users.prisma == db && service.prisma == db
    requires db.Snapshot() == Tables(map[], map[], map[], 1, 1, 1)
    modifies db
    ensures db.Valid()
    ensures db.users == map[1 := Sender, 2 := Receiver]
    ensures db.wallets == map[1 := Wallet(1, 1, 0, 1), 2 := Wallet(2, 2, 0, 1)]
    ensures db.transactions == map[] && db.nextUserId == 3 && db.nextWalletId == 3 && db.nextTxId == 1
  {
    assert db.Valid();
    assert !US.Taken(db.users, "sender", "sender@example.com");
    var alice := users.Create("sender", "sender@example.com", "hash");
    assert db.users == map[1 := Sender];
    assert !US.Taken(db.users, "receiver", "receiver@example.com");
    var bob := users.Create("receiver", "receiver@example.com", "hash");
  }

  /** The store TwoUsers leaves behind. */
  const TwoUsersTables := Tables(map[1 := Sender, 2 := Receiver],
                                 map[1 := Wallet(1, 1, 0, 1), 2 := Wallet(2, 2, 0, 1)], map[], 3, 3, 1)

  /** The same store after 1000 was deposited into the sender's wallet as transaction 1. */
  const FundedTables := Tables(map[1 := Sender, 2 := Receiver],
                               map[1 := Wallet(1, 1, 1000, 2), 2 := Wallet(2, 2, 0, 1)],
                               map[1 := DepositRow(1, 1, 1000, 1000, "deposit-key", RevertWindow)], 3, 3, 2)

  lemma SenderFunded()
    ensures DepositApplied(TwoUsersTables, 1, 1000, "deposit-key", RevertWindow) == FundedTables
  {
  }

  /** The two users of TwoUsers, with 1000 deposited into the sender's wallet as transaction 1. */
  method TwoUsersFunded(db: Database, users: US.UserService, service: WalletService)
    requires users.prisma == db && service.prisma == db
    requires db.Snapshot() == Tables(map[], map[], map[], 1, 1, 1)
    modifies db
    ensures db.Valid() && db.Snapshot() == FundedTables
  {
    TwoUsers(db, users, service);
    assert db.Snapshot() == TwoUsersTables;
    OwnWallet(db.wallets, 1);
    assert !KeyUsed(db.transactions, "deposit-key");
    var funded := service.Deposit(1, 1000, "deposit-key", 0);
    SenderFunded();
  }

  /** FundedTables after 500 went from the sender to the receiver as transaction 2. */
  const PaidTables := FundedTables.(
    wallets := map[1 := Wallet(1, 1, 500, 3), 2 := Wallet(2, 2, 500, 2)],
    transactions := FundedTables.transactions[2 := TransferRow(2, 1, 2, 500, 500, "", "transfer-key-1", RevertWindow)],
    nextTxId := 3)

  lemma ReceiverPaid()
    ensures TransferApplied(FundedTables, 1, 2, 500, "", "transfer-key-1", RevertWindow) == PaidTables
  {
  }

  /** The sender of FundedTables sends 500 to "receiver". */
  method PayReceiver(db: Database, service: WalletService) returns (sent: Result<Receipt, WalletError>)
    requires service.prisma == db && db.Valid() && db.Snapshot() == FundedTables
    modifies db
    ensures db.Valid() && db.Snapshot() == PaidTables
    ensures sent == Ok(Receipt(500, 2))
  {
    ReceiverIsSecondWallet(db.users, db.wallets);
    OwnWallet(db.wallets, 1);
    assert !KeyUsed(db.transactions, "transfer-key-1");
    sent := service.Transfer(1, 500, "receiver", None, "transfer-key-1", 0);
    ReceiverPaid();
  }

  const Testuser := User(1, "testuser", "test@example.com", "hash", true)

  /** The deposit of 1000 into wallet 1 at time 0, as transaction 1. */
  const FirstDeposit := DepositRow(1, 1, 1000, 1000, "deposit-key", RevertWindow)

  /** User "testuser" (id 1) with an empty wallet 1. */
  const OneUserTables := Tables(map[1 := Testuser], map[1 := Wallet(1, 1, 0, 1)], map[], 2, 2, 1)

  /** The same store after FirstDeposit. */
  const OneFundedTables := OneUserTables.(wallets := map[1 := Wallet(1, 1, 1000, 2)],
                                          transactions := map[1 := FirstDeposit], nextTxId := 2)

  /** The same store after FirstDeposit was reverted as transaction 2. */
  const OneRevertedTables := OneFundedTables.(
    wallets := map[1 := Wallet(1, 1, 0, 3)],
    transactions := map[1 := FirstDeposit.(status := Reversed), 2 := ReversalRow(2, FirstDeposit, "revert-key-1")],
    nextTxId := 3)

  lemma TestuserFunded()
    ensures DepositApplied(OneUserTables, 1, 1000, "deposit-key", RevertWindow) == OneFundedTables
  {
  }

  lemma FirstDepositReverted()
    ensures PartiesExist(FirstDeposit, OneFundedTables.wallets)
    ensures ReversalApplied(OneFundedTables, FirstDeposit, "revert-key-1") == OneRevertedTables
  {
  }

  /** User "testuser" (id 1, wallet 1) with 1000 deposited at time 0 as transaction 1. */
  method OneUserFunded(db: Database, users: US.UserService, service: WalletService)
    requires users.prisma == db && service.prisma == db
    requires db.Snapshot() == Tables(map[], map[], map[], 1, 1, 1)
    modifies db
    ensures db.Valid() && db.Snapshot() == OneFundedTables
  {
    assert db.Valid();
    assert !US.Taken(db.users, "testuser", "test@example.com");
    var created := users.Create("testuser", "test@example.com", "hash");
    assert db.Snapshot() == OneUserTables;
    OwnWallet(db.wallets, 1);
    assert !KeyUsed(db.transactions, "deposit-key");
    var funded := service.Deposit(1, 1000, "deposit-key", 0);
    TestuserFunded();
  }

  /** OneUserFunded, then its deposit reverted ten seconds later. */
  method OneUserReverted(db: Database, users: US.UserService, service: WalletService)
    returns (reverted: Result<Transaction, WalletError>)
    requires users.prisma == db && service.prisma == db
    requires db.Snapshot() == Tables(map[], map[], map[], 1, 1, 1)
    modifies db
    ensures db.Valid() && db.Snapshot() == OneRevertedTables
    ensures reverted == Ok(ReversalRow(2, FirstDeposit, "revert-key-1"))
  {
    OneUserFunded(db, users, service);
    OwnWallet(db.wallets, 1);
    assert !KeyUsed(db.transactions, "revert-key-1");
    assert !HasReversal(db.transactions, 1);
    reverted := service.Revert(1, 1, "revert-key-1", 10_000);
    FirstDepositReverted();
  }

  /** A deposit reverted ten seconds later, then reverted again. */
  method RevertThenRevertAgain()
    returns (reverted: Result<Transaction, WalletError>, again: Result<Transaction, WalletError>,
             balance: Result<int, WalletError>)
    ensures reverted.Ok? && reverted.value.originalTransactionId == Some(1) && reverted.value.id == 2
    ensures again == Err(AlreadyReverted)
    ensures balance == Ok(0)
  {
    var db := new Database();
    var users := new US.UserService(db);
    var service := new WalletService(db);
    reverted := OneUserReverted(db, users, service);
    OwnWallet(db.wallets, 1);
    assert !KeyUsed(db.transactions, "revert-key-2");
    assert db.transactions[2].originalTransactionId == Some(1);
    again := service.Revert(1, 1, "revert-key-2", 10_000);
    balance := service.GetBalance(1);
  }

  /** A reversal at the very deadline is still allowed; one millisecond later it is not. */
  method RevertAtDeadline(late: bool) returns (r: Result<Transaction, WalletError>)
    ensures late ==> r == Err(RevertExpired)
    ensures !late ==> r.Ok?
  {
    var db := new Database();
    var users := new US.UserService(db);
    var service := new WalletService(db);
    OneUserFunded(db, users, service);
    OwnWallet(db.wallets, 1);
    assert !KeyUsed(db.transactions, "revert-key");
    assert !HasReversal(db.transactions, 1);
    r := service.Revert(1, 1, "revert-key", if late then RevertWindow + 1 else RevertWindow);
  }

  /** A transfer prepared against version 1 of the sender's wallet loses
      the race to a deposit that moved the wallet to version 2. */
  method StaleVersionTransfer() returns (r: Result<Receipt, WalletError>, balance: Result<int, WalletError>)
    ensures r == Err(ConcurrencyConflict)
    ensures balance == Ok(1000)
  {
    var db := new Database();
    var users := new US.UserService(db);
    var service := new WalletService(db);
    TwoUsersFunded(db, users, service);
    r := service.ExecuteTransferTransaction(1, 1, 2, 500, "", "transfer-key", RevertWindow);
    OwnWallet(db.wallets, 1);
    balance := service.GetBalance(1);
  }
}
