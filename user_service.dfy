/**
 * The user registry: account creation (every user is created together with
 * an empty wallet), deactivation, and the reads by a unique column. Reads
 * return the user without its password hash.
 */
module UserService {
  import opened Wrappers
  import opened Schema
  import opened Accounting
  import opened Store

  /** A user as the service returns it: every column but the password hash. */
  datatype UserView = UserView(id: UserId, username: string, email: string, isActive: bool)

  datatype UserError =
    | AlreadyExists   // some user already has this email or this username
    | UpdateFailed    // the row to update does not exist, reported as an internal error

  const NewWalletBalance: int := 0
  const NewWalletVersion: int := 1

  function View(u: User): UserView {
    UserView(u.id, u.username, u.email, u.isActive)
  }

  predicate UsersKeyedById(users: map<UserId, User>) {
    forall id :: id in users ==> users[id].id == id
  }

  // ---------------------------------------------------------------------
  // Reads
  // ---------------------------------------------------------------------

  /** The user with this username, without its password hash. */
  function FindByUsername(users: map<UserId, User>, username: string): (r: Option<UserView>)
    requires UniqueUsernames(users)
    ensures r.Some? <==> exists id :: id in users && users[id].username == username
    ensures forall id :: id in users && users[id].username == username ==> r == Some(View(users[id]))
  {
    match UserByUsername(users, username)
    case None => None
    case Some(u) => Some(View(u))
  }

  /** The user with this email, without its password hash. */
  function FindByEmail(users: map<UserId, User>, email: string): (r: Option<UserView>)
    requires UniqueEmails(users)
    ensures r.Some? <==> exists id :: id in users && users[id].email == email
    ensures forall id :: id in users && users[id].email == email ==> r == Some(View(users[id]))
  {
    match UserByEmail(users, email)
    case None => None
    case Some(u) => Some(View(u))
  }

  /** Every user, without password hashes; the store promises no order. */
  function FindAll(users: map<UserId, User>): (r: set<UserView>)
    requires UsersKeyedById(users)
    ensures forall id :: id in users ==> View(users[id]) in r
    ensures forall v :: v in r ==> v.id in users && View(users[v.id]) == v
    ensures |r| == |users|
  {
    var r := set id | id in users :: View(users[id]);
    ViewsCounted(users, users.Keys);
    r
  }

  /** Distinct users give distinct views, so a set of users has as many views as members. */
  lemma {:induction false} ViewsCounted(users: map<UserId, User>, ids: set<UserId>)
    requires UsersKeyedById(users) && ids <= users.Keys
    ensures |set id | id in ids :: View(users[id])| == |ids|
    decreases ids
  {
    if ids != {} {
      var k :| k in ids;
      var rest := ids - {k};
      ViewsCounted(users, rest);
      var all := set id | id in ids :: View(users[id]);
      var others := set id | id in rest :: View(users[id]);
      forall v | v in all ensures v in others + {View(users[k])} {
        var id :| id in ids && View(users[id]) == v;
        if id != k {
          assert id in rest;
        }
      }
      forall v | v in others ensures v in all && v.id != k {
        var id :| id in rest && View(users[id]) == v;
        assert v.id == id;
      }
      assert all == others + {View(users[k])};
    }
  }

  // ---------------------------------------------------------------------
  // The steps
  // ---------------------------------------------------------------------

  predicate Taken(users: map<UserId, User>, username: string, email: string) {
    exists id :: id in users && (users[id].email == email || users[id].username == username)
  }

  /** The new user, active, and its wallet with balance 0 and version 1, under the next ids. */
  function UserCreated(t: Tables, username: string, email: string, hashedPassword: string): Tables {
    t.(users := t.users[t.nextUserId := User(t.nextUserId, username, email, hashedPassword, true)],
       wallets := t.wallets[t.nextWalletId := Wallet(t.nextWalletId, t.nextUserId, NewWalletBalance, NewWalletVersion)],
       nextUserId := t.nextUserId + 1,
       nextWalletId := t.nextWalletId + 1)
  }

  function Deactivated(t: Tables, id: UserId): Tables
    requires id in t.users
  {
    t.(users := t.users[id := t.users[id].(isActive := false)])
  }

  lemma CreatedUsersWellFormed(users: map<UserId, User>, n: nat, username: string, email: string,
                               hashedPassword: string)
    requires UsersWellFormed(users, n) && !Taken(users, username, email)
    ensures UsersWellFormed(users[n := User(n, username, email, hashedPassword, true)], n + 1)
  {
  }

  lemma CreatedWalletsWellFormed(wallets: map<WalletId, Wallet>, users: map<UserId, User>, n: nat,
                                 users': map<UserId, User>, userId: UserId)
    requires WalletsWellFormed(wallets, users, n) && users.Keys <= users'.Keys && userId in users'
    requires forall id :: id in wallets ==> wallets[id].userId != userId
    ensures WalletsWellFormed(wallets[n := Wallet(n, userId, NewWalletBalance, NewWalletVersion)], users', n + 1)
  {
  }

  /** Adding a wallet keeps every transaction row well formed. */
  lemma CreatedRowsWellFormed(txs: map<TxId, Transaction>, wallets: map<WalletId, Wallet>, n: nat,
                              w: WalletId, wallet: Wallet)
    requires TransactionsWellFormed(txs, wallets, n)
    ensures TransactionsWellFormed(txs, wallets[w := wallet], n)
  {
  }

  /** A new user's wallet brings no money in. */
  lemma CreateConserves(t: Tables, username: string, email: string, hashedPassword: string)
    requires Conserved(t)
    ensures var t' := UserCreated(t, username, email, hashedPassword);
            && Conserved(t')
            && SumBalances(t'.wallets, t'.nextWalletId) == SumBalances(t.wallets, t.nextWalletId)
  {
    var w := Wallet(t.nextWalletId, t.nextUserId, NewWalletBalance, NewWalletVersion);
    SumBalancesUpdate(t.wallets, t.nextWalletId, w, t.nextWalletId);
  }

  /** Creating a user whose email and username are free keeps the store's
      invariant and adds no money. */
  lemma CreateKeepsInvariant(t: Tables, username: string, email: string, hashedPassword: string)
    requires Invariant(t) && !Taken(t.users, username, email)
    ensures var t' := UserCreated(t, username, email, hashedPassword);
            && Invariant(t')
            && SumBalances(t'.wallets, t'.nextWalletId) == SumBalances(t.wallets, t.nextWalletId)
  {
    var t' := UserCreated(t, username, email, hashedPassword);
    var w := Wallet(t.nextWalletId, t.nextUserId, NewWalletBalance, NewWalletVersion);
    CreatedUsersWellFormed(t.users, t.nextUserId, username, email, hashedPassword);
    CreatedWalletsWellFormed(t.wallets, t.users, t.nextWalletId, t'.users, t.nextUserId);
    CreatedRowsWellFormed(t.transactions, t.wallets, t.nextTxId, t.nextWalletId, w);
    CreateConserves(t, username, email, hashedPassword);
  }

  /** The new user owns exactly one wallet, and it is empty. */
  lemma CreatedUserHasEmptyWallet(t: Tables, username: string, email: string, hashedPassword: string)
    requires Invariant(t) && !Taken(t.users, username, email)
    ensures var t' := UserCreated(t, username, email, hashedPassword);
            && UniqueOwners(t'.wallets)
            && HasWallet(t'.wallets, t.nextUserId)
            && WalletOf(t'.wallets, t.nextUserId) == t.nextWalletId
            && t'.wallets[t.nextWalletId].balanceInCents == 0
  {
    CreateKeepsInvariant(t, username, email, hashedPassword);
    var t' := UserCreated(t, username, email, hashedPassword);
    assert t'.wallets[t.nextWalletId].userId == t.nextUserId;
  }

  /** Deactivation changes one flag and keeps the invariant. */
  lemma DeactivateKeepsInvariant(t: Tables, id: UserId)
    requires Invariant(t) && id in t.users
    ensures Invariant(Deactivated(t, id))
  {
  }

  // ---------------------------------------------------------------------
  // The service
  // ---------------------------------------------------------------------

  class UserService {
    const prisma: Database

    constructor (prisma: Database)
      ensures this.prisma == prisma
    {
      this.prisma := prisma;
    }

    ghost predicate Valid()
      reads prisma
    {
      prisma.Valid()
    }

    /** Refuse an email or username already in use; otherwise insert the
        user (with the password already hashed) and its empty wallet in one
        step, and return the user without its hash. */
    method Create(username: string, email: string, hashedPassword: string) returns (r: Result<UserView, UserError>)
      requires Valid()
      modifies prisma
      ensures Valid()
      ensures r.Err? <==> old(Taken(prisma.users, username, email))
      ensures r.Err? ==> r.error == AlreadyExists && unchanged(prisma)
      ensures r.Ok? ==>
                && prisma.Snapshot() == UserCreated(old(prisma.Snapshot()), username, email, hashedPassword)
                && r.value == UserView(old(prisma.nextUserId), username, email, true)
                && Total(prisma.Snapshot()) == old(Total(prisma.Snapshot()))
    {
      if Taken(prisma.users, username, email) {
        return Err(AlreadyExists);
      }
      ghost var after := UserCreated(prisma.Snapshot(), username, email, hashedPassword);
      CreateKeepsInvariant(prisma.Snapshot(), username, email, hashedPassword);
      var user := User(prisma.nextUserId, username, email, hashedPassword, true);
      prisma.CreateUser(user, Wallet(prisma.nextWalletId, user.id, NewWalletBalance, NewWalletVersion));
      assert prisma.Snapshot() == after;
      r := Ok(View(user));
    }

    /** Mark the user inactive; the row stays, with its wallet and history. */
    method DeactivateById(id: int) returns (r: Option<UserError>)
      requires Valid()
      modifies prisma
      ensures Valid()
      ensures r.Some? <==> old(id !in prisma.users)
      ensures r.Some? ==> r.value == UpdateFailed && unchanged(prisma)
      ensures r.None? ==> prisma.Snapshot() == Deactivated(old(prisma.Snapshot()), id)
    {
      if id !in prisma.users {
        return Some(UpdateFailed);
      }
      DeactivateKeepsInvariant(prisma.Snapshot(), id);
      prisma.UpdateUser(prisma.users[id].(isActive := false));
      r := None;
    }
  }

  /** A newly created user is found by its username and by its email, active. */
  lemma CreatedUserIsFound(t: Tables, username: string, email: string, hashedPassword: string)
    requires Invariant(t) && !Taken(t.users, username, email)
    ensures var t' := UserCreated(t, username, email, hashedPassword);
            && Invariant(t')
            && FindByUsername(t'.users, username) == Some(UserView(t.nextUserId, username, email, true))
            && FindByEmail(t'.users, email) == Some(UserView(t.nextUserId, username, email, true))
  {
    CreateKeepsInvariant(t, username, email, hashedPassword);
  }

  /** Deactivation is seen by every later read and changes nothing else of the user. */
  lemma DeactivatedIsInactive(t: Tables, id: UserId)
    requires Invariant(t) && id in t.users
    ensures var t' := Deactivated(t, id);
            && FindByUsername(t'.users, t.users[id].username)
                 == Some(View(t.users[id]).(isActive := false))
            && t'.wallets == t.wallets && t'.transactions == t.transactions
  {
    DeactivateKeepsInvariant(t, id);
    var t' := Deactivated(t, id);
    assert id in t'.users && t'.users[id].username == t.users[id].username;
  }
}
