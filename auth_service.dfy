/**
 * The login chain: a login that contains '@' names a user by email, any
 * other login names one by username; the named user must exist, be active
 * and match the password; the token then carries the user's email and id.
 * Password hashing is a parameter of the model: `compare(password, hash)`
 * stands for the hash library's check.
 */
module AuthService {
  import opened Wrappers
  import opened Schema
  import opened Store
  import opened UserService

  datatype AuthError =
    | UserNotFound    // no user with that email or username
    | UserNotActive   // the user was deactivated
    | InvalidPassword

  /** What the access token is signed over: the user's email and, as subject, its id. */
  datatype JwtPayload = JwtPayload(email: string, sub: UserId)

  /** Whether `login` names user `u`: by email when it contains '@', by username otherwise. */
  predicate Names(u: User, login: string) {
    if '@' in login then u.email == login else u.username == login
  }

  function FindByLogin(users: map<UserId, User>, login: string): (r: Option<User>)
    requires UniqueUsernames(users) && UniqueEmails(users)
    ensures r.Some? <==> exists id :: id in users && Names(users[id], login)
    ensures forall id :: id in users && Names(users[id], login) ==> r == Some(users[id])
  {
    if '@' in login then UserByEmail(users, login) else UserByUsername(users, login)
  }

  /** The checks in order: the user exists, is active, and the password
      matches its hash; the result is the user without its hash. */
  function ValidateUser(users: map<UserId, User>, login: string, password: string,
                        compare: (string, string) -> bool): (r: Result<UserView, AuthError>)
    requires UniqueUsernames(users) && UniqueEmails(users)
    ensures r == Err(UserNotFound) <==> forall id :: id in users ==> !Names(users[id], login)
    ensures forall id :: id in users && Names(users[id], login) ==>
              && (r == Err(UserNotActive) <==> !users[id].isActive)
              && (r == Err(InvalidPassword) <==> users[id].isActive && !compare(password, users[id].password))
              && (r.Ok? <==> users[id].isActive && compare(password, users[id].password))
              && (r.Ok? ==> r.value == View(users[id]))
  {
    match FindByLogin(users, login)
    case None => Err(UserNotFound)
    case Some(u) =>
      if !u.isActive then Err(UserNotActive)
      else if !compare(password, u.password) then Err(InvalidPassword)
      else Ok(View(u))
  }

  /** What `login` signs for a validated user. */
  function LoginPayload(u: UserView): JwtPayload {
    JwtPayload(u.email, u.id)
  }

  /** The payload signed for a stored user names that user and no other: its
      subject is the user's id, its email finds that same user again, and no
      two users share a payload. */
  lemma PayloadIdentifiesUser(users: map<UserId, User>, a: UserId, b: UserId)
    requires UsersKeyedById(users) && UniqueEmails(users) && a in users && b in users
    ensures var p := LoginPayload(View(users[a]));
            && p.sub == a
            && FindByEmail(users, p.email) == Some(View(users[a]))
            && (p == LoginPayload(View(users[b])) <==> a == b)
  {
  }

  /** A token is only issued for an active user whom the login names and
      whose hash matches the password, and its subject is that user's id. */
  lemma LoginIdentifiesUser(users: map<UserId, User>, login: string, password: string,
                            compare: (string, string) -> bool)
    requires UsersKeyedById(users) && UniqueUsernames(users) && UniqueEmails(users)
    requires ValidateUser(users, login, password, compare).Ok?
    ensures var p := LoginPayload(ValidateUser(users, login, password, compare).value);
            && p.sub in users
            && users[p.sub].email == p.email
            && users[p.sub].isActive
            && Names(users[p.sub], login)
            && compare(password, users[p.sub].password)
            && ('@' in p.email ==> FindByLogin(users, p.email) == Some(users[p.sub]))
  {
  }

  /** Once deactivated, a user can no longer log in, whatever the password. */
  lemma DeactivatedUserCannotLogin(t: Tables, id: UserId, login: string, password: string,
                                   compare: (string, string) -> bool)
    requires Invariant(t) && id in t.users && Names(t.users[id], login)
    ensures var t' := Deactivated(t, id);
            Invariant(t') && ValidateUser(t'.users, login, password, compare) == Err(UserNotActive)
  {
    DeactivateKeepsInvariant(t, id);
    var t' := Deactivated(t, id);
    assert id in t'.users && Names(t'.users[id], login);
  }

  /** A newly created user logs in with its username (which has no '@') or
      its email (which has one) and the password its hash was made from. */
  lemma CreatedUserCanLogin(t: Tables, username: string, email: string, hashedPassword: string,
                            password: string, compare: (string, string) -> bool)
    requires Invariant(t) && !Taken(t.users, username, email)
    requires '@' !in username && '@' in email && compare(password, hashedPassword)
    ensures var t' := UserCreated(t, username, email, hashedPassword);
            var v := UserView(t.nextUserId, username, email, true);
            && Invariant(t')
            && ValidateUser(t'.users, username, password, compare) == Ok(v)
            && ValidateUser(t'.users, email, password, compare) == Ok(v)
  {
    CreateKeepsInvariant(t, username, email, hashedPassword);
    var t' := UserCreated(t, username, email, hashedPassword);
    assert t.nextUserId in t'.users && Names(t'.users[t.nextUserId], username) && Names(t'.users[t.nextUserId], email);
  }
}
