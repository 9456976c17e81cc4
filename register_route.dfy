/** `POST /api/auth/register` (src/app/api/auth/register/route.ts): the
    `registrationSchema` validator, the conflict check against existing users,
    and the creation of the account. */
module RegisterRoute {
  import opened Wrappers
  import opened Db

  datatype Body = Body(username: string, email: string, password: string)

  /** `[a-zA-Z0-9_]`. */
  predicate UsernameChar(c: char)
  {
    ('a' <= c <= 'z') || ('A' <= c <= 'Z') || ('0' <= c <= '9') || c == '_'
  }

  /** `/^[a-zA-Z0-9_]+$/`. */
  predicate UsernamePattern(u: string)
  {
    u != [] && forall k :: 0 <= k < |u| ==> UsernameChar(u[k])
  }

  /** A username the schema accepts. */
  predicate ValidUsername(u: string)
  {
    3 <= |u| <= 20 && UsernamePattern(u)
  }

  /** The issue messages of `safeParse`, field by field; the string checks
      on one field all run, so one username can fail several. `isEmail` is
      zod's email check. */
  function Issues(b: Body, isEmail: string -> bool): (r: seq<string>)
    ensures r == [] <==> ValidUsername(b.username) && isEmail(b.email) && |b.password| >= 12
    ensures |b.password| < 12 ==> r[|r| - 1] == "Password must be at least 12 characters"
  {
    (if |b.username| < 3 then ["Username must be at least 3 characters"] else [])
    + (if |b.username| > 20 then ["Username must be at most 20 characters"] else [])
    + (if !UsernamePattern(b.username) then ["Username can only contain letters, numbers and underscores"] else [])
    + (if !isEmail(b.email) then ["Invalid email address"] else [])
    + (if |b.password| < 12 then ["Password must be at least 12 characters"] else [])
  }

  /** A short name that is also not made of word characters draws both
      messages, the length one first. */
  lemma ShortAndBadName(b: Body, isEmail: string -> bool)
    requires |b.username| < 3 && !UsernamePattern(b.username)
    ensures Issues(b, isEmail)[..2] == ["Username must be at least 3 characters",
                                        "Username can only contain letters, numbers and underscores"]
  {
  }

  /** `findFirst({ where: { OR: [{ username }, { email }] } })`: the first
      user, in table order, with that username or that email. */
  function FirstMatch(users: seq<User>, username: string, email: string): (r: Option<nat>)
    ensures r.None? <==> forall k :: 0 <= k < |users| ==> users[k].username != username && users[k].email != email
    ensures r.Some? ==>
      && r.value < |users|
      && (users[r.value].username == username || users[r.value].email == email)
      && forall k :: 0 <= k < r.value ==> users[k].username != username && users[k].email != email
  {
    if users == [] then None
    else if users[0].username == username || users[0].email == email then Some(0)
    else match FirstMatch(users[1..], username, email)
      case None => None
      case Some(k) => Some(k + 1)
  }

  /** The response body of a new account: no password. */
  datatype Account = Account(id: nat, username: string, email: string, createdAt: int)

  datatype Reply = ValidationFailed(errors: seq<string>) | Conflict(message: string) | Created(account: Account)

  function Status(r: Reply): int
  {
    match r
    case ValidationFailed(_) => 400
    case Conflict(_) => 409
    case Created(_) => 201
  }

  /** No two accounts share a username or an email. */
  ghost predicate DistinctAccounts(users: seq<User>)
  {
    forall a, b :: 0 <= a < b < |users| ==> users[a].username != users[b].username && users[a].email != users[b].email
  }

  /** The handler: validate, look for an existing user, report the username
      before the email, otherwise store the hashed password. */
  method Post(store: Store, body: Body, isEmail: string -> bool, hash: string -> string, now: int)
    returns (reply: Reply)
    requires store.Valid()
    modifies store
    ensures store.Valid()
    ensures store.capsules == old(store.capsules) && store.shares == old(store.shares) && store.comments == old(store.comments)
    ensures Issues(body, isEmail) != [] ==> reply == ValidationFailed(Issues(body, isEmail))
    ensures Issues(body, isEmail) == [] ==>
      match FirstMatch(old(store.users), body.username, body.email)
      case Some(k) =>
        reply == Conflict(if old(store.users)[k].username == body.username
                          then "Username already taken" else "Email already registered")
      case None =>
        && reply == Created(Account(old(|store.users|), body.username, body.email, now))
        && store.users == old(store.users) + [User(old(|store.users|), body.username, body.email, hash(body.password), now)]
    ensures !reply.Created? ==> store.users == old(store.users)
    ensures DistinctAccounts(old(store.users)) ==> DistinctAccounts(store.users)
  {
    var issues := Issues(body, isEmail);
    if issues != [] {
      return ValidationFailed(issues);
    }
    var existing := FirstMatch(store.users, body.username, body.email);
    if existing.Some? {
      var u := store.users[existing.value];
      if u.username == body.username {
        return Conflict("Username already taken");
      }
      if u.email == body.email {
        return Conflict("Email already registered");
      }
    }
    var hashed := hash(body.password);
    var id := store.InsertUser(User(0, body.username, body.email, hashed, now));
    reply := Created(Account(id, body.username, body.email, now));
  }

  /** When one user has the name and another the address, the message depends
      on which comes first in the table: here the address holder does, so the
      taken name is reported as an email conflict. */
  lemma EmailReportedBeforeName()
    ensures var users := [User(0, "bob", "x@y.z", "h", 0), User(1, "alice", "a@b.c", "h", 0)];
      var k := FirstMatch(users, "alice", "x@y.z");
      k == Some(0) && users[k.value].username != "alice"
  {
  }
}
