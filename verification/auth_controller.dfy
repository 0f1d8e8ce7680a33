/** The auth controller: `register`, `login` and `getProfile`. */
module AuthController {
  import opened Wrappers
  import opened Store
  import opened External
  import opened Http
  import opened UserModel
  import AuthMiddleware

  /** The public part of an account returned by register and login. */
  datatype Account = Account(email: string, firstName: string, lastName: string, username: string)

  function AccountOf(u: User): Account {
    Account(u.email, u.firstName, u.lastName, u.username)
  }

  /**
   * The JSON bodies the three handlers send. `Failed` is register's `{ message, error }`, where
   * `error` is the thrown error's message; the model carries the error itself.
   */
  datatype AuthBody =
    | Issued(token: string, user: Account)
    | Message(message: string)
    | Failed(message: string, error: UserError)
    | Profile(profile: PublicUser)

  /** What an asynchronous handler ends in: a response, or an unhandled rejection that sends none. */
  datatype Outcome = Replied(response: Response<AuthBody>) | NoReply

  /** The second in which a token signed at `nowMs` is issued (`iat`). */
  function IssuedAt(nowMs: nat): nat { nowMs / 1000 }

  /**
   * `register`: `User.create(req.body)`, then 201 with a token for the new id and the four public
   * fields; any exception answers 400 "Registration failed" with the error and stores nothing.
   */
  function Register(db: Db, b: UserBody, newId: Id, nowMs: nat, k: Primitives): (r: (Response<AuthBody>, Db))
    ensures CreateUser(db, b, newId, nowMs, k).Ok? ==>
      var u := CreateUser(db, b, newId, nowMs, k).value;
      && r.0 == Response(CREATED, Issued(k.sign(u.id, IssuedAt(nowMs)), AccountOf(u)))
      && r.1 == InsertUser(db, u)
    ensures CreateUser(db, b, newId, nowMs, k).Err? ==>
      r == (Response(BAD_REQUEST, Failed("Registration failed", CreateUser(db, b, newId, nowMs, k).error)), db)
  {
    match CreateUser(db, b, newId, nowMs, k)
    case Err(e) => (Response(BAD_REQUEST, Failed("Registration failed", e)), db)
    case Ok(u) => (Response(CREATED, Issued(k.sign(u.id, IssuedAt(nowMs)), AccountOf(u))), InsertUser(db, u))
  }

  /**
   * A second registration reusing a username or an email is refused with 400 and stores nothing;
   * when the body is otherwise acceptable, the error reported is that unique index.
   */
  lemma RegisterDuplicateRefused(db: Db, b: UserBody, newId: Id, nowMs: nat, k: Primitives)
    requires b.username.Val? && b.email.Val?
    requires b.username.value in Seqs.KeySet(db.users, UsernameKey) || b.email.value in Seqs.KeySet(db.users, EmailKey)
    ensures var r := Register(db, b, newId, nowMs, k);
      && r.1 == db && r.0.status == 400 && r.0.body.Failed? && r.0.body.message == "Registration failed"
    ensures Acceptable(b, k.isEmail) && NewUserId(b, newId) !in UserIds(db) ==>
      var e := Register(db, b, newId, nowMs, k).0.body.error;
      e == UniqueViolation("username") || e == UniqueViolation("email")
  {
  }

  /** The body `login` reads: `{ username, password }`. */
  datatype LoginBody = LoginBody(username: Field<string>, password: Field<string>)

  const INVALID_CREDENTIALS: string := "Invalid credentials"

  /**
   * `login`. A missing `username` makes the query builder throw and a missing `password` makes
   * bcrypt throw; the handler has no try/catch, so neither sends a response. `comparePassword` is
   * only reached when a user with that username exists.
   */
  function Login(db: Db, b: LoginBody, nowMs: nat, k: Primitives): (r: Outcome)
    ensures r.Replied? && r.response.status != OK ==> r.response == Response(UNAUTHORIZED, Message(INVALID_CREDENTIALS))
    ensures b.username.Null? ==> r == Replied(Response(UNAUTHORIZED, Message(INVALID_CREDENTIALS)))
    ensures b.username.Val? && FindUserByUsername(db, b.username.value).None? ==>
              r == Replied(Response(UNAUTHORIZED, Message(INVALID_CREDENTIALS)))
    ensures r.Replied? && r.response.status == OK ==>
      b.username.Val? && b.password.Val? &&
      exists u :: u in db.users && u.username == b.username.value && ComparePassword(u, b.password.value, k) &&
        r.response.body == Issued(k.sign(u.id, IssuedAt(nowMs)), AccountOf(u))
    ensures b.username.Val? && FindUserByUsername(db, b.username.value).Some? && b.password.Val? ==>
      var u := FindUserByUsername(db, b.username.value).value;
      && (ComparePassword(u, b.password.value, k) ==>
            r == Replied(Response(OK, Issued(k.sign(u.id, IssuedAt(nowMs)), AccountOf(u)))))
      && (!ComparePassword(u, b.password.value, k) ==>
            r == Replied(Response(UNAUTHORIZED, Message(INVALID_CREDENTIALS))))
  {
    match b.username
    case Absent => NoReply
    case Null => Replied(Response(UNAUTHORIZED, Message(INVALID_CREDENTIALS)))
    case Val(name) =>
      match FindUserByUsername(db, name)
      case None => Replied(Response(UNAUTHORIZED, Message(INVALID_CREDENTIALS)))
      case Some(u) =>
        match b.password
        case Val(p) =>
          if !ComparePassword(u, p, k) then Replied(Response(UNAUTHORIZED, Message(INVALID_CREDENTIALS)))
          else Replied(Response(OK, Issued(k.sign(u.id, IssuedAt(nowMs)), AccountOf(u))))
        case _ => NoReply
  }

  /**
   * An unknown username and a known username with a wrong password get the identical response,
   * so the answer does not reveal which usernames exist.
   */
  lemma LoginFailuresIndistinguishable(db: Db, unknown: string, known: string, wrong: string, nowMs: nat, k: Primitives)
    requires Lawful(k)
    requires FindUserByUsername(db, unknown).None?
    requires FindUserByUsername(db, known).Some?
    requires var u := FindUserByUsername(db, known).value; exists p :: u.password == k.hash(p) && p != wrong
    ensures Login(db, LoginBody(Val(unknown), Val(wrong)), nowMs, k)
         == Login(db, LoginBody(Val(known), Val(wrong)), nowMs, k)
         == Replied(Response(401, Message("Invalid credentials")))
  {
  }

  /**
   * Any stored account logs in with the password whose hash it holds, and gets a token for its own
   * id; every other password is refused.
   */
  lemma StoredUserLogsIn(db: Db, u: User, p: string, q: string, nowMs: nat, k: Primitives)
    requires Lawful(k) && Valid(db)
    requires u in db.users && u.password == k.hash(p) && q != p
    ensures Login(db, LoginBody(Val(u.username), Val(p)), nowMs, k)
         == Replied(Response(OK, Issued(k.sign(u.id, IssuedAt(nowMs)), AccountOf(u))))
    ensures Login(db, LoginBody(Val(u.username), Val(q)), nowMs, k)
         == Replied(Response(UNAUTHORIZED, Message(INVALID_CREDENTIALS)))
  {
    var i :| 0 <= i < |db.users| && db.users[i] == u;
    Seqs.FindUnique(db.users, UsernameKey, u.username, i);
  }

  /** `comparePassword` is short-circuited away for unknown usernames: bcrypt's answer cannot matter. */
  lemma LoginUnknownIgnoresCompare(db: Db, b: LoginBody, nowMs: nat, k: Primitives, other: (string, string) -> bool)
    requires b.username.Val? && FindUserByUsername(db, b.username.value).None?
    ensures Login(db, b, nowMs, k) == Login(db, b, nowMs, k.(compare := other))
  {
  }

  /** `getProfile`: 404 "User not found" without `req.user`, otherwise `req.user` unchanged. */
  function GetProfile(user: Option<PublicUser>): (r: Response<AuthBody>)
    ensures user.None? <==> r.status == NOT_FOUND
    ensures user.None? ==> r.body == Message("User not found")
    ensures user.Some? ==> r == Response(OK, Profile(user.value))
  {
    match user
    case None => Response(NOT_FOUND, Message("User not found"))
    case Some(u) => Response(OK, Profile(u))
  }

  /**
   * Register, then log in with the same password: the login succeeds, and the token it returns
   * passes `protect` as the very user registration created.
   */
  lemma RegisterThenLogin(db: Db, b: UserBody, newId: Id, t0: nat, t1: nat, t2: nat, k: Primitives)
    requires Lawful(k) && Valid(db)
    requires CreateUser(db, b, newId, t0, k).Ok?
    requires t2 < ExpiryOf(k, IssuedAt(t1)) * 1000
    ensures var db1 := Register(db, b, newId, t0, k).1;
      var u := CreateUser(db, b, newId, t0, k).value;
      && Login(db1, LoginBody(b.username, b.password), t1, k)
           == Replied(Response(OK, Issued(k.sign(u.id, IssuedAt(t1)), AccountOf(u))))
      && AuthMiddleware.Protect(db1, Some(AuthMiddleware.BEARER + k.sign(u.id, IssuedAt(t1))), t2, k, false)
           == AuthMiddleware.Next(Public(u))
  {
    var u := CreateUser(db, b, newId, t0, k).value;
    var db1 := InsertUser(db, u);
    CreateUserValid(db, b, newId, t0, k);
    assert db1.users[|db.users|] == u;
    Seqs.FindUnique(db1.users, UsernameKey, u.username, |db.users|);
    AuthMiddleware.IssuedTokenAuthenticates(db1, u, IssuedAt(t1), t2, k);
  }
}
