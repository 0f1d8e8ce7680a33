/**
 * The `User` model: attribute validation, the `beforeSave` hook that hashes a changed password,
 * `comparePassword`, and `User.create` against the users table.
 */
module UserModel {
  import opened Wrappers
  import opened Seqs
  import opened Store
  import opened External
  import opened Text

  /** The JSON body handed to `User.create(req.body)`. */
  datatype UserBody = UserBody(
    id: Field<Id>, firstName: Field<string>, lastName: Field<string>,
    username: Field<string>, email: Field<string>, password: Field<string>)

  /** Why `User.create` throws: a null column, a blank string, a bad email, or a unique index. */
  datatype UserError = NotNull(column: string) | NotEmpty(column: string) | NotAnEmail | UniqueViolation(column: string)

  /**
   * The attribute rules: every column non-null (an absent `id` takes its UUIDV4 default, an absent
   * name is null), username, email and password not blank (`notEmpty` rejects text made only of
   * whitespace, not just the empty string), and email accepted by `isEmail`.
   * First names and last names may be empty.
   */
  predicate Acceptable(b: UserBody, isEmail: string -> bool) {
    && !b.id.Null?
    && b.firstName.Val? && b.lastName.Val? && b.username.Val? && b.email.Val? && b.password.Val?
    && !Blank(b.username.value) && !Blank(b.email.value) && !Blank(b.password.value)
    && isEmail(b.email.value)
  }

  /** Sequelize's validation pass, reporting one failing rule. */
  function Validate(b: UserBody, isEmail: string -> bool): (r: Option<UserError>)
    ensures r.None? <==> Acceptable(b, isEmail)
  {
    if b.id.Null? then Some(NotNull("id"))
    else if !b.firstName.Val? then Some(NotNull("firstName"))
    else if !b.lastName.Val? then Some(NotNull("lastName"))
    else if !b.username.Val? then Some(NotNull("username"))
    else if !b.email.Val? then Some(NotNull("email"))
    else if !b.password.Val? then Some(NotNull("password"))
    else if Blank(b.username.value) then Some(NotEmpty("username"))
    else if Blank(b.email.value) then Some(NotEmpty("email"))
    else if !isEmail(b.email.value) then Some(NotAnEmail)
    else if Blank(b.password.value) then Some(NotEmpty("password"))
    else None
  }

  /** The `beforeSave` hook: a changed password is replaced by its hash, an unchanged one is kept. */
  function BeforeSave(u: User, passwordChanged: bool, k: Primitives): (r: User)
    ensures r.(password := u.password) == u
    ensures passwordChanged ==> r.password == k.hash(u.password)
    ensures !passwordChanged ==> r == u
  {
    if passwordChanged then u.(password := k.hash(u.password)) else u
  }

  /** `user.comparePassword(candidate)`. */
  function ComparePassword(u: User, candidate: string, k: Primitives): bool {
    k.compare(candidate, u.password)
  }

  /** One `save()` of an existing user: either the password attribute is assigned, or it is not. */
  datatype Save = KeepPassword | SetPassword(plaintext: string)

  function ApplySave(u: User, s: Save, k: Primitives): User {
    match s
    case KeepPassword => BeforeSave(u, false, k)
    case SetPassword(p) => BeforeSave(u.(password := p), true, k)
  }

  function ApplySaves(u: User, saves: seq<Save>, k: Primitives): User
    decreases |saves|
  {
    if |saves| == 0 then u else ApplySaves(ApplySave(u, saves[0], k), saves[1..], k)
  }

  /** The plaintext of the last password-changing save, if any. */
  function LastPlaintext(saves: seq<Save>): Option<string>
    decreases |saves|
  {
    if |saves| == 0 then None
    else match LastPlaintext(saves[1..])
      case Some(p) => Some(p)
      case None => if saves[0].SetPassword? then Some(saves[0].plaintext) else None
  }

  /**
   * After any sequence of saves, the stored value is the hash of the last plaintext assigned,
   * hashed exactly once; saves that leave the password alone never re-hash it.
   */
  lemma {:induction false} SavesHashOnce(u: User, saves: seq<Save>, k: Primitives)
    ensures LastPlaintext(saves).Some? ==> ApplySaves(u, saves, k).password == k.hash(LastPlaintext(saves).value)
    ensures LastPlaintext(saves).None? ==> ApplySaves(u, saves, k).password == u.password
    decreases |saves|
  {
    if |saves| > 0 {
      SavesHashOnce(ApplySave(u, saves[0], k), saves[1..], k);
    }
  }

  /** `comparePassword` succeeds for exactly the plaintext of the last password-changing save. */
  lemma ComparePasswordAfterSaves(u: User, saves: seq<Save>, candidate: string, k: Primitives)
    requires Lawful(k)
    requires LastPlaintext(saves).Some?
    ensures ComparePassword(ApplySaves(u, saves, k), candidate, k) <==> candidate == LastPlaintext(saves).value
  {
    SavesHashOnce(u, saves, k);
  }

  /** The primary key the new row gets: the body's `id`, or the fresh UUIDV4 default. */
  function NewUserId(b: UserBody, newId: Id): Id {
    if b.id.Val? then b.id.value else newId
  }

  /**
   * `User.create(body)` at time `now`: validation, then the `beforeSave` hook (a new record's
   * password always counts as changed), then the primary-key and unique-index checks of the insert.
   */
  function CreateUser(db: Db, b: UserBody, newId: Id, now: int, k: Primitives): (r: Result<User, UserError>)
    ensures r.Ok? <==>
      && Acceptable(b, k.isEmail)
      && NewUserId(b, newId) !in UserIds(db)
      && b.username.value !in KeySet(db.users, UsernameKey)
      && b.email.value !in KeySet(db.users, EmailKey)
    ensures r.Ok? ==>
      && r.value.id == NewUserId(b, newId)
      && r.value.firstName == b.firstName.value && r.value.lastName == b.lastName.value
      && r.value.username == b.username.value && r.value.email == b.email.value
      && r.value.password == k.hash(b.password.value)
      && r.value.createdAt == now && r.value.updatedAt == now
  {
    match Validate(b, k.isEmail)
    case Some(e) => Err(e)
    case None =>
      var id := NewUserId(b, newId);
      if id in UserIds(db) then Err(UniqueViolation("id"))
      else if b.username.value in KeySet(db.users, UsernameKey) then Err(UniqueViolation("username"))
      else if b.email.value in KeySet(db.users, EmailKey) then Err(UniqueViolation("email"))
      else
        var row := User(id, b.firstName.value, b.lastName.value, b.username.value, b.email.value,
                        b.password.value, now, now);
        Ok(BeforeSave(row, true, k))
  }

  /** The table after inserting a created user. */
  function InsertUser(db: Db, u: User): Db {
    db.(users := db.users + [u])
  }

  /** A successful create keeps every table constraint. */
  lemma CreateUserValid(db: Db, b: UserBody, newId: Id, now: int, k: Primitives)
    requires Valid(db)
    requires CreateUser(db, b, newId, now, k).Ok?
    ensures Valid(InsertUser(db, CreateUser(db, b, newId, now, k).value))
  {
    var u := CreateUser(db, b, newId, now, k).value;
    var r := InsertUser(db, u);
    AppendDistinct(db.users, u, UserKey);
    AppendDistinct(db.users, u, UsernameKey);
    AppendDistinct(db.users, u, EmailKey);
    assert UserIds(db) <= UserIds(r) by {
      forall x | x in UserIds(db) ensures x in UserIds(r) {
        var i :| 0 <= i < |db.users| && db.users[i].id == x;
        assert r.users[i] == db.users[i];
      }
    }
  }

  /** The stored password is never the submitted plaintext, and only that plaintext matches it. */
  lemma CreatedPasswordIsHashed(db: Db, b: UserBody, newId: Id, now: int, k: Primitives, candidate: string)
    requires Lawful(k)
    requires CreateUser(db, b, newId, now, k).Ok?
    ensures CreateUser(db, b, newId, now, k).value.password != b.password.value
    ensures ComparePassword(CreateUser(db, b, newId, now, k).value, candidate, k) <==> candidate == b.password.value
  {
  }
}
