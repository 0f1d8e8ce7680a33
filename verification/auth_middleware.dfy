/**
 * The `protect` middleware: it parses an `Authorization: Bearer <token>` header (section 2.1 of
 * RFC 6750), verifies the token, checks its `exp` claim (section 4.1.4 of RFC 7519), loads the
 * user, and either calls `next()` with `req.user` set or answers 401.
 */
module AuthMiddleware {
  import opened Wrappers
  import opened Text
  import opened Store
  import opened External
  import opened Http

  const BEARER: string := "Bearer "

  /** `next()` with `req.user` set, or a 401 JSON `{ message }` without calling `next()`. */
  datatype Decision = Next(user: PublicUser) | Reject(status: int, message: string)

  /** `authHeader.split(' ')[1]` for a header that starts with "Bearer ". */
  function BearerToken(header: string): string
    requires StartsWith(header, BEARER)
  {
    assert header == "Bearer" + [' '] + header[7..] by {
      assert header[..7] == BEARER;
    }
    SplitAfter("Bearer", header[7..], ' ');
    Split(header, ' ')[1]
  }

  /** The header the frontend builds, `Bearer ${token}`, yields back exactly the token. */
  lemma BearerTokenRoundTrip(token: string)
    requires ' ' !in token
    ensures StartsWith(BEARER + token, BEARER)
    ensures BearerToken(BEARER + token) == token
  {
    var h := BEARER + token;
    assert h[..7] == BEARER;
    assert h == "Bearer" + [' '] + token;
    SplitAfter("Bearer", token, ' ');
    SplitNoSep(token, ' ');
  }

  /** The catch block: the error's `name` picks the message. */
  function ErrorMessage(e: JwtError): string {
    match e
    case TokenExpiredError => "Token has expired"
    case JsonWebTokenError => "Invalid token format"
    case NotBeforeError => "Unauthorized"
    case OtherError => "Unauthorized"
  }

  /** `decoded.exp && Date.now() >= decoded.exp * 1000`: an `exp` of 0 is falsy and skips the check. */
  predicate ExpiredAt(p: Payload, nowMs: int) {
    p.exp.Some? && p.exp.value != 0 && nowMs >= p.exp.value * 1000
  }

  /** The header is present and carries the case-sensitive "Bearer " scheme prefix. */
  predicate HasBearer(header: Option<string>) {
    header.Some? && StartsWith(header.value, BEARER)
  }

  /**
   * `protect(req, res, next)` at time `nowMs`. `storeFails` stands for `User.findByPk` throwing,
   * which the catch block turns into "Unauthorized". A payload without `id` never reaches the
   * store: `findByPk(undefined)` resolves to null at once.
   */
  function Protect(db: Db, header: Option<string>, nowMs: nat, k: Primitives, storeFails: bool): (d: Decision)
    ensures d.Reject? ==> d.status == UNAUTHORIZED
    ensures !HasBearer(header) ==> d == Reject(UNAUTHORIZED, "No token provided")
    ensures d.Next? <==>
      && HasBearer(header)
      && k.verify(BearerToken(header.value), nowMs).Decoded?
      && var p := k.verify(BearerToken(header.value), nowMs).payload;
         !ExpiredAt(p, nowMs) && !storeFails && p.id.Some? && p.id.value in UserIds(db)
    ensures d.Next? ==>
      var id := k.verify(BearerToken(header.value), nowMs).payload.id.value;
      exists u :: u in db.users && u.id == id && d.user == Public(u)
    ensures HasBearer(header) && k.verify(BearerToken(header.value), nowMs).Thrown? ==>
      d == Reject(UNAUTHORIZED, ErrorMessage(k.verify(BearerToken(header.value), nowMs).error))
    ensures HasBearer(header) && k.verify(BearerToken(header.value), nowMs).Decoded? ==>
      var p := k.verify(BearerToken(header.value), nowMs).payload;
      && (ExpiredAt(p, nowMs) ==> d == Reject(UNAUTHORIZED, "Token has expired"))
      && (!ExpiredAt(p, nowMs) && (p.id.None? || (!storeFails && p.id.value !in UserIds(db))) ==>
            d == Reject(UNAUTHORIZED, "User not found"))
      && (!ExpiredAt(p, nowMs) && p.id.Some? && storeFails ==> d == Reject(UNAUTHORIZED, "Unauthorized"))
  {
    if !HasBearer(header) then Reject(UNAUTHORIZED, "No token provided")
    else
      match k.verify(BearerToken(header.value), nowMs)
      case Thrown(e) => Reject(UNAUTHORIZED, ErrorMessage(e))
      case Decoded(p) =>
        if ExpiredAt(p, nowMs) then Reject(UNAUTHORIZED, "Token has expired")
        else if p.id.None? then Reject(UNAUTHORIZED, "User not found")
        else if storeFails then Reject(UNAUTHORIZED, ErrorMessage(OtherError))
        else
          match FindUser(db, p.id.value)
          case None => Reject(UNAUTHORIZED, "User not found")
          case Some(u) => Next(Public(u))
  }

  /** Verification errors map to their messages, each with status 401. */
  lemma ThrownErrorMessages(db: Db, header: Option<string>, nowMs: nat, k: Primitives, storeFails: bool)
    requires HasBearer(header)
    requires k.verify(BearerToken(header.value), nowMs).Thrown?
    ensures var e := k.verify(BearerToken(header.value), nowMs).error;
      && (e == TokenExpiredError ==> Protect(db, header, nowMs, k, storeFails) == Reject(401, "Token has expired"))
      && (e == JsonWebTokenError ==> Protect(db, header, nowMs, k, storeFails) == Reject(401, "Invalid token format"))
      && (e != TokenExpiredError && e != JsonWebTokenError ==> Protect(db, header, nowMs, k, storeFails) == Reject(401, "Unauthorized"))
  {
  }

  /**
   * A token issued for a user who still exists, presented in the frontend's header before its
   * expiry second, lets the request through with that user (minus the password) as `req.user`.
   */
  lemma IssuedTokenAuthenticates(db: Db, u: User, iat: nat, nowMs: nat, k: Primitives)
    requires Lawful(k) && Valid(db)
    requires u in db.users
    requires nowMs < ExpiryOf(k, iat) * 1000
    ensures Protect(db, Some(BEARER + k.sign(u.id, iat)), nowMs, k, false) == Next(Public(u))
  {
    var t := k.sign(u.id, iat);
    BearerTokenRoundTrip(t);
    SecondsAgreeWithMillis(nowMs, ExpiryOf(k, iat));
    var i :| 0 <= i < |db.users| && db.users[i] == u;
    Seqs.FindUnique(db.users, UserKey, u.id, i);
  }

  /** At or after the expiry second the same token is refused with "Token has expired". */
  lemma IssuedTokenExpires(db: Db, id: Id, iat: nat, nowMs: nat, k: Primitives, storeFails: bool)
    requires Lawful(k)
    requires nowMs >= ExpiryOf(k, iat) * 1000
    ensures Protect(db, Some(BEARER + k.sign(id, iat)), nowMs, k, storeFails) == Reject(401, "Token has expired")
  {
    var t := k.sign(id, iat);
    BearerTokenRoundTrip(t);
    SecondsAgreeWithMillis(nowMs, ExpiryOf(k, iat));
  }

  /**
   * Deleting the user after the token was issued makes the still valid, unexpired token fail with
   * "User not found".
   */
  lemma DeletedUserRejected(db: Db, id: Id, iat: nat, nowMs: nat, k: Primitives)
    requires Lawful(k)
    requires nowMs < ExpiryOf(k, iat) * 1000
    ensures Protect(DeleteUserCascade(db, id), Some(BEARER + k.sign(id, iat)), nowMs, k, false)
            == Reject(401, "User not found")
  {
    var t := k.sign(id, iat);
    BearerTokenRoundTrip(t);
    SecondsAgreeWithMillis(nowMs, ExpiryOf(k, iat));
  }
}
