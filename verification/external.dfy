/**
 * The external libraries the backend calls, as parameters: bcryptjs (`hash` at cost 12, `compare`),
 * jsonwebtoken (`sign` with the process-wide secret and `JWT_EXPIRES_IN`, `verify`) and the
 * `isEmail` validator. Their behaviour is pinned down only by the laws in `Lawful`.
 */
module External {
  import opened Wrappers

  /** The `name` of an error jsonwebtoken's `verify` throws; `OtherError` is any other exception. */
  datatype JwtError = TokenExpiredError | JsonWebTokenError | NotBeforeError | OtherError

  /** A decoded token payload: the `id` claim and the `exp` claim (seconds since the epoch). */
  datatype Payload = Payload(id: Option<string>, exp: Option<int>)

  datatype Verified = Decoded(payload: Payload) | Thrown(error: JwtError)

  datatype Primitives = Primitives(
    hash: string -> string,            // bcrypt.hash(plaintext, 12)
    compare: (string, string) -> bool, // bcrypt.compare(candidate, storedHash)
    sign: (string, nat) -> string,     // signToken(userId) issued at the given second
    verify: (string, nat) -> Verified, // verify(token, secret) at the given millisecond
    lifetime: nat,                     // JWT_EXPIRES_IN, in seconds
    isEmail: string -> bool)           // validator's isEmail

  /** Expiry second of a token issued at `iat`. */
  function ExpiryOf(k: Primitives, iat: nat): nat {
    iat + k.lifetime
  }

  /**
   * The properties the application relies on:
   * a hash matches its own plaintext and no other, and never equals it;
   * a signed token is a JWT (no space in it), and verifying it at `nowMs` yields the signed id and
   * expiry while `floor(nowMs / 1000) < exp`, and `TokenExpiredError` from then on (jsonwebtoken
   * compares whole seconds with no clock tolerance).
   */
  ghost predicate Lawful(k: Primitives) {
    && (forall p :: k.compare(p, k.hash(p)))
    && (forall p, q :: q != p ==> !k.compare(q, k.hash(p)))
    && (forall p :: k.hash(p) != p)
    && (forall id, iat :: ' ' !in k.sign(id, iat))
    && (forall id, iat, nowMs: nat :: k.verify(k.sign(id, iat), nowMs) ==
          if nowMs / 1000 >= ExpiryOf(k, iat) then Thrown(TokenExpiredError)
          else Decoded(Payload(Some(id), Some(ExpiryOf(k, iat)))))
  }

  /** jsonwebtoken's whole-second expiry test agrees with the middleware's millisecond test. */
  lemma SecondsAgreeWithMillis(nowMs: nat, exp: nat)
    ensures (nowMs / 1000 >= exp) <==> (nowMs >= exp * 1000)
  {
    if nowMs / 1000 >= exp {
      assert nowMs >= (nowMs / 1000) * 1000;
    } else {
      assert nowMs < (nowMs / 1000 + 1) * 1000;
    }
  }
}
