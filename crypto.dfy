/**
 * The two primitives the core calls but does not implement, as oracles.
 *
 * Password hashing (bcrypt's hashPassword / isValidPassword) is modelled by an
 * injective encoding that is never empty; salting and one-wayness are not
 * modelled. Token signing (jsonwebtoken's sign / verify) is modelled by the
 * map `signed` from token strings that carry a valid signature under the
 * server secret to the payload they carry: a string outside the map is
 * malformed or tampered with.
 */
module Crypto {

  import opened Wrappers
  import opened UsersModel

  const HashTag: string := "$2b$"

  /** `hashPassword(password)`. */
  function HashPassword(password: string): string
  {
    HashTag + password
  }

  /** `isValidPassword(password, stored)`: the supplied password hashes to the stored hash. */
  predicate IsValidPassword(password: string, stored: string)
  {
    stored == HashPassword(password)
  }

  /** Distinct passwords have distinct hashes, and no hash is the empty string. */
  lemma HashInjective(a: string, b: string)
    ensures HashPassword(a) == HashPassword(b) <==> a == b
    ensures HashPassword(a) != ""
  {
    if HashPassword(a) == HashPassword(b) {
      assert a == HashPassword(a)[|HashTag|..];
      assert b == HashPassword(b)[|HashTag|..];
    }
  }

  /** A password verifies against exactly its own hash; an empty stored password never verifies. */
  lemma PasswordCheck(password: string, other: string)
    ensures IsValidPassword(password, HashPassword(other)) <==> password == other
    ensures !IsValidPassword(password, "")
  {
    HashInjective(password, other);
  }

  /** The claims the core signs: `{ id, email, rol }`. */
  datatype Claims = Claims(id: Id, email: Option<string>, rol: Role)

  /** A signed payload: the claims, the issue time and, when a lifetime was given, the expiry. */
  datatype Jwt = Jwt(claims: Claims, iat: int, exp: Option<int>)

  /** `expiresIn: '1h'`, in seconds. */
  const OneHour: nat := 3600

  /** `jwt.sign(claims, secret, { expiresIn })`; without a lifetime the token never expires. */
  function Sign(claims: Claims, now: int, lifetime: Option<nat>): (t: Jwt)
    ensures t.claims == claims && t.iat == now
    ensures t.exp.Some? <==> lifetime.Some?
    ensures lifetime.Some? ==> t.exp == Some(now + lifetime.value)
  {
    Jwt(claims, now, if lifetime.Some? then Some(now + lifetime.value) else None)
  }

  /** The claims of the user a token is issued for. */
  function ClaimsOf(u: User): Claims
  {
    Claims(u.id, u.email, u.rol)
  }

  /**
   * `jwt.verify(token, secret)`: the payload of a correctly signed token whose
   * expiry, if any, is still in the future (a token is expired once `now >= exp`,
   * section 4.1.4 of RFC 7519); `None` for every other string.
   */
  function Verify(signed: map<string, Jwt>, token: string, now: int): (r: Option<Claims>)
    ensures r.Some? ==> token in signed && r.value == signed[token].claims
    ensures r.Some? <==> token in signed && (signed[token].exp.Some? ==> now < signed[token].exp.value)
  {
    if token in signed && (signed[token].exp.None? || now < signed[token].exp.value)
    then Some(signed[token].claims)
    else None
  }

  /** A token signed with a lifetime verifies to its claims exactly before `iat + lifetime`. */
  lemma SignThenVerify(signed: map<string, Jwt>, token: string, claims: Claims, iat: int, lifetime: nat, now: int)
    requires token in signed && signed[token] == Sign(claims, iat, Some(lifetime))
    ensures Verify(signed, token, now) == (if now < iat + lifetime then Some(claims) else None)
  {
  }

  /** A string that was never signed with the secret never verifies. */
  lemma UnsignedNeverVerifies(signed: map<string, Jwt>, token: string, now: int)
    requires token !in signed
    ensures Verify(signed, token, now) == None
  {
  }
}
