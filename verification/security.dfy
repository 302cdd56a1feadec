/**
 * Credential hashing and access-token claims. The bcrypt context, the HS256 encoder
 * keyed with SECRET_KEY and the random secret generator are outside the model: the
 * first two are the fields of a Crypto value handed to every operation, the last is
 * the secret a caller passes in. The one property the core relies on is Sound.
 */
module Security {
  import opened Wrappers
  import opened Uuids

  /** A value of the JWT claim set: a string such as "sub", or the instant "exp". */
  datatype Claim = Text(text: string) | Instant(seconds: int)

  type Claims = map<string, Claim>

  /** The external primitives: pwd_context.hash, pwd_context.verify and jwt.encode. */
  datatype Crypto = Crypto(
    hash: string -> string,
    verify: (string, string) -> bool,
    sign: Claims -> string)

  /** The axiom the model grants the hash: a value verifies against its own hash. */
  ghost predicate Sound(c: Crypto) {
    forall p :: c.verify(p, c.hash(p))
  }

  /** ACCESS_TOKEN_EXPIRE_MINS and REFRESH_TOKEN_EXPIRE_DAYS, which the settings must supply. */
  datatype Settings = Settings(accessTokenExpireMins: int, refreshTokenExpireDays: int)

  const SecondsPerMinute := 60
  const SecondsPerDay := 86400

  /** hash_password: the stored hash, which the password itself verifies against. */
  function HashPassword(c: Crypto, password: string): (h: string)
    ensures Sound(c) ==> c.verify(password, h)
  {
    c.hash(password)
  }

  /** verify_password: a password checked against the hash stored for it is accepted. */
  function VerifyPassword(c: Crypto, plain: string, hashed: string): (ok: bool)
    ensures Sound(c) && hashed == c.hash(plain) ==> ok
  {
    c.verify(plain, hashed)
  }

  /** hash_refresh_token: the stored hash, which the secret itself verifies against. */
  function HashRefreshToken(c: Crypto, token: string): (h: string)
    ensures Sound(c) ==> c.verify(token, h)
  {
    c.hash(token)
  }

  /** verify_refresh_token: a secret checked against the hash stored for it is accepted. */
  function VerifyRefreshToken(c: Crypto, plain: string, hashed: string): (ok: bool)
    ensures Sound(c) && hashed == c.hash(plain) ==> ok
  {
    c.verify(plain, hashed)
  }

  /** Refresh secrets go through the very scheme that protects passwords. */
  lemma RefreshSecretsHashedLikePasswords(c: Crypto, s: string, h: string)
    ensures HashRefreshToken(c, s) == HashPassword(c, s)
    ensures VerifyRefreshToken(c, s, h) == VerifyPassword(c, s, h)
  {
  }

  /** Under Sound, a password and a refresh secret verify against their own hash. */
  lemma HashRoundTrip(c: Crypto, p: string)
    requires Sound(c)
    ensures VerifyPassword(c, p, HashPassword(c, p))
    ensures VerifyRefreshToken(c, p, HashRefreshToken(c, p))
  {
  }

  /** `if expires_delta:` a timedelta (here in seconds) is false when absent or zero. */
  predicate Truthy(delta: Option<int>) {
    delta.Some? && delta.value != 0
  }

  /** The "exp" instant create_access_token computes at time now. */
  function Expiry(cfg: Settings, delta: Option<int>, now: int): (exp: int)
    ensures Truthy(delta) ==> exp == now + delta.value
    ensures !Truthy(delta) ==> exp == now + cfg.accessTokenExpireMins * SecondsPerMinute
  {
    if Truthy(delta) then now + delta.value
    else now + cfg.accessTokenExpireMins * SecondsPerMinute
  }

  /** A zero delta is falsy, so it gets the configured lifetime and not an instant expiry. */
  lemma ZeroDeltaFallsBack(cfg: Settings, now: int)
    ensures Expiry(cfg, Some(0), now) == Expiry(cfg, None, now)
    ensures Expiry(cfg, Some(0), now) == now + cfg.accessTokenExpireMins * SecondsPerMinute
  {
  }

  /**
   * The claim set create_access_token signs: a copy of data with "exp" set. The
   * caller's data is a value, so it is not changed.
   */
  function AccessClaims(cfg: Settings, data: Claims, delta: Option<int>, now: int): (claims: Claims)
    ensures claims.Keys == data.Keys + {"exp"}
    ensures forall k :: k in data && k != "exp" ==> claims[k] == data[k]
    ensures claims["exp"] == Instant(Expiry(cfg, delta, now))
  {
    data["exp" := Instant(Expiry(cfg, delta, now))]
  }

  /**
   * create_access_token: the signature of a claim set made of the caller's claims,
   * with "exp" set to the expiry instant.
   */
  function CreateAccessToken(c: Crypto, cfg: Settings, data: Claims, delta: Option<int>, now: int): (token: string)
    ensures exists claims: Claims ::
      && token == c.sign(claims)
      && claims.Keys == data.Keys + {"exp"}
      && claims["exp"] == Instant(Expiry(cfg, delta, now))
      && (forall k :: k in data && k != "exp" ==> claims[k] == data[k])
  {
    var claims := AccessClaims(cfg, data, delta, now);
    assert claims.Keys == data.Keys + {"exp"};
    c.sign(claims)
  }

  /** {"sub": str(user.id)}, the data both session operations sign. */
  function SubjectClaims(id: Uuid): (data: Claims)
    ensures data.Keys == {"sub"} && data["sub"].Text?
    ensures ParseUuid(data["sub"].text) == Success(id)
  {
    ParseUuidText(id);
    map["sub" := Text(UuidText(id))]
  }

  /** The token the services issue names the user in "sub" and expires at the default time. */
  lemma SessionClaims(cfg: Settings, id: Uuid, now: int)
    ensures AccessClaims(cfg, SubjectClaims(id), None, now) ==
      map["sub" := Text(UuidText(id)), "exp" := Instant(now + cfg.accessTokenExpireMins * SecondsPerMinute)]
  {
  }
}
