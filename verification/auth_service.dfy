/**
 * Sessions: login issues an access token and stores the hash of a fresh refresh
 * secret; refresh exchanges a refresh secret for a new access token.
 */
module AuthService {
  import opened Wrappers
  import opened Uuids
  import opened Errors
  import opened Models
  import opened Security

  const TokenType := "bearer"

  /** The Token response: both raw tokens and the scheme name. */
  datatype Token = Token(accessToken: string, refreshToken: string, tokenType: string)

  /** The access token a session operation issues for a user at time now. */
  function SessionAccessToken(c: Crypto, cfg: Settings, id: Uuid, now: int): (token: string)
    ensures token == c.sign(map["sub" := Text(UuidText(id)),
                                "exp" := Instant(now + cfg.accessTokenExpireMins * SecondsPerMinute)])
  {
    SessionClaims(cfg, id, now);
    CreateAccessToken(c, cfg, SubjectClaims(id), None, now)
  }

  /** The refresh_tokens row login adds for a secret: its hash and its expiry. */
  function IssuedRecord(c: Crypto, cfg: Settings, userId: Uuid, secret: string, now: int): (rec: RefreshToken)
    ensures rec.userId == userId
    ensures rec.tokenHash == HashRefreshToken(c, secret)
    ensures rec.expiresAt == now + cfg.refreshTokenExpireDays * SecondsPerDay
    ensures Sound(c) ==> VerifyRefreshToken(c, secret, rec.tokenHash)
    ensures rec.expiresAt > now <==> cfg.refreshTokenExpireDays > 0
  {
    RefreshToken(userId, HashRefreshToken(c, secret), now + cfg.refreshTokenExpireDays * SecondsPerDay)
  }

  /**
   * authenticate_user: the user with that email, else 404; the password must verify
   * against the stored hash, else 401; then one refresh record is added and the
   * bearer pair returned. `secret` is what create_refresh_token drew.
   */
  method AuthenticateUser(db: Db, c: Crypto, cfg: Settings, email: string, password: string,
                          now: int, secret: string) returns (r: Result<Token, HttpError>)
    requires db.Valid()
    modifies db`refreshTokens
    ensures db.Valid()
    ensures UserWithEmail(db.users, email).None? ==>
      r == Failure(EmailNotRegistered(email)) && db.refreshTokens == old(db.refreshTokens)
    ensures UserWithEmail(db.users, email).Some? ==>
      var u := UserWithEmail(db.users, email).value;
      if !VerifyPassword(c, password, u.password) then
        r == Failure(IncorrectPassword) && db.refreshTokens == old(db.refreshTokens)
      else
        && r == Success(Token(SessionAccessToken(c, cfg, u.id, now), secret, TokenType))
        && db.refreshTokens == old(db.refreshTokens) + [IssuedRecord(c, cfg, u.id, secret, now)]
  {
    var found := UserWithEmail(db.users, email);
    if found.None? {
      return Failure(EmailNotRegistered(email));
    }
    var user := found.value;
    if !VerifyPassword(c, password, user.password) {
      return Failure(IncorrectPassword);
    }
    var accessToken := SessionAccessToken(c, cfg, user.id, now);
    var record := IssuedRecord(c, cfg, user.id, secret, now);
    db.refreshTokens := db.refreshTokens + [record];
    r := Success(Token(accessToken, secret, TokenType));
  }

  /** A record refresh considers: unexpired at now, and joined with its owner. */
  predicate IsLive(users: seq<User>, rec: RefreshToken, now: int) {
    rec.expiresAt > now && UserWithId(users, rec.userId).Some?
  }

  /**
   * select(RefreshToken).join(User).filter(expires_at > now): the unexpired records
   * whose owner exists, in table order.
   */
  function LiveRecords(users: seq<User>, records: seq<RefreshToken>, now: int): (live: seq<RefreshToken>)
    ensures forall rec :: rec in live <==> rec in records && IsLive(users, rec, now)
  {
    if records == [] then []
    else (if IsLive(users, records[0], now) then [records[0]] else []) + LiveRecords(users, records[1..], now)
  }

  /**
   * refresh_access_token as written: only the FIRST live record is checked against
   * the presented secret. On success the presented secret comes back unchanged with
   * a new access token for the record's owner. The store is only read.
   */
  function RefreshAccessToken(c: Crypto, cfg: Settings, users: seq<User>, records: seq<RefreshToken>,
                              presented: string, now: int): (r: Result<Token, HttpError>)
    ensures r.Success? <==>
      var live := LiveRecords(users, records, now);
      live != [] && VerifyRefreshToken(c, presented, live[0].tokenHash)
    ensures r.Success? ==>
      var owner := LiveRecords(users, records, now)[0].userId;
      r.value == Token(SessionAccessToken(c, cfg, owner, now), presented, TokenType)
    ensures r.Failure? ==> r.error == InvalidRefreshToken
  {
    var live := LiveRecords(users, records, now);
    if live == [] || !VerifyRefreshToken(c, presented, live[0].tokenHash) then
      Failure(InvalidRefreshToken)
    else
      assert live[0] in live;
      match UserWithId(users, live[0].userId)
      case None => Failure(RefreshOwnerMissing)
      case Some(user) => Success(Token(SessionAccessToken(c, cfg, user.id, now), presented, TokenType))
  }

  /**
   * Login followed by refresh with the secret it returned succeeds, and yields an
   * access token for the same user, when no other live record was stored before.
   */
  lemma LoginThenRefresh(c: Crypto, cfg: Settings, users: seq<User>, records: seq<RefreshToken>,
                         u: User, secret: string, now: int)
    requires Sound(c) && cfg.refreshTokenExpireDays > 0
    requires u in users
    requires LiveRecords(users, records, now) == []
    ensures RefreshAccessToken(c, cfg, users, records + [IssuedRecord(c, cfg, u.id, secret, now)], secret, now)
      == Success(Token(SessionAccessToken(c, cfg, u.id, now), secret, TokenType))
  {
    var rec := IssuedRecord(c, cfg, u.id, secret, now);
    LiveRecordsAppend(users, records, rec, now);
    assert UserWithId(users, u.id).Some?;
    assert LiveRecords(users, records + [rec], now) == [rec];
  }

  lemma {:induction false} LiveRecordsAppend(users: seq<User>, records: seq<RefreshToken>,
                                             rec: RefreshToken, now: int)
    ensures LiveRecords(users, records + [rec], now) ==
      LiveRecords(users, records, now) + LiveRecords(users, [rec], now)
  {
    if records == [] {
      assert records + [rec] == [rec];
    } else {
      assert (records + [rec])[1..] == records[1..] + [rec];
      LiveRecordsAppend(users, records[1..], rec, now);
    }
  }

  /**
   * The first-record-only check rejects a secret that login has just issued as soon
   * as an earlier live record exists: here a user logs in twice, both records live,
   * and the second secret is refused.
   */
  lemma RefreshRejectsLaterSession(u: User, now: int)
    ensures
      var c := Crypto(p => "bcrypt:" + p, (p, h) => h == "bcrypt:" + p, claims => "jwt");
      var cfg := Settings(30, 7);
      var records := [IssuedRecord(c, cfg, u.id, "first", now), IssuedRecord(c, cfg, u.id, "second", now)];
      && Sound(c)
      && LiveRecords([u], records, now) == records
      && RefreshAccessToken(c, cfg, [u], records, "second", now) == Failure(InvalidRefreshToken)
  {
    var c := Crypto(p => "bcrypt:" + p, (p, h) => h == "bcrypt:" + p, claims => "jwt");
    var cfg := Settings(30, 7);
    var records := [IssuedRecord(c, cfg, u.id, "first", now), IssuedRecord(c, cfg, u.id, "second", now)];
    assert UserWithId([u], u.id) == Some(u);
    assert LiveRecords([u], records[1..], now) == [records[1]];
    assert records[0].tokenHash == "bcrypt:first";
    assert "bcrypt:first" != "bcrypt:second" by {
      assert "bcrypt:first"[7] != "bcrypt:second"[7];
    }
  }

  /** The first live record whose hash the presented secret verifies against. */
  function FirstMatching(c: Crypto, live: seq<RefreshToken>, presented: string): (m: Option<RefreshToken>)
    ensures m.Some? ==> m.value in live && VerifyRefreshToken(c, presented, m.value.tokenHash)
    ensures m.None? <==> forall rec :: rec in live ==> !VerifyRefreshToken(c, presented, rec.tokenHash)
  {
    if live == [] then None
    else if VerifyRefreshToken(c, presented, live[0].tokenHash) then Some(live[0])
    else FirstMatching(c, live[1..], presented)
  }

  /**
   * Refresh as evidently intended: every live record is a candidate, and the secret
   * is accepted when it verifies against any of them.
   */
  function RefreshAnyMatch(c: Crypto, cfg: Settings, users: seq<User>, records: seq<RefreshToken>,
                           presented: string, now: int): (r: Result<Token, HttpError>)
    ensures r.Success? <==>
      exists rec :: rec in LiveRecords(users, records, now) && VerifyRefreshToken(c, presented, rec.tokenHash)
    ensures r.Success? ==>
      exists rec :: rec in LiveRecords(users, records, now) && VerifyRefreshToken(c, presented, rec.tokenHash)
        && r.value == Token(SessionAccessToken(c, cfg, rec.userId, now), presented, TokenType)
    ensures r.Failure? ==> r.error == InvalidRefreshToken
  {
    match FirstMatching(c, LiveRecords(users, records, now), presented)
    case None => Failure(InvalidRefreshToken)
    case Some(rec) =>
      match UserWithId(users, rec.userId)
      case None => Failure(RefreshOwnerMissing)
      case Some(user) => Success(Token(SessionAccessToken(c, cfg, user.id, now), presented, TokenType))
  }

  /** With every live record a candidate, a secret login just issued always refreshes. */
  lemma LoginThenRefreshAnyMatch(c: Crypto, cfg: Settings, users: seq<User>, records: seq<RefreshToken>,
                                 u: User, secret: string, now: int)
    requires Sound(c) && cfg.refreshTokenExpireDays > 0
    requires u in users
    ensures RefreshAnyMatch(c, cfg, users, records + [IssuedRecord(c, cfg, u.id, secret, now)], secret, now).Success?
    ensures RefreshAnyMatch(c, cfg, users, records + [IssuedRecord(c, cfg, u.id, secret, now)], secret, now)
      .value.refreshToken == secret
  {
  }
}
