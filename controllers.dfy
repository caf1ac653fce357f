/** The handlers of `user.controllers.js`: registration and the step after
    a successful local login that mints the token pair and records the
    refresh token. Hashing and signing are collaborators the model receives
    as functions; the environment variable is a parameter. */
module Controllers {
  import opened Outcomes
  import opened JsText
  import opened Duration
  import opened Store
  import opened Guards

  /** The two kinds of token the login mints, each signed with its own secret. */
  datatype TokenClass = Access | Refresh

  datatype Tokens = Tokens(accessToken: string, refreshToken: string)

  const UserRegistered := "User registered"
  const DefaultRefreshExpiresIn := "7d"

  /** `generateToken`: signs an access token and then a refresh token, both
      over the same user object. Signing runs the JWT library, which throws
      on a missing secret or an unreadable `expiresIn`; the error propagates,
      and a failed access token means the refresh token is never signed. */
  function GenerateToken(user: UserObj, sign: (TokenClass, UserObj) -> Call<string>): (r: Call<Tokens>)
    ensures r.Returns? <==> sign(Access, user).Returns? && sign(Refresh, user).Returns?
    ensures r.Returns? ==> r.value == Tokens(sign(Access, user).value, sign(Refresh, user).value)
    ensures sign(Access, user).Throws? ==> r == Throws(sign(Access, user).error)
    ensures sign(Access, user).Returns? && sign(Refresh, user).Throws? ==> r == Throws(sign(Refresh, user).error)
  {
    match sign(Access, user)
    case Throws(e) => Throws(e)
    case Returns(accessToken) =>
      match sign(Refresh, user)
      case Throws(e) => Throws(e)
      case Returns(refreshToken) => Returns(Tokens(accessToken, refreshToken))
  }

  /** The order of the pair: when a token verifies only under the secret of
      the class it was signed for, the first token `generateToken` returns
      is an access token for the user and not a refresh token, and the
      second the other way round. */
  lemma GeneratedTokensVerifyByClass(
    user: UserObj, sign: (TokenClass, UserObj) -> Call<string>, verify: (TokenClass, string) -> Verified)
    requires forall c, u :: sign(c, u).Returns? ==> verify(c, sign(c, u).value) == Valid(Claims(u.id))
    requires forall c, d, u :: c != d && sign(c, u).Returns? ==> verify(d, sign(c, u).value).Invalid?
    ensures GenerateToken(user, sign).Returns? ==>
      && verify(Access, GenerateToken(user, sign).value.accessToken) == Valid(Claims(user.id))
      && verify(Refresh, GenerateToken(user, sign).value.refreshToken) == Valid(Claims(user.id))
      && verify(Refresh, GenerateToken(user, sign).value.accessToken).Invalid?
      && verify(Access, GenerateToken(user, sign).value.refreshToken).Invalid?
  {
  }

  /** `process.env.JWT_REFRESH_EXPIRES_IN || "7d"`: an unset or empty setting means seven days. */
  function RefreshSetting(setting: Option<string>): string {
    if setting.None? || setting.value == "" then DefaultRefreshExpiresIn else setting.value
  }

  /** `Math.floor(ms(setting) / 1000)`: the whole seconds of the duration,
      rounded down; a setting `ms` cannot read gives `NaN`. */
  function RefreshTtlSeconds(setting: Option<string>): (r: Seconds)
    ensures r.NaN? <==> Ms(RefreshSetting(setting)).None?
    ensures r.Finite? ==>
      r.n * 1000 <= Ms(RefreshSetting(setting)).value < r.n * 1000 + 1000
  {
    match Ms(RefreshSetting(setting))
    case None => NaN
    case Some(millis) => Finite(millis / 1000)  // floor: the divisor is positive
  }

  /** Without a setting the refresh TTL is seven days: 604800 seconds. */
  lemma DefaultRefreshTtl()
    ensures RefreshTtlSeconds(None) == Finite(604800)
    ensures RefreshTtlSeconds(Some("")) == Finite(604800)
  {
    assert DecimalString(7) == "7";
    MsReadsAmountThenUnit(7, "d");
    assert DropSpaces("d") == "d" && LowerAscii("d") == "d";
    assert DefaultRefreshExpiresIn == DecimalString(7) + "d";
    assert Ms(DefaultRefreshExpiresIn) == Some(604800000);
  }

  /** A setting of `n` days is `n * 86400` seconds. */
  lemma RefreshTtlInDays(n: nat)
    requires |DecimalString(n)| < 100
    ensures RefreshTtlSeconds(Some(DecimalString(n) + "d")) == Finite(n * 86400)
  {
    var text := DecimalString(n) + "d";
    MsReadsAmountThenUnit(n, "d");
    assert DropSpaces("d") == "d" && LowerAscii("d") == "d";
    assert RefreshSetting(Some(text)) == text;
    assert Ms(text) == Some(n * DayMs);
    assert n * DayMs == (n * 86400) * 1000;
    assert (n * 86400) * 1000 / 1000 == n * 86400;
  }

  /** A bare number is milliseconds, and the seconds are rounded down. */
  lemma RefreshTtlRoundsDown(n: nat)
    requires 0 < |DecimalString(n)| <= 100
    ensures RefreshTtlSeconds(Some(DecimalString(n))) == Finite(n / 1000)
  {
    MsReadsAmountThenUnit(n, "");
    assert DecimalString(n) + "" == DecimalString(n);
    assert RefreshSetting(Some(DecimalString(n))) == DecimalString(n);
    assert Ms(DecimalString(n)) == Some(n * 1);
  }

  /** `userRegister`: hashes the password, stores the email with the digest
      (never the password itself), and answers 201 with the new id and the
      email; a failure of either step goes to `next` and nothing is stored. */
  method UserRegister(req: Request, hashPassword: string -> Call<string>, store: UserStore, fault: Option<Error>)
    returns (o: Outcome)
    requires store.Valid()
    modifies store
    ensures store.Valid()
    ensures store.refreshTokens == old(store.refreshTokens)
    ensures hashPassword(req.body.password).Throws? ==>
      o == CallNextWith(hashPassword(req.body.password).error) && store.users == old(store.users)
    ensures hashPassword(req.body.password).Returns? && fault.Some? ==>
      o == CallNextWith(fault.value) && store.users == old(store.users)
    ensures hashPassword(req.body.password).Returns? && fault.None? ==>
      && o == Respond(Json(201, Registered(old(store.nextUserId), req.body.email, UserRegistered)))
      && store.users == old(store.users)
           + [UserRow(old(store.nextUserId), req.body.email, hashPassword(req.body.password).value,
                      DefaultRole, DefaultActive, DefaultVerified)]
  {
    var email, password := req.body.email, req.body.password;
    var hashed := hashPassword(password);
    if hashed.Throws? {
      return CallNextWith(hashed.error);
    }
    var user := store.SaveUser(email, hashed.value, fault);
    if user.Throws? {
      return CallNextWith(user.error);
    }
    return Respond(Json(201, Registered(user.value.id, user.value.email, UserRegistered)));
  }

  /** `loginUser`, for the user the strategy placed on the request: mints the
      token pair, stores the digest of the refresh token (never the token)
      under the user's id with the configured TTL, and answers 201 with both
      raw tokens. A failure of signing, of hashing or of the insert (a `NaN`
      TTL among them) rejects the handler and nothing is stored. The login
      route runs passport's local authentication first
      (src/routes/user.routes.js:8), so `req.user` is always set when this
      handler runs. */
  method LoginUser(
    req: Request, sign: (TokenClass, UserObj) -> Call<string>, hashToken: string -> Call<string>,
    refreshExpiresIn: Option<string>, store: UserStore, now: int, fault: Option<Error>)
    returns (o: Outcome)
    requires req.user.Some? && store.Valid()
    modifies store
    ensures store.Valid() && store.users == old(store.users)
    ensures o.Rejects? ==> store.refreshTokens == old(store.refreshTokens)
    ensures var t := GenerateToken(req.user.value, sign);
      t.Throws? ==> o == Rejects(t.error)
    ensures var t := GenerateToken(req.user.value, sign);
      t.Returns? && hashToken(t.value.refreshToken).Throws? ==> o == Rejects(hashToken(t.value.refreshToken).error)
    ensures var t := GenerateToken(req.user.value, sign);
      t.Returns? && hashToken(t.value.refreshToken).Returns? && fault.Some? ==> o == Rejects(fault.value)
    ensures var t := GenerateToken(req.user.value, sign);
      t.Returns? && hashToken(t.value.refreshToken).Returns? && fault.None? && RefreshTtlSeconds(refreshExpiresIn).NaN? ==>
        o == Rejects(UnknownColumnNaN)
    ensures var t := GenerateToken(req.user.value, sign); var ttl := RefreshTtlSeconds(refreshExpiresIn);
      t.Returns? && hashToken(t.value.refreshToken).Returns? && fault.None? && ttl.Finite? ==>
        && o == Respond(Json(201, TokenPair(t.value.accessToken, t.value.refreshToken)))
        && store.refreshTokens == old(store.refreshTokens)
             + [TokenRow(old(store.nextTokenId), req.user.value.id, hashToken(t.value.refreshToken).value, now + ttl.n)]
    ensures o.Respond? && RefreshTtlSeconds(refreshExpiresIn).Finite? && RefreshTtlSeconds(refreshExpiresIn).n > 0 ==>
      exists i :: 0 <= i < |store.refreshTokens| && Live(store.refreshTokens[i], req.user.value.id, now)
  {
    var user := req.user.value;
    var tokens := GenerateToken(user, sign);
    if tokens.Throws? {
      return Rejects(tokens.error);
    }
    var hashedToken := hashToken(tokens.value.refreshToken);
    if hashedToken.Throws? {
      return Rejects(hashedToken.error);
    }
    var ttl := RefreshTtlSeconds(refreshExpiresIn);
    var saved := store.SaveToken(user.id, hashedToken.value, ttl, now, fault);
    if saved.Throws? {
      return Rejects(saved.error);
    }
    o := Respond(Json(201, TokenPair(tokens.value.accessToken, tokens.value.refreshToken)));
    assert Live(store.refreshTokens[|store.refreshTokens| - 1], user.id, now) <== ttl.n > 0;
  }
}
