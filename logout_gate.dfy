/** How the session manager and the authentication filter meet: the filter
    admits the access token login hands out, and refuses it once logout has
    blacklisted it, for as long as the blacklist entry lives. */
module LogoutGate {
  import opened Wrappers
  import opened Strings
  import opened Redis
  import opened TokenKeys
  import opened Jwt
  import opened SessionSpec
  import AuthFilter

  /** The access token of a successful login is admitted, with the member's
      e-mail as principal, until its expiry (15 minutes after login, cut to
      the whole second) and while it is not blacklisted. */
  lemma LoginTokenAdmitted(s: Snapshot, members: map<string, LoginMember>, matches: (string, string) -> bool,
                           email: string, password: string, deviceId: string, accessJti: string, refreshJti: string,
                           req: AuthFilter.Request, decode: string -> Token, kv: RedisKv)
    requires Login(s, members, matches, email, password, deviceId, accessJti, refreshJti).result.Ok?
    requires !IsBlank(email) && !IsBlank(accessJti)
    requires AuthFilter.Examined(req)
    requires decode(AuthFilter.Bearer(req).value)
      == Login(s, members, matches, email, password, deviceId, accessJti, refreshJti).result.value.accessToken
    requires kv.now <= NumericDate(s.now + ACCESS_EXPIRATION_MS)
    requires kv.available && kv.Lookup(BlacklistKey(accessJti)).None?
    ensures AuthFilter.DoFilter(req, decode, kv) == AuthFilter.Admit(email)
    ensures AuthFilter.DoFilterAsWritten(req, decode, kv) == AuthFilter.Admit(email)
  {
    MintedTokenReadsBack(email, "access", s.now, accessJti, ACCESS_EXPIRATION_MS, kv.now);
  }

  /** After logout blacklisted an access token, the filter refuses it as
      blacklisted until the entry expires, which is no earlier than the
      token's last whole second. */
  lemma LoggedOutAccessTokenRejected(s: Snapshot, members: map<string, LoginMember>, at: Token,
                                     refreshToken: Option<Token>, deviceId: Option<string>,
                                     req: AuthFilter.Request, decode: string -> Token, kv: RedisKv)
    requires Blacklistable(at, s.now) && s.available && !IsBlank(GetJti(at, s.now).value)
    requires AuthFilter.Examined(req) && decode(AuthFilter.Bearer(req).value) == at
    requires kv.entries == Logout(s, members, Some(at), refreshToken, deviceId).state.entries && kv.available
    requires s.now <= kv.now <= s.now + GetRemainingTtlSeconds(at, s.now).value * 1000
    ensures AuthFilter.DoFilter(req, decode, kv) == AuthFilter.Reject(AuthFilter.BLACKLISTED)
    ensures AuthFilter.DoFilterAsWritten(req, decode, kv) == AuthFilter.Reject(AuthFilter.BLACKLISTED)
  {
    var jti := GetJti(at, s.now).value;
    BlacklistEntryLive(s, members, at, refreshToken, deviceId, kv);
    assert IsValid(at, kv.now);
    assert GetJti(at, kv.now) == Ok(jti);
    assert GetTyp(at, kv.now) == Ok("access");
    AuthFilter.BlacklistedTokenRejected(req, decode, kv);
  }

  /** The blacklist entry lives for the token's remaining whole seconds
      only, so it can lapse before the token does: logged out 500 ms after
      issue, an access token is blacklisted until 899500 ms and is admitted
      again by both filter versions at 900000 ms, its expiry. */
  lemma LoggedOutTokenReadmitted(s: Snapshot, members: map<string, LoginMember>, email: string, jti: string,
                                 req: AuthFilter.Request, decode: string -> Token, kv: RedisKv)
    requires s.now == 500 && s.available
    requires !IsBlank(email) && !IsBlank(jti)
    requires AuthFilter.Examined(req) && decode(AuthFilter.Bearer(req).value) == GenerateAccessToken(email, 0, jti)
    requires kv.entries == Logout(s, members, Some(GenerateAccessToken(email, 0, jti)), None, None).state.entries
    requires kv.now == 900000 && kv.available
    ensures AuthFilter.DoFilter(req, decode, kv) == AuthFilter.Admit(email)
    ensures AuthFilter.DoFilterAsWritten(req, decode, kv) == AuthFilter.Admit(email)
  {
    var at := GenerateAccessToken(email, 0, jti);
    AccessTokenShape(email, 0, jti);
    assert at.claims.expiration == 900000;
    MintedTokenReadsBack(email, "access", 0, jti, ACCESS_EXPIRATION_MS, 500);
    MintedTokenReadsBack(email, "access", 0, jti, ACCESS_EXPIRATION_MS, 900000);
    assert GetRemainingTtlSeconds(at, 500).value == 899;
    assert kv.entries[BlacklistKey(jti)] == Entry("1", 899500);
    assert kv.Lookup(BlacklistKey(jti)).None?;
  }

  lemma BlacklistEntryLive(s: Snapshot, members: map<string, LoginMember>, at: Token,
                           refreshToken: Option<Token>, deviceId: Option<string>, kv: RedisKv)
    requires Blacklistable(at, s.now) && s.available
    requires kv.entries == Logout(s, members, Some(at), refreshToken, deviceId).state.entries
    requires s.now <= kv.now <= s.now + GetRemainingTtlSeconds(at, s.now).value * 1000
    ensures kv.Lookup(BlacklistKey(GetJti(at, s.now).value)) == Some("1")
  {
    LogoutBlacklistsAccess(s, members, at, refreshToken, deviceId);
  }
}
