/** The session manager itself (auth AuthServiceImpl): each operation runs
    its store calls one after another, as the service does, and is proved to
    have exactly the effect SessionSpec describes. Members are looked up by
    e-mail in `members`; `passwordMatches(raw, hash)` is the password
    encoder; the random jtis, the random code draw and the mail server's
    answer come in as arguments. */
module Session {
  import opened Wrappers
  import opened Strings
  import opened Redis
  import opened TokenKeys
  import opened Jwt
  import opened Errors
  import opened RedisTokenStore
  import opened SessionSpec

  class AuthService {
    const kv: RedisKv
    const tokens: RedisTokenStore
    const members: map<string, LoginMember>
    const passwordMatches: (string, string) -> bool

    ghost predicate Valid()
      reads this, kv
    {
      tokens.kv == kv && kv.Valid()
    }

    constructor (tokens: RedisTokenStore, members: map<string, LoginMember>, passwordMatches: (string, string) -> bool)
      requires tokens.kv.Valid()
      ensures Valid() && kv == tokens.kv && this.tokens == tokens
      ensures this.members == members && this.passwordMatches == passwordMatches
    {
      this.kv := tokens.kv;
      this.tokens := tokens;
      this.members := members;
      this.passwordMatches := passwordMatches;
    }

    /** login */
    method Login(email: string, password: string, deviceId: string, accessJti: string, refreshJti: string)
      returns (r: Result<TokenPair, Failure>)
      requires Valid()
      modifies kv
      ensures Valid() && kv.Steady()
      ensures Outcome(r, kv.State()) == SessionSpec.Login(old(kv.State()), members, passwordMatches,
                                                          email, password, deviceId, accessJti, refreshJti)
    {
      if email !in members {
        return Err(MemberFailure(MemberNotFound));
      }
      var member := members[email];
      if !passwordMatches(password, member.password) {
        return Err(MemberFailure(AuthInvalidCredential));
      }
      var now := kv.now;
      var accessToken := GenerateAccessToken(email, now, accessJti);
      var refreshToken := GenerateRefreshToken(email, now, refreshJti);
      RefreshTokenShape(email, now, refreshJti);
      var expiration := GetExpiration(refreshToken, now).value;
      var jti := GetJti(refreshToken, now).value;
      var saved := tokens.SaveRefreshToken(member.memberId, deviceId, jti, expiration);
      if saved.Err? {
        return Err(StoreFailure);
      }
      r := Ok(TokenPair(accessToken, refreshToken));
    }

    /** The checks reissue makes before it rotates, in the code's order:
        token validity, the member, the jti, the stored session and the used
        marker. Nothing changes. */
    method CheckRefreshToken(refreshToken: Token, deviceId: string) returns (r: Result<(string, string), Failure>)
      requires Valid()
      ensures r == SessionSpec.ReissueChecks(kv.State(), members, refreshToken, deviceId)
    {
      var now := kv.now;
      if !IsValid(refreshToken, now) {
        return Err(AuthFailure(AuthInvalidRefreshToken));
      }
      var email := GetMemberId(refreshToken, now);
      if email.Err? {
        return Err(Unexpected);
      }
      if email.value !in members {
        return Err(MemberFailure(MemberNotFound));
      }
      var memberId := members[email.value].memberId;
      var jti := GetJti(refreshToken, now);
      if jti.Err? {
        return Err(Unexpected);
      }
      var savedJti := tokens.GetRefreshToken(memberId, deviceId);
      if savedJti.Err? {
        return Err(StoreFailure);
      }
      if savedJti.value.None? || savedJti.value.value != jti.value {
        return Err(AuthFailure(AuthInvalidRefreshToken));
      }
      var used := tokens.IsRefreshUsed(jti.value);
      if used.value {
        return Err(AuthFailure(AuthReusedRefreshToken));
      }
      r := Ok((email.value, jti.value));
    }

    /** reissue. A successful rotation consumed a jti that was on record,
        so a freshly drawn jti cannot equal it. */
    method Reissue(refreshToken: Token, deviceId: string, accessJti: string, newRefreshJti: string)
      returns (r: Result<TokenPair, Failure>)
      requires Valid()
      modifies kv
      ensures Valid() && kv.Steady()
      ensures Outcome(r, kv.State()) == SessionSpec.Reissue(old(kv.State()), members, refreshToken, deviceId,
                                                            accessJti, newRefreshJti)
      ensures r.Ok? ==> GetJti(refreshToken, kv.now).Ok? && GetJti(refreshToken, kv.now).value in old(kv.history)
    {
      var now := kv.now;
      var checked := CheckRefreshToken(refreshToken, deviceId);
      if checked.Err? {
        return Err(checked.error);
      }
      var email := checked.value.0;
      var jti := checked.value.1;
      var memberId := members[email].memberId;
      // rotation
      var deleted := tokens.DeleteRefreshToken(memberId, deviceId);
      var ttl := GetRemainingTtlSeconds(refreshToken, now).value;
      var marked := tokens.MarkRefreshUsed(jti, ttl);
      if marked.Err? {
        return Err(StoreFailure);
      }
      var newAccess := GenerateAccessToken(email, now, accessJti);
      var newRefresh := GenerateRefreshToken(email, now, newRefreshJti);
      RefreshTokenShape(email, now, newRefreshJti);
      var newExp := GetExpiration(newRefresh, now).value;
      var newJti := GetJti(newRefresh, now).value;
      var saved := tokens.SaveRefreshToken(memberId, deviceId, newJti, newExp);
      r := Ok(TokenPair(newAccess, newRefresh));
    }

    /** logout: the access token is blacklisted, then the refresh token's
        session is revoked; unusable tokens are skipped. */
    method Logout(accessToken: Option<Token>, refreshToken: Option<Token>, deviceId: Option<string>)
      returns (r: Result<(), Failure>)
      requires Valid()
      modifies kv
      ensures Valid() && kv.Steady()
      ensures Outcome(r, kv.State()) == SessionSpec.Logout(old(kv.State()), members, accessToken, refreshToken, deviceId)
    {
      r := LogoutAccess(accessToken);
      if r.Err? {
        return;
      }
      r := LogoutRefresh(refreshToken, deviceId);
    }

    method LogoutAccess(accessToken: Option<Token>) returns (r: Result<(), Failure>)
      requires Valid()
      modifies kv
      ensures Valid() && kv.Steady()
      ensures Outcome(r, kv.State()) == SessionSpec.LogoutAccess(old(kv.State()), accessToken)
    {
      var now := kv.now;
      if accessToken.None? || !IsValid(accessToken.value, now) {
        return Ok(());
      }
      var at := accessToken.value;
      var typ := GetTyp(at, now);
      if typ.Err? {
        return Err(Unexpected);
      }
      if typ.value != "access" {
        return Ok(());
      }
      var jti := GetJti(at, now);
      if jti.Err? {
        return Err(Unexpected);
      }
      var ttl := GetRemainingTtlSeconds(at, now).value;
      if ttl > 0 {
        var written := tokens.BlacklistAccessJti(jti.value, ttl);
        if written.Err? {
          return Err(StoreFailure);
        }
      }
      r := Ok(());
    }

    method LogoutRefresh(refreshToken: Option<Token>, deviceId: Option<string>) returns (r: Result<(), Failure>)
      requires Valid()
      modifies kv
      ensures Valid() && kv.Steady()
      ensures Outcome(r, kv.State()) == SessionSpec.LogoutRefresh(old(kv.State()), members, refreshToken, deviceId)
    {
      var now := kv.now;
      if refreshToken.None? || !IsValid(refreshToken.value, now) {
        return Ok(());
      }
      var rt := refreshToken.value;
      var typ := GetTyp(rt, now);
      if typ.Err? {
        return Err(Unexpected);
      }
      if typ.value != "refresh" {
        return Ok(());
      }
      var email := GetMemberId(rt, now);
      if email.Err? {
        return Err(Unexpected);
      }
      if email.value !in members {
        return Ok(());
      }
      if deviceId.None? {
        return Err(Unexpected);
      }
      var deleted := tokens.DeleteRefreshToken(members[email.value].memberId, deviceId.value);
      if deleted.Err? {
        return Err(StoreFailure);
      }
      var jti := GetJti(rt, now);
      if jti.Err? {
        return Err(Unexpected);
      }
      var marked := tokens.MarkRefreshUsed(jti.value, GetRemainingTtlSeconds(rt, now).value);
      if marked.Err? {
        return Err(StoreFailure);
      }
      r := Ok(());
    }

    /** blacklistAccessIfValid */
    method BlacklistAccessIfValid(at: Token) returns (r: Result<(), Failure>)
      requires Valid()
      modifies kv
      ensures Valid() && kv.Steady()
      ensures Outcome(r, kv.State()) == SessionSpec.BlacklistAccessIfValid(old(kv.State()), at)
    {
      var now := kv.now;
      if !IsValid(at, now) {
        return Ok(());
      }
      var jti := GetJti(at, now);
      if jti.Err? {
        return Err(Unexpected);
      }
      var written := tokens.BlacklistAccessJti(jti.value, GetRemainingTtlSeconds(at, now).value);
      if written.Err? {
        return Err(StoreFailure);
      }
      r := Ok(());
    }

    /** sendEmailCode; `draw` is the random source of generateCode and
        `deliver` the mail server's answer to the message. */
    method SendEmailCode(email: string, draw: nat, deliver: Mail -> bool) returns (r: Result<string, Failure>)
      requires Valid()
      modifies kv
      ensures Valid() && kv.Steady()
      ensures Outcome(r, kv.State()) == SessionSpec.SendEmailCode(old(kv.State()), members, email, draw, deliver)
    {
      if email in members {
        return Err(AuthFailure(AuthEmailAlreadyExists));
      }
      var code := NatToString(GenerateCode(draw));
      if !deliver(ComposeMail(email, code)) {
        return Err(AuthFailure(AuthEmailSendFailed));
      }
      var written := kv.Set(EmailCodeKey(email), code, EMAIL_CODE_TTL_MS);
      if written.Err? {
        return Err(StoreFailure);
      }
      r := Ok(code);
    }

    /** verifyEmailCode */
    method VerifyEmailCode(email: string, code: string) returns (r: Result<(), Failure>)
      requires Valid()
      modifies kv
      ensures Valid() && kv.Steady()
      ensures Outcome(r, kv.State()) == SessionSpec.VerifyEmailCode(old(kv.State()), email, code)
    {
      var key := EmailCodeKey(email);
      var savedCode := kv.Get(key);
      if savedCode.Err? {
        return Err(StoreFailure);
      }
      if savedCode.value.None? {
        return Err(AuthFailure(AuthCodeExpired));
      }
      if savedCode.value.value != code {
        return Err(AuthFailure(AuthCodeMismatch));
      }
      var deleted := kv.Delete(key);
      r := Ok(());
    }

    /** Login, then rotate the refresh token, then replay the rotated token
        on the same device: the rotation succeeds and the replay is refused
        as an invalid refresh token. The jtis are the six random UUIDs the
        three calls draw; the one rotation draws differs from the one login
        drew. */
    method ReplayScenario(email: string, password: string, deviceId: string, jtis: seq<string>)
      returns (rotated: Result<TokenPair, Failure>, replay: Result<TokenPair, Failure>)
      requires Valid() && |jtis| == 6
      requires kv.available && email in members && passwordMatches(password, members[email].password)
      requires kv.Lookup(UsedKey(jtis[1])).None? && jtis[1] != jtis[3]
      modifies kv
      ensures Valid()
      ensures rotated.Ok? && replay == Err(AuthFailure(AuthInvalidRefreshToken))
    {
      var login := Login(email, password, deviceId, jtis[0], jtis[1]);
      var s1 := kv.State();
      var t := login.value.refreshToken;
      RefreshTokenShape(email, s1.now, jtis[1]);
      assert SessionKey(members[email].memberId, deviceId) != UsedKey(jtis[1]);
      assert ReissueChecks(s1, members, t, deviceId).Ok?;
      rotated := Reissue(t, deviceId, jtis[2], jtis[3]);
      ReplayAfterRotationRejected(s1, members, t, deviceId, jtis[2], jtis[3], s1.now, jtis[4], jtis[5]);
      replay := Reissue(t, deviceId, jtis[4], jtis[5]);
    }
  }
}
