/** What the session manager (auth AuthServiceImpl) does to the shared Redis
    store, as functions from the store as it was to the result and the store
    as it is afterwards. A refresh session of a (member, device) pair is the
    key `refresh:{memberId}:{deviceId}` holding the jti of the one refresh
    token that may be exchanged; a consumed jti is marked under
    `refresh:used:{jti}`; a revoked access token under
    `access:blacklist:{jti}`; a pending e-mail code under `emailCode:{email}`. */
module SessionSpec {
  import opened Wrappers
  import opened Strings
  import opened Redis
  import opened TokenKeys
  import opened Jwt
  import opened Errors
  import opened RedisTokenStore
  import ExceptionHandler

  /** MemberLoginProjection: what login needs of a member. */
  datatype LoginMember = LoginMember(memberId: int, password: string)

  /** TokenDTO */
  datatype TokenPair = TokenPair(accessToken: Token, refreshToken: Token)

  /** The result of an operation and the store it leaves behind. */
  datatype Outcome<T> = Outcome(result: Result<T, Failure>, state: Snapshot)

  function Lookup(s: Snapshot, key: string): Option<string> {
    LookupAt(s.entries, s.now, key)
  }

  /** A SET with a lifetime in milliseconds: an outage or a lifetime that is
      not positive makes it throw. */
  function Write(s: Snapshot, key: string, value: string, ttlMs: int): (r: Result<Snapshot, Failure>)
    ensures r.Ok? <==> s.available && ttlMs > 0
    ensures r.Ok? ==> r.value == s.(entries := s.entries[key := Entry(value, s.now + ttlMs)])
  {
    if !s.available || ttlMs <= 0 then Err(StoreFailure)
    else Ok(s.(entries := s.entries[key := Entry(value, s.now + ttlMs)]))
  }

  /** A DEL: an outage makes it throw. */
  function Remove(s: Snapshot, key: string): (r: Result<Snapshot, Failure>)
    ensures r.Ok? <==> s.available
    ensures r.Ok? ==> r.value == s.(entries := s.entries - {key})
  {
    if !s.available then Err(StoreFailure) else Ok(s.(entries := s.entries - {key}))
  }

  // ---------------------------------------------------------------------
  // login

  /** login: the member must exist and the password must match its hash;
      then a new token pair is minted and the pair's session records the
      refresh jti until the refresh token's expiry. */
  function Login(s: Snapshot, members: map<string, LoginMember>, matches: (string, string) -> bool,
                 email: string, password: string, deviceId: string,
                 accessJti: string, refreshJti: string): (o: Outcome<TokenPair>)
    ensures email !in members ==> o == Outcome(Err(MemberFailure(MemberNotFound)), s)
    ensures email in members && !matches(password, members[email].password) ==>
      o == Outcome(Err(MemberFailure(AuthInvalidCredential)), s)
    ensures o.result.Ok? <==> email in members && matches(password, members[email].password) && s.available
    ensures o.result.Err? ==> o.state == s
    ensures o.result.Ok? ==>
      var key := SessionKey(members[email].memberId, deviceId);
      var pair := o.result.value;
      GetJti(pair.refreshToken, s.now) == Ok(refreshJti)
      && GetMemberId(pair.accessToken, s.now) == Ok(email) && GetMemberId(pair.refreshToken, s.now) == Ok(email)
      && GetTyp(pair.accessToken, s.now) == Ok("access") && GetTyp(pair.refreshToken, s.now) == Ok("refresh")
      && Lookup(o.state, key) == Some(refreshJti)
      && o.state.entries[key].expiresAt == pair.refreshToken.claims.expiration
      && (forall k :: k != key ==> Lookup(o.state, k) == Lookup(s, k))
      && o.state.now == s.now && o.state.available == s.available
  {
    if email !in members then Outcome(Err(MemberFailure(MemberNotFound)), s)
    else if !matches(password, members[email].password) then Outcome(Err(MemberFailure(AuthInvalidCredential)), s)
    else
      var access := GenerateAccessToken(email, s.now, accessJti);
      var refresh := GenerateRefreshToken(email, s.now, refreshJti);
      AccessTokenShape(email, s.now, accessJti);
      RefreshTokenShape(email, s.now, refreshJti);
      match Write(s, SessionKey(members[email].memberId, deviceId), refreshJti, refresh.claims.expiration - s.now)
      case Err(f) => Outcome(Err(f), s)
      case Ok(s1) => Outcome(Ok(TokenPair(access, refresh)), s1)
  }

  /** A wrong password is thrown as a member failure, so the member handler
      answers it with 400, although the auth handler's table puts the same
      code at 401. */
  lemma WrongPasswordAnswersBadRequest(s: Snapshot, members: map<string, LoginMember>, matches: (string, string) -> bool,
                                       email: string, password: string, deviceId: string,
                                       accessJti: string, refreshJti: string, path: string)
    requires email in members && !matches(password, members[email].password)
    ensures var o := Login(s, members, matches, email, password, deviceId, accessJti, refreshJti);
      o.result.Err? && ExceptionHandler.Handle(o.result.error, path).status == 400
    ensures ExceptionHandler.AuthStatus(AuthInvalidCredential) == 401
  {
  }

  // ---------------------------------------------------------------------
  // reissue

  /** The session a refresh token speaks for: its member's id on `deviceId`,
      when the token names a known member. */
  function SessionOf(t: Token, now: int, members: map<string, LoginMember>, deviceId: string): Option<string> {
    match GetMemberId(t, now)
    case Ok(email) => if email in members then Some(SessionKey(members[email].memberId, deviceId)) else None
    case Err(_) => None
  }

  /** The part of reissue that only reads: the token must be valid, name a
      known member and carry a jti; the store must hold that jti as the
      device's session and must not have it marked used. Ok carries the
      member's e-mail and the jti. */
  function ReissueChecks(s: Snapshot, members: map<string, LoginMember>, t: Token, deviceId: string)
    : (r: Result<(string, string), Failure>)
    ensures !IsValid(t, s.now) ==> r == Err(AuthFailure(AuthInvalidRefreshToken))
    ensures r.Ok? ==>
      IsValid(t, s.now) && GetMemberId(t, s.now) == Ok(r.value.0) && r.value.0 in members
      && GetJti(t, s.now) == Ok(r.value.1)
      && s.available
      && Lookup(s, SessionKey(members[r.value.0].memberId, deviceId)) == Some(r.value.1)
      && Lookup(s, UsedKey(r.value.1)).None?
    ensures IsValid(t, s.now) && GetMemberId(t, s.now).Err? ==> r == Err(Unexpected)
    ensures IsValid(t, s.now) && GetMemberId(t, s.now).Ok? && GetMemberId(t, s.now).value !in members ==>
      r == Err(MemberFailure(MemberNotFound))
    ensures IsValid(t, s.now) && GetMemberId(t, s.now).Ok? && GetMemberId(t, s.now).value in members ==>
      var email := GetMemberId(t, s.now).value;
      var key := SessionKey(members[email].memberId, deviceId);
      match GetJti(t, s.now)
      case Err(_) => r == Err(Unexpected)
      case Ok(jti) =>
        (!s.available ==> r == Err(StoreFailure))
        && (s.available && Lookup(s, key) != Some(jti) ==> r == Err(AuthFailure(AuthInvalidRefreshToken)))
        && (s.available && Lookup(s, key) == Some(jti) && Lookup(s, UsedKey(jti)).Some? ==>
              r == Err(AuthFailure(AuthReusedRefreshToken)))
        && (s.available && Lookup(s, key) == Some(jti) && Lookup(s, UsedKey(jti)).None? ==> r == Ok((email, jti)))
  {
    if !IsValid(t, s.now) then Err(AuthFailure(AuthInvalidRefreshToken))
    else match GetMemberId(t, s.now)
      case Err(_) => Err(Unexpected)
      case Ok(email) =>
        if email !in members then Err(MemberFailure(MemberNotFound))
        else match GetJti(t, s.now)
          case Err(_) => Err(Unexpected)
          case Ok(jti) =>
            if !s.available then Err(StoreFailure)
            else if Lookup(s, SessionKey(members[email].memberId, deviceId)) != Some(jti) then Err(AuthFailure(AuthInvalidRefreshToken))
            else if Lookup(s, UsedKey(jti)).Some? then Err(AuthFailure(AuthReusedRefreshToken))
            else Ok((email, jti))
  }

  /** reissue: after the checks, the session is deleted, the old jti is
      marked used for the token's remaining whole seconds, and the session
      is stored again with the new refresh jti. */
  function Reissue(s: Snapshot, members: map<string, LoginMember>, t: Token, deviceId: string,
                   accessJti: string, refreshJti: string): (o: Outcome<TokenPair>)
    ensures ReissueChecks(s, members, t, deviceId).Err? ==>
      o == Outcome(Err(ReissueChecks(s, members, t, deviceId).error), s)
    ensures o.result.Err? && o.state != s ==> o.result == Err(StoreFailure)
    ensures o.result.Ok? <==>
      ReissueChecks(s, members, t, deviceId).Ok? && GetRemainingTtlSeconds(t, s.now).value > 0
    ensures o.result.Ok? ==>
      var email := GetMemberId(t, s.now).value;
      o.result.value == TokenPair(GenerateAccessToken(email, s.now, accessJti), GenerateRefreshToken(email, s.now, refreshJti))
  {
    match ReissueChecks(s, members, t, deviceId)
    case Err(f) => Outcome(Err(f), s)
    case Ok((email, jti)) =>
      var key := SessionKey(members[email].memberId, deviceId);
      var s1 := s.(entries := s.entries - {key});
      var ttl := GetRemainingTtlSeconds(t, s.now).value;
      match Write(s1, UsedKey(jti), "1", ttl * 1000)
      case Err(f) => Outcome(Err(f), s1)
      case Ok(s2) =>
        var s3 := s2.(entries := s2.entries[key := Entry(refreshJti, GenerateRefreshToken(email, s.now, refreshJti).claims.expiration)]);
        Outcome(Ok(TokenPair(GenerateAccessToken(email, s.now, accessJti), GenerateRefreshToken(email, s.now, refreshJti))), s3)
  }

  /** A successful reissue rotates the session: it now holds the new jti,
      the old jti is marked used, nothing else changes, and the returned
      pair belongs to the same member. */
  lemma ReissueRotates(s: Snapshot, members: map<string, LoginMember>, t: Token, deviceId: string,
                       accessJti: string, refreshJti: string)
    requires Reissue(s, members, t, deviceId, accessJti, refreshJti).result.Ok?
    ensures var o := Reissue(s, members, t, deviceId, accessJti, refreshJti);
      var email := GetMemberId(t, s.now).value;
      var jti := GetJti(t, s.now).value;
      var key := SessionKey(members[email].memberId, deviceId);
      GetMemberId(t, s.now).Ok? && email in members && GetJti(t, s.now).Ok?
      && Lookup(s, key) == Some(jti)
      && Lookup(o.state, key) == Some(refreshJti)
      && Lookup(o.state, UsedKey(jti)) == Some("1")
      && (forall k :: k != key && k != UsedKey(jti) ==> Lookup(o.state, k) == Lookup(s, k))
      && GetMemberId(o.result.value.refreshToken, s.now) == Ok(email)
      && GetJti(o.result.value.refreshToken, s.now) == Ok(refreshJti)
      && GetTyp(o.result.value.accessToken, s.now) == Ok("access")
      && o.state.now == s.now && o.state.available == s.available
  {
    var email := GetMemberId(t, s.now).value;
    var jti := GetJti(t, s.now).value;
    var key := SessionKey(members[email].memberId, deviceId);
    assert UsedKey(jti) != key;
    RefreshTokenShape(email, s.now, refreshJti);
    AccessTokenShape(email, s.now, accessJti);
  }

  /** Reissuing in the last second of a refresh token's life: the remaining
      whole seconds are 0, the used marker is refused by Redis, and the
      session has already been deleted — the member is logged out on that
      device and gets a server error. */
  lemma LastSecondReissueLosesSession(s: Snapshot, members: map<string, LoginMember>, t: Token, deviceId: string,
                                      accessJti: string, refreshJti: string)
    requires ReissueChecks(s, members, t, deviceId).Ok?
    requires t.claims.expiration - s.now < 1000
    ensures var o := Reissue(s, members, t, deviceId, accessJti, refreshJti);
      o.result == Err(StoreFailure)
      && Lookup(o.state, SessionOf(t, s.now, members, deviceId).value).None?
  {
  }

  /** Replaying a rotated refresh token on the same device fails the jti
      comparison — at once, or at any later time, whatever jtis the replay
      would mint — as long as the rotation minted a jti different from the
      old one (UUIDs are fresh). */
  lemma ReplayAfterRotationRejected(s: Snapshot, members: map<string, LoginMember>, t: Token, deviceId: string,
                                    accessJti: string, refreshJti: string,
                                    later: int, accessJti2: string, refreshJti2: string)
    requires Reissue(s, members, t, deviceId, accessJti, refreshJti).result.Ok?
    requires refreshJti != GetJti(t, s.now).value
    requires s.now <= later
    ensures var s2 := Reissue(s, members, t, deviceId, accessJti, refreshJti).state.(now := later);
      Reissue(s2, members, t, deviceId, accessJti2, refreshJti2)
        == Outcome(Err(AuthFailure(AuthInvalidRefreshToken)), s2)
  {
    var o := Reissue(s, members, t, deviceId, accessJti, refreshJti);
    var s2 := o.state.(now := later);
    ReissueRotates(s, members, t, deviceId, accessJti, refreshJti);
    var email := GetMemberId(t, s.now).value;
    var key := SessionKey(members[email].memberId, deviceId);
    assert o.state.entries[key] == Entry(refreshJti, GenerateRefreshToken(email, s.now, refreshJti).claims.expiration);
    if IsValid(t, later) {
      assert GetMemberId(t, later) == GetMemberId(t, s.now);
      assert GetJti(t, later) == GetJti(t, s.now);
      assert Lookup(s2, key) != Some(GetJti(t, s.now).value);
    }
  }

  // ---------------------------------------------------------------------
  // logout

  /** What logout does with a presented access token: blacklist its jti
      for the whole seconds it still has, if any. */
  predicate Blacklistable(t: Token, now: int) {
    IsValid(t, now) && GetTyp(t, now) == Ok("access") && GetJti(t, now).Ok?
    && GetRemainingTtlSeconds(t, now).value > 0
  }

  /** The access half of logout: a missing, invalid or non-access token is
      skipped; a valid one whose typ cannot be read or that has no jti makes
      it throw. */
  function LogoutAccess(s: Snapshot, accessToken: Option<Token>): (o: Outcome<()>)
    ensures o.result.Err? ==> o.state == s
    ensures accessToken.None? || !IsValid(accessToken.value, s.now) ==> o == Outcome(Ok(()), s)
    ensures accessToken.Some? && Blacklistable(accessToken.value, s.now) && s.available ==>
      var t := accessToken.value;
      o.result.Ok?
      && o.state.entries == s.entries[BlacklistKey(GetJti(t, s.now).value) :=
           Entry("1", s.now + GetRemainingTtlSeconds(t, s.now).value * 1000)]
    ensures !(accessToken.Some? && Blacklistable(accessToken.value, s.now)) && o.result.Ok? ==> o.state == s
    ensures o.state.now == s.now && o.state.available == s.available
  {
    match accessToken
    case None => Outcome(Ok(()), s)
    case Some(t) =>
      if !IsValid(t, s.now) then Outcome(Ok(()), s)
      else match GetTyp(t, s.now)
        case Err(_) => Outcome(Err(Unexpected), s)
        case Ok(typ) =>
          if typ != "access" then Outcome(Ok(()), s)
          else match GetJti(t, s.now)
            case Err(_) => Outcome(Err(Unexpected), s)
            case Ok(jti) =>
              var ttl := GetRemainingTtlSeconds(t, s.now).value;
              if ttl <= 0 then Outcome(Ok(()), s)
              else match Write(s, BlacklistKey(jti), "1", ttl * 1000)
                case Err(f) => Outcome(Err(f), s)
                case Ok(s1) => Outcome(Ok(()), s1)
  }

  /** The refresh half of logout: a missing, invalid or non-refresh token,
      or one naming no known member, is skipped; otherwise the device must be
      known, the session is deleted and the jti is marked used for the
      token's remaining whole seconds (Redis refuses zero). */
  function LogoutRefresh(s: Snapshot, members: map<string, LoginMember>, refreshToken: Option<Token>,
                         deviceId: Option<string>): (o: Outcome<()>)
    ensures refreshToken.None? || !IsValid(refreshToken.value, s.now) ==> o == Outcome(Ok(()), s)
    ensures refreshToken.Some? && IsValid(refreshToken.value, s.now) && GetTyp(refreshToken.value, s.now) == Ok("refresh")
      && GetMemberId(refreshToken.value, s.now).Ok? && GetMemberId(refreshToken.value, s.now).value !in members
      ==> o == Outcome(Ok(()), s)
    ensures o.state.now == s.now && o.state.available == s.available
  {
    match refreshToken
    case None => Outcome(Ok(()), s)
    case Some(t) =>
      if !IsValid(t, s.now) then Outcome(Ok(()), s)
      else match GetTyp(t, s.now)
        case Err(_) => Outcome(Err(Unexpected), s)
        case Ok(typ) =>
          if typ != "refresh" then Outcome(Ok(()), s)
          else match GetMemberId(t, s.now)
            case Err(_) => Outcome(Err(Unexpected), s)
            case Ok(email) =>
              if email !in members then Outcome(Ok(()), s)
              else if deviceId.None? then Outcome(Err(Unexpected), s)
              else match Remove(s, SessionKey(members[email].memberId, deviceId.value))
                case Err(f) => Outcome(Err(f), s)
                case Ok(s1) =>
                  match GetJti(t, s.now)
                  case Err(_) => Outcome(Err(Unexpected), s1)
                  case Ok(jti) =>
                    match Write(s1, UsedKey(jti), "1", GetRemainingTtlSeconds(t, s.now).value * 1000)
                    case Err(f) => Outcome(Err(f), s1)
                    case Ok(s2) => Outcome(Ok(()), s2)
  }

  /** logout: the access half, then (unless it threw) the refresh half. */
  function Logout(s: Snapshot, members: map<string, LoginMember>, accessToken: Option<Token>,
                  refreshToken: Option<Token>, deviceId: Option<string>): (o: Outcome<()>)
    ensures o.state.now == s.now && o.state.available == s.available
  {
    var a := LogoutAccess(s, accessToken);
    if a.result.Err? then a else LogoutRefresh(a.state, members, refreshToken, deviceId)
  }

  /** A token that names a known member and is a valid refresh token: the
      kind logout revokes. */
  predicate Revocable(t: Token, now: int, members: map<string, LoginMember>) {
    IsValid(t, now) && GetTyp(t, now) == Ok("refresh")
    && GetMemberId(t, now).Ok? && GetMemberId(t, now).value in members
  }

  /** Tokens logout cannot use are skipped without a trace: with neither a
      usable access token nor a revocable refresh token, logout succeeds and
      writes nothing. */
  lemma LogoutSkipsUnusableTokens(s: Snapshot, members: map<string, LoginMember>, accessToken: Option<Token>,
                                  refreshToken: Option<Token>, deviceId: Option<string>)
    requires accessToken.Some? ==> !IsValid(accessToken.value, s.now) || GetTyp(accessToken.value, s.now).Ok?
    requires accessToken.Some? && IsValid(accessToken.value, s.now) ==> GetTyp(accessToken.value, s.now) != Ok("access")
    requires refreshToken.Some? ==> !IsValid(refreshToken.value, s.now) || GetTyp(refreshToken.value, s.now).Ok?
    requires refreshToken.Some? && IsValid(refreshToken.value, s.now) ==> GetTyp(refreshToken.value, s.now) != Ok("refresh")
    ensures Logout(s, members, accessToken, refreshToken, deviceId) == Outcome(Ok(()), s)
  {
  }

  /** Logout blacklists a usable access token's jti, whatever happens on
      the refresh side. */
  lemma LogoutBlacklistsAccess(s: Snapshot, members: map<string, LoginMember>, at: Token,
                               refreshToken: Option<Token>, deviceId: Option<string>)
    requires Blacklistable(at, s.now) && s.available
    ensures var o := Logout(s, members, Some(at), refreshToken, deviceId);
      var jti := GetJti(at, s.now).value;
      o.state.entries[BlacklistKey(jti)] == Entry("1", s.now + GetRemainingTtlSeconds(at, s.now).value * 1000)
  {
    var jti := GetJti(at, s.now).value;
    var a := LogoutAccess(s, Some(at));
    var o := Logout(s, members, Some(at), refreshToken, deviceId);
    assert a.state.entries[BlacklistKey(jti)] == Entry("1", s.now + GetRemainingTtlSeconds(at, s.now).value * 1000);
    if refreshToken.Some? && Revocable(refreshToken.value, s.now, members) && deviceId.Some? {
      var rt := refreshToken.value;
      var key := SessionKey(members[GetMemberId(rt, s.now).value].memberId, deviceId.value);
      assert key != BlacklistKey(jti);
      if GetJti(rt, s.now).Ok? {
        NamespacesDisjoint(IntToString(0), "", GetJti(rt, s.now).value, jti);
      }
    }
  }

  /** Logout with a revocable refresh token and a device deletes that
      device's session; when the token has whole seconds left and carries a
      jti, the jti is marked used and logout succeeds; no other key changes
      after the access token has been handled. */
  lemma LogoutRevokesSession(s: Snapshot, members: map<string, LoginMember>, accessToken: Option<Token>,
                             rt: Token, deviceId: string)
    requires LogoutAccess(s, accessToken).result.Ok?
    requires Revocable(rt, s.now, members) && s.available
    ensures var o := Logout(s, members, accessToken, Some(rt), Some(deviceId));
      var key := SessionKey(members[GetMemberId(rt, s.now).value].memberId, deviceId);
      Lookup(o.state, key).None?
      && (GetJti(rt, s.now).Ok? && GetRemainingTtlSeconds(rt, s.now).value > 0 ==>
            o.result.Ok? && Lookup(o.state, UsedKey(GetJti(rt, s.now).value)) == Some("1"))
      && (forall k :: k != key && (GetJti(rt, s.now).Err? || k != UsedKey(GetJti(rt, s.now).value)) ==>
            Lookup(o.state, k) == Lookup(LogoutAccess(s, accessToken).state, k))
  {
    var a := LogoutAccess(s, accessToken);
    var key := SessionKey(members[GetMemberId(rt, s.now).value].memberId, deviceId);
    assert key !in Remove(a.state, key).value.entries;
    if GetJti(rt, s.now).Ok? {
      assert UsedKey(GetJti(rt, s.now).value) != key;
    }
  }

  /** A revocable refresh token presented without a device id makes logout
      throw before anything is deleted. */
  lemma LogoutNeedsDevice(s: Snapshot, members: map<string, LoginMember>, accessToken: Option<Token>, rt: Token)
    requires LogoutAccess(s, accessToken).result.Ok?
    requires Revocable(rt, s.now, members)
    ensures var o := Logout(s, members, accessToken, Some(rt), None);
      o.result == Err(Unexpected) && o.state == LogoutAccess(s, accessToken).state
  {
  }

  /** After logout revoked a refresh token's session, the token cannot be
      exchanged on that device any more. */
  lemma RevokedTokenCannotReissue(s: Snapshot, members: map<string, LoginMember>, accessToken: Option<Token>,
                                  rt: Token, deviceId: string, accessJti: string, refreshJti: string)
    requires LogoutAccess(s, accessToken).result.Ok?
    requires Revocable(rt, s.now, members) && GetJti(rt, s.now).Ok? && s.available
    ensures var s2 := Logout(s, members, accessToken, Some(rt), Some(deviceId)).state;
      Reissue(s2, members, rt, deviceId, accessJti, refreshJti).result == Err(AuthFailure(AuthInvalidRefreshToken))
  {
    LogoutRevokesSession(s, members, accessToken, rt, deviceId);
  }

  // ---------------------------------------------------------------------
  // blacklistAccessIfValid

  /** blacklistAccessIfValid: any valid token (whatever its typ) has its
      jti blacklisted for its remaining whole seconds; the store ignores a
      lifetime of zero. */
  function BlacklistAccessIfValid(s: Snapshot, t: Token): (o: Outcome<()>)
    ensures !IsValid(t, s.now) ==> o == Outcome(Ok(()), s)
    ensures IsValid(t, s.now) && GetJti(t, s.now).Err? ==> o.result == Err(Unexpected)
    ensures o.result.Err? || GetRemainingTtlSeconds(t, s.now) == Ok(0) ==> o.state == s
    ensures IsValid(t, s.now) && GetJti(t, s.now).Ok? && GetRemainingTtlSeconds(t, s.now).value > 0 && s.available ==>
      o.result.Ok? && Lookup(o.state, BlacklistKey(GetJti(t, s.now).value)) == Some("1")
  {
    if !IsValid(t, s.now) then Outcome(Ok(()), s)
    else match GetJti(t, s.now)
      case Err(_) => Outcome(Err(Unexpected), s)
      case Ok(jti) =>
        var ttl := GetRemainingTtlSeconds(t, s.now).value;
        if ttl <= 0 then Outcome(Ok(()), s)
        else match Write(s, BlacklistKey(jti), "1", ttl * 1000)
          case Err(f) => Outcome(Err(f), s)
          case Ok(s1) => Outcome(Ok(()), s1)
  }

  // ---------------------------------------------------------------------
  // e-mail codes

  const EMAIL_CODE_PREFIX := "emailCode:"
  /** Five minutes. */
  const EMAIL_CODE_TTL_MS := 5 * 60 * 1000

  /** `emailCode:{email}` */
  function EmailCodeKey(email: string): (k: string)
    ensures forall u, d :: k != RefreshKey(u, d)
    ensures forall j :: k != UsedKey(j) && k != BlacklistKey(j)
  {
    var k := EMAIL_CODE_PREFIX + email;
    assert k[0] == 'e';
    assert forall u, d :: RefreshKey(u, d)[0] == 'r';
    assert forall j :: UsedKey(j)[0] == 'r' && BlacklistKey(j)[0] == 'a';
    k
  }

  /** generateCode: `CODE_RANGE.random()`; `draw` is the random source. */
  function GenerateCode(draw: nat): (code: nat)
    ensures 100000 <= code <= 999999
  {
    100000 + draw % 900000
  }

  /** Every code of the range can be drawn. */
  lemma EveryCodeDrawable(code: nat)
    requires 100000 <= code <= 999999
    ensures GenerateCode(code - 100000) == code
  {
  }

  const SENDER_EMAIL := "islandtim-project@naver.com"
  const EMAIL_SUBJECT := "[LovelyDrme] 이메일 인증 코드"

  datatype Mail = Mail(from: string, to: string, subject: string, text: string)

  /** EMAIL_BODY_TEMPLATE around its one placeholder. */
  const BODY_BEFORE_CODE := "요청하신 인증 코드는 ["
  const BODY_AFTER_CODE := "] 입니다.\n5분 내에 입력해주세요."

  /** The message sendEmail builds: the body is the template with the code
      in place of the placeholder. */
  function ComposeMail(to: string, code: string): (m: Mail)
    ensures m.to == to && m.from == SENDER_EMAIL && m.subject == EMAIL_SUBJECT
    ensures |m.text| == |BODY_BEFORE_CODE| + |code| + |BODY_AFTER_CODE|
    ensures m.text[..|BODY_BEFORE_CODE|] == BODY_BEFORE_CODE
    ensures m.text[|BODY_BEFORE_CODE|..|BODY_BEFORE_CODE| + |code|] == code
  {
    var text := BODY_BEFORE_CODE + code + BODY_AFTER_CODE;
    assert text[|BODY_BEFORE_CODE|..|BODY_BEFORE_CODE| + |code|] == code;
    Mail(SENDER_EMAIL, to, EMAIL_SUBJECT, text)
  }

  /** sendEmailCode: refused for an e-mail that already has a member; the
      mail goes out (a delivery failure is AUTH_EMAIL_SEND_FAILED and
      nothing is stored); then the code is stored for five minutes and
      returned. `deliver` says whether the mail server accepted the message. */
  function SendEmailCode(s: Snapshot, members: map<string, LoginMember>, email: string, draw: nat,
                         deliver: Mail -> bool): (o: Outcome<string>)
    ensures email in members ==> o == Outcome(Err(AuthFailure(AuthEmailAlreadyExists)), s)
    ensures email !in members && !deliver(ComposeMail(email, NatToString(GenerateCode(draw)))) ==>
      o == Outcome(Err(AuthFailure(AuthEmailSendFailed)), s)
    ensures o.result.Err? ==> o.state == s
    ensures o.result.Ok? ==>
      |o.result.value| == 6 && (forall i :: 0 <= i < 6 ==> IsAsciiDigit(o.result.value[i]))
      && Lookup(o.state, EmailCodeKey(email)) == Some(o.result.value)
      && o.state.entries[EmailCodeKey(email)].expiresAt == s.now + EMAIL_CODE_TTL_MS
      && (forall k :: k != EmailCodeKey(email) ==> Lookup(o.state, k) == Lookup(s, k))
    ensures o.state.now == s.now && o.state.available == s.available
  {
    if email in members then Outcome(Err(AuthFailure(AuthEmailAlreadyExists)), s)
    else
      var code := NatToString(GenerateCode(draw));
      SixDigits(GenerateCode(draw));
      if !deliver(ComposeMail(email, code)) then Outcome(Err(AuthFailure(AuthEmailSendFailed)), s)
      else match Write(s, EmailCodeKey(email), code, EMAIL_CODE_TTL_MS)
        case Err(f) => Outcome(Err(f), s)
        case Ok(s1) => Outcome(Ok(code), s1)
  }

  /** verifyEmailCode: no code stored (never sent, expired or already used)
      is AUTH_CODE_EXPIRED; a different code is AUTH_CODE_MISMATCH and the
      stored one stays; the right code is consumed. */
  function VerifyEmailCode(s: Snapshot, email: string, code: string): (o: Outcome<()>)
    ensures s.available && Lookup(s, EmailCodeKey(email)).None? ==> o == Outcome(Err(AuthFailure(AuthCodeExpired)), s)
    ensures s.available && Lookup(s, EmailCodeKey(email)).Some? && Lookup(s, EmailCodeKey(email)).value != code ==>
      o == Outcome(Err(AuthFailure(AuthCodeMismatch)), s)
    ensures o.result.Ok? <==> s.available && Lookup(s, EmailCodeKey(email)) == Some(code)
    ensures o.result.Ok? ==> o.state.entries == s.entries - {EmailCodeKey(email)}
    ensures o.result.Err? ==> o.state == s
    ensures o.state.now == s.now && o.state.available == s.available
  {
    if !s.available then Outcome(Err(StoreFailure), s)
    else match Lookup(s, EmailCodeKey(email))
      case None => Outcome(Err(AuthFailure(AuthCodeExpired)), s)
      case Some(saved) =>
        if saved != code then Outcome(Err(AuthFailure(AuthCodeMismatch)), s)
        else Outcome(Ok(()), Remove(s, EmailCodeKey(email)).value)
  }

  /** A sent code verifies once within its five minutes; a second attempt
      finds no code. */
  lemma CodeVerifiesOnce(s: Snapshot, members: map<string, LoginMember>, email: string, draw: nat,
                         deliver: Mail -> bool, later: int)
    requires SendEmailCode(s, members, email, draw, deliver).result.Ok?
    requires s.now <= later <= s.now + EMAIL_CODE_TTL_MS
    ensures var sent := SendEmailCode(s, members, email, draw, deliver);
      var s1 := sent.state.(now := later);
      var first := VerifyEmailCode(s1, email, sent.result.value);
      first.result.Ok?
      && VerifyEmailCode(first.state, email, sent.result.value).result == Err(AuthFailure(AuthCodeExpired))
  {
  }

  /** A code stops verifying once its five minutes are over: Redis still
      holds it at the last millisecond and drops it right after. */
  lemma CodeExpires(s: Snapshot, members: map<string, LoginMember>, email: string, draw: nat,
                    deliver: Mail -> bool, later: int)
    requires SendEmailCode(s, members, email, draw, deliver).result.Ok?
    requires later > s.now + EMAIL_CODE_TTL_MS
    ensures var sent := SendEmailCode(s, members, email, draw, deliver);
      VerifyEmailCode(sent.state.(now := later), email, sent.result.value).result == Err(AuthFailure(AuthCodeExpired))
  {
  }
}
