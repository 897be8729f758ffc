/** JwtAuthenticationFilter: the per-request decision whether a request
    goes on unauthenticated, goes on as an authenticated member, or is
    answered 401 — and the AntPathMatcher whitelist it consults first. */
module AuthFilter {
  import opened Wrappers
  import opened Strings
  import opened Redis
  import opened TokenKeys
  import opened Jwt

  /** The non-empty pieces of a path between '/' separators. */
  function PathTokens(s: string): seq<string> {
    NonEmptyPieces(Split(s, '/'))
  }

  function NonEmptyPieces(pieces: seq<string>): (r: seq<string>)
    ensures forall i :: 0 <= i < |r| ==> r[i] != []
    ensures |r| <= |pieces|
  {
    if pieces == [] then []
    else if pieces[0] == [] then NonEmptyPieces(pieces[1..])
    else [pieces[0]] + NonEmptyPieces(pieces[1..])
  }

  predicate EndsWithSlash(s: string) {
    s != [] && s[|s| - 1] == '/'
  }

  /** AntPathMatcher.match for the pattern shapes the whitelist uses
      (literal segments, optionally followed by a final double-star
      segment): both or neither start with '/'; a literal pattern needs the
      same segments and the same trailing '/'; a double-star pattern needs
      its literal segments as a prefix of the path's segments, so it also
      matches its own literal prefix. Empty segments are ignored. */
  predicate AntMatch(pattern: string, path: string) {
    var pt := PathTokens(pattern);
    var st := PathTokens(path);
    StartsWith(pattern, "/") == StartsWith(path, "/")
    && if pt != [] && pt[|pt| - 1] == "**" then
         |pt| - 1 <= |st| && st[..|pt| - 1] == pt[..|pt| - 1]
       else
         st == pt && EndsWithSlash(pattern) == EndsWithSlash(path)
  }


  lemma {:induction false} NonEmptyPiecesConcat(x: seq<string>, y: seq<string>)
    ensures NonEmptyPieces(x + y) == NonEmptyPieces(x) + NonEmptyPieces(y)
  {
    if x != [] {
      assert (x + y)[0] == x[0] && (x + y)[1..] == x[1..] + y;
      NonEmptyPiecesConcat(x[1..], y);
    } else {
      assert x + y == y;
    }
  }

  lemma {:induction false} NonEmptyPiecesAllKept(x: seq<string>)
    requires forall i :: 0 <= i < |x| ==> x[i] != []
    ensures NonEmptyPieces(x) == x
  {
    if x != [] {
      NonEmptyPiecesAllKept(x[1..]);
    }
  }

  /** Non-empty segments free of '/'. */
  predicate Segments(segs: seq<string>) {
    forall i :: 0 <= i < |segs| ==> segs[i] != [] && forall k :: 0 <= k < |segs[i]| ==> segs[i][k] != '/'
  }

  /** The absolute path made of the given segments. */
  function AbsolutePath(segments: seq<string>): string {
    "/" + Join(segments, "/")
  }

  lemma {:induction false} JoinEndsWithLast(parts: seq<string>, sep: string)
    requires |parts| >= 1
    ensures |parts[|parts| - 1]| <= |Join(parts, sep)|
    ensures Join(parts, sep)[|Join(parts, sep)| - |parts[|parts| - 1]|..] == parts[|parts| - 1]
  {
    if |parts| > 1 {
      JoinEndsWithLast(parts[1..], sep);
    }
  }

  /** Splitting an absolute path at '/' gives an empty piece, then its
      segments. */
  lemma SplitAbsolutePath(segments: seq<string>)
    requires |segments| >= 1 && Segments(segments)
    ensures Split(AbsolutePath(segments), '/') == [[]] + segments
  {
    forall i | 0 <= i < |segments| ensures Count(segments[i], '/') == 0 {
      CountAbsent(segments[i], '/');
    }
    SplitJoin(segments, '/');
    SplitConcat([], Join(segments, "/"), '/');
    assert AbsolutePath(segments) == [] + ['/'] + Join(segments, "/");
  }

  /** An absolute path ends with the last character of its last segment. */
  lemma AbsolutePathEnd(segments: seq<string>)
    requires |segments| >= 1 && Segments(segments)
    ensures !EndsWithSlash(AbsolutePath(segments))
  {
    JoinEndsWithLast(segments, "/");
    var last := segments[|segments| - 1];
    var p := AbsolutePath(segments);
    assert p[|p| - 1] == last[|last| - 1];
  }

  /** Tokenizing an absolute path gives back its segments; it starts with
      '/' and, its last segment being non-empty, does not end with one. */
  lemma PathTokensOfAbsolutePath(segments: seq<string>)
    requires |segments| >= 1 && Segments(segments)
    ensures PathTokens(AbsolutePath(segments)) == segments
    ensures StartsWith(AbsolutePath(segments), "/") && !EndsWithSlash(AbsolutePath(segments))
  {
    SplitAbsolutePath(segments);
    NonEmptyPiecesConcat([[]], segments);
    NonEmptyPiecesAllKept(segments);
    AbsolutePathEnd(segments);
  }

  /** What matching an absolute pattern means on the path's segments. */
  predicate SegmentMatch(patternSegs: seq<string>, path: string) {
    var st := PathTokens(path);
    StartsWith(path, "/")
    && if patternSegs != [] && patternSegs[|patternSegs| - 1] == "**" then
         |patternSegs| - 1 <= |st| && st[..|patternSegs| - 1] == patternSegs[..|patternSegs| - 1]
       else
         st == patternSegs && !EndsWithSlash(path)
  }

  lemma AntMatchAbsolute(segs: seq<string>, path: string)
    requires |segs| >= 1 && Segments(segs)
    ensures AntMatch(AbsolutePath(segs), path) <==> SegmentMatch(segs, path)
  {
    PathTokensOfAbsolutePath(segs);
  }

  /** The segments of the whitelist entries: "/api/auth/email",
      "/api/auth/email/verify", "/api/auth/signup", "/api/member/profile",
      "/api/auth/login", "/api/auth/reissue", the swagger-ui and
      v3/api-docs trees, and "/error". */
  const WHITELIST_SEGMENTS: seq<seq<string>> := [
    ["api", "auth", "email"],
    ["api", "auth", "email", "verify"],
    ["api", "auth", "signup"],
    ["api", "member", "profile"],
    ["api", "auth", "login"],
    ["api", "auth", "reissue"],
    ["swagger-ui", "**"],
    ["v3", "api-docs", "**"],
    ["error"]
  ]

  const WHITELIST: seq<string> := AbsolutePaths(WHITELIST_SEGMENTS)

  function AbsolutePaths(lists: seq<seq<string>>): (r: seq<string>)
    ensures |r| == |lists|
    ensures forall i :: 0 <= i < |lists| ==> r[i] == AbsolutePath(lists[i])
  {
    if lists == [] then [] else [AbsolutePath(lists[0])] + AbsolutePaths(lists[1..])
  }

  /** shouldNotFilter: some whitelist entry matches the request path. */
  predicate ShouldNotFilter(path: string) {
    exists i :: 0 <= i < |WHITELIST| && AntMatch(WHITELIST[i], path)
  }

  /** Some pattern of a list of absolute patterns matches exactly when the
      path matches the segments of one of them. */
  lemma AnyMatchBySegments(lists: seq<seq<string>>, path: string)
    requires forall i :: 0 <= i < |lists| ==> |lists[i]| >= 1 && Segments(lists[i])
    ensures (exists i :: 0 <= i < |lists| && AntMatch(AbsolutePaths(lists)[i], path)) ==>
      exists i :: 0 <= i < |lists| && SegmentMatch(lists[i], path)
    ensures (exists i :: 0 <= i < |lists| && SegmentMatch(lists[i], path)) ==>
      exists i :: 0 <= i < |lists| && AntMatch(AbsolutePaths(lists)[i], path)
  {
    var patterns := AbsolutePaths(lists);
    if i :| 0 <= i < |lists| && AntMatch(patterns[i], path) {
      AntMatchAbsolute(lists[i], path);
      assert SegmentMatch(lists[i], path);
    }
    if i :| 0 <= i < |lists| && SegmentMatch(lists[i], path) {
      AntMatchAbsolute(lists[i], path);
      assert AntMatch(patterns[i], path);
    }
  }

  /** The whitelist read on segments. */
  lemma ShouldNotFilterBySegments(path: string)
    ensures ShouldNotFilter(path) <==>
      exists i :: 0 <= i < |WHITELIST_SEGMENTS| && SegmentMatch(WHITELIST_SEGMENTS[i], path)
  {
    WhitelistWellFormed();
    AnyMatchBySegments(WHITELIST_SEGMENTS, path);
  }

  lemma WhitelistWellFormed()
    ensures forall i :: 0 <= i < |WHITELIST_SEGMENTS| ==> |WHITELIST_SEGMENTS[i]| >= 1 && Segments(WHITELIST_SEGMENTS[i])
  {
  }

  /** A pattern matches itself. */
  lemma AntMatchReflexive(pattern: string)
    ensures AntMatch(pattern, pattern)
  {
  }

  /** Every whitelist entry is itself skipped. */
  lemma EntriesSkipped(i: nat)
    requires i < |WHITELIST|
    ensures ShouldNotFilter(WHITELIST[i])
  {
    AntMatchReflexive(WHITELIST[i]);
  }

  /** Every path under the tree of a double-star whitelist entry is skipped,
      the tree's root included. */
  lemma TreeSkipped(i: nat, root: seq<string>, rest: seq<string>)
    requires i < |WHITELIST_SEGMENTS| && WHITELIST_SEGMENTS[i] == root + ["**"]
    requires |root| >= 1 && Segments(root + rest)
    ensures ShouldNotFilter(AbsolutePath(root + rest))
  {
    var path := AbsolutePath(root + rest);
    WhitelistWellFormed();
    PathTokensOfAbsolutePath(root + rest);
    AntMatchAbsolute(WHITELIST_SEGMENTS[i], path);
    assert (root + ["**"])[..|root|] == root == (root + rest)[..|root|];
    assert AntMatch(WHITELIST[i], path);
  }

  /** Everything under the swagger-ui tree is skipped, its root included. */
  lemma SwaggerTreeSkipped(rest: seq<string>)
    requires Segments(rest)
    ensures ShouldNotFilter(AbsolutePath(["swagger-ui"] + rest))
  {
    assert WHITELIST_SEGMENTS[6] == ["swagger-ui"] + ["**"];
    TreeSkipped(6, ["swagger-ui"], rest);
  }

  /** Everything under the v3/api-docs tree is skipped, its root included. */
  lemma ApiDocsTreeSkipped(rest: seq<string>)
    requires Segments(rest)
    ensures ShouldNotFilter(AbsolutePath(["v3", "api-docs"] + rest))
  {
    assert WHITELIST_SEGMENTS[7] == ["v3", "api-docs"] + ["**"];
    TreeSkipped(7, ["v3", "api-docs"], rest);
  }

  /** No whitelist entry matches a path whose segments are those of the
      logout endpoint. */
  lemma NoEntryMatchesLogout(path: string)
    requires PathTokens(path) == ["api", "auth", "logout"]
    ensures forall i :: 0 <= i < |WHITELIST_SEGMENTS| ==> !SegmentMatch(WHITELIST_SEGMENTS[i], path)
  {
    forall i | 0 <= i < |WHITELIST_SEGMENTS| ensures !SegmentMatch(WHITELIST_SEGMENTS[i], path) {
      var segs := WHITELIST_SEGMENTS[i];
      if segs[|segs| - 1] == "**" {
        assert segs[0] != "api";
      } else {
        assert segs != ["api", "auth", "logout"];
      }
    }
  }

  /** Logout is not whitelisted: its requests go through the token checks. */
  lemma LogoutIsFiltered()
    ensures !ShouldNotFilter("/api/auth/logout")
  {
    var segs := ["api", "auth", "logout"];
    var p := AbsolutePath(segs);
    assert Join(segs[2..], "/") == "logout";
    assert Join(segs[1..], "/") == "auth" + "/" + "logout";
    PathTokensOfAbsolutePath(segs);
    NoEntryMatchesLogout(p);
    ShouldNotFilterBySegments(p);
    assert p == "/api/auth/logout";
  }
  // ---------------------------------------------------------------------
  // The decision chain of doFilterInternal

  datatype Request = Request(httpMethod: string, path: string, authorization: Option<string>)

  /** An exception escaping the filter: a token reader threw, or Redis did. */
  datatype CrashCause = TokenUnreadable(error: JwtError) | StoreDown

  /** Pass: the chain goes on with no principal; Admit: it goes on with the
      principal set; Reject: a 401 body with the code is written; Crash: an
      exception leaves the filter. */
  datatype Outcome = Pass | Admit(principal: string) | Reject(code: string) | Crash(cause: CrashCause)

  const TYP_MISMATCH := "ACCESS_TOKEN_TYP_MISMATCH"
  const INVALID_OR_EXPIRED := "INVALID_OR_EXPIRED_ACCESS_TOKEN"
  const JTI_MISSING := "ACCESS_TOKEN_JTI_MISSING"
  const BLACKLISTED := "ACCESS_TOKEN_BLACKLISTED"
  const SUBJECT_MISSING := "ACCESS_TOKEN_SUBJECT_MISSING"

  /** resolveAccessToken: the trimmed rest of an Authorization header that
      starts with "Bearer " in any letter case; nothing otherwise. */
  function ResolveAccessToken(header: Option<string>): (r: Option<string>)
    ensures r.Some? <==> header.Some? && StartsWithIgnoreCase(header.value, "Bearer ")
    ensures r.Some? ==> r.value == Trim(header.value[7..])
  {
    if header.Some? && StartsWithIgnoreCase(header.value, "Bearer ") then Some(Trim(header.value[7..])) else None
  }

  /** The access token the chain examines, when the request reaches it. */
  function Bearer(req: Request): Option<string> {
    var token := ResolveAccessToken(req.authorization);
    if token.Some? && !IsBlank(token.value) then token else None
  }

  /** The request is examined at all: not whitelisted, not a preflight,
      and carrying a non-blank bearer token. */
  predicate Examined(req: Request) {
    !ShouldNotFilter(req.path) && !EqualsIgnoreCase(req.httpMethod, "OPTIONS") && Bearer(req).Some?
  }

  /** Everything a request must satisfy to be admitted as `principal`. */
  predicate Admissible(t: Token, kv: RedisKv, principal: string)
    reads kv
  {
    IsValid(t, kv.now)
    && GetType(t, kv.now) == Ok("access")
    && GetJti(t, kv.now).Ok? && !IsBlank(GetJti(t, kv.now).value)
    && kv.available && kv.Lookup(BlacklistKey(GetJti(t, kv.now).value)).None?
    && GetMemberId(t, kv.now) == Ok(principal) && !IsBlank(principal)
  }

  /** The jti is read under runCatching, so a failing read counts as blank. */
  predicate JtiMissing(t: Token, now: int) {
    GetJti(t, now).Err? || IsBlank(GetJti(t, now).value)
  }

  /** The subject is read under runCatching too. */
  predicate SubjectMissing(t: Token, now: int) {
    GetMemberId(t, now).Err? || IsBlank(GetMemberId(t, now).value)
  }

  /** A present jti that Redis reports as blacklisted. */
  predicate Blacklisted(t: Token, kv: RedisKv)
    reads kv
  {
    !JtiMissing(t, kv.now) && kv.available && kv.Lookup(BlacklistKey(GetJti(t, kv.now).value)).Some?
  }

  /** The jti is present and Redis answered that it is not blacklisted, so
      the subject is read next. */
  predicate PastBlacklist(t: Token, kv: RedisKv)
    reads kv
  {
    !JtiMissing(t, kv.now) && kv.available && kv.Lookup(BlacklistKey(GetJti(t, kv.now).value)).None?
  }

  /** The token is valid and its typ claim reads as "access". */
  predicate AccessTyped(t: Token, now: int) {
    IsValid(t, now) && GetType(t, now) == Ok("access")
  }

  /** The checks after the typ and validity checks, in their order: jti
      present, not blacklisted (an outage throws), subject present. */
  function CheckIdentity(t: Token, kv: RedisKv): (o: Outcome)
    reads kv
    requires AccessTyped(t, kv.now)
    ensures o.Admit? ==> Admissible(t, kv, o.principal)
    ensures forall p :: Admissible(t, kv, p) ==> o == Admit(p)
    ensures JtiMissing(t, kv.now) ==> o == Reject(JTI_MISSING)
    ensures Blacklisted(t, kv) ==> o == Reject(BLACKLISTED)
    ensures PastBlacklist(t, kv) && SubjectMissing(t, kv.now) ==> o == Reject(SUBJECT_MISSING)
    ensures o.Crash? <==> o == Crash(StoreDown)
    ensures o.Crash? <==> GetJti(t, kv.now).Ok? && !IsBlank(GetJti(t, kv.now).value) && !kv.available
    ensures o.Reject? ==> o.code in {JTI_MISSING, BLACKLISTED, SUBJECT_MISSING}
    ensures o != Pass
  {
    var jti := GetJti(t, kv.now);
    if jti.Err? || IsBlank(jti.value) then Reject(JTI_MISSING)
    else if !kv.available then Crash(StoreDown)
    else if kv.Lookup(BlacklistKey(jti.value)).Some? then Reject(BLACKLISTED)
    else
      var subject := GetMemberId(t, kv.now);
      if subject.Err? || IsBlank(subject.value) then Reject(SUBJECT_MISSING) else Admit(subject.value)
  }

  /** doFilterInternal as written (with shouldNotFilter in front, as
      OncePerRequestFilter does): getTyp is called outside runCatching
      before the validity check. */
  function DoFilterAsWritten(req: Request, decode: string -> Token, kv: RedisKv): (o: Outcome)
    reads kv
    ensures !Examined(req) ==> o == Pass
    ensures o.Admit? ==> Examined(req) && Admissible(decode(Bearer(req).value), kv, o.principal)
    ensures Examined(req) && !IsValid(decode(Bearer(req).value), kv.now) ==> o.Crash?
    ensures forall p :: Examined(req) && Admissible(decode(Bearer(req).value), kv, p) ==> o == Admit(p)
    ensures Examined(req) && GetTyp(decode(Bearer(req).value), kv.now) == Ok("access") ==>
      var t := decode(Bearer(req).value);
      (JtiMissing(t, kv.now) ==> o == Reject(JTI_MISSING))
      && (Blacklisted(t, kv) ==> o == Reject(BLACKLISTED))
      && (PastBlacklist(t, kv) && SubjectMissing(t, kv.now) ==> o == Reject(SUBJECT_MISSING))
      && (!JtiMissing(t, kv.now) && !kv.available ==> o == Crash(StoreDown))
  {
    var now := kv.now;
    if ShouldNotFilter(req.path) || EqualsIgnoreCase(req.httpMethod, "OPTIONS") then Pass
    else match Bearer(req)
      case None => Pass
      case Some(text) =>
        var t := decode(text);
        match GetTyp(t, now)
        case Err(e) => Crash(TokenUnreadable(e))
        case Ok(typ) =>
          match TypThenValidity(t, typ, now)
          case Some(o) => o
          case None => CheckIdentity(t, kv)
  }

  /** The two checks doFilterInternal makes, in its order, once getTyp has
      returned: the typ claim first, the validity of the token second.
      None means both passed. */
  function TypThenValidity(t: Token, typ: string, now: int): Option<Outcome> {
    if typ != "access" then Some(Reject(TYP_MISMATCH))
    else if !IsValid(t, now) then Some(Reject(INVALID_OR_EXPIRED))
    else None
  }

  /** Reading the token at one instant, the rejection for an invalid or
      expired access token is never produced: a token that fails the
      validity check has already made getTyp throw. Only a token that
      expires between the getTyp and isValid reads would reach it. */
  lemma InvalidOrExpiredUnreachable(req: Request, decode: string -> Token, kv: RedisKv)
    ensures DoFilterAsWritten(req, decode, kv) != Reject(INVALID_OR_EXPIRED)
  {
  }

  /** A request for a member page carrying a bearer token. */
  function MemberPageRequest(token: string): Request {
    Request("GET", AbsolutePath(["api", "member", "me"]), Some("Bearer " + token))
  }

  lemma MemberPagePathFiltered()
    ensures !ShouldNotFilter(AbsolutePath(["api", "member", "me"]))
  {
    var segs := ["api", "member", "me"];
    var path := AbsolutePath(segs);
    assert Join(segs[2..], "/") == "me";
    assert Join(segs[1..], "/") == "member" + "/" + "me";
    PathTokensOfAbsolutePath(segs);
    forall i | 0 <= i < |WHITELIST_SEGMENTS| ensures !SegmentMatch(WHITELIST_SEGMENTS[i], path) {
    }
    ShouldNotFilterBySegments(path);
  }

  lemma BearerOfPlainToken(token: string)
    requires token != [] && forall i :: 0 <= i < |token| ==> !IsWhitespace(token[i])
    ensures Bearer(MemberPageRequest(token)) == Some(token)
  {
    var header := "Bearer " + token;
    assert header[7..] == token;
    assert StartsWithIgnoreCase(header, "Bearer ");
    assert TrimStart(token) == token;
    assert TrimEnd(token) == token;
  }

  lemma MemberPageRequestExamined(token: string)
    requires token != [] && forall i :: 0 <= i < |token| ==> !IsWhitespace(token[i])
    ensures Examined(MemberPageRequest(token)) && Bearer(MemberPageRequest(token)) == Some(token)
  {
    MemberPagePathFiltered();
    BearerOfPlainToken(token);
    assert !SameIgnoringCase('G', 'O');
  }

  /** A concrete witness: an access token presented one millisecond after
      its expiry makes the filter throw instead of answering 401
      INVALID_OR_EXPIRED_ACCESS_TOKEN. */
  lemma ExpiredAccessTokenCrashes(kv: RedisKv, issued: int, jti: string)
    requires kv.now == NumericDate(issued + ACCESS_EXPIRATION_MS) + 1
    ensures DoFilterAsWritten(MemberPageRequest("t"), _ => GenerateAccessToken("42", issued, jti), kv)
      == Crash(TokenUnreadable(Expired))
  {
    MemberPageRequestExamined("t");
  }

  /** doFilterInternal with the evident intent: the validity check comes
      first and the typ claim is then read safely, so every unusable token
      is answered 401 and only a Redis outage escapes the filter. */
  function DoFilter(req: Request, decode: string -> Token, kv: RedisKv): (o: Outcome)
    reads kv
    ensures !Examined(req) ==> o == Pass
    ensures o.Admit? ==> Examined(req) && Admissible(decode(Bearer(req).value), kv, o.principal)
    ensures Examined(req) && !IsValid(decode(Bearer(req).value), kv.now) ==> o == Reject(INVALID_OR_EXPIRED)
    ensures Examined(req) && IsValid(decode(Bearer(req).value), kv.now) && GetType(decode(Bearer(req).value), kv.now) != Ok("access")
      ==> o == Reject(TYP_MISMATCH)
    ensures o.Crash? ==> o == Crash(StoreDown) && !kv.available
    ensures forall p :: Examined(req) && Admissible(decode(Bearer(req).value), kv, p) ==> o == Admit(p)
    ensures Examined(req) && AccessTyped(decode(Bearer(req).value), kv.now) ==>
      var t := decode(Bearer(req).value);
      (JtiMissing(t, kv.now) ==> o == Reject(JTI_MISSING))
      && (Blacklisted(t, kv) ==> o == Reject(BLACKLISTED))
      && (PastBlacklist(t, kv) && SubjectMissing(t, kv.now) ==> o == Reject(SUBJECT_MISSING))
      && (!JtiMissing(t, kv.now) && !kv.available ==> o == Crash(StoreDown))
  {
    if ShouldNotFilter(req.path) || EqualsIgnoreCase(req.httpMethod, "OPTIONS") then Pass
    else match Bearer(req)
      case None => Pass
      case Some(text) =>
        var t := decode(text);
        if !IsValid(t, kv.now) then Reject(INVALID_OR_EXPIRED)
        else if GetType(t, kv.now) != Ok("access") then Reject(TYP_MISMATCH)
        else CheckIdentity(t, kv)
  }

  /** The correction changes nothing for a valid token whose typ claim is a
      string: both filters then decide alike. */
  lemma CorrectionOnlyAffectsUnreadableTokens(req: Request, decode: string -> Token, kv: RedisKv)
    requires Examined(req)
    requires GetTyp(decode(Bearer(req).value), kv.now).Ok?
    ensures DoFilter(req, decode, kv) == DoFilterAsWritten(req, decode, kv)
  {
  }

  /** A valid access token whose jti is blacklisted is refused as such, by
      the filter as written and by the corrected one. */
  lemma BlacklistedTokenRejected(req: Request, decode: string -> Token, kv: RedisKv)
    requires Examined(req)
    requires IsValid(decode(Bearer(req).value), kv.now) && GetTyp(decode(Bearer(req).value), kv.now) == Ok("access")
    requires GetJti(decode(Bearer(req).value), kv.now).Ok? && !IsBlank(GetJti(decode(Bearer(req).value), kv.now).value)
    requires kv.available && kv.Lookup(BlacklistKey(GetJti(decode(Bearer(req).value), kv.now).value)).Some?
    ensures DoFilter(req, decode, kv) == Reject(BLACKLISTED)
    ensures DoFilterAsWritten(req, decode, kv) == Reject(BLACKLISTED)
  {
  }

  /** An HTTP response as the filter sees it. */
  datatype Response = Response(committed: bool, status: int, contentType: string, body: string)

  function UnauthorizedBody(code: string): string {
    "{\"success\":false,\"code\":\"" + code + "\",\"message\":\"Unauthorized\"}"
  }

  /** writeUnauthorized: a committed response is left alone; otherwise the
      401 JSON body is written and the response is committed. */
  function WriteUnauthorized(resp: Response, code: string): (r: Response)
    ensures resp.committed ==> r == resp
    ensures !resp.committed ==> r.committed && r.status == 401 && r.body == UnauthorizedBody(code)
  {
    if resp.committed then resp
    else Response(true, 401, "application/json;charset=UTF-8", UnauthorizedBody(code))
  }

  /** Only the first rejection is written. */
  lemma WriteUnauthorizedOnce(resp: Response, first: string, second: string)
    ensures WriteUnauthorized(WriteUnauthorized(resp, first), second) == WriteUnauthorized(resp, first)
  {
  }
}
