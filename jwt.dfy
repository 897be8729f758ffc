/** JwtTokenProvider: the claims the service puts into its tokens, the
    validity test, the remaining-lifetime arithmetic and the claim readers.
    Signing and signature checking are not modelled: a token carries its
    claims together with whether its signature verifies under the service key. */
module Jwt {
  import opened Wrappers
  import opened Strings

  /** JwtConstants.ACCESS_EXPIRATION_MS: 15 minutes. */
  const ACCESS_EXPIRATION_MS := 15 * 60 * 1000
  /** JwtConstants.REFRESH_EXPIRATION_MS: 7 days. */
  const REFRESH_EXPIRATION_MS := 1000 * 60 * 60 * 24 * 7

  /** A JSON claim value. */
  datatype ClaimValue = Text(s: string) | Items(elems: seq<ClaimValue>) | Number(n: int) | Flag(b: bool)

  datatype Claims = Claims(
    subject: Option<string>,
    jti: Option<string>,
    issuedAt: int,
    expiration: int,
    typ: Option<ClaimValue>,
    tier: Option<ClaimValue>,
    auth: Option<ClaimValue>)

  datatype Token = Token(claims: Claims, signatureOk: bool)

  /** Why parsing a token throws. */
  datatype JwtError = SignatureInvalid | Expired | MissingClaim | WrongClaimType

  /** A `Date` as a JWT carries it: `iat` and `exp` are whole seconds since
      the epoch, so the milliseconds are cut off (toward zero, as Java's
      `Long` division does) and a date read back from a token is that
      multiple of 1000. */
  function NumericDate(ms: int): (d: int)
    ensures d % 1000 == 0
    ensures ms >= 0 ==> ms - 1000 < d <= ms
    ensures ms < 0 ==> ms <= d < ms + 1000
  {
    TruncDiv(ms, 1000) * 1000
  }

  /** The common shape of both generators: subject, `typ`, a fixed tier and
      role list, the jti drawn by the caller, issued now and expiring
      `lifetime` milliseconds later, both dates in whole seconds. */
  function Mint(memberId: string, typ: string, now: int, jti: string, lifetime: int): Token {
    Token(Claims(Some(memberId), Some(jti), NumericDate(now), NumericDate(now + lifetime),
                 Some(Text(typ)), Some(Text("FREE")), Some(Items([Text("ROLE_USER")]))), true)
  }

  /** generateAccessToken; `jti` is the random UUID. */
  function GenerateAccessToken(memberId: string, now: int, jti: string): Token {
    Mint(memberId, "access", now, jti, ACCESS_EXPIRATION_MS)
  }

  /** generateRefreshToken; `jti` is the random UUID. */
  function GenerateRefreshToken(memberId: string, now: int, jti: string): Token {
    Mint(memberId, "refresh", now, jti, REFRESH_EXPIRATION_MS)
  }

  /** `parseSignedClaims`: rejects a bad signature, and rejects a token whose
      expiry lies before `now` (one expiring exactly now is accepted). */
  function ParseClaims(t: Token, now: int): (r: Result<Claims, JwtError>)
    ensures r.Ok? <==> t.signatureOk && now <= t.claims.expiration
    ensures r.Ok? ==> r.value == t.claims
  {
    if !t.signatureOk then Err(SignatureInvalid)
    else if now > t.claims.expiration then Err(Expired)
    else Ok(t.claims)
  }

  /** getMemberId: the subject (callers know it as getEmail); a missing
      subject fails the non-null return type. */
  function GetMemberId(t: Token, now: int): Result<string, JwtError> {
    match ParseClaims(t, now)
    case Err(e) => Err(e)
    case Ok(c) => if c.subject.Some? then Ok(c.subject.value) else Err(MissingClaim)
  }

  /** getJti */
  function GetJti(t: Token, now: int): Result<string, JwtError> {
    match ParseClaims(t, now)
    case Err(e) => Err(e)
    case Ok(c) => if c.jti.Some? then Ok(c.jti.value) else Err(MissingClaim)
  }

  /** isValid: the signature verifies and the expiry is not before now. */
  predicate IsValid(t: Token, now: int)
    ensures IsValid(t, now) <==> t.signatureOk && now <= t.claims.expiration
  {
    match ParseClaims(t, now)
    case Err(_) => false
    case Ok(c) => !(c.expiration < now)
  }

  /** getExpiration */
  function GetExpiration(t: Token, now: int): Result<int, JwtError> {
    match ParseClaims(t, now)
    case Err(e) => Err(e)
    case Ok(c) => Ok(c.expiration)
  }

  /** Kotlin `Long` division: rounds toward zero. */
  function TruncDiv(a: int, b: int): (q: int)
    requires b > 0
    ensures a >= 0 ==> q == a / b
    ensures a < 0 ==> q <= 0
  {
    if a >= 0 then a / b else -((-a) / b)
  }

  /** getRemainingTtlSeconds: whole seconds left, never negative; a token
      with less than one second left gets 0. It parses the token, so it
      fails on a bad signature or an expired token. */
  function GetRemainingTtlSeconds(t: Token, now: int): (r: Result<int, JwtError>)
    ensures r.Ok? <==> IsValid(t, now)
    ensures r.Ok? ==> r.value >= 0
    ensures r.Ok? && t.claims.expiration - now >= 1000 ==> r.value == (t.claims.expiration - now) / 1000 && r.value > 0
    ensures r.Ok? && t.claims.expiration - now < 1000 ==> r.value == 0
  {
    match GetExpiration(t, now)
    case Err(e) => Err(e)
    case Ok(exp) =>
      var diff := TruncDiv(exp - now, 1000);
      Ok(if diff > 0 then diff else 0)
  }

  /** getTyp: `get("typ", String)` into a non-null `String`: a missing claim
      or one that is not a string makes it throw. */
  function GetTyp(t: Token, now: int): (r: Result<string, JwtError>)
    ensures r.Ok? <==> IsValid(t, now) && t.claims.typ.Some? && t.claims.typ.value.Text?
    ensures r.Ok? ==> t.claims.typ == Some(Text(r.value))
  {
    match ParseClaims(t, now)
    case Err(e) => Err(e)
    case Ok(c) =>
      match c.typ
      case None => Err(MissingClaim)
      case Some(Text(s)) => Ok(s)
      case Some(_) => Err(WrongClaimType)
  }

  /** `as? String ?: ""` on an optional claim. */
  function TextOrEmpty(v: Option<ClaimValue>): string {
    if v.Some? && v.value.Text? then v.value.s else ""
  }

  /** getTier: the tier claim, or "" when it is missing or not a string. */
  function GetTier(t: Token, now: int): (r: Result<string, JwtError>)
    ensures r.Ok? <==> IsValid(t, now)
    ensures r.Ok? && (t.claims.tier.None? || !t.claims.tier.value.Text?) ==> r.value == ""
    ensures r.Ok? && t.claims.tier.Some? && t.claims.tier.value.Text? ==> r.value == t.claims.tier.value.s
  {
    match ParseClaims(t, now)
    case Err(e) => Err(e)
    case Ok(c) => Ok(TextOrEmpty(c.tier))
  }

  /** getType: the typ claim, or "" when it is missing or not a string. */
  function GetType(t: Token, now: int): (r: Result<string, JwtError>)
    ensures r.Ok? <==> IsValid(t, now)
    ensures r.Ok? && (t.claims.typ.None? || !t.claims.typ.value.Text?) ==> r.value == ""
    ensures r.Ok? && t.claims.typ.Some? && t.claims.typ.value.Text? ==> r.value == t.claims.typ.value.s
  {
    match ParseClaims(t, now)
    case Err(e) => Err(e)
    case Ok(c) => Ok(TextOrEmpty(c.typ))
  }

  /** `filterIsInstance<String>()`: the string elements, in order. */
  function StringElements(items: seq<ClaimValue>): (r: seq<string>)
    ensures |r| <= |items|
  {
    if items == [] then []
    else (if items[0].Text? then [items[0].s] else []) + StringElements(items[1..])
  }

  /** `map { it.trim() }.filter { it.isNotEmpty() }` */
  function TrimmedNonEmpty(pieces: seq<string>): (r: seq<string>)
    ensures |r| <= |pieces|
  {
    if pieces == [] then []
    else (if Trim(pieces[0]) != [] then [Trim(pieces[0])] else []) + TrimmedNonEmpty(pieces[1..])
  }

  /** The roles in a comma-separated role string. */
  function RolesFromText(s: string): seq<string> {
    TrimmedNonEmpty(Split(s, ','))
  }

  /** getRoles: a list claim gives its string elements, a string claim its
      comma-separated pieces trimmed with empty ones dropped, anything else
      no roles. */
  function GetRoles(t: Token, now: int): (r: Result<seq<string>, JwtError>)
    ensures r.Ok? <==> IsValid(t, now)
  {
    match ParseClaims(t, now)
    case Err(e) => Err(e)
    case Ok(c) =>
      match c.auth
      case Some(Items(elems)) => Ok(StringElements(elems))
      case Some(Text(s)) => Ok(RolesFromText(s))
      case _ => Ok([])
  }

  /** A string claim yields non-empty roles with no comma and no surrounding
      whitespace, at most one per comma-separated piece. */
  lemma RolesFromTextWellFormed(s: string)
    ensures |RolesFromText(s)| <= Count(s, ',') + 1
    ensures forall k :: 0 <= k < |RolesFromText(s)| ==> RoleWellFormed(RolesFromText(s)[k])
  {
    SplitProperties(s, ',');
    TrimmedPiecesWellFormed(Split(s, ','));
  }

  /** The string elements of a list claim keep the list's order: the
      elements of two lists one after the other are those of the first,
      then those of the second. */
  lemma {:induction false} StringElementsConcat(x: seq<ClaimValue>, y: seq<ClaimValue>)
    ensures StringElements(x + y) == StringElements(x) + StringElements(y)
  {
    if x != [] {
      assert (x + y)[0] == x[0] && (x + y)[1..] == x[1..] + y;
      StringElementsConcat(x[1..], y);
    } else {
      assert x + y == y;
    }
  }

  /** A role is read from a list claim exactly when the list holds it as a
      string element. */
  lemma {:induction false} StringElementsMembers(items: seq<ClaimValue>, role: string)
    ensures role in StringElements(items) <==> Text(role) in items
  {
    if items != [] {
      StringElementsMembers(items[1..], role);
      assert items == [items[0]] + items[1..];
    }
  }

  /** Trimming and dropping empty pieces keeps the pieces' order. */
  lemma {:induction false} TrimmedNonEmptyConcat(x: seq<string>, y: seq<string>)
    ensures TrimmedNonEmpty(x + y) == TrimmedNonEmpty(x) + TrimmedNonEmpty(y)
  {
    if x != [] {
      var head := if Trim(x[0]) != [] then [Trim(x[0])] else [];
      assert (x + y)[0] == x[0] && (x + y)[1..] == x[1..] + y;
      assert TrimmedNonEmpty(x + y) == head + TrimmedNonEmpty(x[1..] + y);
      assert TrimmedNonEmpty(x) == head + TrimmedNonEmpty(x[1..]);
      TrimmedNonEmptyConcat(x[1..], y);
    } else {
      assert x + y == y;
    }
  }

  /** Every piece that trims to something is kept, trimmed. */
  lemma {:induction false} TrimmedNonEmptyKeeps(pieces: seq<string>, i: nat)
    requires i < |pieces| && Trim(pieces[i]) != []
    ensures Trim(pieces[i]) in TrimmedNonEmpty(pieces)
  {
    var head := if Trim(pieces[0]) != [] then [Trim(pieces[0])] else [];
    assert TrimmedNonEmpty(pieces) == head + TrimmedNonEmpty(pieces[1..]);
    if i > 0 {
      assert pieces[1..][i - 1] == pieces[i];
      TrimmedNonEmptyKeeps(pieces[1..], i - 1);
    }
  }

  /** Every kept string is the non-empty trim of some piece. */
  lemma {:induction false} TrimmedNonEmptyFrom(pieces: seq<string>, x: string)
    requires x in TrimmedNonEmpty(pieces)
    ensures x != [] && exists i :: 0 <= i < |pieces| && Trim(pieces[i]) == x
  {
    var head := if Trim(pieces[0]) != [] then [Trim(pieces[0])] else [];
    assert TrimmedNonEmpty(pieces) == head + TrimmedNonEmpty(pieces[1..]);
    if x in head {
      assert Trim(pieces[0]) == x;
    } else {
      TrimmedNonEmptyFrom(pieces[1..], x);
      var i :| 0 <= i < |pieces[1..]| && Trim(pieces[1..][i]) == x;
      assert pieces[i + 1] == pieces[1..][i];
    }
  }

  /** The kept strings are exactly the non-empty trims of the pieces. */
  lemma TrimmedNonEmptyMembers(pieces: seq<string>, x: string)
    ensures x in TrimmedNonEmpty(pieces) <==> x != [] && exists i :: 0 <= i < |pieces| && Trim(pieces[i]) == x
  {
    if x in TrimmedNonEmpty(pieces) {
      TrimmedNonEmptyFrom(pieces, x);
    }
    if x != [] && exists i :: 0 <= i < |pieces| && Trim(pieces[i]) == x {
      var i :| 0 <= i < |pieces| && Trim(pieces[i]) == x;
      TrimmedNonEmptyKeeps(pieces, i);
    }
  }

  /** Every comma-separated piece of a role string that trims to something
      is one of its roles, trimmed. */
  lemma RolesFromTextKeeps(s: string, i: nat)
    requires i < |Split(s, ',')| && Trim(Split(s, ',')[i]) != []
    ensures Trim(Split(s, ',')[i]) in RolesFromText(s)
  {
    TrimmedNonEmptyKeeps(Split(s, ','), i);
  }

  /** Every role of a role string is the non-empty trim of one of its
      comma-separated pieces. */
  lemma RolesFromTextFrom(s: string, role: string)
    requires role in RolesFromText(s)
    ensures role != [] && exists i :: 0 <= i < |Split(s, ',')| && Trim(Split(s, ',')[i]) == role
  {
    TrimmedNonEmptyFrom(Split(s, ','), role);
  }

  /** The roles of two role strings joined by a comma are those of the
      first, then those of the second, so the order of the text is kept. */
  lemma RolesFromTextConcat(a: string, b: string)
    ensures RolesFromText(a + "," + b) == RolesFromText(a) + RolesFromText(b)
  {
    SplitConcat(a, b, ',');
    TrimmedNonEmptyConcat(Split(a, ','), Split(b, ','));
  }

  predicate RoleWellFormed(role: string) {
    role != [] && !IsWhitespace(role[0]) && !IsWhitespace(role[|role| - 1])
    && forall i :: 0 <= i < |role| ==> role[i] != ','
  }

  lemma {:induction false} TrimmedPiecesWellFormed(pieces: seq<string>)
    requires forall k, i :: 0 <= k < |pieces| && 0 <= i < |pieces[k]| ==> pieces[k][i] != ','
    ensures forall k :: 0 <= k < |TrimmedNonEmpty(pieces)| ==> RoleWellFormed(TrimmedNonEmpty(pieces)[k])
  {
    if pieces != [] {
      var rest := TrimmedNonEmpty(pieces[1..]);
      TrimmedPiecesWellFormed(pieces[1..]);
      var t := Trim(pieces[0]);
      if t != [] {
        TrimmedPieceWellFormed(pieces[0]);
        assert TrimmedNonEmpty(pieces) == [t] + rest;
        forall k | 0 <= k < |[t] + rest| ensures RoleWellFormed(([t] + rest)[k]) {
          if k > 0 {
            assert ([t] + rest)[k] == rest[k - 1];
          }
        }
      } else {
        assert TrimmedNonEmpty(pieces) == rest;
      }
    }
  }

  /** A comma-free piece that trims to something is a well-formed role. */
  lemma TrimmedPieceWellFormed(p: string)
    requires forall i :: 0 <= i < |p| ==> p[i] != ','
    requires Trim(p) != []
    ensures RoleWellFormed(Trim(p))
  {
    TrimKeepsCharacters(p);
  }

  lemma SliceOfSuffix(p: string, a: nat, n: nat)
    requires a + n <= |p|
    ensures p[a..][..n] == p[a..a + n]
  {
  }

  /** A trimmed string is a slice of the original. */
  lemma TrimIsSlice(p: string)
    ensures |p| - |TrimStart(p)| + |Trim(p)| <= |p|
    ensures Trim(p) == p[|p| - |TrimStart(p)|..|p| - |TrimStart(p)| + |Trim(p)|]
  {
    var s := TrimStart(p);
    var t := TrimEnd(s);
    SliceOfSuffix(p, |p| - |s|, |t|);
  }

  /** Every character of a trimmed string comes from the original, and the
      trimmed string starts and ends with non-whitespace. */
  lemma TrimKeepsCharacters(p: string)
    ensures forall i :: 0 <= i < |Trim(p)| ==> Trim(p)[i] in p
    ensures Trim(p) != [] ==> !IsWhitespace(Trim(p)[0]) && !IsWhitespace(Trim(p)[|Trim(p)| - 1])
  {
    TrimIsSlice(p);
    var a := |p| - |TrimStart(p)|;
    var t := Trim(p);
    forall i | 0 <= i < |t| ensures t[i] in p {
      assert t[i] == p[a + i];
    }
    if t != [] {
      assert t[0] == TrimStart(p)[0];
    }
  }

  /** What every minted token promises: the requested `typ` and subject,
      an expiry `lifetime` milliseconds after issue cut to whole seconds,
      and that each reader gets back what was put in for as long as the
      token has not expired. */
  lemma {:induction false} MintedTokenReadsBack(memberId: string, typ: string, issued: int, jti: string, lifetime: nat, now: int)
    requires now <= NumericDate(issued + lifetime)
    ensures var t := Mint(memberId, typ, issued, jti, lifetime);
      IsValid(t, now)
      && t.claims.issuedAt == NumericDate(issued)
      && GetMemberId(t, now) == Ok(memberId)
      && GetJti(t, now) == Ok(jti)
      && GetTyp(t, now) == Ok(typ)
      && GetExpiration(t, now) == Ok(NumericDate(issued + lifetime))
      && GetTier(t, now) == Ok("FREE")
      && GetRoles(t, now) == Ok(["ROLE_USER"])
  {
    var t := Mint(memberId, typ, issued, jti, lifetime);
    var items := [Text("ROLE_USER")];
    assert items[1..] == [];
    assert StringElements(items) == ["ROLE_USER"];
  }

  /** An access token is typed "access" and readable when issued; it
      expires 15 minutes after issue, cut to the whole second, so between
      14:59 and 15:00 minutes after issue. */
  lemma AccessTokenShape(memberId: string, now: int, jti: string)
    ensures var t := GenerateAccessToken(memberId, now, jti);
      GetTyp(t, now) == Ok("access") && GetMemberId(t, now) == Ok(memberId) && GetJti(t, now) == Ok(jti)
      && t.claims.expiration == NumericDate(now + 900000)
      && (now >= 0 ==> now + 899000 < t.claims.expiration <= now + 900000)
  {
    MintedTokenReadsBack(memberId, "access", now, jti, ACCESS_EXPIRATION_MS, now);
  }

  /** A refresh token is typed "refresh" and readable when issued; it
      expires 7 days after issue, cut to the whole second. */
  lemma RefreshTokenShape(memberId: string, now: int, jti: string)
    ensures var t := GenerateRefreshToken(memberId, now, jti);
      GetTyp(t, now) == Ok("refresh") && GetMemberId(t, now) == Ok(memberId) && GetJti(t, now) == Ok(jti)
      && t.claims.expiration == NumericDate(now + 604800000)
      && (now >= 0 ==> now + 604799000 < t.claims.expiration <= now + 604800000)
  {
    MintedTokenReadsBack(memberId, "refresh", now, jti, REFRESH_EXPIRATION_MS, now);
  }

  /** Past its expiry a token is invalid, and every reader fails. */
  lemma ExpiredTokenUnreadable(t: Token, now: int)
    requires now > t.claims.expiration
    ensures !IsValid(t, now)
    ensures GetTyp(t, now).Err? && GetJti(t, now).Err? && GetMemberId(t, now).Err?
    ensures GetRemainingTtlSeconds(t, now).Err?
  {
  }
}
