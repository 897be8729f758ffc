/** The two request helpers of the auth AuthController: reading the bearer
    token of the logout call, and choosing the device id every session is
    keyed by. */
module AuthController {
  import opened Wrappers
  import opened Strings
  import AuthFilter

  // ---------------------------------------------------------------------
  // extractBearerToken

  /** extractBearerToken: the prefix test ignores letter case, but the
      prefix is then removed case-sensitively before trimming. */
  function ExtractBearerToken(authz: Option<string>): (r: Option<string>)
    ensures r.Some? <==> authz.Some? && StartsWithIgnoreCase(authz.value, "Bearer ")
    ensures r.Some? && StartsWith(authz.value, "Bearer ") ==> r.value == Trim(authz.value[7..])
    ensures r.Some? && !StartsWith(authz.value, "Bearer ") ==> r.value == Trim(authz.value)
  {
    match authz
    case None => None
    case Some(h) => if StartsWithIgnoreCase(h, "Bearer ") then Some(Trim(RemovePrefix(h, "Bearer "))) else None
  }

  /** With the exact spelling "Bearer " the controller reads the same token
      as the authentication filter's resolveAccessToken. */
  lemma ExactPrefixAgreesWithFilter(token: string)
    ensures ExtractBearerToken(Some("Bearer " + token)) == AuthFilter.ResolveAccessToken(Some("Bearer " + token))
    ensures ExtractBearerToken(Some("Bearer " + token)) == Some(Trim(token))
  {
    var h := "Bearer " + token;
    assert h[..7] == "Bearer ";
    assert h[7..] == token;
  }

  /** A lower-case "bearer " header passes the case-insensitive test, but
      the prefix survives: the token read is "bearer x", where the filter
      reads "x" from the same header. */
  lemma LowercasePrefixIsKept(token: string)
    requires token != [] && !IsWhitespace(token[|token| - 1])
    ensures ExtractBearerToken(Some("bearer " + token)) == Some("bearer " + token)
    ensures AuthFilter.ResolveAccessToken(Some("bearer " + token)) == Some(Trim(token))
  {
    var h := "bearer " + token;
    assert h[..7] == "bearer ";
    assert h[7..] == token;
    assert h[0] == 'b' && !IsWhitespace(h[0]);
    assert !StartsWith(h, "Bearer ") by { assert h[0] != "Bearer "[0]; }
    assert TrimStart(h) == h;
    assert TrimEnd(h) == h;
  }

  // ---------------------------------------------------------------------
  // resolveDeviceId

  /** The parts of the servlet request that resolveDeviceId reads. */
  datatype DeviceRequest = DeviceRequest(
    deviceIdHeader: Option<string>,
    userAgent: Option<string>,
    forwardedFor: Option<string>,
    remoteAddr: Option<string>)

  /** A byte, and a SHA-256 digest: always 32 bytes. */
  type Byte = b: int | 0 <= b < 256
  type Digest = d: seq<Byte> | |d| == 32 witness seq(32, _ => 0)

  /** The X-Device-Id header, trimmed, when that leaves something. */
  function DeviceHeader(req: DeviceRequest): (r: Option<string>)
    ensures r.Some? ==> r.value != [] && Trim(r.value) == r.value
  {
    match req.deviceIdHeader
    case None => None
    case Some(h) => if Trim(h) != [] then (TrimIdempotent(h); Some(Trim(h))) else None
  }

  lemma TrimIdempotent(s: string)
    ensures Trim(Trim(s)) == Trim(s)
  {
    var t := Trim(s);
    if t != [] {
      assert TrimStart(t) == t;
      assert TrimEnd(t) == t;
    }
  }

  /** The User-Agent header, or "unknown-ua". */
  function UserAgentOf(req: DeviceRequest): string {
    if req.userAgent.Some? then req.userAgent.value else "unknown-ua"
  }

  /** The first X-Forwarded-For entry trimmed (even when that is empty),
      else the remote address, else "unknown-ip". */
  function ClientIp(req: DeviceRequest): string {
    match req.forwardedFor
    case Some(xff) => Trim(Split(xff, ',')[0])
    case None => if req.remoteAddr.Some? then req.remoteAddr.value else "unknown-ip"
  }

  /** The text that is hashed: "ua|ip". */
  function HashSource(req: DeviceRequest): string {
    UserAgentOf(req) + "|" + ClientIp(req)
  }

  /** The character of a six-bit value in the URL-safe base64 alphabet
      of section 5 of RFC 4648. */
  function UrlSafeChar(v: int): (c: char)
    requires 0 <= v < 64
    ensures IsUrlSafe(c)
  {
    if v < 26 then ('A' as int + v) as char
    else if v < 52 then ('a' as int + v - 26) as char
    else if v < 62 then ('0' as int + v - 52) as char
    else if v == 62 then '-'
    else '_'
  }

  predicate IsUrlSafe(c: char) {
    IsAsciiLetter(c) || IsAsciiDigit(c) || c == '-' || c == '_'
  }

  /** The four characters of a 24-bit group, first six bits first. */
  function Quad(n: int): (r: string)
    requires 0 <= n < 0x100_0000
    ensures |r| == 4 && forall i :: 0 <= i < 4 ==> IsUrlSafe(r[i])
  {
    [UrlSafeChar(n / 0x4_0000), UrlSafeChar(n / 0x1000 % 64), UrlSafeChar(n / 64 % 64), UrlSafeChar(n % 64)]
  }

  /** `Base64.getUrlEncoder().withoutPadding()`: three bytes give four
      characters; a trailing two bytes give three, a trailing byte two, and
      no '=' is appended. */
  function Base64UrlNoPad(bytes: seq<Byte>): (r: string)
    ensures |r| == (4 * |bytes| + 2) / 3
    ensures forall i :: 0 <= i < |r| ==> IsUrlSafe(r[i])
    decreases |bytes|
  {
    if |bytes| == 0 then []
    else if |bytes| == 1 then Quad(bytes[0] as int * 0x1_0000)[..2]
    else if |bytes| == 2 then Quad(bytes[0] as int * 0x1_0000 + bytes[1] as int * 0x100)[..3]
    else Quad(bytes[0] as int * 0x1_0000 + bytes[1] as int * 0x100 + bytes[2] as int) + Base64UrlNoPad(bytes[3..])
  }

  /** resolveDeviceId: a non-blank X-Device-Id header wins; otherwise the
      first 24 characters of the unpadded base64url text of the SHA-256
      digest of the UTF-8 bytes of "ua|ip". The digest, encoding included,
      is the parameter `sha256`. */
  function ResolveDeviceId(req: DeviceRequest, sha256: string -> Digest): (id: string)
    ensures DeviceHeader(req).Some? ==> id == DeviceHeader(req).value
    ensures DeviceHeader(req).None? ==> id == Base64UrlNoPad(sha256(HashSource(req)))[..24]
  {
    if DeviceHeader(req).Some? then DeviceHeader(req).value
    else Take(Base64UrlNoPad(sha256(HashSource(req))), 24)
  }

  /** A device id is never empty and never has surrounding whitespace; a
      derived one is exactly 24 URL-safe characters. */
  lemma DeviceIdShape(req: DeviceRequest, sha256: string -> Digest)
    ensures ResolveDeviceId(req, sha256) != [] && Trim(ResolveDeviceId(req, sha256)) == ResolveDeviceId(req, sha256)
    ensures DeviceHeader(req).None? ==>
      |ResolveDeviceId(req, sha256)| == 24
      && forall i :: 0 <= i < 24 ==> IsUrlSafe(ResolveDeviceId(req, sha256)[i])
  {
    var id := ResolveDeviceId(req, sha256);
    if DeviceHeader(req).None? {
      var full := Base64UrlNoPad(sha256(HashSource(req)));
      assert |full| == 43;
      assert id == full[..24];
      assert !IsWhitespace(id[0]) && !IsWhitespace(id[23]);
      assert TrimStart(id) == id;
      assert TrimEnd(id) == id;
    }
  }

  /** The derived device id is a function of "ua|ip" alone: two requests
      without a usable X-Device-Id whose User-Agent and client address
      agree share their sessions' device. */
  lemma SameClientSameDevice(req: DeviceRequest, other: DeviceRequest, sha256: string -> Digest)
    requires DeviceHeader(req).None? && DeviceHeader(other).None?
    requires UserAgentOf(req) == UserAgentOf(other) && ClientIp(req) == ClientIp(other)
    ensures ResolveDeviceId(req, sha256) == ResolveDeviceId(other, sha256)
  {
  }

  /** The client address is the first X-Forwarded-For entry, trimmed. */
  lemma {:induction false} FirstForwardedEntry(req: DeviceRequest, first: string, rest: string)
    requires req.forwardedFor == Some(first + "," + rest) && Count(first, ',') == 0
    ensures ClientIp(req) == Trim(first)
  {
    SplitConcat(first, rest, ',');
    SplitWithoutDelimiter(first, ',');
  }

  /** A present X-Forwarded-For header is used even when its first entry
      is blank: the remote address is not consulted. */
  lemma {:induction false} BlankForwardedEntryKept(req: DeviceRequest, rest: string)
    requires req.forwardedFor == Some(" ," + rest)
    ensures ClientIp(req) == []
  {
    assert " ," + rest == " " + "," + rest;
    FirstForwardedEntry(req, " ", rest);
    assert IsWhitespace(' ');
    assert TrimStart(" ") == [];
  }
}
