/** LoggingUtil: masks applied to personal data and token identifiers
    before they are written to the log. */
module LoggingUtil {
  import opened Strings

  /** maskEmail: keeps at most the first four characters of the local part
      and the whole domain; anything that does not split into exactly two
      pieces around '@' is returned unchanged. */
  function MaskEmail(email: string): string {
    var parts := Split(email, '@');
    if |parts| != 2 then email else Take(parts[0], 4) + "*****@" + parts[1]
  }

  /** An address with exactly one '@' keeps its domain and shows at most four
      characters of its local part; the masked text is again an address
      with one '@' and the same domain. */
  lemma MaskEmailKeepsDomain(local: string, domain: string)
    requires Count(local, '@') == 0 && Count(domain, '@') == 0
    ensures MaskEmail(local + "@" + domain) == Take(local, 4) + "*****@" + domain
    ensures Split(MaskEmail(local + "@" + domain), '@') == [Take(local, 4) + "*****", domain]
  {
    SplitAroundAt(local, domain);
    var visible := Take(local, 4) + "*****";
    TakeCount(local, 4, '@');
    CountConcat(Take(local, 4), "*****", '@');
    SplitAroundAt(visible, domain);
    assert visible + "@" + domain == Take(local, 4) + "*****@" + domain;
  }

  lemma SplitAroundAt(a: string, b: string)
    requires Count(a, '@') == 0 && Count(b, '@') == 0
    ensures Split(a + "@" + b, '@') == [a, b]
  {
    var s := a + "@" + b;
    CountConcat(a, "@", '@');
    CountConcat(a + "@", b, '@');
    SplitOnce(s, '@', |a|);
    assert s[..|a|] == a && s[|a| + 1..] == b;
  }

  lemma {:induction false} TakeCount(s: string, n: nat, c: char)
    requires Count(s, c) == 0
    ensures Count(Take(s, n), c) == 0
  {
    if n < |s| {
      assert s == s[..n] + s[n..];
      CountConcat(s[..n], s[n..], c);
    }
  }

  /** Text without exactly one '@' is logged as is. */
  lemma MaskEmailLeavesNonAddresses(email: string)
    requires Count(email, '@') != 1
    ensures MaskEmail(email) == email
  {
    SplitProperties(email, '@');
  }

  /** maskName: keeps the first character and stars the rest. */
  function MaskName(name: string): (r: string)
    ensures |r| == |name|
    ensures name != [] ==> r[0] == name[0]
    ensures |name| > 1 ==> forall i :: 0 < i < |r| ==> r[i] == '*'
  {
    if |name| > 1 then [name[0]] + Repeat('*', |name| - 1) else name
  }

  /** Masking a masked name changes nothing. */
  lemma MaskNameIdempotent(name: string)
    ensures MaskName(MaskName(name)) == MaskName(name)
  {
    if |name| > 1 {
      var m := MaskName(name);
      assert m[1..] == Repeat('*', |name| - 1);
    }
  }

  /** `\d{3}-\d{4}-\d{4}` (ASCII digits) matches the 13 characters at `i`. */
  predicate PhoneAt(s: string, i: nat)
    requires i + 13 <= |s|
  {
    (forall k :: i <= k < i + 3 ==> IsAsciiDigit(s[k])) && s[i + 3] == '-'
    && (forall k :: i + 4 <= k < i + 8 ==> IsAsciiDigit(s[k])) && s[i + 8] == '-'
    && (forall k :: i + 9 <= k < i + 13 ==> IsAsciiDigit(s[k]))
  }

  /** maskPhone: replaces every match, scanning left to right without
      overlap, by the same text with the four middle digits starred. */
  function MaskPhone(s: string): (r: string)
    ensures |r| == |s|
    ensures forall i :: 0 <= i < |s| ==> r[i] == s[i] || (r[i] == '*' && IsAsciiDigit(s[i]))
    decreases |s|
  {
    if |s| >= 13 && PhoneAt(s, 0) then
      s[..4] + "****" + s[8..13] + MaskPhone(s[13..])
    else if s == [] then []
    else [s[0]] + MaskPhone(s[1..])
  }

  /** A bare phone number keeps its first and last groups. */
  lemma MaskPhoneNumber(p: string)
    requires |p| == 13 && PhoneAt(p, 0)
    ensures MaskPhone(p) == p[..4] + "****" + p[8..]
  {
    assert p[13..] == [];
    assert p[8..13] == p[8..];
  }

  /** Text with no digit is logged as is. */
  lemma MaskPhoneWithoutDigits(s: string)
    requires forall i :: 0 <= i < |s| ==> !IsAsciiDigit(s[i])
    ensures MaskPhone(s) == s
  {
    var r := MaskPhone(s);
    assert forall i :: 0 <= i < |s| ==> r[i] == s[i];
  }

  /** maskJti: two leading characters for short identifiers, otherwise four
      leading and four trailing ones, with "***" between. */
  function MaskJti(jti: string): (r: string)
    ensures 3 <= |r| <= 11
    ensures StartsWith(r, Take(jti, 2))
    ensures |jti| > 2 ==> |r| - 3 < |jti|
  {
    if |jti| <= 8 then Take(jti, 2) + "***" else Take(jti, 4) + "***" + TakeLast(jti, 4)
  }

  /** A long identifier shows exactly its first and last four characters. */
  lemma MaskJtiLong(jti: string)
    requires |jti| > 8
    ensures MaskJti(jti)[..4] == jti[..4] && MaskJti(jti)[7..] == jti[|jti| - 4..]
  {
  }

  /** maskDevice: two leading characters for short ids, four otherwise. */
  function MaskDevice(deviceId: string): (r: string)
    ensures 3 <= |r| <= 7
    ensures r[|r| - 3..] == "***" && StartsWith(deviceId, r[..|r| - 3])
    ensures |deviceId| > 2 ==> |r| - 3 < |deviceId|
  {
    if |deviceId| <= 6 then Take(deviceId, 2) + "***" else Take(deviceId, 4) + "***"
  }

  /** An id longer than six shows exactly its first four characters; a
      shorter one shows its first two, or all of it when it has fewer. */
  lemma MaskDeviceShown(deviceId: string)
    ensures |deviceId| > 6 ==> MaskDevice(deviceId) == deviceId[..4] + "***"
    ensures 2 <= |deviceId| <= 6 ==> MaskDevice(deviceId) == deviceId[..2] + "***"
    ensures |deviceId| < 2 ==> MaskDevice(deviceId) == deviceId + "***"
  {
  }
}
