/** Key layout of the token bookkeeping in the shared Redis store
    (TokenStoreServiceImpl.kt:180-181, :104, :146; RedisTokenServiceImpl.kt:15-16). */
module TokenKeys {
  import opened Strings

  const REFRESH_PREFIX := "refresh:"
  /** The blacklist prefix constant is not defined in JwtConstants; the key
      layout documented beside its use is `access:blacklist:{jti}`. */
  const ACCESS_BLACKLIST_PREFIX := "access:blacklist:"
  const USED_PREFIX := "refresh:used:"

  /** `refresh:{userId}:{deviceId}`: the live refresh jti of one device session. */
  function RefreshKey(userId: string, deviceId: string): string {
    REFRESH_PREFIX + userId + ":" + deviceId
  }

  /** `refresh:used:{jti}`: marks a refresh token as consumed. */
  function UsedKey(jti: string): string {
    USED_PREFIX + jti
  }

  /** `access:blacklist:{jti}`: a revoked access token. */
  function BlacklistKey(jti: string): string {
    ACCESS_BLACKLIST_PREFIX + jti
  }

  /** Text a member id can print as: decimal digits and a minus sign. */
  predicate IsIdText(u: string) {
    forall i :: 0 <= i < |u| ==> IsAsciiDigit(u[i]) || u[i] == '-'
  }

  lemma IntToStringIsIdText(n: int)
    ensures IsIdText(IntToString(n))
  {
  }

  /** The three namespaces never meet when the user id is id text: an
      operation on one kind of key leaves the other kinds alone. */
  lemma NamespacesDisjoint(userId: string, deviceId: string, jti: string, jti2: string)
    requires IsIdText(userId)
    ensures RefreshKey(userId, deviceId) != UsedKey(jti)
    ensures RefreshKey(userId, deviceId) != BlacklistKey(jti2)
    ensures UsedKey(jti) != BlacklistKey(jti2)
  {
    var k := RefreshKey(userId, deviceId);
    assert k[8] == if userId == [] then ':' else userId[0];
    assert UsedKey(jti)[8] == 'u';
    assert k[0] == 'r' && BlacklistKey(jti2)[0] == 'a';
    assert UsedKey(jti)[0] == 'r';
  }

  /** Position of the first `c` in `s`, or `|s|` when there is none. */
  function FirstIndexOf(s: string, c: char): nat {
    if s == [] || s[0] == c then 0 else 1 + FirstIndexOf(s[1..], c)
  }

  lemma {:induction false} FirstColonAfterId(u: string, d: string)
    requires IsIdText(u)
    ensures FirstIndexOf(u + ":" + d, ':') == |u|
  {
    if u != [] {
      assert (u + ":" + d)[1..] == u[1..] + ":" + d;
      FirstColonAfterId(u[1..], d);
    }
  }

  /** Distinct (user, device) pairs get distinct session keys when user ids
      are id text (they hold no colon). */
  lemma RefreshKeyInjective(u1: string, d1: string, u2: string, d2: string)
    requires IsIdText(u1) && IsIdText(u2)
    requires RefreshKey(u1, d1) == RefreshKey(u2, d2)
    ensures u1 == u2 && d1 == d2
  {
    var t1 := u1 + ":" + d1;
    var t2 := u2 + ":" + d2;
    assert RefreshKey(u1, d1) == REFRESH_PREFIX + t1;
    assert RefreshKey(u2, d2) == REFRESH_PREFIX + t2;
    assert t1 == RefreshKey(u1, d1)[|REFRESH_PREFIX|..];
    assert t1 == t2;
    FirstColonAfterId(u1, d1);
    FirstColonAfterId(u2, d2);
    assert u1 == t1[..|u1|] && u2 == t2[..|u2|];
    assert d1 == t1[|u1| + 1..] && d2 == t2[|u2| + 1..];
  }

  /** Marking or blacklisting one jti never touches another jti's key. */
  lemma JtiKeysInjective(j1: string, j2: string)
    ensures UsedKey(j1) == UsedKey(j2) ==> j1 == j2
    ensures BlacklistKey(j1) == BlacklistKey(j2) ==> j1 == j2
  {
    if UsedKey(j1) == UsedKey(j2) {
      assert j1 == UsedKey(j1)[|USED_PREFIX|..];
    }
    if BlacklistKey(j1) == BlacklistKey(j2) {
      assert j1 == BlacklistKey(j1)[|ACCESS_BLACKLIST_PREFIX|..];
    }
  }
}
