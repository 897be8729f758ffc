/** RedisTokenServiceImpl: the store the session manager uses. Sessions are
    keyed by the numeric member id; unlike the other store it passes every
    lifetime straight to Redis, so a session save or a reuse marker whose
    lifetime is not positive is refused by the server. */
module RedisTokenStore {
  import opened Wrappers
  import opened Strings
  import opened Redis
  import opened TokenKeys

  /** `refresh:{memberId}:{deviceId}`. */
  function SessionKey(memberId: int, deviceId: string): (k: string)
    ensures k == RefreshKey(IntToString(memberId), deviceId)
    ensures forall j :: k != UsedKey(j) && k != BlacklistKey(j)
  {
    IntToStringIsIdText(memberId);
    forall j ensures RefreshKey(IntToString(memberId), deviceId) != UsedKey(j)
      && RefreshKey(IntToString(memberId), deviceId) != BlacklistKey(j)
    {
      NamespacesDisjoint(IntToString(memberId), deviceId, j, j);
    }
    RefreshKey(IntToString(memberId), deviceId)
  }

  class RedisTokenStore {
    const kv: RedisKv

    constructor (kv: RedisKv)
      ensures this.kv == kv
    {
      this.kv := kv;
    }

    /** saveRefreshToken: the lifetime is `expiredAt - now` milliseconds,
        written as is. */
    method SaveRefreshToken(memberId: int, deviceId: string, refreshJtiOrHash: string, expiredAt: int)
      returns (r: Result<(), StoreError>)
      requires kv.Valid()
      modifies kv
      ensures kv.Valid() && kv.Steady()
      ensures r == if !kv.available then Err(Unavailable) else if expiredAt <= kv.now then Err(InvalidExpireTime) else Ok(())
      ensures r.Ok? ==>
        kv.entries == old(kv.entries)[SessionKey(memberId, deviceId) := Entry(refreshJtiOrHash, expiredAt)]
        && refreshJtiOrHash in kv.history
      ensures r.Err? ==> kv.entries == old(kv.entries)
    {
      r := kv.Set(SessionKey(memberId, deviceId), refreshJtiOrHash, expiredAt - kv.now);
    }

    method GetRefreshToken(memberId: int, deviceId: string) returns (r: Result<Option<string>, StoreError>)
      ensures kv.available ==> r == Ok(kv.Lookup(SessionKey(memberId, deviceId)))
      ensures !kv.available ==> r == Err(Unavailable)
    {
      r := kv.Get(SessionKey(memberId, deviceId));
    }

    /** deleteRefreshToken: reports whether a session was there. */
    method DeleteRefreshToken(memberId: int, deviceId: string) returns (r: Result<bool, StoreError>)
      requires kv.Valid()
      modifies kv
      ensures kv.Valid() && kv.Steady()
      ensures !kv.available ==> r == Err(Unavailable) && kv.entries == old(kv.entries)
      ensures kv.available ==>
        r == Ok(old(kv.Lookup(SessionKey(memberId, deviceId))).Some?)
        && kv.entries == old(kv.entries) - {SessionKey(memberId, deviceId)}
    {
      r := kv.Delete(SessionKey(memberId, deviceId));
    }

    /** blacklistAccessJti: a non-positive lifetime writes nothing. */
    method BlacklistAccessJti(accessJti: string, ttlSeconds: int) returns (r: Result<(), StoreError>)
      requires kv.Valid()
      modifies kv
      ensures kv.Valid() && kv.Steady()
      ensures ttlSeconds <= 0 ==> r == Ok(()) && kv.entries == old(kv.entries)
      ensures ttlSeconds > 0 ==> r == if kv.available then Ok(()) else Err(Unavailable)
      ensures ttlSeconds > 0 && r.Ok? ==>
        kv.entries == old(kv.entries)[BlacklistKey(accessJti) := Entry("1", kv.now + ttlSeconds * 1000)]
      ensures r.Err? ==> kv.entries == old(kv.entries)
    {
      if ttlSeconds <= 0 {
        return Ok(());
      }
      r := kv.Set(BlacklistKey(accessJti), "1", ttlSeconds * 1000);
    }

    method IsAccessBlacklisted(accessJti: string) returns (r: Result<bool, StoreError>)
      ensures kv.available ==> r == Ok(kv.Lookup(BlacklistKey(accessJti)).Some?)
      ensures !kv.available ==> r == Err(Unavailable)
    {
      r := kv.HasKey(BlacklistKey(accessJti));
    }

    /** markRefreshUsed: no guard, so a lifetime of zero seconds or less is
        refused by Redis and nothing is marked. */
    method MarkRefreshUsed(refreshJti: string, ttlSeconds: int) returns (r: Result<(), StoreError>)
      requires kv.Valid()
      modifies kv
      ensures kv.Valid() && kv.Steady()
      ensures r == if !kv.available then Err(Unavailable) else if ttlSeconds <= 0 then Err(InvalidExpireTime) else Ok(())
      ensures r.Ok? ==> kv.entries == old(kv.entries)[UsedKey(refreshJti) := Entry("1", kv.now + ttlSeconds * 1000)]
      ensures r.Err? ==> kv.entries == old(kv.entries)
    {
      r := kv.Set(UsedKey(refreshJti), "1", ttlSeconds * 1000);
    }

    method IsRefreshUsed(refreshJti: string) returns (r: Result<bool, StoreError>)
      ensures kv.available ==> r == Ok(kv.Lookup(UsedKey(refreshJti)).Some?)
      ensures !kv.available ==> r == Err(Unavailable)
    {
      r := kv.HasKey(UsedKey(refreshJti));
    }
  }

  /** Sessions of different (member, device) pairs never share a key, so
      writing one leaves every other pair's session as it was. */
  lemma OtherSessionsUntouched(entries: map<string, Entry>, now: int, m1: int, d1: string, m2: int, d2: string, e: Entry)
    requires m1 != m2 || d1 != d2
    ensures LookupAt(entries[SessionKey(m1, d1) := e], now, SessionKey(m2, d2)) == LookupAt(entries, now, SessionKey(m2, d2))
  {
    IntToStringIsIdText(m1);
    IntToStringIsIdText(m2);
    if SessionKey(m1, d1) == SessionKey(m2, d2) {
      RefreshKeyInjective(IntToString(m1), d1, IntToString(m2), d2);
      IntToStringInjective(m1, m2);
    }
  }
}
