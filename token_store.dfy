/** TokenStoreServiceImpl: refresh sessions, the access blacklist and the
    refresh reuse markers kept in Redis with per-key lifetimes, guarding
    every write whose lifetime is already over. */
module TokenStore {
  import opened Wrappers
  import opened Redis
  import opened TokenKeys

  class TokenStore {
    const kv: RedisKv

    constructor (kv: RedisKv)
      ensures this.kv == kv
    {
      this.kv := kv;
    }

    /** saveRefreshToken: stores the jti under `refresh:{userId}:{deviceId}`
        until `expiredAt`, replacing any earlier record for the pair; an
        expiry not in the future writes nothing (even when Redis is down). */
    method SaveRefreshToken(userId: string, deviceId: string, refreshJtiOrHash: string, expiredAt: int)
      returns (r: Result<(), StoreError>)
      requires kv.Valid()
      modifies kv
      ensures kv.Valid() && kv.Steady()
      ensures expiredAt <= kv.now ==> r == Ok(()) && kv.entries == old(kv.entries)
      ensures expiredAt > kv.now ==> r == if kv.available then Ok(()) else Err(Unavailable)
      ensures expiredAt > kv.now && r.Ok? ==>
        kv.entries == old(kv.entries)[RefreshKey(userId, deviceId) := Entry(refreshJtiOrHash, expiredAt)]
      ensures r.Err? ==> kv.entries == old(kv.entries)
      ensures IsIdText(userId) ==>
        (forall j :: kv.Lookup(UsedKey(j)) == old(kv.Lookup(UsedKey(j))) && kv.Lookup(BlacklistKey(j)) == old(kv.Lookup(BlacklistKey(j))))
    {
      var millisLeft := expiredAt - kv.now;
      if millisLeft <= 0 {
        return Ok(());
      }
      r := kv.Set(RefreshKey(userId, deviceId), refreshJtiOrHash, millisLeft);
      if IsIdText(userId) {
        forall j ensures RefreshKey(userId, deviceId) != UsedKey(j) && RefreshKey(userId, deviceId) != BlacklistKey(j) {
          NamespacesDisjoint(userId, deviceId, j, j);
        }
      }
    }

    /** getRefreshToken: the live jti of the pair, or absent; an outage is
        an error, never "absent". */
    method GetRefreshToken(userId: string, deviceId: string) returns (r: Result<Option<string>, StoreError>)
      ensures kv.available ==> r == Ok(LookupAt(kv.entries, kv.now, RefreshKey(userId, deviceId)))
      ensures !kv.available ==> r == Err(Unavailable)
    {
      r := kv.Get(RefreshKey(userId, deviceId));
    }

    /** deleteRefreshToken: afterwards the pair has no session. */
    method DeleteRefreshToken(userId: string, deviceId: string) returns (r: Result<(), StoreError>)
      requires kv.Valid()
      modifies kv
      ensures kv.Valid() && kv.Steady()
      ensures r.Ok? <==> kv.available
      ensures r.Ok? ==>
        kv.entries == old(kv.entries) - {RefreshKey(userId, deviceId)} && kv.Lookup(RefreshKey(userId, deviceId)) == None
      ensures r.Err? ==> kv.entries == old(kv.entries)
    {
      var deleted := kv.Delete(RefreshKey(userId, deviceId));
      if deleted.Err? {
        return Err(deleted.error);
      }
      r := Ok(());
    }

    /** blacklistAccessJti: a non-positive lifetime writes nothing; otherwise
        the jti is blacklisted for `ttlSeconds` seconds. */
    method BlacklistAccessJti(accessJti: string, ttlSeconds: int) returns (r: Result<(), StoreError>)
      requires kv.Valid()
      modifies kv
      ensures kv.Valid() && kv.Steady()
      ensures ttlSeconds <= 0 ==> r == Ok(()) && kv.entries == old(kv.entries)
      ensures ttlSeconds > 0 ==> r == if kv.available then Ok(()) else Err(Unavailable)
      ensures ttlSeconds > 0 && r.Ok? ==>
        kv.entries == old(kv.entries)[BlacklistKey(accessJti) := Entry("1", kv.now + ttlSeconds * 1000)]
      ensures r.Err? ==> kv.entries == old(kv.entries)
      ensures forall u, d :: IsIdText(u) ==> kv.Lookup(RefreshKey(u, d)) == old(kv.Lookup(RefreshKey(u, d)))
      ensures forall j :: kv.Lookup(UsedKey(j)) == old(kv.Lookup(UsedKey(j)))
    {
      if ttlSeconds <= 0 {
        return Ok(());
      }
      r := kv.Set(BlacklistKey(accessJti), "1", ttlSeconds * 1000);
      forall u, d | IsIdText(u) ensures RefreshKey(u, d) != BlacklistKey(accessJti) {
        NamespacesDisjoint(u, d, accessJti, accessJti);
      }
      forall j ensures UsedKey(j) != BlacklistKey(accessJti) {
        NamespacesDisjoint("1", "", j, accessJti);
      }
    }

    /** isAccessBlacklisted: an outage is an error, never "not blacklisted". */
    method IsAccessBlacklisted(accessJti: string) returns (r: Result<bool, StoreError>)
      ensures kv.available ==> r == Ok(LookupAt(kv.entries, kv.now, BlacklistKey(accessJti)).Some?)
      ensures !kv.available ==> r == Err(Unavailable)
    {
      r := kv.HasKey(BlacklistKey(accessJti));
    }

    /** markRefreshUsed: a non-positive lifetime writes nothing; otherwise
        the jti is marked used for `ttlSeconds` seconds. */
    method MarkRefreshUsed(refreshJti: string, ttlSeconds: int) returns (r: Result<(), StoreError>)
      requires kv.Valid()
      modifies kv
      ensures kv.Valid() && kv.Steady()
      ensures ttlSeconds <= 0 ==> r == Ok(()) && kv.entries == old(kv.entries)
      ensures ttlSeconds > 0 ==> r == if kv.available then Ok(()) else Err(Unavailable)
      ensures ttlSeconds > 0 && r.Ok? ==>
        kv.entries == old(kv.entries)[UsedKey(refreshJti) := Entry("1", kv.now + ttlSeconds * 1000)]
      ensures r.Err? ==> kv.entries == old(kv.entries)
      ensures forall u, d :: IsIdText(u) ==> kv.Lookup(RefreshKey(u, d)) == old(kv.Lookup(RefreshKey(u, d)))
      ensures forall j :: kv.Lookup(BlacklistKey(j)) == old(kv.Lookup(BlacklistKey(j)))
    {
      if ttlSeconds <= 0 {
        return Ok(());
      }
      r := kv.Set(UsedKey(refreshJti), "1", ttlSeconds * 1000);
      forall u, d | IsIdText(u) ensures RefreshKey(u, d) != UsedKey(refreshJti) {
        NamespacesDisjoint(u, d, refreshJti, refreshJti);
      }
      forall j ensures BlacklistKey(j) != UsedKey(refreshJti) {
        NamespacesDisjoint("1", "", refreshJti, j);
      }
    }

    /** isRefreshUsed: an outage is an error, never "not used". */
    method IsRefreshUsed(refreshJti: string) returns (r: Result<bool, StoreError>)
      ensures kv.available ==> r == Ok(LookupAt(kv.entries, kv.now, UsedKey(refreshJti)).Some?)
      ensures !kv.available ==> r == Err(Unavailable)
    {
      r := kv.HasKey(UsedKey(refreshJti));
    }
  }

  /** A marker written with a positive lifetime reads as present up to and
      including the instant that lifetime ends, and as absent after it. */
  lemma MarkerLifetime(entries: map<string, Entry>, key: string, written: int, ttlSeconds: int, t: int)
    requires ttlSeconds > 0 && written <= t
    ensures LookupAt(entries[key := Entry("1", written + ttlSeconds * 1000)], t, key).Some?
      <==> t <= written + ttlSeconds * 1000
  {
  }

  /** Saving a session and reading it back at once gives the saved jti; a
      later save for the same pair wins. */
  method SaveThenGet(store: TokenStore, userId: string, deviceId: string, first: string, second: string, expiredAt: int)
    returns (r: Result<Option<string>, StoreError>)
    requires store.kv.Valid() && store.kv.available && expiredAt > store.kv.now
    modifies store.kv
    ensures r == Ok(Some(second))
  {
    var _ := store.SaveRefreshToken(userId, deviceId, first, expiredAt);
    var _ := store.SaveRefreshToken(userId, deviceId, second, expiredAt);
    r := store.GetRefreshToken(userId, deviceId);
  }

  /** After a delete the pair reads as absent. */
  method DeleteThenGet(store: TokenStore, userId: string, deviceId: string)
    returns (r: Result<Option<string>, StoreError>)
    requires store.kv.Valid() && store.kv.available
    modifies store.kv
    ensures r == Ok(None)
  {
    var _ := store.DeleteRefreshToken(userId, deviceId);
    r := store.GetRefreshToken(userId, deviceId);
  }
}
