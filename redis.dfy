/** The shared Redis server as the services see it: string keys holding a
    string value and an absolute expiry time in milliseconds, a clock, and a
    connection that may be down. */
module Redis {
  import opened Wrappers

  datatype Entry = Entry(value: string, expiresAt: int)

  /** Failures the client library raises: the connection is down, or the
      server refuses a write whose expiry is not positive. */
  datatype StoreError = Unavailable | InvalidExpireTime

  /** The value stored under `key` at time `now`; as in the server, a key
      expires only once the clock is past its expiry time, so it is still
      live at that very millisecond. */
  function LookupAt(entries: map<string, Entry>, now: int, key: string): (r: Option<string>)
    ensures r.Some? <==> key in entries && now <= entries[key].expiresAt
    ensures r.Some? ==> r.value == entries[key].value
  {
    if key in entries && now <= entries[key].expiresAt then Some(entries[key].value) else None
  }

  /** What a client can observe of the server at one moment. */
  datatype Snapshot = Snapshot(entries: map<string, Entry>, now: int, available: bool)

  class RedisKv {
    var entries: map<string, Entry>
    var now: int
    var available: bool
    /** Every value ever written; lets callers state that a fresh random
        identifier differs from everything already stored. */
    ghost var history: set<string>

    ghost predicate Valid()
      reads this
    {
      forall k :: k in entries ==> entries[k].value in history
    }

    /** The clock and the connection do not change, and nothing is forgotten
        from the history. */
    twostate predicate Steady()
      reads this
    {
      now == old(now) && available == old(available) && old(history) <= history
    }

    constructor (start: int)
      ensures Valid() && entries == map[] && now == start && available && history == {}
    {
      entries, now, available := map[], start, true;
      history := {};
    }

    function State(): Snapshot
      reads this
    {
      Snapshot(entries, now, available)
    }

    function Lookup(key: string): Option<string>
      reads this
    {
      LookupAt(entries, now, key)
    }

    /** GET: the live value or absent; an outage is an error, never "absent". */
    method Get(key: string) returns (r: Result<Option<string>, StoreError>)
      ensures available ==> r == Ok(Lookup(key))
      ensures !available ==> r == Err(Unavailable)
    {
      if !available { return Err(Unavailable); }
      r := Ok(Lookup(key));
    }

    /** EXISTS: whether a live value is stored; an outage is an error, never "no". */
    method HasKey(key: string) returns (r: Result<bool, StoreError>)
      ensures available ==> r == Ok(Lookup(key).Some?)
      ensures !available ==> r == Err(Unavailable)
    {
      if !available { return Err(Unavailable); }
      r := Ok(Lookup(key).Some?);
    }

    /** SET with a time to live in milliseconds. */
    method Set(key: string, value: string, ttlMs: int) returns (r: Result<(), StoreError>)
      requires Valid()
      modifies this
      ensures Valid() && Steady()
      ensures r == if !available then Err(Unavailable) else if ttlMs <= 0 then Err(InvalidExpireTime) else Ok(())
      ensures r.Ok? ==> entries == old(entries)[key := Entry(value, now + ttlMs)] && value in history
      ensures r.Err? ==> entries == old(entries)
    {
      if !available { return Err(Unavailable); }
      if ttlMs <= 0 { return Err(InvalidExpireTime); }
      entries := entries[key := Entry(value, now + ttlMs)];
      history := history + {value};
      r := Ok(());
    }

    /** DEL: removes the key and reports whether a live value was there. */
    method Delete(key: string) returns (r: Result<bool, StoreError>)
      requires Valid()
      modifies this
      ensures Valid() && Steady()
      ensures !available ==> r == Err(Unavailable) && entries == old(entries)
      ensures available ==> r == Ok(old(Lookup(key)).Some?) && entries == old(entries) - {key}
    {
      if !available { return Err(Unavailable); }
      r := Ok(Lookup(key).Some?);
      entries := entries - {key};
    }

    /** Time passes; keys whose expiry is passed read as absent from then on. */
    method Advance(ms: nat)
      requires Valid()
      modifies this
      ensures Valid() && now == old(now) + ms
      ensures entries == old(entries) && available == old(available) && history == old(history)
    {
      now := now + ms;
    }

    /** The connection goes down or comes back. */
    method SetAvailable(up: bool)
      requires Valid()
      modifies this
      ensures Valid() && available == up
      ensures entries == old(entries) && now == old(now) && history == old(history)
    {
      available := up;
    }
  }
}
