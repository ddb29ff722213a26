/** `CacheService`: a thin wrapper over an in-memory key/value cache. Entries never
    expire in this model; the expiration argument is only checked, as the cache entry
    options check it. */
module Caching {
  import opened Wrappers

  /** One call made on the cache, in the order the calls were made. */
  datatype CacheCall<T> = GetCall(key: string) | SetCall(key: string, value: T, expirationInMinutes: int) | RemoveCall(key: string)

  /** The message of the exception raised for a non-positive relative expiration. */
  const ExpirationNotPositive := "The relative expiration value must be positive."

  // ----- the cache as a value -----

  /** `Get`: the entry under `key`, or the default (null) when there is none. */
  function Lookup<T>(entries: map<string, T>, key: string): Option<T> {
    if key in entries then Some(entries[key]) else None
  }

  // ----- the service -----

  class CacheService<T> {
    var entries: map<string, T>
    ghost var calls: seq<CacheCall<T>>

    /** A cache over a fresh, empty memory cache. */
    constructor ()
      ensures entries == map[] && calls == []
    {
      entries := map[];
      calls := [];
    }

    /** The value under `key`, or None (C#'s `default(T)`) when the key is absent. */
    method Get(key: string) returns (r: Option<T>)
      modifies this`calls
      ensures r == Lookup(entries, key)
      ensures r.Some? <==> key in entries
      ensures r.Some? ==> r.value == entries[key]
      ensures entries == old(entries) && calls == old(calls) + [GetCall(key)]
    {
      calls := calls + [GetCall(key)];
      if key in entries {
        r := Some(entries[key]);
      } else {
        r := None;
      }
    }

    /** Stores `value` under `key`, replacing any previous value; the expiration must be
      positive, or the entry options refuse it and nothing is stored. */
    method Set(key: string, value: T, expirationInMinutes: int := 100) returns (r: Attempt<()>)
      modifies this
      ensures expirationInMinutes > 0 ==> r == Returned(()) && entries == old(entries)[key := value]
      ensures expirationInMinutes <= 0 ==> r == Threw(ExpirationNotPositive) && entries == old(entries)
      ensures calls == old(calls) + [SetCall(key, value, expirationInMinutes)]
    {
      calls := calls + [SetCall(key, value, expirationInMinutes)];
      if expirationInMinutes <= 0 {
        return Threw(ExpirationNotPositive);
      }
      entries := entries[key := value];
      r := Returned(());
    }

    /** Removes the entry under `key`, if any; an absent key is not an error. */
    method Remove(key: string)
      modifies this
      ensures entries == old(entries) - {key}
      ensures calls == old(calls) + [RemoveCall(key)]
    {
      calls := calls + [RemoveCall(key)];
      entries := entries - {key};
    }
  }

  // ----- the cache scenarios, run on a fresh cache -----

  /** Get after Set returns the value set, with the default expiration of 100 minutes. */
  method SetThenGet<T>(key: string, value: T) returns (r: Option<T>)
    ensures r == Some(value)
  {
    var cache := new CacheService<T>();
    var _ := cache.Set(key, value);
    r := cache.Get(key);
  }

  /** Get of a key never set returns None. */
  method GetMissing<T>(key: string) returns (r: Option<T>)
    ensures r == None
  {
    var cache := new CacheService<T>();
    r := cache.Get(key);
  }

  /** Get after Remove returns None, and removing a key never set does not fail. */
  method RemoveThenGet<T>(key: string, value: T) returns (removed: Option<T>, neverSet: Option<T>)
    ensures removed == None && neverSet == None
  {
    var cache := new CacheService<T>();
    var _ := cache.Set(key, value);
    cache.Remove(key);
    removed := cache.Get(key);
    cache.Remove(key + "-absent");
    neverSet := cache.Get(key + "-absent");
  }

  /** A second Set on a key replaces the first value and leaves other keys alone. */
  method SetOverwrites<T>(key: string, other: string, first: T, second: T, kept: T) returns (r: Option<T>, o: Option<T>)
    requires key != other
    ensures r == Some(second) && o == Some(kept)
  {
    var cache := new CacheService<T>();
    var _ := cache.Set(other, kept);
    var _ := cache.Set(key, first);
    var _ := cache.Set(key, second, 5);
    r := cache.Get(key);
    o := cache.Get(other);
  }
}
