/** The in-memory time-to-live cache of lib/simpleCache.ts.  The module-level
    `Map` becomes an explicit store value threaded through every operation, and
    the clock (`Date.now()`) becomes the parameter `now` in milliseconds. */
module SimpleCache {
  import opened Wrappers
  import opened Text

  /** One cached value with the time it was stored and its lifetime. */
  datatype Entry<V> = Entry(value: V, ts: int, ttl: int)

  type Store<V> = map<string, Entry<V>>

  /** The lifetime `cacheSet` uses when the caller gives none. */
  const DefaultTtl: int := 60_000

  /** An entry is still fresh at `now` unless more than `ttl` has elapsed. */
  predicate Fresh<V>(e: Entry<V>, now: int) {
    now - e.ts <= e.ttl
  }

  /** What `cacheGet` returns, together with the store it leaves behind. */
  datatype Lookup<V> = Lookup(store: Store<V>, value: Option<V>)

  /** `cacheGet`: a fresh entry's value; an expired entry is deleted and
      reported as missing; any other key is left alone. */
  function Get<V>(store: Store<V>, key: string, now: int): (r: Lookup<V>)
    ensures r.value.Some? <==> key in store && Fresh(store[key], now)
    ensures r.value.Some? ==> r.value.value == store[key].value
    ensures key in r.store <==> r.value.Some?
    ensures key in r.store ==> r.store[key] == store[key]
    ensures forall k :: k != key ==> (k in r.store <==> k in store)
    ensures forall k :: k != key && k in store ==> r.store[k] == store[k]
  {
    if key !in store then Lookup(store, None)
    else if !Fresh(store[key], now) then Lookup(store - {key}, None)
    else Lookup(store, Some(store[key].value))
  }

  /** `cacheSet`: the key gets a new entry stamped with `now`. */
  function Set<V>(store: Store<V>, key: string, value: V, now: int, ttl: int := DefaultTtl): (r: Store<V>)
    ensures key in r && r[key].value == value && r[key].ts == now && r[key].ttl == ttl
    ensures r.Keys == store.Keys + {key}
    ensures forall k :: k != key && k in store ==> r[k] == store[k]
  {
    store[key := Entry(value, now, ttl)]
  }

  /** `cacheDel`. */
  function Del<V>(store: Store<V>, key: string): (r: Store<V>)
    ensures r.Keys == store.Keys - {key}
    ensures forall k :: k in r ==> r[k] == store[k]
  {
    store - {key}
  }

  /** `cacheClearByPrefix`: every key that starts with `prefix` is deleted. */
  function ClearByPrefix<V>(store: Store<V>, prefix: string): (r: Store<V>)
    ensures forall k :: k in r <==> k in store && !StartsWith(k, prefix)
    ensures forall k :: k in r ==> r[k] == store[k]
  {
    map k | k in store && !StartsWith(k, prefix) :: store[k]
  }

  /** A value set at `now` can be read back while its lifetime lasts and is
      gone (and deleted) once it has passed. */
  lemma GetAfterSet<V>(store: Store<V>, key: string, value: V, now: int, ttl: int, later: int)
    ensures var r := Get(Set(store, key, value, now, ttl), key, later);
            (later - now <= ttl ==> r.value == Some(value)) &&
            (later - now > ttl ==> r.value == None && key !in r.store)
  {
  }

  /** With a non-negative lifetime, a read at the moment of writing always hits. */
  lemma GetRightAfterSet<V>(store: Store<V>, key: string, value: V, now: int, ttl: int)
    requires ttl >= 0
    ensures Get(Set(store, key, value, now, ttl), key, now).value == Some(value)
  {
    GetAfterSet(store, key, value, now, ttl, now);
  }

  /** Reading twice at the same moment gives the same answer: the first read
      has already done any deleting. */
  lemma GetTwice<V>(store: Store<V>, key: string, now: int)
    ensures var r := Get(store, key, now);
            Get(r.store, key, now) == r
  {
  }

  /** After a delete or a prefix clear, the affected keys read as missing and
      every other key reads exactly as before. */
  lemma GetAfterDel<V>(store: Store<V>, key: string, other: string, now: int)
    ensures Get(Del(store, key), key, now).value == None
    ensures other != key ==> Get(Del(store, key), other, now).value == Get(store, other, now).value
  {
  }

  lemma GetAfterClear<V>(store: Store<V>, prefix: string, key: string, now: int)
    ensures StartsWith(key, prefix) ==> Get(ClearByPrefix(store, prefix), key, now).value == None
    ensures !StartsWith(key, prefix) ==>
              Get(ClearByPrefix(store, prefix), key, now).value == Get(store, key, now).value
  {
  }
}
