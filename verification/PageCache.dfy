/** The page's bounded TTL cache (edge/page/vexa_page.py), against the unbounded one
    that never evicts and never deletes. */
module PageCache {
  import opened Wrappers

  datatype Entry<V> = Entry(expires: real, body: V)

  /** The unbounded cache: the latest put of a key, while its time has not come. */
  function Unbounded<K, V>(latest: map<K, Entry<V>>, key: K, now: real): Option<V> {
    if key in latest && latest[key].expires > now then Some(latest[key].body) else None
  }

  function Min(a: int, b: int): int { if a < b then a else b }

  /** These keys expire no later than any other key of the store. */
  ghost predicate Soonest<K, V>(store: map<K, Entry<V>>, keys: set<K>) {
    && keys <= store.Keys
    && forall e, k | e in keys && k in store && k !in keys :: store[e].expires <= store[k].expires
  }

  /** A finite non-empty store has a key that expires first. */
  lemma {:induction false} FirstExists<K, V>(store: map<K, Entry<V>>, keys: set<K>) returns (first: K)
    requires keys != {} && keys <= store.Keys
    ensures first in keys && forall k | k in keys :: store[first].expires <= store[k].expires
    decreases |keys|
  {
    first :| first in keys;
    if keys != {first} {
      assert keys == (keys - {first}) + {first};
      var other := FirstExists(store, keys - {first});
      if store[other].expires < store[first].expires {
        first := other;
      }
    }
  }

  /** What a call may leave behind: every stored entry is the latest put of its key,
      and a key put and not stored was evicted or has expired. */
  ghost predicate Abbreviates<K, V>(store: map<K, Entry<V>>, latest: map<K, Entry<V>>, dropped: set<K>, clock: real) {
    && (forall k | k in store :: k in latest && store[k] == latest[k] && k !in dropped)
    && (forall k | k in latest && k !in store :: k in dropped || latest[k].expires <= clock)
  }

  lemma SoonestGrows<K, V>(store: map<K, Entry<V>>, keys: set<K>, rest: set<K>, first: K)
    requires Soonest(store, keys) && keys !! rest && keys + rest == store.Keys
    requires first in rest && forall k | k in rest :: store[first].expires <= store[k].expires
    ensures Soonest(store, keys + {first}) && (keys + {first}) + (rest - {first}) == store.Keys
  {
  }

  /** What a put leaves: the evicted keys gone, this one in. */
  function AfterPut<K, V>(store: map<K, Entry<V>>, evicted: set<K>, key: K, entry: Entry<V>): map<K, Entry<V>> {
    (store - evicted)[key := entry]
  }

  lemma PutAbbreviates<K, V>(store: map<K, Entry<V>>, latest: map<K, Entry<V>>, dropped: set<K>, clock: real,
                             evicted: set<K>, key: K, entry: Entry<V>, now: real)
    requires clock <= now && Abbreviates(store, latest, dropped, clock)
    ensures Abbreviates(AfterPut(store, evicted, key, entry), latest[key := entry], (dropped + evicted) - {key}, now)
  {
  }

  lemma PutIsBounded<K, V>(store: map<K, Entry<V>>, evicted: set<K>, key: K, entry: Entry<V>, maxEntries: int)
    requires |store| <= Max(1, maxEntries) && evicted <= store.Keys
    requires |store| >= maxEntries && store != map[] ==> |evicted| >= 1
    ensures |AfterPut(store, evicted, key, entry)| <= Max(1, maxEntries)
  {
    var kept := store - evicted;
    assert store.Keys == kept.Keys + evicted;
    assert |store.Keys| == |kept.Keys| + |evicted|;
    assert AfterPut(store, evicted, key, entry).Keys == kept.Keys + {key};
    assert |kept.Keys + {key}| <= |kept.Keys| + 1;
    assert |store| == |store.Keys|;
  }

  class Cache<K(==, !new), V(0)> {
    const ttl: real
    const maxEntries: int
    var store: map<K, Entry<V>>
    /** History: the latest put of every key, the keys evicted since their latest
        put, and the time of the last call. */
    ghost var latest: map<K, Entry<V>>
    ghost var dropped: set<K>
    ghost var clock: real

    ghost predicate Valid()
      reads this
    {
      && Abbreviates(store, latest, dropped, clock)
      && |store| <= Max(1, maxEntries)
      && dropped <= latest.Keys
    }

    constructor (ttl: real, maxEntries: int, start: real)
      ensures Valid() && this.ttl == ttl && this.maxEntries == maxEntries
      ensures latest == map[] && dropped == {} && clock == start
    {
      this.ttl, this.maxEntries := ttl, maxEntries;
      store, latest, dropped, clock := map[], map[], {}, start;
    }

    /** A hit is what the unbounded cache answers; a miss differs from it exactly for
        a key evicted since it was last put. */
    method Get(key: K, now: real) returns (body: Option<V>)
      requires Valid() && clock <= now
      modifies this`store, this`clock
      ensures Valid() && clock == now
      ensures body == if key in dropped then None else Unbounded(latest, key, now)
      ensures body.Some? <==> key !in dropped && key in latest && now < latest[key].expires
      ensures store == if key in old(store) && body.None? then old(store) - {key} else old(store)
    {
      clock := now;
      if key !in store {
        return None;
      }
      var hit := store[key];
      if hit.expires <= now {
        store := store - {key};
        return None;
      }
      return Some(hit.body);
    }

    /** The keys that expire soonest, `count` of them or all there are. */
    method FirstToExpire(count: nat) returns (keys: set<K>)
      ensures Soonest(store, keys) && |keys| == Min(count, |store|)
    {
      keys := {};
      var rest := store.Keys;
      while |keys| < count && rest != {}
        invariant keys !! rest && keys + rest == store.Keys
        invariant |keys| <= count && |keys| + |rest| == |store|
        invariant Soonest(store, keys)
      {
        ghost var least := FirstExists(store, rest);
        var first :| first in rest && forall k | k in rest :: store[first].expires <= store[k].expires;
        SoonestGrows(store, keys, rest, first);
        keys, rest := keys + {first}, rest - {first};
      }
    }

    /** At the bound, the keys that expire soonest go, whether or not this key is
        already stored; below it, nothing does. */
    method Put(key: K, body: V, now: real) returns (ghost evicted: set<K>)
      requires Valid() && clock <= now
      modifies this
      ensures Valid() && clock == now
      ensures Soonest(old(store), evicted)
      ensures |evicted| == if |old(store)| >= maxEntries then Min(Max(1, maxEntries / 4), |old(store)|) else 0
      ensures store == (old(store) - evicted)[key := Entry(now + ttl, body)]
      ensures latest == old(latest)[key := Entry(now + ttl, body)]
      ensures dropped == (old(dropped) + evicted) - {key}
    {
      ghost var was := store;
      ghost var entry := Entry(now + ttl, body);
      evicted := {};
      if |store| >= maxEntries {
        var going := FirstToExpire(Max(1, maxEntries / 4));
        evicted := going;
        store := store - going;
      }
      assert store == was - evicted;
      store := store[key := Entry(now + ttl, body)];
      PutAbbreviates(was, latest, dropped, clock, evicted, key, entry, now);
      PutIsBounded(was, evicted, key, entry, maxEntries);
      clock, latest, dropped := now, latest[key := entry], (dropped + evicted) - {key};
    }
  }
}
