/**
 * The cache layer: expiry times, the file cache (its files modelled as a map from key to
 * packet), the in-memory stash in front of it, and the stack of open capture buffers.
 * The clock is a parameter `now` of every operation that reads it.
 */
module Cache {
  import opened Wrappers

  /** A timeout as callers pass it: a number of seconds (-1 meaning "do not cache") or PHP `false`. */
  datatype Timeout = Secs(n: int) | Off

  /** PHP truthiness of a timeout: `false` and 0 are falsy. */
  predicate TruthyTimeout(t: Timeout) {
    t.Secs? && t.n != 0
  }

  /**
   * `clCache::time($timeout)`: no expiry time for -1, `now + n` for a number, and 0 for
   * `false` (the date parser reads the empty expression as the epoch).
   */
  function Time(t: Timeout, now: int): (r: Option<int>)
    ensures r.None? <==> t == Secs(-1)
    ensures t.Secs? && t.n != -1 ==> r == Some(now + t.n)
    ensures t == Off ==> r == Some(0)
  {
    match t
    case Secs(n) => if n == -1 then None else Some(now + n)
    case Off => Some(0)
  }

  /** `clCache::raw`: what a cache stores for a value. */
  datatype Packet<V> = Packet(created: int, expires: int, value: V)

  /** A packet is still good at `now`: it never expires (0) or its time has not come. */
  predicate Fresh<V>(p: Packet<V>, now: int) {
    p.expires == 0 || now < p.expires
  }

  // ---------------------------------------------------------------------------------------
  // clFileCache
  // ---------------------------------------------------------------------------------------

  /** What the file cache's get answers: the stored packet while it is fresh. */
  function Lookup<V>(store: map<string, Packet<V>>, key: string, now: int): (r: Option<Packet<V>>)
    ensures r.Some? <==> key in store && (store[key].expires == 0 || now < store[key].expires)
    ensures r.Some? ==> r.value == store[key]
  {
    if key in store && Fresh(store[key], now) then Some(store[key]) else None
  }

  /** The store after a get: an expired entry is deleted, everything else stays. */
  function Purged<V>(store: map<string, Packet<V>>, key: string, now: int): (r: map<string, Packet<V>>)
    ensures key in store && !Fresh(store[key], now) ==> key !in r
    ensures forall k :: k != key ==> (k in r <==> k in store) && (k in r ==> r[k] == store[k])
    ensures Lookup(store, key, now).Some? ==> r == store
  {
    if key in store && !Fresh(store[key], now) then store - {key} else store
  }

  /** The store after a set, and the packet set returns (none for the -1 timeout). */
  function Stored<V>(store: map<string, Packet<V>>, key: string, value: V, t: Timeout, now: int): (r: (map<string, Packet<V>>, Option<Packet<V>>))
    ensures t == Secs(-1) ==> r == (store, None)
    ensures t != Secs(-1) ==> r.1 == Some(Packet(now, Time(t, now).value, value)) && r.0 == store[key := r.1.value]
  {
    match Time(t, now)
    case None => (store, None)
    case Some(expires) =>
      var p := Packet(now, expires, value);
      (store[key := p], Some(p))
  }

  /** A value set with a positive timeout is read back until the timeout has passed. */
  lemma SetThenGet<V>(store: map<string, Packet<V>>, key: string, value: V, n: int, now: int, later: int)
    requires n > 0 && now <= later
    ensures var s := Stored(store, key, value, Secs(n), now).0;
      Lookup(s, key, later).Some? <==> later < now + n || now + n == 0
    ensures var s := Stored(store, key, value, Secs(n), now).0;
      Lookup(s, key, later).Some? ==> Lookup(s, key, later).value.value == value
  {
  }

  /**
   * A numeric timeout of 0 does not mean "forever": the packet expires at `now` and is
   * already stale for any later read (unless the clock reads 0). A `false` timeout is the
   * one that never expires.
   */
  lemma ZeroTimeoutIsImmediate<V>(store: map<string, Packet<V>>, key: string, value: V, now: int, later: int)
    requires now != 0 && now <= later
    ensures Lookup(Stored(store, key, value, Secs(0), now).0, key, later).None?
    ensures Lookup(Stored(store, key, value, Off, now).0, key, later) == Some(Packet(now, 0, value))
  {
  }

  /** Setting one key neither adds, removes nor changes any other. */
  lemma SetOthers<V>(store: map<string, Packet<V>>, key: string, value: V, t: Timeout, now: int, k: string)
    requires k != key
    ensures var s := Stored(store, key, value, t, now).0;
      (k in s <==> k in store) && (k in s ==> s[k] == store[k])
  {
  }

  /** The file cache. */
  class FileCache<V> {
    var store: map<string, Packet<V>>

    constructor ()
      ensures store == map[]
    {
      store := map[];
    }

    /** `get($key, true)`: the packet while it is fresh; an expired one is deleted and nothing is returned. */
    method Get(key: string, now: int) returns (r: Option<Packet<V>>)
      modifies this
      ensures r == Lookup(old(store), key, now)
      ensures store == Purged(old(store), key, now)
    {
      if key in store {
        var raw := store[key];
        if raw.expires == 0 || now < raw.expires {
          return Some(raw);
        } else {
          store := store - {key};
          return None;
        }
      }
      return None;
    }

    /** `set($key, $value, $timeout)`: nothing for -1; otherwise the new packet, stored and returned. */
    method Set(key: string, value: V, t: Timeout, now: int) returns (r: Option<Packet<V>>)
      modifies this
      ensures (store, r) == Stored(old(store), key, value, t, now)
    {
      var expires := Time(t, now);
      if expires.None? {
        return None;
      }
      var raw := Packet(now, expires.value, value);
      store := store[key := raw];
      r := Some(raw);
    }

    /** `del($key)`: whether the key existed; it is gone afterwards. */
    method Del(key: string) returns (existed: bool)
      modifies this
      ensures existed <==> key in old(store)
      ensures store == old(store) - {key}
    {
      existed := key in store;
      if existed {
        store := store - {key};
      }
    }

    /** `flush()`: every entry removed. */
    method Flush()
      modifies this
      ensures store == map[]
    {
      store := map[];
    }
  }

  // ---------------------------------------------------------------------------------------
  // clStash
  // ---------------------------------------------------------------------------------------

  /** A stash slot holds a packet, or `false` when the proxied set wrote nothing. */
  predicate FreshSlot<V>(mem: map<string, Option<Packet<V>>>, key: string, now: int) {
    key in mem && mem[key].Some? && Fresh(mem[key].value, now)
  }

  /** What the stash's get answers: a fresh stashed packet, else whatever the proxied cache answers. */
  function StashAnswer<V>(mem: map<string, Option<Packet<V>>>, store: map<string, Packet<V>>, key: string, now: int): Option<Packet<V>> {
    if FreshSlot(mem, key, now) then mem[key] else Lookup(store, key, now)
  }

  /** The stash memory after get: kept on a fresh stashed hit; otherwise a packet the proxied cache answers is stashed. */
  function MemAfterGet<V>(mem: map<string, Option<Packet<V>>>, store: map<string, Packet<V>>, key: string, now: int): map<string, Option<Packet<V>>> {
    if FreshSlot(mem, key, now) then mem
    else if Lookup(store, key, now).Some? then mem[key := Lookup(store, key, now)]
    else mem
  }

  /** The proxied store after get: only asked, and so only purged, without a fresh stashed hit. */
  function StoreAfterGet<V>(mem: map<string, Option<Packet<V>>>, store: map<string, Packet<V>>, key: string, now: int): map<string, Packet<V>> {
    if FreshSlot(mem, key, now) then store else Purged(store, key, now)
  }

  /** After a get that finds a packet, the key is a fresh stashed hit: a second get at the same time answers the same from memory. */
  lemma GetTwice<V>(mem: map<string, Option<Packet<V>>>, store: map<string, Packet<V>>, key: string, now: int)
    requires StashAnswer(mem, store, key, now).Some?
    ensures FreshSlot(MemAfterGet(mem, store, key, now), key, now)
    ensures StashAnswer(MemAfterGet(mem, store, key, now), StoreAfterGet(mem, store, key, now), key, now) == StashAnswer(mem, store, key, now)
  {
    if !FreshSlot(mem, key, now) {
      var r := Lookup(store, key, now);
      assert MemAfterGet(mem, store, key, now)[key] == r;
    }
  }

  /** A key deleted from both the stash and the proxied cache is found in neither. */
  lemma DeletedMisses<V>(mem: map<string, Option<Packet<V>>>, store: map<string, Packet<V>>, key: string, now: int)
    ensures StashAnswer(mem - {key}, store - {key}, key, now).None?
  {
    assert key !in mem - {key} && key !in store - {key};
  }

  /** The stash never contradicts the proxied cache about a key the proxied cache holds. */
  ghost predicate Agrees<V>(mem: map<string, Option<Packet<V>>>, store: map<string, Packet<V>>) {
    forall k :: k in mem && mem[k].Some? && k in store ==> store[k] == mem[k].value
  }

  /** While the stash agrees with the proxied cache, reading through the stash reads the proxied cache. */
  lemma StashTransparent<V>(mem: map<string, Option<Packet<V>>>, store: map<string, Packet<V>>, key: string, now: int)
    requires Agrees(mem, store) && key in store
    ensures StashAnswer(mem, store, key, now) == Lookup(store, key, now)
  {
  }

  /**
   * flush() leaves the stash as it was: a key stashed while fresh is still answered from
   * memory after the proxied cache has been emptied.
   */
  lemma FlushKeepsStash<V>(mem: map<string, Option<Packet<V>>>, key: string, now: int)
    requires FreshSlot(mem, key, now)
    ensures StashAnswer(mem, map[], key, now) == mem[key]
    ensures StashAnswer(mem, map[], key, now).Some? && Lookup<V>(map[], key, now).None?
  {
  }

  /** The in-memory stash in front of a file cache. */
  class Stash<V> {
    var mem: map<string, Option<Packet<V>>>
    /** How many empty arrays flush() has appended to `$this->mem` under integer keys. */
    var appended: nat
    const proxied: FileCache<V>

    constructor (proxied: FileCache<V>)
      ensures this.proxied == proxied && mem == map[] && appended == 0
    {
      this.proxied := proxied;
      mem := map[];
      appended := 0;
    }

    ghost predicate Valid()
      reads this, proxied
    {
      Agrees(mem, proxied.store)
    }

    /**
     * `get($key, true)`: a fresh stashed packet is answered from memory without asking the
     * proxied cache; otherwise the proxied cache is asked, and a packet it returns is stashed.
     */
    method Get(key: string, now: int) returns (r: Option<Packet<V>>)
      modifies this, proxied
      ensures old(Valid()) ==> Valid()
      ensures appended == old(appended)
      ensures r == StashAnswer(old(mem), old(proxied.store), key, now)
      ensures mem == MemAfterGet(old(mem), old(proxied.store), key, now)
      ensures proxied.store == StoreAfterGet(old(mem), old(proxied.store), key, now)
      ensures FreshSlot(old(mem), key, now) ==> mem == old(mem) && proxied.store == old(proxied.store)
      ensures !FreshSlot(old(mem), key, now) ==>
        && proxied.store == Purged(old(proxied.store), key, now)
        && mem == (if r.Some? then old(mem)[key := r] else old(mem))
    {
      if key in mem && mem[key].Some? {
        var stashed := mem[key].value;
        if stashed.expires != 0 && stashed.expires <= now {
          var raw := proxied.Get(key, now);
          if raw.Some? {
            mem := mem[key := raw];
          }
          return raw;
        } else {
          return Some(stashed);
        }
      } else {
        var raw := proxied.Get(key, now);
        if raw.Some? {
          mem := mem[key := raw];
        }
        return raw;
      }
    }

    /** `set($key, $value, $timeout)`: the proxied cache's answer, also stashed (a `false` one included). */
    method Set(key: string, value: V, t: Timeout, now: int) returns (r: Option<Packet<V>>)
      modifies this, proxied
      ensures old(Valid()) ==> Valid()
      ensures appended == old(appended)
      ensures (proxied.store, r) == Stored(old(proxied.store), key, value, t, now)
      ensures mem == old(mem)[key := r]
    {
      r := proxied.Set(key, value, t, now);
      mem := mem[key := r];
    }

    /** `del($key)`: the key leaves the stash, and the proxied cache's answer is returned. */
    method Del(key: string) returns (existed: bool)
      modifies this, proxied
      ensures old(Valid()) ==> Valid()
      ensures appended == old(appended)
      ensures mem == old(mem) - {key}
      ensures existed <==> key in old(proxied.store)
      ensures proxied.store == old(proxied.store) - {key}
    {
      mem := mem - {key};
      existed := proxied.Del(key);
    }

    /** `flush()`: empties the proxied cache but only appends an empty entry to the stash. */
    method Flush()
      modifies this, proxied
      ensures old(Valid()) ==> Valid()
      ensures mem == old(mem) && appended == old(appended) + 1
      ensures proxied.store == map[]
    {
      appended := appended + 1;
      proxied.Flush();
    }
  }

  // ---------------------------------------------------------------------------------------
  // Capture buffers: clCache::cached, save and cancel
  // ---------------------------------------------------------------------------------------

  /** An open capture buffer: the key to write and the timeout recorded when it was opened. */
  datatype Buffer = Buffer(key: string, cacheFor: Timeout)

  /** The timeout save() writes with: its own when truthy, else the one recorded in the buffer. */
  function SaveTimeout(given: Timeout, recorded: Timeout): (r: Timeout)
    ensures TruthyTimeout(given) ==> r == given
    ensures !TruthyTimeout(given) ==> r == recorded
  {
    if TruthyTimeout(given) then given else recorded
  }

  /** The stack of open buffers, in front of the global stash. */
  class Capture {
    var buffers: seq<Buffer>
    const cache: Stash<string>

    constructor (cache: Stash<string>)
      ensures this.cache == cache && buffers == []
    {
      this.cache := cache;
      buffers := [];
    }

    /**
     * `cached($key, $cacheFor)`: on a hit still fresh when the clock is read again (`later`),
     * the cached content is shown and the stack is left alone; otherwise exactly one buffer
     * for this key is opened.
     */
    method Cached(key: string, cacheFor: Timeout, now: int, later: int) returns (hit: bool, shown: Option<string>)
      modifies this, cache, cache.proxied
      ensures old(cache.Valid()) ==> cache.Valid()
      ensures cache.mem == MemAfterGet(old(cache.mem), old(cache.proxied.store), key, now)
      ensures cache.proxied.store == StoreAfterGet(old(cache.mem), old(cache.proxied.store), key, now)
      ensures cache.appended == old(cache.appended)
      ensures var a := StashAnswer(old(cache.mem), old(cache.proxied.store), key, now);
        hit <==> a.Some? && Fresh(a.value, later)
      ensures hit ==> buffers == old(buffers) && shown == Some(StashAnswer(old(cache.mem), old(cache.proxied.store), key, now).value.value)
      ensures !hit ==> buffers == old(buffers) + [Buffer(key, cacheFor)] && shown == None
    {
      var cached := cache.Get(key, now);
      if cached.Some? {
        if cached.value.expires != 0 && cached.value.expires <= later {
          buffers := buffers + [Buffer(key, cacheFor)];
          return false, None;
        } else {
          return true, Some(cached.value.value);
        }
      } else {
        buffers := buffers + [Buffer(key, cacheFor)];
        return false, None;
      }
    }

    /**
     * `save($cacheFor)`: closes the most recent buffer and writes what it captured under
     * its key; with no open buffer nothing changes.
     */
    method Save(given: Timeout, content: string, now: int) returns (written: Option<Packet<string>>)
      modifies this, cache, cache.proxied
      ensures old(cache.Valid()) ==> cache.Valid()
      ensures old(buffers) == [] ==>
        buffers == [] && written == None && unchanged(cache, cache.proxied)
      ensures old(buffers) != [] ==>
        var top := old(buffers)[|old(buffers)| - 1];
        && buffers == old(buffers)[..|old(buffers)| - 1]
        && (cache.proxied.store, written) == Stored(old(cache.proxied.store), top.key, content, SaveTimeout(given, top.cacheFor), now)
        && cache.mem == old(cache.mem)[top.key := written]
        && cache.appended == old(cache.appended)
    {
      if |buffers| == 0 {
        return None;
      }
      var top := buffers[|buffers| - 1];
      buffers := buffers[..|buffers| - 1];
      written := cache.Set(top.key, content, SaveTimeout(given, top.cacheFor), now);
    }

    /** `cancel()`: closes the most recent buffer without writing; with no open buffer nothing changes. */
    method Cancel()
      modifies this
      ensures old(buffers) == [] ==> buffers == []
      ensures old(buffers) != [] ==> buffers == old(buffers)[..|old(buffers)| - 1]
    {
      if |buffers| > 0 {
        buffers := buffers[..|buffers| - 1];
      }
    }
  }
}
