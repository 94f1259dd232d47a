/**
  The whole-value commands of the in-memory cache: get, set, setex, del,
  exists, ttl and flushall. Every command is a pure function of the store
  (and, where expiry matters, of the current instant) returning the new
  store; read commands also return their reply, and evict the key they look
  at when they find it stale.
 */
module Cache {
  import opened Optional
  import opened Entries

  /** The cache's key-to-entry table. A key whose slot was cleared is absent. */
  type Store = map<string, Entry>

  /** A command's reply together with the store it leaves behind. */
  datatype Reply<T> = Reply(result: T, store: Store)

  /** The two stores bind every key other than `k` identically. */
  ghost predicate SameElsewhere(s: Store, t: Store, k: string)
  {
    forall j :: j != k ==> Lookup(s, j) == Lookup(t, j)
  }

  /** `t` is `s` with at most the key `k` removed: nothing is added or rewritten. */
  ghost predicate OnlyDropped(s: Store, t: Store, k: string)
  {
    SameElsewhere(s, t, k) && (k in t ==> k in s && t[k] == s[k])
  }

  /** What a client can observe at instant `now`: the value of every live key.
      Lazy eviction is correct exactly when no read changes this view. */
  function View(s: Store, now: int): map<string, string>
  {
    map k | k in s && !IsExpired(s[k], now) :: s[k].value
  }

  /** Removing a key that is stale at `now` changes nothing a client can see. */
  lemma EvictStaleKeepsView(s: Store, k: string, now: int)
    requires k in s && IsExpired(s[k], now)
    ensures View(s - {k}, now) == View(s, now)
  {
  }

  /** Clearing the slot of `k`; used by `del` and by every lazy eviction. */
  function Evict(s: Store, k: string): (t: Store)
    ensures k !in t
    ensures OnlyDropped(s, t, k)
  {
    s - {k}
  }

  /** index.js get: the value of a live key, nothing for an absent or stale
      one; a stale key is evicted. */
  function Get(s: Store, k: string, now: int): (r: Reply<Option<string>>)
    ensures r.result == Lookup(View(s, now), k)
    ensures OnlyDropped(s, r.store, k)
    ensures k in r.store <==> k in s && !IsExpired(s[k], now)
    ensures View(r.store, now) == View(s, now)
  {
    if k in s && IsExpired(s[k], now) then
      EvictStaleKeepsView(s, k, now);
      Reply(None, Evict(s, k))
    else if k in s then
      Reply(Some(s[k].value), s)
    else
      Reply(None, s)
  }

  /** index.js set: bind `k` to `v` with no expiry, whatever was there. */
  function Set(s: Store, k: string, v: string): (t: Store)
    ensures Lookup(t, k) == Some(Entry(v, None))
    ensures SameElsewhere(s, t, k)
  {
    s[k := Entry(v, None)]
  }

  /** index.js setex: bind `k` to `v`, stale once more than `seconds` seconds
      have passed since `now`. A negative `seconds` is accepted and yields an
      entry that is already stale. */
  function Setex(s: Store, k: string, seconds: int, v: string, now: int): (t: Store)
    ensures k in t && t[k].value == v
    ensures t[k].expires.Some?
    ensures forall later :: IsExpired(t[k], later) <==> later > now + seconds * 1000
    ensures SameElsewhere(s, t, k)
  {
    s[k := Entry(v, Some(now + seconds * 1000))]
  }

  /** index.js del: clear `k`; absent keys are left alone. */
  function Del(s: Store, k: string): (t: Store)
    ensures k !in t
    ensures OnlyDropped(s, t, k)
    ensures k !in s ==> t == s
  {
    Evict(s, k)
  }

  /** index.js exists: whether `k` holds a live entry; a stale key is evicted. */
  function Exists(s: Store, k: string, now: int): (r: Reply<bool>)
    ensures r.result <==> k in View(s, now)
    ensures OnlyDropped(s, r.store, k)
    ensures k in r.store <==> r.result
    ensures View(r.store, now) == View(s, now)
  {
    if k !in s then
      Reply(false, s)
    else if IsExpired(s[k], now) then
      EvictStaleKeepsView(s, k, now);
      Reply(false, Evict(s, k))
    else
      Reply(true, s)
  }

  /** The TTL command's sentinel for a key that does not exist. */
  const Absent: int := -2
  /** The TTL command's sentinel for a key that exists with no expiry. */
  const Persistent: int := -1

  /** index.js ttl: -2 for an absent key, -1 for a key without expiry, else
      the remaining time rounded to the nearest second. A remaining time that
      rounds below zero (more than half a second overdue) counts as absent
      and evicts the key; one that rounds to zero is reported as 0 and the
      key stays. */
  function Ttl(s: Store, k: string, now: int): (r: Reply<int>)
    ensures r.result == Absent || r.result == Persistent || r.result >= 0
    ensures r.result == Absent <==>
      k !in s || (s[k].expires.Some? && s[k].expires.value - now < -500)
    ensures r.result == Persistent <==> k in s && s[k].expires.None?
    ensures r.result >= 0 ==>
      k in s && s[k].expires.Some? && NearestSeconds(s[k].expires.value - now, r.result)
    ensures OnlyDropped(s, r.store, k)
    ensures k in r.store <==> r.result != Absent
    ensures View(r.store, now) == View(s, now)
  {
    if k !in s then
      Reply(Absent, s)
    else if s[k].expires.None? then
      Reply(Persistent, s)
    else
      var secs := RoundToSeconds(s[k].expires.value - now);
      if secs < 0 then
        EvictStaleKeepsView(s, k, now);
        Reply(Absent, Evict(s, k))
      else
        Reply(secs, s)
  }

  /** index.js flushall: a fresh, empty table. */
  function Flushall(): (t: Store)
    ensures forall k :: k !in t
  {
    map[]
  }
}
