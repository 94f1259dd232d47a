/** The optional-value wrapper used for a missing expiry and for absent keys. */
module Optional {

  datatype Option<+T> = None | Some(value: T) {
    /** The carried value, or `default` when there is none. */
    function GetOr(default: T): T
    {
      if Some? then value else default
    }
  }

  /** The binding of `k` in `m`, if any. */
  function Lookup<V>(m: map<string, V>, k: string): (r: Option<V>)
    ensures r.Some? <==> k in m
    ensures r.Some? ==> r.value == m[k]
  {
    if k in m then Some(m[k]) else None
  }
}

/**
  One cache slot and the two pieces of clock arithmetic the cache does on it:
  the expiry test and the rounding of a remaining time to whole seconds.
  Instants are epoch milliseconds, passed in by the caller instead of being
  read from the wall clock.
 */
module Entries {
  import opened Optional

  /** A stored value and, when the writer gave a time-to-live, the absolute
      instant (epoch milliseconds) after which the entry is stale. */
  datatype Entry = Entry(value: string, expires: Option<int>)

  /** An entry is stale strictly after its expiry instant; one without an
      expiry is never stale. */
  function IsExpired(e: Entry, now: int): (stale: bool)
    ensures e.expires.None? ==> !stale
    ensures e.expires.Some? && now == e.expires.value ==> !stale
    ensures e.expires.Some? && now == e.expires.value + 1 ==> stale
  {
    e.expires.Some? && now > e.expires.value
  }

  /** Once stale, an entry stays stale as the clock moves forward, and it is
      live exactly up to and including its expiry instant. */
  lemma ExpiryIsThreshold(e: Entry, now: int, later: int)
    requires now <= later
    ensures IsExpired(e, now) ==> IsExpired(e, later)
    ensures e.expires.Some? ==> (IsExpired(e, now) <==> e.expires.value < now)
  {
  }

  /** `secs` is the whole number of seconds nearest to `ms` milliseconds,
      an exact half second counting towards the larger number. */
  predicate NearestSeconds(ms: int, secs: int)
  {
    secs * 1000 - 500 <= ms < secs * 1000 + 500
  }

  /** JavaScript's Math.round(ms / 1000) for an integral millisecond count. */
  function RoundToSeconds(ms: int): (secs: int)
    ensures NearestSeconds(ms, secs)
    ensures secs < 0 <==> ms < -500
  {
    (ms + 500) / 1000
  }

  /** The nearest whole second is unique, so the rounding is fully
      described by NearestSeconds. */
  lemma NearestSecondsUnique(ms: int, a: int, b: int)
    requires NearestSeconds(ms, a) && NearestSeconds(ms, b)
    ensures a == b
  {
  }
}
