/**
  Two places where index.js, read literally, does not do what its authors
  evidently meant. Each is modelled as written, next to a statement of the
  discrepancy on a concrete input; the rest of the model uses the corrected
  behaviour (Cache.Exists, Cache.Ttl and Streams.PipeThrough).
 */
module Findings {
  import opened Optional
  import opened Entries
  import opened Cache
  import opened Streams

  /** The cache's backing table as the source keeps it: a plain JavaScript
      object whose own properties are either an entry or, once cleared by
      del or an eviction, undefined (None here). */
  type RawCache = map<string, Option<Entry>>

  /** What reading property `k` of the backing object yields: an entry, the
      value undefined, or a function every plain object inherits from
      Object.prototype. */
  datatype Slot = Undefined | Stored(entry: Entry) | InheritedMember

  /** The names a plain object such as `{}` inherits from Object.prototype. */
  const InheritedNames: set<string> := {
    "constructor", "hasOwnProperty", "isPrototypeOf", "propertyIsEnumerable",
    "toLocaleString", "toString", "valueOf", "__proto__",
    "__defineGetter__", "__defineSetter__", "__lookupGetter__", "__lookupSetter__"
  }

  /** Property lookup on the backing object: own properties first, then the
      prototype. */
  function ReadSlot(raw: RawCache, k: string): Slot
  {
    if k in raw then
      (if raw[k].Some? then Stored(raw[k].value) else Undefined)
    else if k in InheritedNames then
      InheritedMember
    else
      Undefined
  }

  /** The store the corrected model sees: the own properties holding an entry. */
  function Cleaned(raw: RawCache): Store
  {
    map k | k in raw && raw[k].Some? :: raw[k].value
  }

  /** Whether the lookup of `k` lands on an own property or on nothing, the
      case in which the source behaves as the corrected model does. */
  predicate OwnOrMissing(raw: RawCache, k: string)
  {
    k in raw || k !in InheritedNames
  }

  /** A command's reply on the backing object as written. */
  datatype RawReply<T> = RawReply(result: T, raw: RawCache)

  /** index.js exists as written. On an inherited member `!entry` is false
      and isExpired finds no `expires`, so the key is reported to exist.
      Everywhere else it agrees with the corrected Cache.Exists, with
      `= undefined` standing for removal. */
  function ExistsAsWritten(raw: RawCache, k: string, now: int): (r: RawReply<bool>)
    ensures OwnOrMissing(raw, k) ==> r.result == Exists(Cleaned(raw), k, now).result
    ensures OwnOrMissing(raw, k) ==> Cleaned(r.raw) == Exists(Cleaned(raw), k, now).store
    ensures !OwnOrMissing(raw, k) ==> r.result && r.raw == raw
  {
    match ReadSlot(raw, k)
    case Undefined => RawReply(false, raw)
    case InheritedMember => RawReply(true, raw)
    case Stored(e) =>
      if IsExpired(e, now) then
        assert Cleaned(raw[k := None]) == Cleaned(raw) - {k};
        RawReply(false, raw[k := None])
      else
        RawReply(true, raw)
  }

  /** index.js ttl as written. An inherited member is not undefined and has
      no `expires`, so it is reported as a key without expiry (-1).
      Everywhere else it agrees with the corrected Cache.Ttl. */
  function TtlAsWritten(raw: RawCache, k: string, now: int): (r: RawReply<int>)
    ensures OwnOrMissing(raw, k) ==> r.result == Ttl(Cleaned(raw), k, now).result
    ensures OwnOrMissing(raw, k) ==> Cleaned(r.raw) == Ttl(Cleaned(raw), k, now).store
    ensures !OwnOrMissing(raw, k) ==> r.result == Persistent && r.raw == raw
  {
    match ReadSlot(raw, k)
    case Undefined => RawReply(Absent, raw)
    case InheritedMember => RawReply(Persistent, raw)
    case Stored(e) =>
      if e.expires.None? then
        RawReply(Persistent, raw)
      else
        var secs := RoundToSeconds(e.expires.value - now);
        if secs < 0 then
          assert Cleaned(raw[k := None]) == Cleaned(raw) - {k};
          RawReply(Absent, raw[k := None])
        else
          RawReply(secs, raw)
  }

  /** On a fresh (or flushed) cache, a key that was never written but names
      an Object.prototype member is reported to exist, with no expiry; the
      corrected commands report it absent. */
  lemma InheritedNameCounterexample(now: int)
    ensures ExistsAsWritten(map[], "toString", now).result
    ensures TtlAsWritten(map[], "toString", now).result == Persistent
    ensures !Exists(Flushall(), "toString", now).result
    ensures Ttl(Flushall(), "toString", now).result == Absent
  {
  }

  /** index.js writeThrough as written: neither the transform nor the flush
      function calls its callback. The first chunk is pushed downstream, but
      the stage never accepts a second one and its writable side never
      finishes, so the flush, and the commit inside it, runs only when the
      upstream ends without sending any chunk. */
  function PipeThroughAsWritten(s: Store, k: string, seconds: Option<int>, chunks: seq<string>, now: int): (r: Reply<seq<string>>)
    ensures |chunks| > 0 ==> r.result == chunks[..1]
    ensures |chunks| == 0 ==> r.result == []
    ensures |chunks| > 0 ==> r.store == s
    ensures |chunks| == 0 ==> r.store == PipeThrough(s, k, seconds, chunks, now).store
  {
    if |chunks| == 0 then
      Reply([], Commit(s, OpenWriteThrough(k, seconds), now))
    else
      Reply([chunks[0]], s)
  }

  /** The test suite's write-through case: one chunk through a stage with a
      ten-second TTL into an empty cache. As written the key never appears;
      the corrected pipeline stores the chunk. With two chunks, only the first
      reaches the consumer as written. */
  lemma WriteThroughCounterexample(now: int)
    ensures !Exists(PipeThroughAsWritten(map[], "k", Some(10), ["34534534fsdf"], now).store, "k", now).result
    ensures Exists(PipeThrough(map[], "k", Some(10), ["34534534fsdf"], now).store, "k", now).result
    ensures PipeThroughAsWritten(map[], "k", None, ["a", "b"], now).result == ["a"]
    ensures PipeThrough(map[], "k", None, ["a", "b"], now).result == ["a", "b"]
  {
  }
}
