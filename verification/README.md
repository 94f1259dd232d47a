# memory-cache-stream, modelled in Dafny

`index.js` builds an in-process cache that mimics a few Redis commands —
GET, SET, SETEX, DEL, EXISTS, TTL and FLUSHALL — plus two stream helpers:
`readStream` reads a value as a stream, and `writeThrough` is a pass-through
stage that stores everything flowing through it. Each entry holds a value and
an optional absolute expiry instant in milliseconds. Expiry is lazy: nothing
sweeps the table, and the read commands test the entry they touch and clear
it when they find it stale, except in two cases: `ttl` keeps an entry that is
up to 500 ms overdue, and `readStream` keeps a stale entry whose value is
empty (both described below).

The model is purely functional:

- `entry.dfy`: `Optional.Option`, and `Entries` with the `Entry`, the strict
  expiry test `IsExpired`, and `RoundToSeconds`. `RoundToSeconds` is
  JavaScript's `Math.round(ms / 1000)` for an integral `ms`, written as
  `(ms + 500) / 1000` with floor division.
- `cache.dfy`: `Cache`. The store is a `map<string, Entry>`. Each command is
  a function of the store and the current instant `now`. It returns a
  `Reply(result, store)` or, for the writes, the new store. `View(s, now)` is
  the map a client can observe: the value of every live key. Every read
  command is proved to leave the View unchanged, so its eviction cannot be
  seen. Every command on a key is proved to leave all other keys alone.
- `streams.dfy`: `Streams`. A stream is the sequence of chunks it delivers
  before it ends. `ReadStream` yields zero or one chunk. The write-through
  stage is a state (key, TTL, buffer) that each chunk passes through via
  `Feed` and `FeedAll`. `Commit` writes the buffer when the upstream
  completes. The stage never touches the store before `Commit`, so a
  pipeline that never completes writes nothing.
- `properties.dfy`: `Properties`. This holds the behaviour the test suite
  expects, how each write changes the View, and the theorem that any run of
  reads, at any instants up to `later`, leaves the View at `later` unchanged.
- `findings.dfy`: `Findings`. This models two source defects as written (see
  "## Findings").

Clearing a slot (`_cache[key] = undefined`) is modelled as removing the key.
For any key that is not a name inherited from `Object.prototype`, the two
behave the same. `Findings.ExistsAsWritten` and `Findings.TtlAsWritten` state
this in their contracts.

### Behaviour of the code worth knowing

- A TTL of 0 given to `setex` does not expire the entry at once. The expiry
  test is a strict `now > expires`, so the entry lives for the rest of that
  millisecond. Only a negative TTL is stale at once.
- `ttl` does not use the expiry test. It rounds the remaining time to whole
  seconds and evicts only when that rounds below zero. An entry up to 500 ms
  overdue therefore reports 0 and stays.
- `readStream` evicts a stale key only when its value is non-empty. This is
  because of the truthiness test on the value.
- `writeThrough` treats a TTL of 0 as "no TTL". This is also a truthiness
  test.

## Model

| member | source | states |
|---|---|---|
| Entries.ExpiryIsThreshold | index.js:142-147 | an entry is live up to and including its expiry instant; once stale it stays stale as the clock advances |
| Entries.IsExpired | index.js:142-147 | an entry without an expiry is never stale; one with an expiry is still live at exactly its expiry instant and stale one millisecond later |
| Entries.RoundToSeconds | index.js:83 | the result is the whole number of seconds nearest the millisecond count, with a half rounding up; it is negative exactly when the count is below -500 |
| Entries.NearestSecondsUnique | index.js:83 | the nearest whole second is unique, so the rounding is fully determined |
| Cache.EvictStaleKeepsView | index.js:12-15 | removing a key that is stale at `now` changes nothing a client can observe at `now` |
| Cache.Evict | index.js:45 | clearing a slot makes the key absent and leaves every other key as it was |
| Cache.Get | index.js:10-25 | the reply is the key's value in the observable view, or nothing if the key is absent or stale; a stale key is evicted and nothing else changes; the observable view is unchanged |
| Cache.Set | index.js:27-32 | the key maps to the value with no expiry, whatever it held before; every other key is unchanged |
| Cache.Setex | index.js:34-42 | the key maps to the value, and the entry is stale exactly at instants after `now + seconds*1000`, negative TTLs included; every other key is unchanged |
| Cache.Del | index.js:44-49 | the key is absent afterwards; every other key is unchanged; deleting an absent key changes nothing |
| Cache.Exists | index.js:51-70 | true exactly when the key is live; the key stays stored exactly when the reply is true; only the key can be dropped; the observable view is unchanged |
| Cache.Ttl | index.js:72-97 | the reply is -2, -1 or a count of at least 0; -2 exactly when the key is absent or more than 500 ms overdue; -1 exactly when it has no expiry; otherwise the remaining time rounded to the nearest second; the key is evicted exactly when the reply is -2; the observable view is unchanged |
| Cache.Flushall | index.js:99-103 | afterwards no key is stored |
| Streams.ConcatAppend | index.js:130 | joining chunk by chunk gives the same text however the sequence is split |
| Streams.ReadStream | index.js:107-125 | at most one chunk; the chunks join to the key's observable value, or to the empty text when the key is absent or stale; a chunk is sent exactly when the live value is non-empty; the key is evicted exactly when it is stale with a non-empty value; the observable view is unchanged |
| Streams.OpenWriteThrough | index.js:127-128 | a new stage keeps the key and TTL it was given and starts with an empty buffer, so after any run of chunks its buffer is exactly their concatenation |
| Streams.Feed | index.js:129-131 | the chunk passes downstream unchanged, and the buffer grows by exactly that chunk |
| Streams.FeedAll | index.js:127-131 | feeding a run of chunks passes all of them downstream in order, and the buffer gains their concatenation |
| Streams.HasTtl | index.js:134 | the TTL test is JavaScript truthiness: an omitted TTL or 0 sets no expiry, and any other integer, negative included, sets one |
| Streams.Commit | index.js:132-137 | on completion the buffer is stored under the stage's key: as a setex when the TTL is non-zero, otherwise as a set |
| Streams.PipeThrough | index.js:127-138 | a completed pipeline forwards every chunk unchanged; afterwards the key holds their concatenation, expiring at `now + seconds*1000` exactly when a non-zero TTL was given; every other key is unchanged |
| Properties.SetThenRead | test/cache.js:20-25 | after set, get returns the value, exists is true, ttl is -1, and a read stream delivers the value |
| Properties.SetView | index.js:27-28 | set changes the observable view at the key only, binding it to the new value |
| Properties.SetexView | index.js:34-38 | up to the expiry instant setex binds the key to the value in the observable view; after it, the key is not observable; other keys are unaffected |
| Properties.SetexLifecycle | test/cache.js:33-42 | after setex, get and exists report the value until the expiry instant; after it they report absent and evict the key |
| Properties.SetexSameInstant | test/cache.js:27-31 | at the instant of setex the key exists exactly when the TTL is not negative; a negative TTL is evicted by the first exists |
| Properties.TtlCountdown | index.js:76-88 | sampled at whole seconds after setex, ttl counts down the remaining seconds; past the TTL it reports -2 and evicts |
| Properties.TtlExamples | test/cache.js:50-72 | 10 s TTL with 5 s elapsed reports 5; 5 s TTL with 6 s elapsed reports -2 |
| Properties.TtlGraceWindow | index.js:83-86 | up to 500 ms past expiry, ttl reports 0 and keeps the entry, while exists reports false and evicts it |
| Properties.DelView | test/cache.js:102-107 | del removes the key from the observable view and from nothing else, and exists then reports false |
| Properties.FlushallClearsAll | test/cache.js:16-18 | after flushall the observable view is empty, so exists is false and ttl is -2 for every key |
| Properties.ReadStreamExamples | test/cache.js:118-131 | a read stream of a key just set to a non-empty value delivers exactly that value as one chunk; an absent key gives no chunk and leaves the store alone |
| Properties.PipeThroughThenRead | test/cache.js:133-150 | after a completed write-through with no TTL or a non-negative TTL, get returns the concatenated chunks and exists is true at the completion instant |
| Properties.StreamCopy | index.js:107-137 | piping a read stream of one key into a write-through stage for another copies the observable value, or stores the empty text when the source key is absent or stale |
| Properties.ReadStep | index.js:12-15 | a read command drops at most the key it names, and only when that key is stale at the read's instant |
| Properties.DropStaleInvisible | index.js:142-147 | dropping a key stale at some instant changes the observable view at that instant and at every later one in no way |
| Properties.ReadsAreUnobservable | index.js:56-58 | any run of reads at instants up to `later` leaves the observable view at `later` unchanged, and never adds a key |
| Findings.ExistsAsWritten | index.js:51-61 | on an own or missing property, exists as written agrees with Cache.Exists, clearing to undefined included; on an inherited Object.prototype name it reports true |
| Findings.TtlAsWritten | index.js:76-88 | on an own or missing property, ttl as written agrees with Cache.Ttl; on an inherited Object.prototype name it reports -1 |
| Findings.InheritedNameCounterexample | index.js:7 | on an empty cache, "toString" exists with no expiry as written, but not in the corrected model |
| Findings.PipeThroughAsWritten | index.js:127-138 | as written, a non-empty upstream forwards exactly its first chunk and leaves the store untouched; an empty upstream forwards nothing and commits the empty text, as the corrected pipeline does |
| Findings.WriteThroughCounterexample | test/cache.js:133-150 | the test's one-chunk pipeline leaves the key absent as written but stores it in the corrected model; with two chunks, only the first is forwarded as written |

## Left out

- Callbacks and `setTimeout` dispatch (index.js:18-24 and the like) are left out. They only deliver a reply that was already computed synchronously.
- The wall clock (`new Date().getTime()`) is left out. The current instant is the parameter `now`.
- Fractional TTLs are left out. `seconds` is an integer, so `seconds * 1000` is exact.
- JavaScript numbers are modelled as unbounded integers. `RoundToSeconds` matches the float computation `Math.round(d / 1000)` only while `d` is far below 2^53 milliseconds, which covers every real timestamp difference.
- Values are strings only. The source stores any JavaScript value; for non-strings, `readStream`'s truthiness test and chunk emission are not modelled.
- Node's `stream.Readable`, `through2` and lodash are not modelled. A stream is its sequence of data chunks. A pushed empty string produces no data event, so an empty value yields no chunk. `readStream` captures its value at open time, as the source does.
- Streams.PipeThrough: models the fold-and-commit the source evidently intends. It does not model the source as written, where the callbacks are never called; that behaviour is `Findings.PipeThroughAsWritten`. It also says nothing about the `end` event, which the as-written stage never emits. Chunks are modelled as text, but the source's stage receives byte buffers and `value += chunk` decodes each one as UTF-8 separately. A multi-byte character split across two chunks is therefore stored as replacement characters, while downstream still receives the original bytes. The claim that the stored value equals the concatenation of the chunks holds only for chunks that each decode on their own.
- An aborted upstream is not a separate case. The stage state is separate from the store until `Commit`, so an unfinished pipeline commits nothing.
- Assigning the key `"__proto__"` replaces the backing object's prototype. The model does not cover this beyond the inherited-name finding.
- Hash-field commands, key listing and the write-only stream adapter are not part of `index.js`, so they are not modelled.

## Findings

| source | as written | input that shows it | evidently intended | confidence | as-written member | corrected member |
|---|---|---|---|---|---|---|
| index.js:7 | the table is a plain `{}`; `exists` and `ttl` look keys up through its prototype | `exists("toString")` on an empty cache returns true, and `ttl("toString")` returns -1 | a never-written key does not exist, and its ttl is -2 | not executed; high | Findings.InheritedNameCounterexample | Cache.Exists |
| index.js:129-137 | neither the transform nor the flush function calls its callback, so only the first chunk is processed and the flush never runs after data | the test's single-chunk pipeline with TTL 10 never stores the key; with chunks "a","b" only "a" is forwarded | every chunk is forwarded, and the concatenation is stored on completion | not executed; medium (depends on Node stream internals) | Findings.WriteThroughCounterexample | Streams.PipeThrough |
