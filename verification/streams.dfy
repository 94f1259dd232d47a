/**
  The two streaming adapters over the same store. A stream is modelled as the
  finite sequence of data chunks it delivers before it ends; the Node stream
  machinery that carries them is not modelled.
 */
module Streams {
  import opened Optional
  import opened Entries
  import opened Cache

  /** Everything a consumer receives from a chunk sequence, in order. */
  function Concat(chunks: seq<string>): string
  {
    if |chunks| == 0 then "" else chunks[0] + Concat(chunks[1..])
  }

  /** Splitting a chunk sequence anywhere does not change what it carries. */
  lemma {:induction false} ConcatAppend(a: seq<string>, b: seq<string>)
    ensures Concat(a + b) == Concat(a) + Concat(b)
  {
    if |a| == 0 {
      assert a + b == b;
    } else {
      assert (a + b)[1..] == a[1..] + b;
      ConcatAppend(a[1..], b);
    }
  }

  /** index.js readStream: the chunks a reader of `k` receives. A live,
      non-empty value arrives as one chunk; an absent key, a stale key or an
      empty value gives a stream that ends without data. Expiry is decided
      when the stream is opened, and a stale key is evicted only when its
      value is non-empty (the source tests the value's truthiness). */
  function ReadStream(s: Store, k: string, now: int): (r: Reply<seq<string>>)
    ensures |r.result| <= 1
    ensures Concat(r.result) == Lookup(View(s, now), k).GetOr("")
    ensures |r.result| == 1 <==> k in View(s, now) && View(s, now)[k] != ""
    ensures OnlyDropped(s, r.store, k)
    ensures k !in r.store <==> k !in s || (IsExpired(s[k], now) && s[k].value != "")
    ensures View(r.store, now) == View(s, now)
  {
    if k in s && s[k].value != "" && IsExpired(s[k], now) then
      EvictStaleKeepsView(s, k, now);
      Reply([], Evict(s, k))
    else if k in s && s[k].value != "" && !IsExpired(s[k], now) then
      Reply([s[k].value], s)
    else
      Reply([], s)
  }

  /** A write-through stage between chunks: the key it will commit to, the
      time-to-live it was created with, and the text of every chunk seen. */
  datatype WriteThrough = WriteThrough(key: string, seconds: Option<int>, buffered: string)

  /** index.js writeThrough: a fresh stage with nothing buffered. */
  function OpenWriteThrough(k: string, seconds: Option<int>): (w: WriteThrough)
    ensures w.key == k && w.seconds == seconds
    ensures forall chunks :: FeedAll(w, chunks).stage.buffered == Concat(chunks)
  {
    WriteThrough(k, seconds, "")
  }

  /** The stage's answer to one incoming chunk: the chunk to pass downstream
      and the stage's next state. */
  datatype Forward = Forward(out: string, next: WriteThrough)

  /** The transform step: pass the chunk on and remember it. */
  function Feed(w: WriteThrough, chunk: string): (f: Forward)
    ensures f.out == chunk
    ensures f.next.key == w.key && f.next.seconds == w.seconds
    ensures |f.next.buffered| == |w.buffered| + |chunk|
    ensures f.next.buffered[..|w.buffered|] == w.buffered
    ensures f.next.buffered[|w.buffered|..] == chunk
  {
    Forward(chunk, w.(buffered := w.buffered + chunk))
  }

  /** The output of a stage fed a run of chunks, and its state afterwards. */
  datatype Pumped = Pumped(out: seq<string>, stage: WriteThrough)

  /** Feed every chunk in arrival order: the last chunk is fed to the stage
      left by all the earlier ones. Every chunk reaches the consumer unchanged,
      and the buffer ends up holding exactly what the consumer received. */
  function FeedAll(w: WriteThrough, chunks: seq<string>): (p: Pumped)
    ensures p.out == chunks
    ensures p.stage.key == w.key && p.stage.seconds == w.seconds
    ensures p.stage.buffered == w.buffered + Concat(chunks)
    decreases |chunks|
  {
    if |chunks| == 0 then
      Pumped([], w)
    else
      var earlier := chunks[..|chunks| - 1];
      var last := chunks[|chunks| - 1];
      var before := FeedAll(w, earlier);
      var f := Feed(before.stage, last);
      assert chunks == earlier + [last];
      ConcatAppend(earlier, [last]);
      Pumped(before.out + [f.out], f.next)
  }

  /** Whether the TTL given to writeThrough sets an expiry: the source tests
      its truthiness, so an omitted TTL and a TTL of 0 both mean none. */
  function HasTtl(seconds: Option<int>): (has: bool)
    ensures seconds.None? ==> !has
    ensures seconds == Some(0) ==> !has
    ensures seconds.Some? && seconds.value != 0 ==> has
  {
    seconds.Some? && seconds.value != 0
  }

  /** The flush step, run once the upstream has ended at instant `now`:
      store the buffered text under the stage's key, with an expiry only
      when the stage has a TTL. The commit is exactly a set or a setex. */
  function Commit(s: Store, w: WriteThrough, now: int): (t: Store)
    ensures HasTtl(w.seconds) ==> t == Setex(s, w.key, w.seconds.value, w.buffered, now)
    ensures !HasTtl(w.seconds) ==> t == Set(s, w.key, w.buffered)
  {
    var e := if HasTtl(w.seconds) then Some(now + w.seconds.value * 1000) else None;
    s[w.key := Entry(w.buffered, e)]
  }

  /** A whole write-through pipeline for key `k` that delivers `chunks` and
      then completes at instant `now`: the consumer sees the chunks
      unchanged, and `k` then holds their concatenation. Nothing else in the
      store changes, and nothing is written before completion because the
      stage state is separate from the store until Commit. */
  function PipeThrough(s: Store, k: string, seconds: Option<int>, chunks: seq<string>, now: int): (r: Reply<seq<string>>)
    ensures r.result == chunks
    ensures k in r.store && r.store[k].value == Concat(chunks)
    ensures r.store[k].expires.Some? <==> HasTtl(seconds)
    ensures HasTtl(seconds) ==> r.store[k].expires.value == now + seconds.value * 1000
    ensures SameElsewhere(s, r.store, k)
  {
    var p := FeedAll(OpenWriteThrough(k, seconds), chunks);
    Reply(p.out, Commit(s, p.stage, now))
  }
}
