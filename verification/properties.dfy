/**
  How the commands work together: the behaviour the cache's own test suite
  expects, the effect of each write on what clients can observe, and the
  claim that lazy eviction is never observable.
 */
module Properties {
  import opened Optional
  import opened Entries
  import opened Cache
  import opened Streams

  /** After set, the key reads back its value through every read command,
      and has no expiry. */
  lemma SetThenRead(s: Store, k: string, v: string, now: int)
    ensures Get(Set(s, k, v), k, now).result == Some(v)
    ensures Exists(Set(s, k, v), k, now).result
    ensures Ttl(Set(s, k, v), k, now).result == Persistent
    ensures Concat(ReadStream(Set(s, k, v), k, now).result) == v
  {
  }

  /** Set changes the observable view at `k` only. */
  lemma SetView(s: Store, k: string, v: string, now: int)
    ensures View(Set(s, k, v), now) == View(s, now)[k := v]
  {
  }

  /** A key written by setex at `now` is observable with its value up to and
      including `now + seconds * 1000`, and not after. */
  lemma SetexView(s: Store, k: string, seconds: int, v: string, now: int, later: int)
    ensures later <= now + seconds * 1000 ==>
      View(Setex(s, k, seconds, v, now), later) == View(s, later)[k := v]
    ensures later > now + seconds * 1000 ==>
      View(Setex(s, k, seconds, v, now), later) == View(s, later) - {k}
  {
  }

  /** The lifecycle of an expiring entry as the read commands report it:
      live while the clock has not passed the expiry instant, then absent,
      with the first read after that evicting it. */
  lemma SetexLifecycle(s: Store, k: string, seconds: int, v: string, now: int, later: int)
    ensures later <= now + seconds * 1000 ==>
      Get(Setex(s, k, seconds, v, now), k, later).result == Some(v)
      && Exists(Setex(s, k, seconds, v, now), k, later).result
    ensures later > now + seconds * 1000 ==>
      Get(Setex(s, k, seconds, v, now), k, later) == Reply(None, Setex(s, k, seconds, v, now) - {k})
      && Exists(Setex(s, k, seconds, v, now), k, later) == Reply(false, Setex(s, k, seconds, v, now) - {k})
  {
  }

  /** At the very instant of a setex, the key exists exactly when the TTL is
      not negative: -1 gives an entry that is already gone, while 0 keeps
      the entry for the rest of that millisecond. */
  lemma SetexSameInstant(s: Store, k: string, seconds: int, v: string, now: int)
    ensures Exists(Setex(s, k, seconds, v, now), k, now).result <==> seconds >= 0
    ensures seconds < 0 ==> k !in Exists(Setex(s, k, seconds, v, now), k, now).store
  {
  }

  /** The countdown of ttl after setex, sampled on whole seconds: the
      remaining seconds while the entry lives, then -2 with the key evicted. */
  lemma TtlCountdown(s: Store, k: string, seconds: int, v: string, now: int, elapsed: int)
    ensures elapsed <= seconds ==>
      Ttl(Setex(s, k, seconds, v, now), k, now + elapsed * 1000).result == seconds - elapsed
    ensures elapsed > seconds ==>
      Ttl(Setex(s, k, seconds, v, now), k, now + elapsed * 1000).result == Absent
      && k !in Ttl(Setex(s, k, seconds, v, now), k, now + elapsed * 1000).store
  {
  }

  /** The two ttl checks in the test suite: ten seconds to live, five
      elapsed, reports 5; five to live, six elapsed, reports -2. */
  lemma TtlExamples(s: Store, k: string, v: string, now: int)
    ensures Ttl(Setex(s, k, 10, v, now), k, now + 5000).result == 5
    ensures Ttl(Setex(s, k, 5, v, now), k, now + 6000).result == Absent
  {
  }

  /** Within half a second after expiry the two read paths disagree: ttl
      rounds the overdue time to 0, reports 0 and keeps the entry, while
      exists already reports false and evicts it. */
  lemma TtlGraceWindow(s: Store, k: string, now: int)
    requires k in s && s[k].expires.Some?
    requires s[k].expires.value < now <= s[k].expires.value + 500
    ensures Ttl(s, k, now) == Reply(0, s)
    ensures Exists(s, k, now) == Reply(false, s - {k})
  {
  }

  /** Del makes the key unobservable and changes nothing else anyone can see. */
  lemma DelView(s: Store, k: string, now: int)
    ensures View(Del(s, k), now) == View(s, now) - {k}
    ensures !Exists(Del(s, k), k, now).result
  {
  }

  /** After flushall no key exists, at any instant. */
  lemma FlushallClearsAll(k: string, now: int)
    ensures View(Flushall(), now) == map[]
    ensures !Exists(Flushall(), k, now).result
    ensures Ttl(Flushall(), k, now).result == Absent
  {
  }

  /** Reading back a non-empty value through readStream gives exactly one
      chunk equal to it; an absent key gives no chunk. */
  lemma ReadStreamExamples(s: Store, k: string, v: string, now: int)
    ensures v != "" ==> ReadStream(Set(s, k, v), k, now).result == [v]
    ensures k !in s ==> ReadStream(s, k, now) == Reply([], s)
  {
  }

  /** The write-through test: after the pipeline completes with no TTL or a
      non-negative one, the key exists and reads back the concatenated chunks. */
  lemma PipeThroughThenRead(s: Store, k: string, seconds: Option<int>, chunks: seq<string>, now: int)
    requires seconds.None? || seconds.value >= 0
    ensures Get(PipeThrough(s, k, seconds, chunks, now).store, k, now).result == Some(Concat(chunks))
    ensures Exists(PipeThrough(s, k, seconds, chunks, now).store, k, now).result
  {
  }

  /** Piping a read stream of `k` into a write-through stage for `k2`
      copies what a reader of `k` sees: `k2` then holds the value of `k`,
      or the empty string when `k` was absent or stale. */
  lemma StreamCopy(s: Store, k: string, k2: string, now: int)
    ensures
      var read := ReadStream(s, k, now);
      var written := PipeThrough(read.store, k2, None, read.result, now);
      Get(written.store, k2, now).result == Some(Lookup(View(s, now), k).GetOr(""))
  {
  }

  /** The read commands, each naming the key it looks at. */
  datatype Read = GetCmd(key: string) | ExistsCmd(key: string) | TtlCmd(key: string) | ReadStreamCmd(key: string)

  /** A read command issued at instant `at`. */
  datatype TimedRead = TimedRead(cmd: Read, at: int)

  /** The store a read command leaves behind. */
  function ReadStep(s: Store, r: TimedRead): (t: Store)
    ensures OnlyDropped(s, t, r.cmd.key)
    ensures r.cmd.key in s && r.cmd.key !in t ==> IsExpired(s[r.cmd.key], r.at)
  {
    match r.cmd
    case GetCmd(k) => Get(s, k, r.at).store
    case ExistsCmd(k) => Exists(s, k, r.at).store
    case TtlCmd(k) => Ttl(s, k, r.at).store
    case ReadStreamCmd(k) => ReadStream(s, k, r.at).store
  }

  /** The store left by a run of read commands, in order. */
  function RunReads(s: Store, rs: seq<TimedRead>): Store
    decreases |rs|
  {
    if |rs| == 0 then s else RunReads(ReadStep(s, rs[0]), rs[1..])
  }

  /** Dropping a key that was stale at `at` changes nothing observable then
      or at any later instant. */
  lemma {:induction false} DropStaleInvisible(s: Store, t: Store, k: string, at: int, later: int)
    requires OnlyDropped(s, t, k)
    requires k in s && k !in t ==> IsExpired(s[k], at)
    requires at <= later
    ensures View(t, later) == View(s, later)
  {
    forall j ensures Lookup(View(t, later), j) == Lookup(View(s, later), j) {
      if j != k {
        assert Lookup(t, j) == Lookup(s, j);
      } else if k in s && k !in t {
        ExpiryIsThreshold(s[k], at, later);
      }
    }
    forall j | j in View(t, later) ensures j in View(s, later) && View(t, later)[j] == View(s, later)[j] {
      assert Lookup(View(t, later), j) == Lookup(View(s, later), j);
    }
    forall j | j in View(s, later) ensures j in View(t, later) {
      assert Lookup(View(t, later), j) == Lookup(View(s, later), j);
    }
  }

  /** Lazy eviction is unobservable: however many reads run, at whatever
      instants up to `later`, every key a client can see at `later`, and its
      value, is the same as had no read run at all. */
  lemma {:induction false} ReadsAreUnobservable(s: Store, rs: seq<TimedRead>, later: int)
    requires forall i :: 0 <= i < |rs| ==> rs[i].at <= later
    ensures View(RunReads(s, rs), later) == View(s, later)
    ensures RunReads(s, rs).Keys <= s.Keys
    decreases |rs|
  {
    if |rs| > 0 {
      var t := ReadStep(s, rs[0]);
      DropStaleInvisible(s, t, rs[0].cmd.key, rs[0].at, later);
      assert t.Keys <= s.Keys by {
        forall j | j in t ensures j in s {
          if j != rs[0].cmd.key {
            assert Lookup(t, j) == Lookup(s, j);
          }
        }
      }
      ReadsAreUnobservable(t, rs[1..], later);
    }
  }
}
