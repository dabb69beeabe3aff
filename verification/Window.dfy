/** The in-process sliding window behind the rate limiter and the login guard
    (backend/app/core/window_store.py). Times are reals; the clock is a parameter. */
module Window {
  import opened Prelude

  // ----- the specification: filters over the whole history ---------------------------

  ghost predicate Sorted(h: seq<real>) {
    forall i, j :: 0 <= i < j < |h| ==> h[i] <= h[j]
  }

  /** The hits at or after `from`, in order. */
  function Since(h: seq<real>, from: real): seq<real> {
    if h == [] then [] else (if h[0] >= from then [h[0]] else []) + Since(h[1..], from)
  }

  /** How many hits fall in the closed interval [lo, hi]. */
  function Count(h: seq<real>, lo: real, hi: real): nat {
    if h == [] then 0 else (if lo <= h[0] <= hi then 1 else 0) + Count(h[1..], lo, hi)
  }

  function Ceil(x: real): int {
    -((-x).Floor)
  }

  /** _retry_after: the least whole number of seconds, at least one, that reaches the edge. */
  function RetryAfter(oldest: real, windowStart: real): (seconds: int)
    ensures seconds >= 1 && seconds as real >= oldest - windowStart
    ensures seconds > 1 ==> (seconds - 1) as real < oldest - windowStart
  {
    var c := Ceil(oldest - windowStart);
    if c > 1 then c else 1
  }

  /** A call returns seconds, or fails on `bucket[0]` of an empty bucket. */
  datatype Reply = Seconds(s: int) | IndexError

  function Rejection(inWindow: seq<real>, windowStart: real): Reply {
    if inWindow == [] then IndexError else Seconds(RetryAfter(inWindow[0], windowStart))
  }

  function CountFrom(h: seq<real>, a: real, W: real): nat {
    Count(h, a, a + W)
  }

  /** Every closed interval of length W holds at most `limit` hits. */
  ghost predicate Bounded(h: seq<real>, limit: int, W: real) {
    forall a: real :: CountFrom(h, a, W) <= limit
  }

  /** The decision of try_hit, read off the whole history. */
  predicate Admits(h: seq<real>, now: real, limit: int, W: real) {
    |Since(h, now - W)| < limit
  }

  lemma {:induction false} SinceAppend(a: seq<real>, b: seq<real>, from: real)
    ensures Since(a + b, from) == Since(a, from) + Since(b, from)
  {
    if a == [] {
      assert a + b == b;
    } else {
      assert (a + b)[1..] == a[1..] + b;
      SinceAppend(a[1..], b, from);
      Assoc(if a[0] >= from then [a[0]] else [], Since(a[1..], from), Since(b, from));
    }
  }

  lemma {:induction false} CountAppend(a: seq<real>, b: seq<real>, lo: real, hi: real)
    ensures Count(a + b, lo, hi) == Count(a, lo, hi) + Count(b, lo, hi)
  {
    if a == [] {
      assert a + b == b;
    } else {
      assert (a + b)[1..] == a[1..] + b;
      CountAppend(a[1..], b, lo, hi);
    }
  }

  /** Filtering twice keeps what the later start keeps. */
  lemma {:induction false} SinceSince(h: seq<real>, first: real, second: real)
    ensures Since(Since(h, first), second) == Since(h, if first >= second then first else second)
  {
    if h != [] {
      var head := if h[0] >= first then [h[0]] else [];
      SinceAppend(head, Since(h[1..], first), second);
      SinceSince(h[1..], first, second);
      if head != [] {
        assert head[1..] == [];
      }
    }
  }

  lemma {:induction false} SinceOfSorted(h: seq<real>, from: real)
    requires Sorted(h)
    ensures Sorted(Since(h, from))
    ensures forall k :: 0 <= k < |Since(h, from)| ==> Since(h, from)[k] >= from && Since(h, from)[k] in h
  {
    if h != [] {
      SinceOfSorted(h[1..], from);
      assert forall k :: 0 <= k < |h[1..]| ==> h[1..][k] == h[k + 1];
    }
  }

  lemma {:induction false} SinceAll(h: seq<real>, from: real)
    requires forall k :: 0 <= k < |h| ==> h[k] >= from
    ensures Since(h, from) == h
  {
    if h != [] {
      SinceAll(h[1..], from);
    }
  }

  lemma {:induction false} CountAtMostSince(h: seq<real>, lo: real, hi: real, from: real)
    requires from <= lo
    ensures Count(h, lo, hi) <= |Since(h, from)|
  {
    if h != [] {
      CountAtMostSince(h[1..], lo, hi, from);
    }
  }

  lemma {:induction false} SinceIsCount(h: seq<real>, from: real, now: real)
    requires forall k :: 0 <= k < |h| ==> h[k] <= now
    ensures |Since(h, from)| == Count(h, from, now)
  {
    if h != [] {
      SinceIsCount(h[1..], from, now);
    }
  }

  lemma {:induction false} SinceShrinks(h: seq<real>, first: real, second: real)
    requires first <= second
    ensures |Since(h, second)| <= |Since(h, first)|
  {
    if h != [] {
      SinceShrinks(h[1..], first, second);
    }
  }

  // ----- what the decisions guarantee ----------------------------------------------------

  /** Admitting below the limit keeps every window of length W within it. */
  lemma AdmitKeepsBound(h: seq<real>, now: real, limit: int, W: real)
    requires Bounded(h, limit, W) && Admits(h, now, limit, W)
    ensures Bounded(h + [now], limit, W)
  {
    forall a: real
      ensures CountFrom(h + [now], a, W) <= limit
    {
      CountAppend(h, [now], a, a + W);
      assert [now][1..] == [];
      assert CountFrom(h, a, W) <= limit;
      if a <= now <= a + W {
        CountAtMostSince(h, a, a + W, now - W);
      }
    }
  }

  /** In a bounded history a rejection means the window holds exactly `limit` hits. */
  lemma RejectedIsFull(h: seq<real>, now: real, limit: int, W: real)
    requires Bounded(h, limit, W) && (forall k :: 0 <= k < |h| ==> h[k] <= now)
    requires !Admits(h, now, limit, W)
    ensures |Since(h, now - W)| == limit
  {
    SinceIsCount(h, now - W, now);
    assert (now - W) + W == now;
    assert CountFrom(h, now - W, W) <= limit;
  }

  /** Waiting: with no hit admitted in between, a retry is admitted exactly when the
      oldest hit of the rejecting window has left the window. */
  lemma RetryAdmittedIff(h: seq<real>, now: real, later: real, limit: int, W: real)
    requires Sorted(h) && now <= later && limit >= 1
    requires |Since(h, now - W)| == limit
    ensures Admits(h, later, limit, W) <==> Since(h, now - W)[0] < later - W
  {
    var full := Since(h, now - W);
    SinceSince(h, now - W, later - W);
    SinceOfSorted(h, now - W);
    if full[0] < later - W {
      AtMostAll(full[1..], later - W);
    } else {
      SinceAll(full, later - W);
    }
  }

  lemma {:induction false} AtMostAll(h: seq<real>, from: real)
    ensures |Since(h, from)| <= |h|
  {
    if h != [] {
      AtMostAll(h[1..], from);
    }
  }

  /** The Retry-After value is enough when strictly exceeded. At exactly that value the
      retry is admitted unless the oldest hit was a whole number of seconds from the
      window's edge: then it is still counted, and the caller is rejected again. */
  lemma RetryAfterSuffices(h: seq<real>, now: real, limit: int, W: real)
    requires Sorted(h) && limit >= 1 && |Since(h, now - W)| == limit
    ensures var oldest := Since(h, now - W)[0];
      var wait := RetryAfter(oldest, now - W) as real;
      && (forall later: real :: later > now + wait ==> Admits(h, later, limit, W))
      && (forall later: real :: now <= later <= oldest + W ==> !Admits(h, later, limit, W))
      && (Admits(h, now + wait, limit, W) <==> wait != oldest - (now - W))
  {
    var oldest := Since(h, now - W)[0];
    SinceOfSorted(h, now - W);
    forall later: real | later >= now
      ensures Admits(h, later, limit, W) <==> oldest < later - W
    {
      RetryAdmittedIff(h, now, later, limit, W);
    }
  }

  lemma RetryAfterCanBeOneShort()
    ensures Since([1000.0], 1000.0 - 60.0) == [1000.0] && RetryAfter(1000.0, 1000.0 - 60.0) == 60
    ensures |Since([1000.0], 1000.0 + 60.0 - 60.0)| >= 1
  {
    assert [1000.0][1..] == [];
  }

  // ----- the store -------------------------------------------------------------------

  /** A bucket holds the history from the horizon on; nothing is later than the clock. */
  ghost predicate Holds(bucket: seq<real>, h: seq<real>, horizon: real, clock: real) {
    && bucket == Since(h, horizon)
    && Sorted(h)
    && (forall k :: 0 <= k < |h| ==> h[k] <= clock)
    && horizon <= clock
  }

  lemma HoldsPruned(bucket: seq<real>, h: seq<real>, horizon: real, clock: real, windowStart: real, now: real)
    requires Holds(bucket, h, horizon, clock) && clock <= now && windowStart <= now
    ensures Sorted(bucket)
    ensures Holds(Since(bucket, windowStart), h, if horizon > windowStart then horizon else windowStart, now)
  {
    SinceSince(h, horizon, windowStart);
    SinceOfSorted(h, horizon);
  }

  lemma HoldsEmpty(windowStart: real, now: real)
    requires windowStart <= now
    ensures Holds(Since([], windowStart), [], windowStart, now)
  {
  }

  lemma HoldsAppended(bucket: seq<real>, h: seq<real>, horizon: real, now: real)
    requires Holds(bucket, h, horizon, now)
    ensures Holds(bucket + [now], h + [now], horizon, now)
  {
    AppendRecent(h, now, horizon);
  }

  lemma HoldsLater(bucket: seq<real>, h: seq<real>, horizon: real, clock: real, now: real)
    requires Holds(bucket, h, horizon, clock) && clock <= now
    ensures Holds(bucket, h, horizon, now)
  {
  }

  /** What happened to a key since it was last cleared: every hit recorded, and the
      latest window start its bucket was pruned with. */
  datatype Past = Past(hits: seq<real>, horizon: real)

  /** Where the bucket's filter starts once pruned again, at windowStart. */
  function Start(past: Option<Past>, windowStart: real): real {
    if past.Some? && past.value.horizon > windowStart then past.value.horizon else windowStart
  }

  function HitsOf(past: Option<Past>): seq<real> {
    if past.Some? then past.value.hits else []
  }

  /** Every earlier call for the key used a window at least as long as W. */
  predicate UsesWindow(past: Option<Past>, W: nat, clock: real) {
    past.Some? ==> past.value.horizon <= clock - W as real
  }

  class InProcessWindowStore {
    var hits: map<string, seq<real>>
    ghost var past: map<string, Past>
    ghost var clock: real

    ghost predicate Valid()
      reads this
    {
      && (forall key :: key in hits <==> key in past)
      && (forall key :: key in hits ==> Holds(hits[key], past[key].hits, past[key].horizon, clock))
    }

    ghost function PastOf(key: string): Option<Past>
      reads this
    {
      if key in past then Some(past[key]) else None
    }

    constructor ()
      ensures Valid() && hits == map[] && past == map[] && clock == 0.0
    {
      hits, past, clock := map[], map[], 0.0;
    }

    /** _prune */
    static method Prune(bucket: seq<real>, windowStart: real) returns (kept: seq<real>)
      requires Sorted(bucket)
      ensures kept == Since(bucket, windowStart)
    {
      kept := bucket;
      while kept != [] && kept[0] < windowStart
        invariant Sorted(kept) && Since(kept, windowStart) == Since(bucket, windowStart)
      {
        SortedTail(kept);
        kept := kept[1..];
      }
      if kept != [] {
        assert forall k :: 0 <= k < |kept| ==> kept[0] <= kept[k];
        SinceAll(kept, windowStart);
      }
    }

    /** The key's bucket (a new one is empty), pruned. */
    method PrunedBucket(key: string, windowStart: real, now: real) returns (bucket: seq<real>)
      requires Valid() && clock <= now && windowStart <= now
      ensures bucket == Since(HitsOf(PastOf(key)), Start(PastOf(key), windowStart))
      ensures Holds(bucket, HitsOf(PastOf(key)), Start(PastOf(key), windowStart), now)
      ensures key in hits && hits[key] == [] ==> bucket == []
    {
      if key in hits {
        HoldsPruned(hits[key], past[key].hits, past[key].horizon, clock, windowStart, now);
        bucket := Prune(hits[key], windowStart);
      } else {
        HoldsEmpty(windowStart, now);
        bucket := Prune([], windowStart);
      }
    }

    /** Store one key's bucket and let time pass; the others stay right. */
    method Store(key: string, bucket: seq<real>, now: real, ghost after: Past)
      requires Valid() && clock <= now && Holds(bucket, after.hits, after.horizon, now)
      modifies this
      ensures Valid() && clock == now && past == old(past)[key := after] && hits == old(hits)[key := bucket]
    {
      forall other | other in hits
        ensures Holds(hits[other], past[other].hits, past[other].horizon, now)
      {
        HoldsLater(hits[other], past[other].hits, past[other].horizon, clock, now);
      }
      hide Holds;
      hits, past, clock := hits[key := bucket], past[key := after], now;
    }

    /** Whatever windows the key's calls used, the decision counts the whole history from
        Start on. When no earlier call used a shorter window, that is the decision over
        the full history, and windows of this length stay within the limit. */
    method TryHit(key: string, limit: int, windowSeconds: nat, now: real) returns (reply: Reply)
      requires Valid() && clock <= now
      modifies this
      ensures Valid() && clock == now
      ensures var windowStart := now - windowSeconds as real;
        var h, start := HitsOf(old(PastOf(key))), Start(old(PastOf(key)), windowStart);
        && reply == (if |Since(h, start)| < limit then Seconds(0) else Rejection(Since(h, start), windowStart))
        && past == old(past)[key := Past(if |Since(h, start)| < limit then h + [now] else h, start)]
      ensures UsesWindow(old(PastOf(key)), windowSeconds, old(clock)) ==>
        && UsesWindow(PastOf(key), windowSeconds, clock)
        && (reply == Seconds(0) <==> Admits(HitsOf(old(PastOf(key))), now, limit, windowSeconds as real))
        && (Bounded(HitsOf(old(PastOf(key))), limit, windowSeconds as real)
            ==> Bounded(HitsOf(PastOf(key)), limit, windowSeconds as real))
    {
      hide Holds, Since, Bounded, RetryAfter;
      var windowStart := now - windowSeconds as real;
      ghost var h, start := HitsOf(PastOf(key)), Start(PastOf(key), windowStart);
      var bucket := PrunedBucket(key, windowStart, now);
      if |bucket| >= limit {
        Store(key, bucket, now, Past(h, start));
        if bucket == [] {
          return IndexError;
        }
        return Seconds(RetryAfter(bucket[0], windowStart));
      }
      if Bounded(h, limit, windowSeconds as real) && start == windowStart {
        AdmitKeepsBound(h, now, limit, windowSeconds as real);
      }
      HoldsAppended(bucket, h, start, now);
      Store(key, bucket + [now], now, Past(h + [now], start));
      reply := Seconds(0);
    }

    /** Like the rejection check of TryHit, but nothing is recorded. */
    method Penalty(key: string, limit: int, windowSeconds: nat, now: real) returns (reply: Reply)
      requires Valid() && clock <= now
      modifies this
      ensures Valid() && old(clock) <= clock <= now
      ensures var windowStart := now - windowSeconds as real;
        var h, start := HitsOf(old(PastOf(key))), Start(old(PastOf(key)), windowStart);
        && reply == (if old(key !in hits || hits[key] == []) || |Since(h, start)| < limit then Seconds(0)
                     else Rejection(Since(h, start), windowStart))
        && past == (if old(key !in hits || hits[key] == []) then old(past) else old(past)[key := Past(h, start)])
      ensures UsesWindow(old(PastOf(key)), windowSeconds, old(clock)) && limit >= 1 ==>
        (reply == Seconds(0) <==> Admits(HitsOf(PastOf(key)), now, limit, windowSeconds as real))
    {
      hide Holds, Since, RetryAfter;
      var windowStart := now - windowSeconds as real;
      ghost var h, start := HitsOf(PastOf(key)), Start(PastOf(key), windowStart);
      var bucket := PrunedBucket(key, windowStart, now);
      if key !in hits || hits[key] == [] {
        NothingSince(windowStart);
        return Seconds(0);
      }
      Store(key, bucket, now, Past(h, start));
      if |bucket| < limit {
        return Seconds(0);
      }
      reply := if bucket == [] then IndexError else Seconds(RetryAfter(bucket[0], windowStart));
    }

    method Add(key: string, windowSeconds: nat, now: real)
      requires Valid() && clock <= now
      modifies this
      ensures Valid() && clock == now
      ensures past == old(past)[key :=
        Past(HitsOf(old(PastOf(key))) + [now], Start(old(PastOf(key)), now - windowSeconds as real))]
    {
      hide Holds, Since;
      var windowStart := now - windowSeconds as real;
      ghost var h, start := HitsOf(PastOf(key)), Start(PastOf(key), windowStart);
      var bucket := PrunedBucket(key, windowStart, now);
      HoldsAppended(bucket, h, start, now);
      Store(key, bucket + [now], now, Past(h + [now], start));
    }

    method Clear(key: string)
      requires Valid()
      modifies this
      ensures Valid() && clock == old(clock) && past == old(past) - {key}
    {
      hide Holds;
      hits, past := hits - {key}, past - {key};
    }
  }

  lemma NothingSince(from: real)
    ensures Since([], from) == []
  {
  }

  lemma AppendRecent(h: seq<real>, now: real, start: real)
    requires start <= now
    ensures Since(h + [now], start) == Since(h, start) + [now]
  {
    SinceAppend(h, [now], start);
    assert [now][1..] == [];
  }

  // ----- calls that name different windows for one key ----------------------------------------

  /** How many hits fall in [lo, hi). */
  function Between(h: seq<real>, lo: real, hi: real): nat {
    if h == [] then 0 else (if lo <= h[0] < hi then 1 else 0) + Between(h[1..], lo, hi)
  }

  lemma {:induction false} PruningLoses(h: seq<real>, windowStart: real, horizon: real)
    requires windowStart <= horizon
    ensures |Since(h, windowStart)| == |Since(h, horizon)| + Between(h, windowStart, horizon)
  {
    if h != [] {
      PruningLoses(h[1..], windowStart, horizon);
    }
  }

  /** The interface lets every call name its own window. After a call with a shorter one has
      pruned up to the horizon, try_hit departs from the decision over the full history if
      and only if what was pruned away makes the difference; then it admits where it should
      not. Within one window length the horizon is never past the window's start. */
  lemma MixedWindowsIff(h: seq<real>, horizon: real, now: real, limit: int, W: real)
    ensures var start := if horizon > now - W then horizon else now - W;
      (|Since(h, start)| < limit) != Admits(h, now, limit, W)
      <==> horizon > now - W
           && |Since(h, horizon)| < limit <= |Since(h, horizon)| + Between(h, now - W, horizon)
  {
    if horizon > now - W {
      PruningLoses(h, now - W, horizon);
    }
  }

  /** Three such calls: a hit, a look through a window of one second, and a second hit that
      the limit of one in sixty seconds does not allow. */
  method ShorterWindowForgets() returns (reply: Reply, ghost history: seq<real>)
    ensures reply == Seconds(0) && history == [0.0] && !Admits(history, 20.0, 1, 60.0)
  {
    var store := new InProcessWindowStore();
    var first := store.TryHit("k", 1, 60, 0.0);
    assert [] + [0.0] == [0.0] && [0.0][1..] == [];
    var glance := store.Penalty("k", 1, 1, 10.0);
    history := HitsOf(store.PastOf("k"));
    reply := store.TryHit("k", 1, 60, 20.0);
  }

  lemma SortedTail(h: seq<real>)
    requires Sorted(h) && h != []
    ensures Sorted(h[1..])
  {
  }
}
