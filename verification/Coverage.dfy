/**
 The bucket grid and the coverage account (crates/ma-core/src/window.rs): which bucket an
 instant falls in, and how much of a bucket passed without trust. Times are nanoseconds.
 */
module Coverage {
  import opened Types

  const NS_PER_MS: int := 1_000_000

  /** Bucket `i` of the grid starts here: `i` resolutions after the origin. */
  function Start(origin: int, resolution: int, i: nat): int {
    if i == 0 then origin else Start(origin, resolution, i - 1) + resolution
  }

  /** The bucket an instant falls in; instants before the origin count as bucket zero. */
  function IndexAt(origin: int, resolution: int, t: int): nat
    requires resolution > 0
    decreases t - origin
  {
    if t < origin + resolution then 0 else IndexAt(origin, resolution, t - resolution) + 1
  }

  /** The closed forms the implementation computes. */
  lemma {:induction false} StartIsMultiple(origin: int, resolution: int, i: nat)
    ensures Start(origin, resolution, i) == origin + i * resolution
  {
    if i > 0 {
      StartIsMultiple(origin, resolution, i - 1);
      assert i * resolution == (i - 1) * resolution + resolution;
    }
  }

  lemma {:induction false} IndexIsQuotient(origin: int, resolution: int, t: int)
    requires resolution > 0
    ensures IndexAt(origin, resolution, t) == if t <= origin then 0 else (t - origin) / resolution
    decreases t - origin
  {
    if t >= origin + resolution {
      IndexIsQuotient(origin, resolution, t - resolution);
      OneLess(t - origin, resolution);
    } else if t > origin {
      SmallQuotient(t - origin, resolution);
    }
  }

  lemma OneLess(a: int, d: int)
    requires d > 0 && a >= d
    ensures a / d == (a - d) / d + 1
  {
    var q := (a - d) / d;
    assert a - d == q * d + (a - d) % d;
    assert a == (q + 1) * d + (a - d) % d by {
      assert (q + 1) * d == q * d + d;
    }
    QuotientUnique(a, d, q + 1, (a - d) % d);
  }

  lemma SmallQuotient(a: int, d: int)
    requires 0 <= a < d
    ensures a / d == 0
  {
    QuotientUnique(a, d, 0, a);
  }

  /** Division with remainder has one answer. */
  lemma QuotientUnique(a: int, d: int, q: int, r: int)
    requires d > 0 && a == q * d + r && 0 <= r < d
    ensures a / d == q && a % d == r
  {
    var p := a / d;
    assert a == p * d + a % d;
    assert (p - q) * d == r - a % d;
    if p > q {
      MulMonotone(1, p - q, d);
    } else if p < q {
      MulMonotone(1, q - p, d);
    }
  }

  lemma {:induction false} MulMonotone(n: nat, k: nat, d: nat)
    requires n <= k
    ensures n * d <= k * d
  {
    if n < k {
      MulMonotone(n, k - 1, d);
      assert k * d == (k - 1) * d + d;
    }
  }

  /** The buckets tile time from the origin on. */
  lemma {:induction false} BucketHolds(origin: int, resolution: int, t: int)
    requires resolution > 0 && origin <= t
    ensures var i := IndexAt(origin, resolution, t);
            Start(origin, resolution, i) <= t < Start(origin, resolution, i + 1)
    decreases t - origin
  {
    if t >= origin + resolution {
      BucketHolds(origin, resolution, t - resolution);
    }
  }

  lemma StartNext(origin: int, resolution: int, i: nat)
    ensures Start(origin, resolution, i + 1) == Start(origin, resolution, i) + resolution
  {
  }

  lemma {:induction false} StartMonotone(origin: int, resolution: int, i: nat, j: nat)
    requires resolution > 0 && i < j
    ensures Start(origin, resolution, i) + resolution <= Start(origin, resolution, j)
  {
    if i < j - 1 {
      StartMonotone(origin, resolution, i, j - 1);
    }
  }

  /** An instant is in bucket `i` exactly when it lies between that bucket's ends. */
  lemma IndexIs(origin: int, resolution: int, t: int, i: nat)
    requires resolution > 0 && origin <= t
    ensures IndexAt(origin, resolution, t) == i <==> Start(origin, resolution, i) <= t < Start(origin, resolution, i + 1)
  {
    var k := IndexAt(origin, resolution, t);
    BucketHolds(origin, resolution, t);
    if k < i {
      StartMonotone(origin, resolution, k, i);
      StartNext(origin, resolution, k);
    } else if i < k {
      StartMonotone(origin, resolution, i, k);
      StartNext(origin, resolution, i);
    }
  }

  lemma IndexMonotone(origin: int, resolution: int, t: int, u: int)
    requires resolution > 0 && t <= u
    ensures IndexAt(origin, resolution, t) <= IndexAt(origin, resolution, u)
  {
    if t > origin {
      BucketHolds(origin, resolution, t);
      BucketHolds(origin, resolution, u);
      var i, j := IndexAt(origin, resolution, t), IndexAt(origin, resolution, u);
      if j < i {
        StartMonotone(origin, resolution, j, i);
        StartNext(origin, resolution, j);
      }
    }
  }

  /** A stretch of time during which trust did not change. */
  datatype Stretch = Stretch(from: int, to: int, trusted: bool)

  function Overlap(from: int, to: int, lo: int, hi: int): nat {
    Max(0, Min(to, hi) - Max(from, lo))
  }

  /** Time in `[lo, hi)` during which trust was as given. */
  function Time(log: seq<Stretch>, trusted: bool, lo: int, hi: int): nat {
    if log == [] then 0
    else
      var last := log[|log| - 1];
      Time(log[..|log| - 1], trusted, lo, hi) + if last.trusted == trusted then Overlap(last.from, last.to, lo, hi) else 0
  }

  /** The stretches follow one another without a hole from `from` to `to`. */
  ghost predicate Covers(log: seq<Stretch>, from: int, to: int) {
    if log == [] then from == to
    else
      var last := log[|log| - 1];
      last.to == to && last.from < last.to && Covers(log[..|log| - 1], from, last.from)
  }

  lemma TimeAppend(log: seq<Stretch>, s: Stretch, trusted: bool, lo: int, hi: int)
    ensures Time(log + [s], trusted, lo, hi) ==
            Time(log, trusted, lo, hi) + if s.trusted == trusted then Overlap(s.from, s.to, lo, hi) else 0
  {
    assert (log + [s])[..|log|] == log;
  }

  lemma {:induction false} CoversOrders(log: seq<Stretch>, from: int, to: int)
    requires Covers(log, from, to)
    ensures from <= to
  {
    if log != [] {
      CoversOrders(log[..|log| - 1], from, log[|log| - 1].from);
    }
  }

  /** Nothing is on record after the log ends. */
  lemma {:induction false} NoTimeAfter(log: seq<Stretch>, from: int, to: int, trusted: bool, lo: int, hi: int)
    requires Covers(log, from, to) && to <= lo
    ensures Time(log, trusted, lo, hi) == 0
  {
    if log != [] {
      NoTimeAfter(log[..|log| - 1], from, log[|log| - 1].from, trusted, lo, hi);
    }
  }

  /** Every instant of the log is either trusted or not: the two accounts add up to the time elapsed. */
  lemma {:induction false} TimeIsConserved(log: seq<Stretch>, from: int, to: int, lo: int, hi: int)
    requires Covers(log, from, to) && lo <= hi
    ensures Time(log, true, lo, hi) + Time(log, false, lo, hi) == Overlap(from, to, lo, hi)
  {
    if log != [] {
      CoversOrders(log[..|log| - 1], from, log[|log| - 1].from);
      TimeIsConserved(log[..|log| - 1], from, log[|log| - 1].from, lo, hi);
    }
  }

  /** Time is additive over adjacent intervals. */
  lemma {:induction false} TimeSplits(log: seq<Stretch>, trusted: bool, lo: int, mid: int, hi: int)
    requires lo <= mid <= hi
    ensures Time(log, trusted, lo, hi) == Time(log, trusted, lo, mid) + Time(log, trusted, mid, hi)
  {
    if log != [] {
      TimeSplits(log[..|log| - 1], trusted, lo, mid, hi);
    }
  }

  /** Untrusted time inside bucket `i`. */
  function Untrusted(log: seq<Stretch>, origin: int, resolution: int, i: nat): nat {
    Time(log, false, Start(origin, resolution, i), Start(origin, resolution, i + 1))
  }

  /** What a reading reports as trusted: each bucket's trusted time, in whole milliseconds. */
  function TrustedMs(log: seq<Stretch>, origin: int, resolution: int, lo: nat, hi: nat): nat {
    if hi <= lo then 0
    else
      TrustedMs(log, origin, resolution, lo, hi - 1) +
      Max(0, resolution - Untrusted(log, origin, resolution, hi - 1)) / NS_PER_MS
  }

  /** The reported coverage is below the true trusted time, by less than a millisecond per bucket. */
  lemma {:induction false} TrustedMsIsTight(log: seq<Stretch>, origin: int, resolution: int, to: int, lo: nat, hi: nat)
    requires resolution > 0 && Covers(log, origin, to) && lo <= hi && Start(origin, resolution, hi) <= to
    ensures var trusted := Time(log, true, Start(origin, resolution, lo), Start(origin, resolution, hi));
            var reported := TrustedMs(log, origin, resolution, lo, hi) * NS_PER_MS;
            reported <= trusted <= reported + (hi - lo) * (NS_PER_MS - 1)
  {
    if lo == hi {
      TimeIsConserved(log, origin, to, Start(origin, resolution, lo), Start(origin, resolution, lo));
    } else {
      var a, b, c := Start(origin, resolution, lo), Start(origin, resolution, hi - 1), Start(origin, resolution, hi);
      StartNext(origin, resolution, hi - 1);
      if lo < hi - 1 {
        StartMonotone(origin, resolution, lo, hi - 1);
      }
      if hi > 1 {
        StartMonotone(origin, resolution, 0, hi - 1);
      }
      TrustedMsIsTight(log, origin, resolution, to, lo, hi - 1);
      TimeSplits(log, true, a, b, c);
      TimeIsConserved(log, origin, to, b, c);
    }
  }

  /** A reading never claims more coverage than its span. */
  lemma TrustedMsWithinSpan(log: seq<Stretch>, origin: int, resolution: int, lo: nat, hi: nat, k: nat)
    requires resolution > 0 && hi - lo <= k
    ensures TrustedMs(log, origin, resolution, lo, hi) <= k * resolution / NS_PER_MS
  {
    TrustedMsAtMost(log, origin, resolution, lo, hi);
    var n := if lo <= hi then hi - lo else 0;
    MulMonotone(n, k, resolution);
    WholeMillis(TrustedMs(log, origin, resolution, lo, hi), k * resolution);
  }

  lemma WholeMillis(ms: int, ns: int)
    requires ms * NS_PER_MS <= ns
    ensures ms <= ns / NS_PER_MS
  {
  }

  lemma {:induction false} TrustedMsAtMost(log: seq<Stretch>, origin: int, resolution: int, lo: nat, hi: nat)
    requires resolution > 0
    ensures TrustedMs(log, origin, resolution, lo, hi) * NS_PER_MS <= (if lo <= hi then hi - lo else 0) * resolution
  {
    if lo < hi {
      TrustedMsAtMost(log, origin, resolution, lo, hi - 1);
      var n := hi - lo;
      assert n * resolution == (n - 1) * resolution + resolution;
    }
  }
}
