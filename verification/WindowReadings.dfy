/**
 What a window's numbers mean (crates/ma-core/src/window.rs): every indicator of a reading, said
 of the observations stamped in its span and of nothing else.
 */
module WindowReadings {
  import opened Types
  import opened Tally
  import opened Coverage
  import opened Windows

  ////////// Rounding

  /** The nearest whole number, the even one of two. */
  predicate Rounds(n: int, x: real) {
    -0.5 <= n as real - x <= 0.5 && (n as real - x == 0.5 || x - n as real == 0.5 ==> n % 2 == 0)
  }

  /** `r` is `n` units of which there are `unit` to one, and the nearest such to `x`. */
  predicate RoundsTo(r: real, n: int, x: real, unit: real)
    requires unit > 0.0
  {
    Rounds(n, x * unit) && r == n as real / unit
  }

  ghost predicate Rounded(r: real, x: real, unit: real)
    requires unit > 0.0
  {
    exists n: int :: RoundsTo(r, n, x, unit)
  }

  /** Rounding gives the nearest multiple of the unit, the even one of two. */
  lemma RoundToIsNearest(x: real, unit: real)
    requires unit > 0.0
    ensures Rounded(RoundTo(x, unit), x, unit)
  {
    var scaled := x * unit;
    var down := scaled.Floor;
    var rest := scaled - down as real;
    if rest < 0.5 || (rest == 0.5 && down % 2 == 0) {
      assert RoundsTo(RoundTo(x, unit), down, x, unit);
    } else {
      assert RoundsTo(RoundTo(x, unit), down + 1, x, unit);
    }
  }

  /** And there is only one. */
  lemma OnlyOneRounded(r: real, s: real, x: real, unit: real)
    requires unit > 0.0 && Rounded(r, x, unit) && Rounded(s, x, unit)
    ensures r == s
  {
    var m: int :| RoundsTo(r, m, x, unit);
    var n: int :| RoundsTo(s, n, x, unit);
    assert -1 <= m - n <= 1;
  }

  /** Basis points are ten thousand times the quotient, rounded to four places, and of its sign. */
  lemma BpsMeans(numerator: real, denominator: real)
    requires denominator != 0.0
    ensures Rounded(Bps(numerator, denominator), 10_000.0 * (numerator / denominator), 10_000.0)
    ensures denominator > 0.0 && Bps(numerator, denominator) > 0.0 ==> numerator > 0.0
    ensures denominator > 0.0 && Bps(numerator, denominator) < 0.0 ==> numerator < 0.0
  {
    var q := numerator * 10_000.0 / denominator;
    ScaledQuotient(numerator, denominator);
    RoundToBps(q);
    RoundToIsNearest(q, BPS_UNIT);
    if denominator > 0.0 {
      SignOfQuotient(numerator, denominator);
    }
  }

  lemma ScaledQuotient(x: real, d: real)
    requires d != 0.0
    ensures x * 10_000.0 / d == 10_000.0 * (x / d)
  {
    assert x / d * d == x;
  }

  lemma RoundToBps(q: real)
    ensures RoundTo(q, BPS_UNIT) > 0.0 ==> q > 0.0
    ensures RoundTo(q, BPS_UNIT) < 0.0 ==> q < 0.0
  {
  }

  lemma SignOfQuotient(x: real, d: real)
    requires d > 0.0
    ensures x / d > 0.0 <==> x > 0.0
    ensures x / d < 0.0 <==> x < 0.0
  {
    assert x / d * d == x;
    if x / d > 0.0 {
      Positive(x / d, d);
    } else if x / d < 0.0 {
      Positive(-(x / d), d);
    }
  }

  lemma Positive(x: real, y: real)
    requires x > 0.0 && y > 0.0
    ensures x * y > 0.0
  {
  }

  ////////// The span

  /** A span is covered by its buckets and by no fewer, and is reported in whole milliseconds. */
  lemma SpanIsCovered(span: nat, resolution: nat)
    requires span > 0 && resolution > 0
    ensures var k := BucketsFor(span, resolution);
            && k > 0 && (k - 1) * resolution < span <= k * resolution
            && SpanMs(span, resolution) * NS_PER_MS <= k * resolution < (SpanMs(span, resolution) + 1) * NS_PER_MS
  {
    var k := BucketsFor(span, resolution);
    assert k * resolution <= span + resolution - 1 < (k + 1) * resolution;
    assert (k - 1) * resolution == k * resolution - resolution;
  }

  ////////// First and last

  ghost predicate SampleIn(seen: seq<Seen>, lo: nat, hi: nat, i: int) {
    0 <= i < |seen| && seen[i].Sample? && lo <= seen[i].index < hi
  }

  /** The sample of the earliest bucket, and of those the first to arrive. */
  ghost predicate Earliest(seen: seq<Seen>, lo: nat, hi: nat, i: int) {
    && SampleIn(seen, lo, hi, i)
    && forall j | SampleIn(seen, lo, hi, j) :: seen[i].index < seen[j].index || (seen[i].index == seen[j].index && i <= j)
  }

  ghost predicate Latest(seen: seq<Seen>, lo: nat, hi: nat, i: int) {
    && SampleIn(seen, lo, hi, i)
    && forall j | SampleIn(seen, lo, hi, j) :: seen[i].index > seen[j].index || (seen[i].index == seen[j].index && i >= j)
  }

  /** These are the mids of the earliest and the latest sample, if there is any. */
  ghost predicate AreEnds(first: Option<real>, last: Option<real>, seen: seq<Seen>, lo: nat, hi: nat) {
    && (first.Some? <==> exists i :: SampleIn(seen, lo, hi, i)) && (last.Some? <==> first.Some?)
    && (first.Some? ==> exists i :: Earliest(seen, lo, hi, i) && seen[i].mid == first.value)
    && (last.Some? ==> exists i :: Latest(seen, lo, hi, i) && seen[i].mid == last.value)
  }

  lemma SampleInFront(seen: seq<Seen>, lo: nat, hi: nat)
    requires seen != []
    ensures var n := |seen| - 1;
            forall i :: SampleIn(seen, lo, hi, i) <==> SampleIn(seen[..n], lo, hi, i) || (i == n && SampleIn(seen, lo, hi, n))
  {
  }

  lemma {:induction false} BucketEnds(seen: seq<Seen>, b: nat)
    ensures var t := TallyOf(InBucket(seen, b)); AreEnds(t.first, t.last, seen, b, b + 1)
  {
    if seen != [] {
      var n := |seen| - 1;
      var front, last := seen[..n], seen[n];
      BucketEnds(front, b);
      SampleInFront(seen, b, b + 1);
      TallyAppend(InBucket(front, b), last);
      var t, u := TallyOf(InBucket(seen, b)), TallyOf(InBucket(front, b));
      if u.first.Some? {
        var i :| Earliest(front, b, b + 1, i) && front[i].mid == u.first.value;
        assert Earliest(seen, b, b + 1, i) && seen[i].mid == u.first.value;
      }
      if SampleIn(seen, b, b + 1, n) {
        assert Latest(seen, b, b + 1, n);
        assert u.first.None? ==> Earliest(seen, b, b + 1, n);
      } else if u.last.Some? {
        var i :| Latest(front, b, b + 1, i) && front[i].mid == u.last.value;
        assert Latest(seen, b, b + 1, i) && seen[i].mid == u.last.value;
      }
    }
  }

  lemma {:induction false} RangeEnds(seen: seq<Seen>, lo: nat, hi: nat)
    ensures var t := TallyOf(InRange(seen, lo, hi)); AreEnds(t.first, t.last, seen, lo, hi)
  {
    if lo < hi {
      RangeEnds(seen, lo, hi - 1);
      RangeEndsOn(seen, lo, hi);
    }
  }

  lemma RangeEndsOn(seen: seq<Seen>, lo: nat, hi: nat)
    requires lo < hi
    requires var t := TallyOf(InRange(seen, lo, hi - 1)); AreEnds(t.first, t.last, seen, lo, hi - 1)
    ensures var t := TallyOf(InRange(seen, lo, hi)); AreEnds(t.first, t.last, seen, lo, hi)
  {
    var a, b := TallyOf(InRange(seen, lo, hi - 1)), TallyOf(InBucket(seen, hi - 1));
    BucketEnds(seen, hi - 1);
    EndsCombine(a.first, a.last, b.first, b.last, seen, lo, hi);
    RangeTally(seen, lo, hi);
  }

  lemma RangeTally(seen: seq<Seen>, lo: nat, hi: nat)
    requires lo < hi
    ensures TallyOf(InRange(seen, lo, hi)) == Combined(TallyOf(InRange(seen, lo, hi - 1)), TallyOf(InBucket(seen, hi - 1)))
  {
    TallyOfConcat(InRange(seen, lo, hi - 1), InBucket(seen, hi - 1));
  }

  lemma EndsCombine(first: Option<real>, last: Option<real>, first': Option<real>, last': Option<real>,
                    seen: seq<Seen>, lo: nat, hi: nat)
    requires lo < hi && AreEnds(first, last, seen, lo, hi - 1) && AreEnds(first', last', seen, hi - 1, hi)
    ensures AreEnds(Or(first, first'), Or(last', last), seen, lo, hi)
  {
    assert forall i :: SampleIn(seen, lo, hi, i) <==> SampleIn(seen, lo, hi - 1, i) || SampleIn(seen, hi - 1, hi, i);
    if first.Some? {
      var i :| Earliest(seen, lo, hi - 1, i) && seen[i].mid == first.value;
      assert Earliest(seen, lo, hi, i) && seen[i].mid == first.value;
    } else if first'.Some? {
      var i :| Earliest(seen, hi - 1, hi, i) && seen[i].mid == first'.value;
      assert Earliest(seen, lo, hi, i) && seen[i].mid == first'.value;
    }
    if last'.Some? {
      var i :| Latest(seen, hi - 1, hi, i) && seen[i].mid == last'.value;
      assert Latest(seen, lo, hi, i) && seen[i].mid == last'.value;
    } else if last.Some? {
      var i :| Latest(seen, lo, hi - 1, i) && seen[i].mid == last.value;
      assert Latest(seen, lo, hi, i) && seen[i].mid == last.value;
    }
  }

  ////////// Extremes

  lemma {:induction false} WithinMembers(seen: seq<Seen>, lo: nat, hi: nat, s: Seen)
    ensures s in Within(seen, lo, hi) <==> s in seen && lo <= s.index < hi
  {
    if seen != [] {
      var front, last := seen[..|seen| - 1], seen[|seen| - 1];
      WithinMembers(front, lo, hi, s);
      assert seen == front + [last];
    }
  }

  lemma RangeMembers(seen: seq<Seen>, lo: nat, hi: nat, s: Seen)
    ensures s in InRange(seen, lo, hi) <==> s in seen && lo <= s.index < hi
  {
    RangeIsEverythingWithin(seen, lo, hi);
    WithinMembers(seen, lo, hi, s);
    assert s in InRange(seen, lo, hi) <==> s in multiset(InRange(seen, lo, hi));
    assert s in Within(seen, lo, hi) <==> s in multiset(Within(seen, lo, hi));
  }

  /** Attained bounds of the samples' mids, and the weakest integrity among them. */
  ghost predicate AreExtremes(high: Option<real>, low: Option<real>, floor: Option<Integrity>, seen: seq<Seen>, lo: nat, hi: nat) {
    && (high.Some? <==> exists i :: SampleIn(seen, lo, hi, i)) && (low.Some? <==> high.Some?) && (floor.Some? <==> high.Some?)
    && (forall i | SampleIn(seen, lo, hi, i) ::
          high.Some? && low.Some? && floor.Some? &&
          low.value <= seen[i].mid <= high.value && floor.value.Rank() <= seen[i].integrity.Rank())
    && (high.Some? ==> exists i :: SampleIn(seen, lo, hi, i) && seen[i].mid == high.value)
    && (low.Some? ==> exists i :: SampleIn(seen, lo, hi, i) && seen[i].mid == low.value)
    && (floor.Some? ==> exists i :: SampleIn(seen, lo, hi, i) && seen[i].integrity == floor.value)
  }

  lemma SampleOf(seen: seq<Seen>, lo: nat, hi: nat, s: Seen) returns (i: nat)
    requires s in InRange(seen, lo, hi) && s.Sample?
    ensures SampleIn(seen, lo, hi, i) && seen[i] == s
  {
    RangeMembers(seen, lo, hi, s);
    i :| 0 <= i < |seen| && seen[i] == s;
  }

  lemma RangeExtremes(seen: seq<Seen>, lo: nat, hi: nat)
    ensures var t := TallyOf(InRange(seen, lo, hi)); AreExtremes(t.high, t.low, t.integrity, seen, lo, hi)
  {
    var r := InRange(seen, lo, hi);
    var t := TallyOf(r);
    TallyMeaning(r);
    TallyIsConsistent(r);
    forall i | SampleIn(seen, lo, hi, i)
      ensures seen[i] in r
    {
      RangeMembers(seen, lo, hi, seen[i]);
    }
    if t.high.Some? {
      var h :| h in r && h.Sample? && h.mid == t.high.value;
      var i := SampleOf(seen, lo, hi, h);
      var l :| l in r && l.Sample? && l.mid == t.low.value;
      var j := SampleOf(seen, lo, hi, l);
      assert t.integrity.Some?;
      var f :| f in r && f.Sample? && f.integrity == t.integrity.value;
      var k := SampleOf(seen, lo, hi, f);
    }
  }

  ////////// Sums

  /** Totals of mids, spreads, quantities and payments. */
  datatype Sums = Sums(mid: real, spread: real, qty: real, paid: real)

  function SumsOf(t: Tally): Sums {
    Sums(t.sumMid, t.sumSpread, t.sumQty, t.sumPriceQty)
  }

  function Plus(a: Sums, b: Sums): Sums {
    Sums(a.mid + b.mid, a.spread + b.spread, a.qty + b.qty, a.paid + b.paid)
  }

  function SumsOfOne(s: Seen): Sums {
    if s.Sample? then Sums(s.mid, s.spread, 0.0, 0.0) else Sums(0.0, 0.0, s.qty, s.paid)
  }

  function SumsIn(seen: seq<Seen>): Sums {
    if seen == [] then Sums(0.0, 0.0, 0.0, 0.0) else Plus(SumsIn(seen[..|seen| - 1]), SumsOfOne(seen[|seen| - 1]))
  }

  lemma {:induction false} TallySums(seen: seq<Seen>)
    ensures SumsOf(TallyOf(seen)) == SumsIn(seen)
  {
    if seen != [] {
      TallySums(seen[..|seen| - 1]);
    }
  }

  lemma SumsAppend(w: seq<Seen>, s: Seen)
    ensures SumsIn(w + [s]) == Plus(SumsIn(w), SumsOfOne(s))
  {
    assert (w + [s])[..|w|] == w;
  }

  lemma {:induction false} SumsOfConcat(xs: seq<Seen>, ys: seq<Seen>)
    ensures SumsIn(xs + ys) == Plus(SumsIn(xs), SumsIn(ys))
  {
    if ys == [] {
      assert xs + ys == xs;
    } else {
      var front, last := ys[..|ys| - 1], ys[|ys| - 1];
      SumsOfConcat(xs, front);
      SumsAppend(xs + front, last);
      assert xs + ys == xs + front + [last];
    }
  }

  lemma SumsWithin(seen: seq<Seen>, lo: nat, hi: nat)
    requires seen != []
    ensures var front, last := seen[..|seen| - 1], seen[|seen| - 1];
            SumsIn(Within(seen, lo, hi)) ==
            if lo <= last.index < hi then Plus(SumsIn(Within(front, lo, hi)), SumsOfOne(last)) else SumsIn(Within(front, lo, hi))
  {
    SumsAppend(Within(seen[..|seen| - 1], lo, hi), seen[|seen| - 1]);
  }

  lemma SumsInBucket(seen: seq<Seen>, i: nat)
    requires seen != []
    ensures var front, last := seen[..|seen| - 1], seen[|seen| - 1];
            SumsIn(InBucket(seen, i)) ==
            if last.index == i then Plus(SumsIn(InBucket(front, i)), SumsOfOne(last)) else SumsIn(InBucket(front, i))
  {
    SumsAppend(InBucket(seen[..|seen| - 1], i), seen[|seen| - 1]);
  }

  lemma PlusAssociates(a: Sums, b: Sums, c: Sums)
    ensures Plus(Plus(a, b), c) == Plus(a, Plus(b, c)) == Plus(Plus(a, c), b)
  {
  }

  lemma {:induction false} WithinSumsSplit(seen: seq<Seen>, lo: nat, hi: nat)
    requires lo < hi
    ensures SumsIn(Within(seen, lo, hi)) == Plus(SumsIn(Within(seen, lo, hi - 1)), SumsIn(InBucket(seen, hi - 1)))
  {
    if seen != [] {
      var front, last := seen[..|seen| - 1], seen[|seen| - 1];
      WithinSumsSplit(front, lo, hi);
      SumsWithin(seen, lo, hi);
      SumsWithin(seen, lo, hi - 1);
      SumsInBucket(seen, hi - 1);
      PlusAssociates(SumsIn(Within(front, lo, hi - 1)), SumsIn(InBucket(front, hi - 1)), SumsOfOne(last));
    }
  }

  lemma {:induction false} RangeSumsIn(seen: seq<Seen>, lo: nat, hi: nat)
    ensures SumsIn(InRange(seen, lo, hi)) == SumsIn(Within(seen, lo, hi))
  {
    if hi <= lo {
      WithinNothing(seen, lo, hi);
    } else {
      RangeSumsIn(seen, lo, hi - 1);
      WithinSumsSplit(seen, lo, hi);
      SumsOfConcat(InRange(seen, lo, hi - 1), InBucket(seen, hi - 1));
    }
  }

  /** Sums do not depend on whether a range is read bucket by bucket or as it arrived. */
  lemma RangeSums(seen: seq<Seen>, lo: nat, hi: nat)
    ensures var t, u := TallyOf(InRange(seen, lo, hi)), TallyOf(Within(seen, lo, hi));
            t.sumMid == u.sumMid && t.sumSpread == u.sumSpread && t.sumQty == u.sumQty && t.sumPriceQty == u.sumPriceQty
  {
    RangeSumsIn(seen, lo, hi);
    TallySums(InRange(seen, lo, hi));
    TallySums(Within(seen, lo, hi));
  }

  ////////// The reading

  /** Mean, volume and price are those of everything stamped in the range, rounded to eight places. */
  ghost predicate Averages(r: Reading, w: seq<Seen>) {
    && r.samples == SampleCount(w) && r.trades == PrintCount(w)
    && (r.mean.Some? <==> SampleCount(w) > 0)
    && (r.mean.Some? ==> Rounded(r.mean.value, Total(Mids(w)) / SampleCount(w) as real, 100_000_000.0))
    && r.volume == (if PrintCount(w) > 0 then Some(Total(Quantities(w))) else None)
    && (r.vwap.Some? <==> PrintCount(w) > 0 && Total(Quantities(w)) != 0.0)
    && (r.vwap.Some? ==> Rounded(r.vwap.value, Total(Payments(w)) / Total(Quantities(w)), 100_000_000.0))
  }

  /** Change, range and spread in basis points, rounded to four places, and of the right sign. */
  ghost predicate Ratios(r: Reading, w: seq<Seen>) {
    && (r.changeBps.Some? <==> r.first.Some? && r.last.Some? && r.first.value != 0.0)
    && (r.changeBps.Some? ==>
          && Rounded(r.changeBps.value, 10_000.0 * ((r.last.value - r.first.value) / r.first.value), 10_000.0)
          && (r.first.value > 0.0 && r.changeBps.value > 0.0 ==> r.last.value > r.first.value)
          && (r.first.value > 0.0 && r.changeBps.value < 0.0 ==> r.last.value < r.first.value))
    && (r.rangeBps.Some? <==> r.high.Some? && r.low.Some? && r.mean.Some? && r.mean.value != 0.0)
    && (r.rangeBps.Some? ==> Rounded(r.rangeBps.value, 10_000.0 * ((r.high.value - r.low.value) / r.mean.value), 10_000.0))
    && (r.meanSpreadBps.Some? <==> SampleCount(w) > 0 && Total(Mids(w)) != 0.0)
    && (r.meanSpreadBps.Some? ==> Rounded(r.meanSpreadBps.value, 10_000.0 * (Total(Spreads(w)) / Total(Mids(w))), 10_000.0))
  }

  lemma ReadingAverages(spanMs: nat, trustedMs: nat, t: Tally, w: seq<Seen>)
    requires t.samples == SampleCount(w) && t.trades == PrintCount(w)
    requires t.sumMid == Total(Mids(w)) && t.sumQty == Total(Quantities(w)) && t.sumPriceQty == Total(Payments(w))
    ensures Averages(ReadingOf(spanMs, trustedMs, t), w)
  {
    if t.samples > 0 {
      RoundToIsNearest(t.sumMid / t.samples as real, MID_UNIT);
    }
    if t.sumQty != 0.0 {
      RoundToIsNearest(t.sumPriceQty / t.sumQty, MID_UNIT);
    }
  }

  lemma ReadingRatios(spanMs: nat, trustedMs: nat, t: Tally, w: seq<Seen>)
    requires t.samples == SampleCount(w) && HasSamplesIfAny(t)
    requires t.sumMid == Total(Mids(w)) && t.sumSpread == Total(Spreads(w))
    ensures Ratios(ReadingOf(spanMs, trustedMs, t), w)
  {
    var r := ReadingOf(spanMs, trustedMs, t);
    if r.changeBps.Some? {
      BpsMeans(t.last.value - t.first.value, t.first.value);
    }
    if r.rangeBps.Some? {
      BpsMeans(t.high.value - t.low.value, r.mean.value);
    }
    if r.meanSpreadBps.Some? {
      BpsMeans(t.sumSpread, t.sumMid);
    }
  }

  /**
   Every indicator of the naive reading, said of what was stamped in its span: ends, extremes,
   averages and ratios, and the length it reports.
   */
  lemma NaiveMeansWhatItSays(seen: seq<Seen>, log: seq<Stretch>, origin: int, resolution: nat, span: nat, end: nat)
    requires resolution > 0
    ensures var k := BucketsFor(span, resolution);
            var lo := if end >= k then end - k else 0;
            var r := Naive(seen, log, origin, resolution, span, end);
            && AreEnds(r.first, r.last, seen, lo, end) && AreExtremes(r.high, r.low, r.integrityFloor, seen, lo, end)
            && Averages(r, Within(seen, lo, end)) && Ratios(r, Within(seen, lo, end))
            && r.spanMs == k * resolution / NS_PER_MS
  {
    var lo := Oldest(end, BucketsFor(span, resolution));
    var t, w := TallyOf(InRange(seen, lo, end)), Within(seen, lo, end);
    RangeEnds(seen, lo, end);
    RangeExtremes(seen, lo, end);
    RangeCounts(seen, lo, end);
    RangeSums(seen, lo, end);
    TallyCountsAndSums(InRange(seen, lo, end));
    TallyCountsAndSums(w);
    TallyIsConsistent(InRange(seen, lo, end));
    ReadingAverages(SpanMs(span, resolution), TrustedMs(log, origin, resolution, lo, end), t, w);
    ReadingRatios(SpanMs(span, resolution), TrustedMs(log, origin, resolution, lo, end), t, w);
  }
}
