/**
 What a stretch of observations adds up to, and the naive computation every window reading
 is measured against (crates/ma-core/src/window.rs). Decimals are exact reals here.
 */
module Tally {
  import opened Types

  /**
   One thing folded into a window, with its bucket: a two-sided book sample, or a print with
   its quantity and what was paid for it, price times quantity.
   */
  datatype Seen =
    | Sample(index: nat, mid: real, spread: real, integrity: Integrity)
    | Print(index: nat, qty: real, paid: real)

  function Printed(index: nat, price: real, qty: real): Seen {
    Print(index, qty, price * qty)
  }

  /** The sums and extremes a bucket keeps, and the ones a reading is made of. */
  datatype Tally = Tally(
    samples: nat, sumMid: real, sumSpread: real,
    first: Option<real>, last: Option<real>, high: Option<real>, low: Option<real>,
    integrity: Option<Integrity>,
    trades: nat, sumQty: real, sumPriceQty: real)

  const Empty: Tally := Tally(0, 0.0, 0.0, None, None, None, None, None, 0, 0.0, 0.0)

  function MaxOpt(a: Option<real>, b: Option<real>): Option<real> {
    if a.Some? && b.Some? then (if a.value >= b.value then a else b) else if a.Some? then a else b
  }

  function MinOpt(a: Option<real>, b: Option<real>): Option<real> {
    if a.Some? && b.Some? then (if a.value <= b.value then a else b) else if a.Some? then a else b
  }

  function WeakestOpt(a: Option<Integrity>, b: Option<Integrity>): Option<Integrity> {
    if a.Some? && b.Some? then (if a.value.Rank() <= b.value.Rank() then a else b) else if a.Some? then a else b
  }

  function Or<T>(a: Option<T>, b: Option<T>): Option<T> {
    if a.Some? then a else b
  }

  /** `Bucket::record` and `Bucket::record_trade`. */
  function Recorded(t: Tally, s: Seen): Tally {
    match s
    case Sample(_, mid, spread, integrity) =>
      t.(samples := t.samples + 1, sumMid := t.sumMid + mid, sumSpread := t.sumSpread + spread,
         first := Or(t.first, Some(mid)), last := Some(mid),
         high := MaxOpt(t.high, Some(mid)), low := MinOpt(t.low, Some(mid)),
         integrity := WeakestOpt(t.integrity, Some(integrity)))
    case Print(_, qty, paid) =>
      t.(trades := t.trades + 1, sumQty := t.sumQty + qty, sumPriceQty := t.sumPriceQty + paid)
  }

  /** Everything seen, in one pass in the given order. */
  function TallyOf(seen: seq<Seen>): Tally {
    if seen == [] then Empty else Recorded(TallyOf(seen[..|seen| - 1]), seen[|seen| - 1])
  }

  lemma TallyAppend(seen: seq<Seen>, s: Seen)
    ensures TallyOf(seen + [s]) == Recorded(TallyOf(seen), s)
  {
    assert (seen + [s])[..|seen|] == seen;
  }

  /** Two tallies of consecutive stretches, as one. */
  function Combined(a: Tally, b: Tally): Tally {
    Tally(a.samples + b.samples, a.sumMid + b.sumMid, a.sumSpread + b.sumSpread,
          Or(a.first, b.first), Or(b.last, a.last), MaxOpt(a.high, b.high), MinOpt(a.low, b.low),
          WeakestOpt(a.integrity, b.integrity),
          a.trades + b.trades, a.sumQty + b.sumQty, a.sumPriceQty + b.sumPriceQty)
  }

  predicate HasSamplesIfAny(t: Tally) {
    t.samples == 0 ==>
      t.sumMid == 0.0 && t.sumSpread == 0.0 && t.first.None? && t.last.None? && t.high.None? && t.low.None? &&
      t.integrity.None?
  }

  lemma {:induction false} TallyIsConsistent(seen: seq<Seen>)
    ensures HasSamplesIfAny(TallyOf(seen))
  {
    if seen != [] {
      TallyIsConsistent(seen[..|seen| - 1]);
    }
  }

  lemma RecordingLast(a: Tally, b: Tally, s: Seen)
    ensures Recorded(Combined(a, b), s) == Combined(a, Recorded(b, s))
  {
  }

  /** Tallying is a homomorphism: a window may be read bucket by bucket. */
  lemma {:induction false} TallyOfConcat(xs: seq<Seen>, ys: seq<Seen>)
    ensures TallyOf(xs + ys) == Combined(TallyOf(xs), TallyOf(ys))
  {
    if ys == [] {
      assert xs + ys == xs;
    } else {
      var front, last := ys[..|ys| - 1], ys[|ys| - 1];
      var all := xs + ys;
      assert all[..|all| - 1] == xs + front && all[|all| - 1] == last;
      TallyOfConcat(xs, front);
      RecordingLast(TallyOf(xs), TallyOf(front), last);
    }
  }

  /** The observations of one bucket, in arrival order. */
  function InBucket(seen: seq<Seen>, i: nat): seq<Seen> {
    if seen == [] then []
    else
      var front := InBucket(seen[..|seen| - 1], i);
      if seen[|seen| - 1].index == i then front + [seen[|seen| - 1]] else front
  }

  /** The observations of buckets `lo` to `hi - 1`: bucket order first, then arrival order. */
  function InRange(seen: seq<Seen>, lo: nat, hi: nat): seq<Seen> {
    if hi <= lo then [] else InRange(seen, lo, hi - 1) + InBucket(seen, hi - 1)
  }

  /** The observations of those buckets, in arrival order only. */
  function Within(seen: seq<Seen>, lo: nat, hi: nat): seq<Seen> {
    if seen == [] then []
    else
      var front := Within(seen[..|seen| - 1], lo, hi);
      if lo <= seen[|seen| - 1].index < hi then front + [seen[|seen| - 1]] else front
  }

  lemma {:induction false} WithinSplits(seen: seq<Seen>, lo: nat, hi: nat)
    requires lo < hi
    ensures multiset(Within(seen, lo, hi)) == multiset(Within(seen, lo, hi - 1)) + multiset(InBucket(seen, hi - 1))
  {
    if seen != [] {
      WithinSplits(seen[..|seen| - 1], lo, hi);
    }
  }

  lemma {:induction false} WithinNothing(seen: seq<Seen>, lo: nat, hi: nat)
    requires hi <= lo
    ensures Within(seen, lo, hi) == []
  {
    if seen != [] {
      WithinNothing(seen[..|seen| - 1], lo, hi);
    }
  }

  /** Reading bucket by bucket leaves out nothing and counts nothing twice. */
  lemma {:induction false} RangeIsEverythingWithin(seen: seq<Seen>, lo: nat, hi: nat)
    ensures multiset(InRange(seen, lo, hi)) == multiset(Within(seen, lo, hi))
  {
    if hi <= lo {
      WithinNothing(seen, lo, hi);
    } else {
      RangeIsEverythingWithin(seen, lo, hi - 1);
      WithinSplits(seen, lo, hi);
    }
  }

  ////////// What the numbers mean

  function SampleCount(seen: seq<Seen>): nat {
    if seen == [] then 0 else SampleCount(seen[..|seen| - 1]) + if seen[|seen| - 1].Sample? then 1 else 0
  }

  function PrintCount(seen: seq<Seen>): nat {
    if seen == [] then 0 else PrintCount(seen[..|seen| - 1]) + if seen[|seen| - 1].Print? then 1 else 0
  }

  lemma {:induction false} CountsOfConcat(xs: seq<Seen>, ys: seq<Seen>)
    ensures SampleCount(xs + ys) == SampleCount(xs) + SampleCount(ys) && PrintCount(xs + ys) == PrintCount(xs) + PrintCount(ys)
  {
    if ys == [] {
      assert xs + ys == xs;
    } else {
      var all := xs + ys;
      assert all[..|all| - 1] == xs + ys[..|ys| - 1] && all[|all| - 1] == ys[|ys| - 1];
      CountsOfConcat(xs, ys[..|ys| - 1]);
    }
  }

  lemma CountsAppend(seen: seq<Seen>, s: Seen)
    ensures SampleCount(seen + [s]) == SampleCount(seen) + if s.Sample? then 1 else 0
    ensures PrintCount(seen + [s]) == PrintCount(seen) + if s.Print? then 1 else 0
  {
    assert (seen + [s])[..|seen|] == seen;
  }

  lemma {:induction false} WithinCountsSplit(seen: seq<Seen>, lo: nat, hi: nat)
    requires lo < hi
    ensures SampleCount(Within(seen, lo, hi)) == SampleCount(Within(seen, lo, hi - 1)) + SampleCount(InBucket(seen, hi - 1))
    ensures PrintCount(Within(seen, lo, hi)) == PrintCount(Within(seen, lo, hi - 1)) + PrintCount(InBucket(seen, hi - 1))
  {
    if seen != [] {
      var front, last := seen[..|seen| - 1], seen[|seen| - 1];
      WithinCountsSplit(front, lo, hi);
      CountsAppend(Within(front, lo, hi), last);
      CountsAppend(Within(front, lo, hi - 1), last);
      CountsAppend(InBucket(front, hi - 1), last);
    }
  }

  /** Read bucket by bucket, a range has as many samples and prints as it has in arrival order. */
  lemma {:induction false} RangeCounts(seen: seq<Seen>, lo: nat, hi: nat)
    ensures SampleCount(InRange(seen, lo, hi)) == SampleCount(Within(seen, lo, hi))
    ensures PrintCount(InRange(seen, lo, hi)) == PrintCount(Within(seen, lo, hi))
  {
    if hi <= lo {
      WithinNothing(seen, lo, hi);
    } else {
      RangeCounts(seen, lo, hi - 1);
      WithinCountsSplit(seen, lo, hi);
      CountsOfConcat(InRange(seen, lo, hi - 1), InBucket(seen, hi - 1));
    }
  }

  function Total(xs: seq<real>): real {
    if xs == [] then 0.0 else Total(xs[..|xs| - 1]) + xs[|xs| - 1]
  }

  lemma TotalAppend(xs: seq<real>, x: real)
    ensures Total(xs + [x]) == Total(xs) + x
  {
    assert (xs + [x])[..|xs|] == xs;
  }

  function Mids(seen: seq<Seen>): seq<real> {
    seq(|seen|, i requires 0 <= i < |seen| => if seen[i].Sample? then seen[i].mid else 0.0)
  }

  function Spreads(seen: seq<Seen>): seq<real> {
    seq(|seen|, i requires 0 <= i < |seen| => if seen[i].Sample? then seen[i].spread else 0.0)
  }

  function Quantities(seen: seq<Seen>): seq<real> {
    seq(|seen|, i requires 0 <= i < |seen| => if seen[i].Print? then seen[i].qty else 0.0)
  }

  function Payments(seen: seq<Seen>): seq<real> {
    seq(|seen|, i requires 0 <= i < |seen| => if seen[i].Print? then seen[i].paid else 0.0)
  }

  /** The counts are the numbers of samples and of prints, and the sums the totals of what their names say. */
  lemma {:induction false} TallyCountsAndSums(seen: seq<Seen>)
    ensures var t := TallyOf(seen);
            && t.samples == SampleCount(seen) && t.trades == PrintCount(seen)
            && t.sumMid == Total(Mids(seen)) && t.sumSpread == Total(Spreads(seen))
            && t.sumQty == Total(Quantities(seen)) && t.sumPriceQty == Total(Payments(seen))
  {
    if seen != [] {
      var front, last := seen[..|seen| - 1], seen[|seen| - 1];
      TallyCountsAndSums(front);
      assert Mids(seen) == Mids(front) + [if last.Sample? then last.mid else 0.0];
      assert Spreads(seen) == Spreads(front) + [if last.Sample? then last.spread else 0.0];
      assert Quantities(seen) == Quantities(front) + [if last.Print? then last.qty else 0.0];
      assert Payments(seen) == Payments(front) + [if last.Print? then last.paid else 0.0];
      TotalAppend(Mids(front), if last.Sample? then last.mid else 0.0);
      TotalAppend(Spreads(front), if last.Sample? then last.spread else 0.0);
      TotalAppend(Quantities(front), if last.Print? then last.qty else 0.0);
      TotalAppend(Payments(front), if last.Print? then last.paid else 0.0);
    }
  }

  /** The extremes are attained bounds, and there are any exactly if there are samples. */
  lemma {:induction false} TallyMeaning(seen: seq<Seen>)
    ensures var t := TallyOf(seen);
            && (t.samples > 0 <==> exists s | s in seen :: s.Sample?)
            && (t.high.Some? <==> t.samples > 0) && (t.low.Some? <==> t.samples > 0)
            && (forall s | s in seen && s.Sample? ::
                  t.high.Some? && t.low.Some? && t.integrity.Some? &&
                  t.low.value <= s.mid <= t.high.value && t.integrity.value.Rank() <= s.integrity.Rank())
            && (t.high.Some? ==> exists s | s in seen :: s.Sample? && s.mid == t.high.value)
            && (t.low.Some? ==> exists s | s in seen :: s.Sample? && s.mid == t.low.value)
            && (t.integrity.Some? ==> exists s | s in seen :: s.Sample? && s.integrity == t.integrity.value)
  {
    if seen != [] {
      var front, last := seen[..|seen| - 1], seen[|seen| - 1];
      TallyMeaning(front);
      TallyIsConsistent(front);
      assert seen == front + [last];
      assert last in seen;
    }
  }

  /** `first` and `last` are the mids of the earliest and the latest sample. */
  lemma {:induction false} TallyEnds(seen: seq<Seen>)
    ensures var t := TallyOf(seen);
            && (t.first.Some? ==> exists i | 0 <= i < |seen| ::
                  seen[i].Sample? && seen[i].mid == t.first.value && forall j | 0 <= j < i :: seen[j].Print?)
            && (t.last.Some? ==> exists i | 0 <= i < |seen| ::
                  seen[i].Sample? && seen[i].mid == t.last.value && forall j | i < j < |seen| :: seen[j].Print?)
            && (t.first.None? <==> forall i | 0 <= i < |seen| :: seen[i].Print?)
            && (t.last.None? <==> t.first.None?)
  {
    if seen != [] {
      var front := seen[..|seen| - 1];
      TallyEnds(front);
      assert forall i | 0 <= i < |front| :: front[i] == seen[i];
      var t, u := TallyOf(seen), TallyOf(front);
      if u.first.Some? {
        var i :| 0 <= i < |front| && front[i].Sample? && front[i].mid == u.first.value &&
                 forall j | 0 <= j < i :: front[j].Print?;
        assert seen[i].Sample?;
      }
    }
  }
}
