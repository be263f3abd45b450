/**
 The rolling windows of one stream (crates/ma-core/src/window.rs): one lazily cleared ring of
 buckets serving every configured span, with interval-based trust accounting. The class keeps
 a ghost record of everything it was told, and its readings are those of the naive
 computation over that whole record.
 */
module Windows {
  import opened Types
  import opened Tally
  import opened Coverage

  /** One resolution's worth of observations. `index` is the absolute bucket number. */
  datatype Bucket = Bucket(index: Option<nat>, tally: Tally, untrusted: int)

  /** The part of a top of book that windows read: `live` is the integrity of a live book. */
  datatype Top = Top(bid: Option<real>, ask: Option<real>, live: Option<Integrity>)

  datatype Reading = Reading(
    spanMs: nat, trustedMs: nat, samples: nat, integrityFloor: Option<Integrity>,
    first: Option<real>, last: Option<real>, high: Option<real>, low: Option<real>,
    mean: Option<real>, changeBps: Option<real>, rangeBps: Option<real>, meanSpreadBps: Option<real>,
    trades: nat, volume: Option<real>, vwap: Option<real>)

  /** Round to the nearest multiple of `1 / unit`, ties to the even one. */
  function RoundTo(x: real, unit: real): real
    requires unit > 0.0
  {
    var scaled := x * unit;
    var down := scaled.Floor;
    var rest := scaled - down as real;
    var nearest := if rest < 0.5 || (rest == 0.5 && down % 2 == 0) then down else down + 1;
    nearest as real / unit
  }

  const MID_UNIT: real := 100_000_000.0
  const BPS_UNIT: real := 10_000.0

  function Bps(numerator: real, denominator: real): real
    requires denominator != 0.0
  {
    RoundTo(numerator * 10_000.0 / denominator, BPS_UNIT)
  }

  /** The indicators a tally gives. */
  function ReadingOf(spanMs: nat, trustedMs: nat, t: Tally): Reading {
    var volume := if t.trades > 0 then Some(t.sumQty) else None;
    var vwap := if t.trades > 0 && t.sumQty != 0.0 then Some(RoundTo(t.sumPriceQty / t.sumQty, MID_UNIT)) else None;
    if t.samples == 0 then
      Reading(spanMs, trustedMs, 0, t.integrity, t.first, t.last, t.high, t.low, None, None, None, None,
              t.trades, volume, vwap)
    else
      var mean := RoundTo(t.sumMid / t.samples as real, MID_UNIT);
      Reading(spanMs, trustedMs, t.samples, t.integrity, t.first, t.last, t.high, t.low,
              Some(mean),
              if t.first.Some? && t.last.Some? && t.first.value != 0.0
                then Some(Bps(t.last.value - t.first.value, t.first.value)) else None,
              if t.high.Some? && t.low.Some? && mean != 0.0
                then Some(Bps(t.high.value - t.low.value, mean)) else None,
              if t.sumMid != 0.0 then Some(Bps(t.sumSpread, t.sumMid)) else None,
              t.trades, volume, vwap)
  }

  /** Buckets needed to cover `span`, rounding up. */
  function BucketsFor(span: nat, resolution: nat): nat
    requires resolution > 0
  {
    (span + resolution - 1) / resolution
  }

  function SpanMs(span: nat, resolution: nat): nat
    requires resolution > 0
  {
    BucketsFor(span, resolution) * resolution / NS_PER_MS
  }

  function Longest(spans: seq<nat>): nat {
    if spans == [] then 0
    else
      var rest := Longest(spans[1..]);
      if spans[0] >= rest then spans[0] else rest
  }

  lemma {:induction false} LongestIsAnUpperBound(spans: seq<nat>, j: nat)
    requires j < |spans|
    ensures spans[j] <= Longest(spans)
  {
    if j > 0 {
      LongestIsAnUpperBound(spans[1..], j - 1);
    }
  }

  lemma BucketsForMonotone(span: nat, longer: nat, resolution: nat)
    requires resolution > 0 && span <= longer
    ensures BucketsFor(span, resolution) <= BucketsFor(longer, resolution)
  {
    IndexIsQuotient(0, resolution, span + resolution - 1);
    IndexIsQuotient(0, resolution, longer + resolution - 1);
    IndexMonotone(0, resolution, span + resolution - 1, longer + resolution - 1);
  }

  ////////// The ring

  /** Where bucket `i` lives in a ring of `n` slots: `i` modulo `n`. */
  function SlotOf(n: nat, i: nat): (slot: nat)
    requires n > 0
    ensures slot < n
  {
    if i < n then i else SlotOf(n, i - n)
  }

  function Slot(ring: seq<Bucket>, i: nat): nat
    requires ring != []
    ensures Slot(ring, i) < |ring|
  {
    SlotOf(|ring|, i)
  }

  lemma {:induction false} SlotIsRemainder(n: nat, i: nat)
    requires n > 0
    ensures SlotOf(n, i) == i % n
  {
    if i >= n {
      SlotIsRemainder(n, i - n);
      QuotientUnique(i, n, (i - n) / n + 1, (i - n) % n) by {
        assert ((i - n) / n + 1) * n == (i - n) / n * n + n;
      }
    } else {
      QuotientUnique(i, n, 0, i);
    }
  }

  /** The slot of bucket `i`, cleared first if it still holds another bucket. */
  function Touched(ring: seq<Bucket>, i: nat): (r: seq<Bucket>)
    requires ring != []
    ensures |r| == |ring| && r[Slot(ring, i)].index == Some(i)
  {
    if ring[Slot(ring, i)].index == Some(i) then ring
    else ring[Slot(ring, i) := Bucket(Some(i), Empty, 0)]
  }

  /** Buckets less than a ring apart never share a slot. */
  lemma {:induction false} NoAlias(n: nat, i: nat, j: nat)
    requires n > 0 && i < j < i + n
    ensures SlotOf(n, i) != SlotOf(n, j)
  {
    if i >= n {
      NoAlias(n, i - n, j - n);
    }
  }

  /** A touch erases a newer bucket exactly when the slot holds one: an instant a full ring late does that. */
  lemma LateTouchErases(ring: seq<Bucket>, i: nat)
    requires ring != []
    ensures (forall j | 0 <= j < |ring| :: ring[j].index.Some? && ring[j].index.value > i ==> Touched(ring, i)[j] == ring[j])
            <==> !(ring[Slot(ring, i)].index.Some? && ring[Slot(ring, i)].index.value > i)
  {
    var s := Slot(ring, i);
    if ring[s].index.Some? && ring[s].index.value > i {
      assert Touched(ring, i)[s].index == Some(i);
    }
  }

  /** What the slot for bucket `i` says, when everything before `upTo` has been accounted for. */
  ghost predicate SlotOk(ring: seq<Bucket>, seen: seq<Seen>, log: seq<Stretch>,
                         origin: int, resolution: int, i: nat, upTo: int)
    requires ring != []
  {
    var b := ring[Slot(ring, i)];
    if b.index == Some(i) then
      b.tally == TallyOf(InBucket(seen, i)) && b.untrusted == Untrusted(log, origin, resolution, i)
    else
      (b.index.Some? ==> b.index.value < i) && upTo <= Start(origin, resolution, i) && InBucket(seen, i) == []
  }

  /** Every bucket of the last full ring is right. */
  ghost predicate Refines(ring: seq<Bucket>, seen: seq<Seen>, log: seq<Stretch>,
                          origin: int, resolution: int, newest: nat, upTo: int)
    requires ring != []
  {
    forall i: nat | newest - |ring| < i <= newest :: SlotOk(ring, seen, log, origin, resolution, i, upTo)
  }

  /** No slot holds a bucket that has not begun, or one that belongs elsewhere. */
  ghost predicate Bounded(ring: seq<Bucket>, newest: nat)
    requires ring != []
  {
    forall j | 0 <= j < |ring| && ring[j].index.Some? ::
      ring[j].index.value <= newest && Slot(ring, ring[j].index.value) == j
  }

  ghost predicate NoneLater(seen: seq<Seen>, newest: nat) {
    forall s | s in seen :: s.index <= newest
  }

  lemma {:induction false} NothingSeenIn(seen: seq<Seen>, newest: nat, i: nat)
    requires NoneLater(seen, newest) && newest < i
    ensures InBucket(seen, i) == []
  {
    if seen != [] {
      assert seen[|seen| - 1] in seen;
      assert forall s | s in seen[..|seen| - 1] :: s in seen;
      NothingSeenIn(seen[..|seen| - 1], newest, i);
    }
  }

  lemma InBucketAppend(seen: seq<Seen>, s: Seen, i: nat)
    ensures InBucket(seen + [s], i) == InBucket(seen, i) + if s.index == i then [s] else []
  {
    assert (seen + [s])[..|seen|] == seen;
  }

  /** The record with trust unchanged from where accounting stopped up to `to`. */
  function Extended(log: seq<Stretch>, from: int, to: int, trusted: bool): seq<Stretch> {
    if from < to then log + [Stretch(from, to, trusted)] else log
  }

  lemma ExtendedCovers(log: seq<Stretch>, origin: int, from: int, to: int, trusted: bool)
    requires Covers(log, origin, from) && from <= to
    ensures Covers(Extended(log, from, to, trusted), origin, to)
  {
    if from < to {
      assert (log + [Stretch(from, to, trusted)])[..|log|] == log;
    }
  }

  lemma ExtendedTime(log: seq<Stretch>, from: int, to: int, trusted: bool, lo: int, hi: int)
    requires from <= to
    ensures Time(Extended(log, from, to, trusted), false, lo, hi) ==
            Time(log, false, lo, hi) + if trusted then 0 else Overlap(from, to, lo, hi)
  {
    if from < to {
      TimeAppend(log, Stretch(from, to, trusted), false, lo, hi);
    }
  }

  /** Moving on to a later newest bucket, nothing charged yet. */
  lemma RefinesLater(ring: seq<Bucket>, seen: seq<Seen>, log: seq<Stretch>,
                     origin: int, resolution: int, newest: nat, upTo: int, later: nat, cursor: int, trusted: bool)
    requires resolution > 0 && ring != [] && newest <= later && origin <= upTo <= cursor
    requires newest == IndexAt(origin, resolution, upTo) && Bounded(ring, newest) && NoneLater(seen, newest)
    requires Refines(ring, seen, log, origin, resolution, newest, upTo)
    requires cursor == upTo || (newest + |ring| <= later && cursor == Start(origin, resolution, later - |ring| + 1))
    ensures Refines(ring, seen, Extended(log, upTo, cursor, trusted), origin, resolution, later, cursor)
  {
    forall i: nat | later - |ring| < i <= later
      ensures SlotOk(ring, seen, Extended(log, upTo, cursor, trusted), origin, resolution, i, cursor)
    {
      if i <= newest {
        assert cursor == upTo;
        assert SlotOk(ring, seen, log, origin, resolution, i, upTo);
      } else {
        NothingSeenIn(seen, newest, i);
        BucketHolds(origin, resolution, upTo);
        if newest + 1 < i {
          StartMonotone(origin, resolution, newest + 1, i);
        }
        if cursor != upTo && later - |ring| + 1 < i {
          StartMonotone(origin, resolution, later - |ring| + 1, i);
        }
      }
    }
  }

  /** The slot of bucket `idx` after one slice of `charge`. */
  function Charged(ring: seq<Bucket>, idx: nat, elapsed: int, trusted: bool): (r: seq<Bucket>)
    requires ring != []
    ensures |r| == |ring|
  {
    var touched := Touched(ring, idx);
    var s := Slot(ring, idx);
    if trusted then touched else touched[s := touched[s].(untrusted := touched[s].untrusted + elapsed)]
  }

  /** Another bucket's slot is untouched, and the slice adds nothing to that bucket's account. */
  lemma SliceKeepsOther(ring: seq<Bucket>, seen: seq<Seen>, log: seq<Stretch>, origin: int, resolution: int,
                        from: int, cursor: int, to: int, trusted: bool, idx: nat, i: nat)
    requires ring != [] && resolution > 0 && from <= cursor < to
    requires Start(origin, resolution, idx) <= cursor && to <= Start(origin, resolution, idx + 1)
    requires i != idx && i - |ring| < idx < i + |ring|
    requires SlotOk(ring, seen, Extended(log, from, cursor, trusted), origin, resolution, i, cursor)
    ensures SlotOk(Charged(ring, idx, to - cursor, trusted), seen, Extended(log, from, to, trusted),
                   origin, resolution, i, to)
  {
    var lo, hi := Start(origin, resolution, i), Start(origin, resolution, i + 1);
    assert hi <= cursor || to <= lo by {
      if i < idx {
        StartAtMost(origin, resolution, i + 1, idx);
      } else {
        StartAtMost(origin, resolution, idx + 1, i);
      }
    }
    assert Untrusted(Extended(log, from, to, trusted), origin, resolution, i) ==
           Untrusted(Extended(log, from, cursor, trusted), origin, resolution, i) by {
      ExtendedTime(log, from, cursor, trusted, lo, hi);
      ExtendedTime(log, from, to, trusted, lo, hi);
    }
    NoAlias(|ring|, Min(i, idx), Max(i, idx));
    assert Charged(ring, idx, to - cursor, trusted)[Slot(ring, i)] == ring[Slot(ring, i)];
    StartNext(origin, resolution, i);
  }

  lemma StartAtMost(origin: int, resolution: int, i: nat, j: nat)
    requires resolution > 0 && i <= j
    ensures Start(origin, resolution, i) <= Start(origin, resolution, j)
  {
    if i < j {
      StartMonotone(origin, resolution, i, j);
    }
  }

  /** The bucket the slice lies in: its slot is touched, and charged for the slice. */
  lemma SliceKeepsOwn(ring: seq<Bucket>, seen: seq<Seen>, log: seq<Stretch>, origin: int, resolution: int,
                      from: int, cursor: int, to: int, trusted: bool, i: nat)
    requires ring != [] && resolution > 0 && Covers(log, origin, from) && from <= cursor < to
    requires Start(origin, resolution, i) <= cursor && to <= Start(origin, resolution, i + 1)
    requires SlotOk(ring, seen, Extended(log, from, cursor, trusted), origin, resolution, i, cursor)
    ensures SlotOk(Charged(ring, i, to - cursor, trusted), seen, Extended(log, from, to, trusted),
                   origin, resolution, i, to)
  {
    var lo, hi := Start(origin, resolution, i), Start(origin, resolution, i + 1);
    ExtendedTime(log, from, cursor, trusted, lo, hi);
    ExtendedTime(log, from, to, trusted, lo, hi);
    if ring[Slot(ring, i)].index != Some(i) {
      NoTimeAfter(log, origin, from, false, lo, hi);
    }
  }

  /** One slice keeps the whole ring right. */
  lemma SliceKeepsRefines(ring: seq<Bucket>, seen: seq<Seen>, log: seq<Stretch>, origin: int, resolution: int,
                          from: int, cursor: int, to: int, trusted: bool, idx: nat, end: nat)
    requires ring != [] && resolution > 0 && Covers(log, origin, from) && origin <= from <= cursor < to
    requires idx == IndexAt(origin, resolution, cursor) && to <= Start(origin, resolution, idx + 1)
    requires end - |ring| < idx <= end
    requires Refines(ring, seen, Extended(log, from, cursor, trusted), origin, resolution, end, cursor)
    ensures Refines(Charged(ring, idx, to - cursor, trusted), seen, Extended(log, from, to, trusted),
                    origin, resolution, end, to)
  {
    BucketHolds(origin, resolution, cursor);
    var after, longer := Charged(ring, idx, to - cursor, trusted), Extended(log, from, to, trusted);
    forall i: nat | end - |ring| < i <= end ensures SlotOk(after, seen, longer, origin, resolution, i, to) {
      if i == idx {
        SliceKeepsOwn(ring, seen, log, origin, resolution, from, cursor, to, trusted, i);
      } else {
        SliceKeepsOther(ring, seen, log, origin, resolution, from, cursor, to, trusted, idx, i);
      }
    }
  }

  lemma ChargedIsBounded(ring: seq<Bucket>, idx: nat, elapsed: int, trusted: bool, newest: nat)
    requires ring != [] && Bounded(ring, newest) && idx <= newest
    ensures Bounded(Charged(ring, idx, elapsed, trusted), newest)
  {
  }

  /** The slot of an observation after it is recorded. */
  function Noted(ring: seq<Bucket>, s: Seen): (r: seq<Bucket>)
    requires ring != []
    ensures |r| == |ring|
  {
    var touched := Touched(ring, s.index);
    var k := Slot(ring, s.index);
    touched[k := touched[k].(tally := Recorded(touched[k].tally, s))]
  }

  lemma NotedKeepsOwn(ring: seq<Bucket>, seen: seq<Seen>, s: Seen, log: seq<Stretch>,
                      origin: int, resolution: int, upTo: int)
    requires ring != [] && Covers(log, origin, upTo)
    requires SlotOk(ring, seen, log, origin, resolution, s.index, upTo)
    ensures SlotOk(Noted(ring, s), seen + [s], log, origin, resolution, s.index, upTo)
  {
    var i := s.index;
    InBucketAppend(seen, s, i);
    TallyAppend(InBucket(seen, i), s);
    if ring[Slot(ring, i)].index != Some(i) {
      NoTimeAfter(log, origin, upTo, false, Start(origin, resolution, i), Start(origin, resolution, i + 1));
    }
  }

  lemma NotedKeepsOther(ring: seq<Bucket>, seen: seq<Seen>, s: Seen, log: seq<Stretch>,
                        origin: int, resolution: int, i: nat, upTo: int)
    requires ring != [] && i != s.index && i - |ring| < s.index < i + |ring|
    requires SlotOk(ring, seen, log, origin, resolution, i, upTo)
    ensures SlotOk(Noted(ring, s), seen + [s], log, origin, resolution, i, upTo)
  {
    InBucketAppend(seen, s, i);
    NoAlias(|ring|, Min(i, s.index), Max(i, s.index));
  }

  /** Recording keeps every slot right, if the observation is less than a full ring late. */
  lemma NotedKeepsRefines(ring: seq<Bucket>, seen: seq<Seen>, s: Seen, log: seq<Stretch>,
                          origin: int, resolution: int, newest: nat, upTo: int)
    requires ring != [] && Covers(log, origin, upTo)
    requires Refines(ring, seen, log, origin, resolution, newest, upTo)
    requires newest - |ring| < s.index <= newest
    ensures Refines(Noted(ring, s), seen + [s], log, origin, resolution, newest, upTo)
  {
    var after, more := Noted(ring, s), seen + [s];
    forall i: nat | newest - |ring| < i <= newest ensures SlotOk(after, more, log, origin, resolution, i, upTo) {
      assert SlotOk(ring, seen, log, origin, resolution, i, upTo);
      if i == s.index {
        NotedKeepsOwn(ring, seen, s, log, origin, resolution, upTo);
      } else {
        NotedKeepsOther(ring, seen, s, log, origin, resolution, i, upTo);
      }
    }
  }

  ////////// The naive computation

  function Oldest(end: nat, k: nat): nat {
    if end >= k then end - k else 0
  }

  /** A reading computed from the whole record: everything observed in buckets `end - k` to `end - 1`. */
  function Naive(seen: seq<Seen>, log: seq<Stretch>, origin: int, resolution: nat, span: nat, end: nat): Reading
    requires resolution > 0
  {
    var lo := Oldest(end, BucketsFor(span, resolution));
    ReadingOf(SpanMs(span, resolution), TrustedMs(log, origin, resolution, lo, end), TallyOf(InRange(seen, lo, end)))
  }

  /**
   The naive reading is what its labels say: it is made of exactly the observations whose
   bucket is in the window, and its coverage is the true trusted time of the window, rounded
   down by less than a millisecond a bucket and never above the span.
   */
  lemma NaiveIsHonest(seen: seq<Seen>, log: seq<Stretch>, origin: int, resolution: nat, span: nat, end: nat, to: int)
    requires resolution > 0 && Covers(log, origin, to) && Start(origin, resolution, end) <= to
    ensures var lo := Oldest(end, BucketsFor(span, resolution));
            var r := Naive(seen, log, origin, resolution, span, end);
            var trusted := Time(log, true, Start(origin, resolution, lo), Start(origin, resolution, end));
            && multiset(InRange(seen, lo, end)) == multiset(Within(seen, lo, end))
            && r.trustedMs * NS_PER_MS <= trusted <= r.trustedMs * NS_PER_MS + (end - lo) * (NS_PER_MS - 1)
            && r.trustedMs <= r.spanMs
            && r.samples == SampleCount(Within(seen, lo, end)) && r.trades == PrintCount(Within(seen, lo, end))
            && (r.samples > 0 <==> exists s | s in InRange(seen, lo, end) :: s.Sample?)
  {
    var lo := Oldest(end, BucketsFor(span, resolution));
    RangeIsEverythingWithin(seen, lo, end);
    TallyCountsAndSums(InRange(seen, lo, end));
    RangeCounts(seen, lo, end);
    TrustedMsIsTight(log, origin, resolution, to, lo, end);
    TrustedMsWithinSpan(log, origin, resolution, lo, end, BucketsFor(span, resolution));
    TallyMeaning(InRange(seen, lo, end));
  }

  /** The trusted part of a bucket, in whole milliseconds. */
  function Covered(resolution: nat, untrusted: int): nat {
    Max(0, resolution - untrusted) / NS_PER_MS
  }

  /** One bucket added to a reading: its samples only if it has any, its trades always. */
  function Accumulated(t: Tally, b: Tally): Tally {
    var traded := t.(trades := t.trades + b.trades, sumQty := t.sumQty + b.sumQty, sumPriceQty := t.sumPriceQty + b.sumPriceQty);
    if b.samples == 0 then traded
    else
      traded.(samples := t.samples + b.samples, sumMid := t.sumMid + b.sumMid, sumSpread := t.sumSpread + b.sumSpread,
              first := Or(t.first, b.first), last := Or(b.last, t.last),
              high := MaxOpt(t.high, b.high), low := MinOpt(t.low, b.low),
              integrity := WeakestOpt(t.integrity, b.integrity))
  }

  lemma RangeNext(seen: seq<Seen>, lo: nat, i: nat)
    requires lo <= i
    ensures TallyOf(InRange(seen, lo, i + 1)) == Accumulated(TallyOf(InRange(seen, lo, i)), TallyOf(InBucket(seen, i)))
  {
    TallyOfConcat(InRange(seen, lo, i), InBucket(seen, i));
    TallyIsConsistent(InBucket(seen, i));
  }

  lemma TrustedNext(log: seq<Stretch>, origin: int, resolution: nat, lo: nat, i: nat)
    requires lo <= i
    ensures TrustedMs(log, origin, resolution, lo, i + 1) ==
            TrustedMs(log, origin, resolution, lo, i) + Covered(resolution, Untrusted(log, origin, resolution, i))
  {
  }

  class RollingWindows {
    const resolution: nat
    const spans: seq<nat>
    const buckets: array<Bucket>
    const origin: int
    var chargedTo: int
    var trusted: bool
    /** Everything recorded, in arrival order; how trust went; and whether no stamp came a full ring late. */
    ghost var seen: seq<Seen>
    ghost var log: seq<Stretch>
    ghost var intact: bool

    ghost predicate Valid()
      reads this, buckets
    {
      && resolution > 0 && buckets.Length == BucketsFor(Longest(spans), resolution) + 1
      && origin <= chargedTo && Covers(log, origin, chargedTo)
      && NoneLater(seen, Newest()) && Bounded(buckets[..], Newest())
      && (intact ==> Refines(buckets[..], seen, log, origin, resolution, Newest(), chargedTo))
    }

    ghost function Newest(): nat
      requires resolution > 0
      reads this
    {
      IndexAt(origin, resolution, chargedTo)
    }

    ghost function Index(t: int): nat
      requires resolution > 0
    {
      IndexAt(origin, resolution, t)
    }

    method IndexOf(t: int) returns (i: nat)
      requires resolution > 0
      ensures i == Index(t)
    {
      IndexIsQuotient(origin, resolution, t);
      i := if t <= origin then 0 else (t - origin) / resolution;
    }

    method BucketStart(i: nat) returns (t: int)
      ensures t == Start(origin, resolution, i)
    {
      StartIsMultiple(origin, resolution, i);
      t := origin + i * resolution;
    }

    method SlotIndex(i: nat) returns (slot: nat)
      requires buckets.Length > 0
      ensures slot == SlotOf(buckets.Length, i)
    {
      SlotIsRemainder(buckets.Length, i);
      slot := i % buckets.Length;
    }

    /** A stamp that is less than a full ring behind what has been charged. */
    ghost predicate InReach(t: int)
      requires resolution > 0
      reads this
    {
      Newest() < Index(t) + buckets.Length
    }

    constructor (resolution: nat, spans: seq<nat>, now: int)
      ensures Valid() && fresh(buckets)
      ensures this.resolution == (if resolution >= NS_PER_MS then resolution else NS_PER_MS)
      ensures |this.spans| == |spans|
      ensures forall j | 0 <= j < |spans| ::
                this.spans[j] == if spans[j] >= this.resolution then spans[j] else this.resolution
      ensures origin == now && chargedTo == now && !trusted && seen == [] && log == [] && intact
    {
      var res := if resolution >= NS_PER_MS then resolution else NS_PER_MS;
      var clamped := seq(|spans|, j requires 0 <= j < |spans| => if spans[j] >= res then spans[j] else res);
      this.resolution, this.spans := res, clamped;
      buckets := new Bucket[BucketsFor(Longest(clamped), res) + 1](_ => Bucket(None, Empty, 0));
      origin, chargedTo, trusted := now, now, false;
      seen, log, intact := [], [], true;
    }

    method Touch(i: nat)
      requires buckets.Length > 0
      modifies buckets
      ensures buckets[..] == Touched(old(buckets[..]), i)
    {
      var slot := SlotIndex(i);
      if buckets[slot].index != Some(i) {
        buckets[slot] := Bucket(Some(i), Empty, 0);
      }
    }

    /** Where charging starts: a stall longer than the ring is cut to what a reading can still see. */
    method FirstCursor(now: int, end: nat) returns (cursor: int)
      requires Valid() && chargedTo < now && end == Index(now)
      ensures chargedTo <= cursor <= now && end < Index(cursor) + buckets.Length <= end + buckets.Length
      ensures Bounded(buckets[..], end) && NoneLater(seen, end)
      ensures intact ==> Refines(buckets[..], seen, Extended(log, chargedTo, cursor, trusted), origin, resolution, end, cursor)
    {
      cursor := chargedTo;
      ghost var newest := Newest();
      IndexMonotone(origin, resolution, chargedTo, now);
      var reached := IndexOf(cursor);
      if end >= buckets.Length && end - buckets.Length >= reached {
        cursor := BucketStart(end - buckets.Length + 1);
        SkipStaysBehind(now, end);
      }
      if intact {
        RefinesLater(buckets[..], seen, log, origin, resolution, newest, chargedTo, end, cursor, trusted);
      }
    }

    /** The oldest bucket still readable begins after everything charged, and before `now`. */
    lemma SkipStaysBehind(now: int, end: nat)
      requires Valid() && chargedTo < now && end == Index(now) && Newest() + buckets.Length <= end
      ensures var start := Start(origin, resolution, end - buckets.Length + 1);
              chargedTo < start <= now && Index(start) == end - buckets.Length + 1
    {
      var i := end - buckets.Length + 1;
      BucketHolds(origin, resolution, chargedTo);
      BucketHolds(origin, resolution, now);
      if Newest() + 1 < i {
        StartMonotone(origin, resolution, Newest() + 1, i);
      }
      if i < end {
        StartMonotone(origin, resolution, i, end);
      }
      StartNext(origin, resolution, i);
      IndexIs(origin, resolution, Start(origin, resolution, i), i);
    }

    /** Charge from `cursor` to the end of its bucket, or to `now`. */
    method ChargeSlice(cursor: int, now: int) returns (sliceEnd: int)
      requires resolution > 0 && buckets.Length > 0 && origin <= cursor < now
      modifies buckets
      ensures cursor < sliceEnd <= now && sliceEnd <= Start(origin, resolution, Index(cursor) + 1)
      ensures sliceEnd < now ==> Index(sliceEnd) == Index(cursor) + 1
      ensures buckets[..] == Charged(old(buckets[..]), Index(cursor), sliceEnd - cursor, trusted)
    {
      var idx := IndexOf(cursor);
      BucketHolds(origin, resolution, cursor);
      var boundary := BucketStart(idx + 1);
      sliceEnd := if boundary < now then boundary else now;
      StartNext(origin, resolution, idx + 1);
      IndexIs(origin, resolution, boundary, idx + 1);
      Touch(idx);
      if !trusted {
        var slot := SlotIndex(idx);
        buckets[slot] := buckets[slot].(untrusted := buckets[slot].untrusted + (sliceEnd - cursor));
      }
    }

    /** Attribute elapsed time to buckets at the trust that was in force while it elapsed. */
    method Charge(now: int) returns (ghost slices: nat)
      requires Valid()
      modifies this, buckets
      ensures Valid() && trusted == old(trusted) && seen == old(seen) && intact == old(intact)
      ensures chargedTo == Max(old(chargedTo), now)
      ensures log == Extended(old(log), old(chargedTo), chargedTo, trusted)
      ensures slices <= buckets.Length
    {
      slices := 0;
      if now <= chargedTo {
        return;
      }
      var end := IndexOf(now);
      var cursor := FirstCursor(now, end);
      ghost var first := Index(cursor);
      while cursor < now
        modifies buckets
        invariant chargedTo <= cursor <= now && end < first + buckets.Length && first <= end
        invariant cursor < now ==> Index(cursor) == first + slices
        invariant slices <= end - first + 1
        invariant Bounded(buckets[..], end)
        invariant intact ==> Refines(buckets[..], seen, Extended(log, chargedTo, cursor, trusted),
                                     origin, resolution, end, cursor)
      {
        ghost var before := buckets[..];
        IndexMonotone(origin, resolution, cursor, now);
        var sliceEnd := ChargeSlice(cursor, now);
        ChargedIsBounded(before, Index(cursor), sliceEnd - cursor, trusted, end);
        if intact {
          SliceKeepsRefines(before, seen, log, origin, resolution, chargedTo, cursor, sliceEnd, trusted, Index(cursor), end);
        }
        cursor := sliceEnd;
        slices := slices + 1;
      }
      ExtendedCovers(log, origin, chargedTo, now, trusted);
      log := Extended(log, chargedTo, now, trusted);
      chargedTo := now;
    }

    method Note(s: Seen)
      requires Valid() && s.index <= Newest()
      modifies this`seen, this`intact, buckets
      ensures Valid() && seen == old(seen) + [s]
      ensures intact == (old(intact) && Newest() < s.index + buckets.Length)
    {
      if intact && Newest() < s.index + buckets.Length {
        NotedKeepsRefines(buckets[..], seen, s, log, origin, resolution, Newest(), chargedTo);
      }
      ghost var before := buckets[..];
      Touch(s.index);
      var slot := SlotIndex(s.index);
      buckets[slot] := buckets[slot].(tally := Recorded(buckets[slot].tally, s));
      assert buckets[..] == Noted(before, s);
      intact := intact && Newest() < s.index + buckets.Length;
      seen := seen + [s];
    }

    /** Fold one book observation in. */
    method Observe(top: Top, at: int)
      requires Valid()
      modifies this, buckets
      ensures Valid() && chargedTo == Max(old(chargedTo), at)
      ensures log == Extended(old(log), old(chargedTo), chargedTo, old(trusted))
      ensures trusted == top.live.Some?
      ensures var sampled := top.live.Some? && top.bid.Some? && top.ask.Some?;
              && seen == old(seen) + (if sampled
                   then [Sample(Index(at), (top.bid.value + top.ask.value) / 2.0, top.ask.value - top.bid.value, top.live.value)]
                   else [])
              && intact == (old(intact) && (sampled ==> InReach(at)))
    {
      var _ := Charge(at);
      trusted := top.live.Some?;
      if top.live.None? || top.bid.None? || top.ask.None? {
        return;
      }
      IndexMonotone(origin, resolution, at, chargedTo);
      var i := IndexOf(at);
      Note(Sample(i, (top.bid.value + top.ask.value) / 2.0, top.ask.value - top.bid.value, top.live.value));
    }

    /** Fold one print in, whatever the state of the book. */
    method ObserveTrade(price: real, qty: real, at: int)
      requires Valid()
      modifies this, buckets
      ensures Valid() && chargedTo == Max(old(chargedTo), at) && trusted == old(trusted)
      ensures log == Extended(old(log), old(chargedTo), chargedTo, trusted)
      ensures seen == old(seen) + [Printed(Index(at), price, qty)]
      ensures seen[|seen| - 1] == Print(Index(at), qty, price * qty)
      ensures intact == (old(intact) && InReach(at))
    {
      var _ := Charge(at);
      IndexMonotone(origin, resolution, at, chargedTo);
      var i := IndexOf(at);
      Note(Printed(i, price, qty));
    }

    /** The ring still holds every bucket a reading of `span` ending before `end` needs. */
    ghost predicate Reaches(span: nat, end: nat)
      requires resolution > 0
      reads this
    {
      end <= Newest() < Oldest(end, BucketsFor(span, resolution)) + buckets.Length
    }

    /** Every configured window, in order: exactly what the naive computation over the whole record gives. */
    method Read(now: int) returns (readings: seq<Reading>)
      requires Valid()
      modifies this, buckets
      ensures Valid() && trusted == old(trusted) && seen == old(seen) && intact == old(intact)
      ensures chargedTo == Max(old(chargedTo), now)
      ensures log == Extended(old(log), old(chargedTo), chargedTo, trusted)
      ensures |readings| == |spans|
      ensures forall j | 0 <= j < |spans| && intact && Reaches(spans[j], Index(now)) ::
                readings[j] == Naive(seen, log, origin, resolution, spans[j], Index(now))
      ensures old(chargedTo) <= now ==> forall j | 0 <= j < |spans| :: Reaches(spans[j], Index(now))
    {
      var _ := Charge(now);
      var end := IndexOf(now);
      IndexMonotone(origin, resolution, now, chargedTo);
      readings := [];
      for j := 0 to |spans|
        modifies {}
        invariant |readings| == j
        invariant forall i | 0 <= i < j && intact && Reaches(spans[i], end) ::
                    readings[i] == Naive(seen, log, origin, resolution, spans[i], end)
        invariant old(chargedTo) <= now ==> forall i | 0 <= i < j :: Reaches(spans[i], end)
      {
        var reading := ReadSpan(spans[j], end);
        readings := readings + [reading];
        LongestIsAnUpperBound(spans, j);
        BucketsForMonotone(spans[j], Longest(spans), resolution);
      }
    }

    /** One window: the completed buckets immediately before `end`. */
    method ReadSpan(span: nat, end: nat) returns (out: Reading)
      requires Valid() && end <= Newest()
      ensures intact && Reaches(span, end) ==> out == Naive(seen, log, origin, resolution, span, end)
    {
      var t, trustedMs := SumBuckets(Oldest(end, BucketsFor(span, resolution)), end);
      out := ReadingOf(SpanMs(span, resolution), trustedMs, t);
    }

    method SumBuckets(oldest: nat, end: nat) returns (t: Tally, trustedMs: nat)
      requires Valid() && end <= Newest()
      ensures intact && Newest() < oldest + buckets.Length ==>
                && t == TallyOf(InRange(seen, oldest, end))
                && trustedMs == TrustedMs(log, origin, resolution, oldest, end)
    {
      t, trustedMs := Empty, 0;
      if end <= oldest {
        return;
      }
      for idx := oldest to end
        invariant intact && Newest() < oldest + buckets.Length ==>
                    && t == TallyOf(InRange(seen, oldest, idx))
                    && trustedMs == TrustedMs(log, origin, resolution, oldest, idx)
      {
        var slot := SlotIndex(idx);
        var bucket := buckets[slot];
        if bucket.index == Some(idx) {
          trustedMs := trustedMs + Covered(resolution, bucket.untrusted);
          t := Accumulated(t, bucket.tally);
        }
        if intact && Newest() < oldest + buckets.Length {
          BucketAdds(oldest, idx, end);
        }
      }
    }

    /** What one completed bucket contributes to a reading. */
    lemma BucketAdds(oldest: nat, idx: nat, end: nat)
      requires Valid() && intact && oldest <= idx < end <= Newest() < oldest + buckets.Length
      ensures var b := buckets[SlotOf(buckets.Length, idx)];
              && b.index == Some(idx)
              && TallyOf(InRange(seen, oldest, idx + 1)) == Accumulated(TallyOf(InRange(seen, oldest, idx)), b.tally)
              && TrustedMs(log, origin, resolution, oldest, idx + 1) ==
                 TrustedMs(log, origin, resolution, oldest, idx) + Covered(resolution, b.untrusted)
    {
      CompletedSlotIsRight(idx, end);
      RangeNext(seen, oldest, idx);
      TrustedNext(log, origin, resolution, oldest, idx);
    }

    /** A completed bucket in reach is present in its slot, and right. */
    lemma CompletedSlotIsRight(idx: nat, end: nat)
      requires Valid() && intact && idx < end <= Newest() < idx + buckets.Length
      ensures var b := buckets[SlotOf(buckets.Length, idx)];
              && b.index == Some(idx) && b.tally == TallyOf(InBucket(seen, idx))
              && b.untrusted == Untrusted(log, origin, resolution, idx)
    {
      assert SlotOk(buckets[..], seen, log, origin, resolution, idx, chargedTo);
      BucketHolds(origin, resolution, chargedTo);
      StartMonotone(origin, resolution, idx, Newest());
    }
  }
}
