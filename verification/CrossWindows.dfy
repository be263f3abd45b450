/**
 One window over every venue of a symbol (crates/ma-core/src/cross_windows.rs), merged from
 readings that are already rounded (crates/ma-core/src/window.rs), against the reading of all
 the venues' observations pooled.
 */
module CrossWindows {
  import opened Types
  import opened Tally
  import opened Windows

  datatype Leg = Leg(venue: string, lagMs: nat, windows: seq<Reading>)

  datatype Exclusion = SpanNotPublished(venue: string) | NoData(venue: string)

  datatype CrossReading = CrossReading(
    spanMs: nat, trustedMsFloor: nat, integrityFloor: Option<Integrity>, maxLagMs: nat, venuesUsed: nat,
    samples: nat, high: Option<real>, low: Option<real>, mean: Option<real>, rangeBps: Option<real>,
    trades: nat, volume: Option<real>, vwap: Option<real>, excluded: seq<Exclusion>)

  /** The running sums of a consolidation. */
  datatype Sums = Sums(
    floor: Option<nat>, integrity: Option<Integrity>, maxLag: nat, used: nat, samples: nat,
    high: Option<real>, low: Option<real>, meanWeighted: real,
    trades: nat, volume: real, vwapWeighted: real)

  const NOTHING := Sums(None, None, 0, 0, 0, None, None, 0.0, 0, 0.0, 0.0)

  /** The first window of this span a leg publishes. */
  function Published(windows: seq<Reading>, span: nat): Option<Reading> {
    if windows == [] then None
    else if windows[0].spanMs == span then Some(windows[0])
    else Published(windows[1..], span)
  }

  function Excluded(leg: Leg, span: nat): Option<Exclusion> {
    var w := Published(leg.windows, span);
    if w.None? then Some(SpanNotPublished(leg.venue))
    else if w.value.samples == 0 && w.value.trades == 0 then Some(NoData(leg.venue))
    else None
  }

  function Floor(a: Option<nat>, b: nat): Option<nat> {
    if a.Some? && a.value <= b then a else Some(b)
  }

  function Weighted(w: Reading): real {
    if w.mean.Some? then w.mean.value * w.samples as real else 0.0
  }

  /** One contributing window more. */
  function Contributed(s: Sums, w: Reading, lagMs: nat): Sums {
    var book := w.samples > 0;
    var traded := w.volume.Some? && w.vwap.Some?;
    Sums(Floor(s.floor, w.trustedMs),
         if book then WeakestOpt(s.integrity, w.integrityFloor) else s.integrity,
         Max(s.maxLag, lagMs), s.used + 1, s.samples + w.samples,
         if book then MaxOpt(s.high, w.high) else s.high,
         if book then MinOpt(s.low, w.low) else s.low,
         s.meanWeighted + if book then Weighted(w) else 0.0,
         s.trades + w.trades,
         s.volume + if traded then w.volume.value else 0.0,
         s.vwapWeighted + if traded then w.vwap.value * w.volume.value else 0.0)
  }

  function Added(s: Sums, leg: Leg, span: nat): Sums {
    if Excluded(leg, span).Some? then s else Contributed(s, Published(leg.windows, span).value, leg.lagMs)
  }

  function Summed(legs: seq<Leg>, span: nat): Sums {
    if legs == [] then NOTHING else Added(Summed(legs[..|legs| - 1], span), legs[|legs| - 1], span)
  }

  function Exclusions(legs: seq<Leg>, span: nat): seq<Exclusion> {
    if legs == [] then []
    else
      var last := Excluded(legs[|legs| - 1], span);
      Exclusions(legs[..|legs| - 1], span) + if last.Some? then [last.value] else []
  }

  function Reported(s: Sums, span: nat, excluded: seq<Exclusion>): CrossReading {
    var mean := if s.samples > 0 then Some(RoundTo(s.meanWeighted / s.samples as real, MID_UNIT)) else None;
    CrossReading(
      span, if s.floor.Some? then s.floor.value else 0, s.integrity, s.maxLag, s.used, s.samples, s.high, s.low, mean,
      if mean.Some? && s.high.Some? && s.low.Some? && mean.value != 0.0
        then Some(Bps(s.high.value - s.low.value, mean.value)) else None,
      s.trades, if s.trades > 0 then Some(s.volume) else None,
      if s.trades > 0 && s.volume != 0.0 then Some(RoundTo(s.vwapWeighted / s.volume, MID_UNIT)) else None,
      excluded)
  }

  method FindPublished(windows: seq<Reading>, span: nat) returns (w: Option<Reading>)
    ensures w == Published(windows, span)
  {
    for i := 0 to |windows|
      invariant Published(windows, span) == Published(windows[i..], span)
    {
      if windows[i].spanMs == span {
        return Some(windows[i]);
      }
      assert windows[i..][1..] == windows[i + 1..];
    }
    w := None;
  }

  method ConsolidateSpan(span: nat, legs: seq<Leg>) returns (r: CrossReading)
    ensures r == Reported(Summed(legs, span), span, Exclusions(legs, span))
  {
    var sums, excluded := NOTHING, [];
    for i := 0 to |legs|
      invariant sums == Summed(legs[..i], span) && excluded == Exclusions(legs[..i], span)
    {
      assert legs[..i + 1][..i] == legs[..i];
      var w := FindPublished(legs[i].windows, span);
      if w.None? {
        excluded := excluded + [SpanNotPublished(legs[i].venue)];
      } else if w.value.samples == 0 && w.value.trades == 0 {
        excluded := excluded + [NoData(legs[i].venue)];
      } else {
        sums := Contributed(sums, w.value, legs[i].lagMs);
      }
    }
    assert legs[..|legs|] == legs;
    r := Reported(sums, span, excluded);
  }

  /** Every span any leg publishes. */
  function Spans(legs: seq<Leg>): set<nat> {
    set i, j | 0 <= i < |legs| && 0 <= j < |legs[i].windows| :: legs[i].windows[j].spanMs
  }

  lemma {:induction false} SmallestExists(spans: set<nat>) returns (least: nat)
    requires spans != {}
    ensures least in spans && forall s | s in spans :: least <= s
  {
    var s := SomeMember(spans);
    var rest := spans - {s};
    if rest == {} {
      assert spans == {s};
      least := s;
    } else {
      var r := SmallestExists(rest);
      least := Min(r, s);
      assert spans == rest + {s};
    }
  }

  method InOrder(spans: set<nat>) returns (sorted: seq<nat>)
    ensures forall i, j | 0 <= i < j < |sorted| :: sorted[i] < sorted[j]
    ensures forall s :: s in sorted <==> s in spans
  {
    sorted := [];
    var left := spans;
    while left != {}
      invariant left <= spans
      invariant forall i, j | 0 <= i < j < |sorted| :: sorted[i] < sorted[j]
      invariant forall i, s | 0 <= i < |sorted| && s in left :: sorted[i] < s
      invariant forall s :: s in sorted <==> s in spans && s !in left
      decreases |left|
    {
      ghost var least := SmallestExists(left);
      var span :| span in left && forall s | s in left :: span <= s;
      sorted := sorted + [span];
      left := left - {span};
    }
  }

  /** One reading for each span any leg publishes, in ascending order. */
  method ConsolidateWindows(legs: seq<Leg>) returns (readings: seq<CrossReading>)
    ensures forall i, j | 0 <= i < j < |readings| :: readings[i].spanMs < readings[j].spanMs
    ensures forall s :: s in Spans(legs) <==> exists i :: 0 <= i < |readings| && readings[i].spanMs == s
    ensures forall r | r in readings :: r == Reported(Summed(legs, r.spanMs), r.spanMs, Exclusions(legs, r.spanMs))
  {
    var sorted := InOrder(Spans(legs));
    readings := [];
    for i := 0 to |sorted|
      invariant |readings| == i && forall k | 0 <= k < i :: readings[k].spanMs == sorted[k]
      invariant forall r | r in readings :: r == Reported(Summed(legs, r.spanMs), r.spanMs, Exclusions(legs, r.spanMs))
    {
      var reading := ConsolidateSpan(sorted[i], legs);
      readings := readings + [reading];
    }
    forall s ensures s in Spans(legs) <==> exists i :: 0 <= i < |readings| && readings[i].spanMs == s {
      if s in Spans(legs) {
        assert s in sorted;
        var i :| 0 <= i < |sorted| && sorted[i] == s;
        assert readings[i].spanMs == s;
      }
    }
  }

  ////////// How close the merge is to the pooled truth

  predicate Near(x: real, y: real, e: real) {
    -e <= x - y <= e
  }

  /** Half a unit in the eighth place. */
  const HALF: real := 0.000000005

  lemma RoundingIsNear(x: real)
    ensures Near(RoundTo(x, MID_UNIT), x, HALF)
  {
  }

  /** What a tally of book samples and prints is like; see `TalliesAreSane`. */
  predicate Sane(t: Tally) {
    && HasSamplesIfAny(t) && t.sumQty >= 0.0
    && (t.trades == 0 ==> t.sumQty == 0.0)
    && (t.sumQty == 0.0 ==> t.sumPriceQty == 0.0)
  }

  /** Prints of no negative quantity, and nothing paid for nothing. */
  predicate Priced(s: Seen) {
    s.Print? ==> s.qty >= 0.0 && (s.qty == 0.0 ==> s.paid == 0.0)
  }

  lemma {:induction false} TalliesAreSane(seen: seq<Seen>)
    requires forall i | 0 <= i < |seen| :: Priced(seen[i])
    ensures Sane(TallyOf(seen))
  {
    TallyIsConsistent(seen);
    if seen != [] {
      TalliesAreSane(seen[..|seen| - 1]);
      assert Priced(seen[|seen| - 1]);
    }
  }

  /** All the venues' observations as one tally. */
  function Pooled(tallies: seq<Tally>): Tally {
    if tallies == [] then Empty else Combined(Pooled(tallies[..|tallies| - 1]), tallies[|tallies| - 1])
  }

  /** The leg publishes the reading of this tally, or has nothing to publish. */
  predicate Publishes(leg: Leg, span: nat, t: Tally) {
    var w := Published(leg.windows, span);
    Sane(t) && if w.None? then t == Empty else w.value == ReadingOf(span, w.value.trustedMs, t)
  }

  /** The sums are the pooled tally's, the weighted ones to within half a unit for each sample or unit traded. */
  ghost predicate Tracks(s: Sums, p: Tally) {
    && s.samples == p.samples && s.high == p.high && s.low == p.low && s.integrity == p.integrity
    && s.trades == p.trades && s.volume == p.sumQty
    && Near(s.meanWeighted, p.sumMid, HALF * p.samples as real)
    && Near(s.vwapWeighted, p.sumPriceQty, HALF * p.sumQty)
  }

  lemma ScaledBack(sum: real, weight: real, rounded: real)
    requires weight > 0.0 && Near(rounded, sum / weight, HALF)
    ensures Near(rounded * weight, sum, HALF * weight)
  {
    var off := rounded - sum / weight;
    assert (sum / weight) * weight == sum;
    assert rounded * weight - sum == off * weight;
    Scale(off, HALF, weight);
    Scale(-HALF, off, weight);
  }

  lemma Scale(x: real, y: real, weight: real)
    requires x <= y && weight >= 0.0
    ensures x * weight <= y * weight
  {
    assert (y - x) * weight >= 0.0;
  }

  lemma DividedNear(x: real, sum: real, weight: real)
    requires weight > 0.0 && Near(x, sum, HALF * weight)
    ensures Near(x / weight, sum / weight, HALF)
  {
    var q := x / weight - sum / weight;
    assert (x / weight) * weight == x && (sum / weight) * weight == sum;
    assert q * weight == x - sum;
    if q > HALF {
      Grow(HALF, q, weight);
    } else if q < -HALF {
      Grow(q, -HALF, weight);
    }
  }

  lemma Grow(x: real, y: real, weight: real)
    requires x < y && weight > 0.0
    ensures x * weight < y * weight
  {
    assert (y - x) * weight > 0.0;
  }

  /** A leg's own rounding costs its mean and its vwap no more than half a unit each. */
  lemma LegIsNear(span: nat, trustedMs: nat, t: Tally)
    requires Sane(t)
    ensures var w := ReadingOf(span, trustedMs, t);
            && (t.samples > 0 ==> Near(Weighted(w), t.sumMid, HALF * t.samples as real))
            && (t.samples == 0 ==> t.sumMid == 0.0)
            && (w.volume.Some? && w.vwap.Some? ==>
                  w.volume.value == t.sumQty && Near(w.vwap.value * t.sumQty, t.sumPriceQty, HALF * t.sumQty))
            && (w.volume.None? || w.vwap.None? ==> t.sumQty == 0.0 && t.sumPriceQty == 0.0)
  {
    if t.samples > 0 {
      RoundingIsNear(t.sumMid / t.samples as real);
      ScaledBack(t.sumMid, t.samples as real, RoundTo(t.sumMid / t.samples as real, MID_UNIT));
    }
    if t.trades > 0 && t.sumQty != 0.0 {
      RoundingIsNear(t.sumPriceQty / t.sumQty);
      ScaledBack(t.sumPriceQty, t.sumQty, RoundTo(t.sumPriceQty / t.sumQty, MID_UNIT));
    }
  }

  lemma LegTracks(s: Sums, p: Tally, leg: Leg, span: nat, t: Tally)
    requires Tracks(s, p) && Publishes(leg, span, t)
    ensures Tracks(Added(s, leg, span), Combined(p, t))
  {
    var w := Published(leg.windows, span);
    if w.Some? {
      LegIsNear(span, w.value.trustedMs, t);
      assert HALF * (p.samples + t.samples) as real == HALF * p.samples as real + HALF * t.samples as real;
      assert HALF * (p.sumQty + t.sumQty) == HALF * p.sumQty + HALF * t.sumQty;
    }
  }

  lemma {:induction false} SumsTrackThePool(legs: seq<Leg>, span: nat, tallies: seq<Tally>)
    requires |legs| == |tallies| && forall i | 0 <= i < |legs| :: Publishes(legs[i], span, tallies[i])
    ensures Tracks(Summed(legs, span), Pooled(tallies))
  {
    if legs != [] {
      var n := |legs| - 1;
      SumsTrackThePool(legs[..n], span, tallies[..n]);
      LegTracks(Summed(legs[..n], span), Pooled(tallies[..n]), legs[n], span, tallies[n]);
    }
  }

  /**
   The consolidated reading against the pooled one: counts, volume, extremes and the integrity
   floor are exactly those of all observations together, and the mean and the volume-weighted
   price are within a hundred-millionth of theirs.
   */
  lemma {:induction false} ConsolidationIsClose(legs: seq<Leg>, span: nat, tallies: seq<Tally>)
    requires |legs| == |tallies| && forall i | 0 <= i < |legs| :: Publishes(legs[i], span, tallies[i])
    ensures var r, p := Reported(Summed(legs, span), span, Exclusions(legs, span)), Pooled(tallies);
            && r.samples == p.samples && r.trades == p.trades && r.high == p.high && r.low == p.low
            && r.integrityFloor == p.integrity
            && r.volume == (if p.trades > 0 then Some(p.sumQty) else None)
            && (r.mean.Some? <==> p.samples > 0) && (r.vwap.Some? <==> p.trades > 0 && p.sumQty != 0.0)
            && (p.samples > 0 ==> r.mean.Some? && Near(r.mean.value, p.sumMid / p.samples as real, 2.0 * HALF))
            && (p.trades > 0 && p.sumQty > 0.0 ==>
                  r.vwap.Some? && Near(r.vwap.value, p.sumPriceQty / p.sumQty, 2.0 * HALF))
  {
    var s, p := Summed(legs, span), Pooled(tallies);
    SumsTrackThePool(legs, span, tallies);
    if p.samples > 0 {
      DividedNear(s.meanWeighted, p.sumMid, p.samples as real);
      RoundingIsNear(s.meanWeighted / p.samples as real);
    }
    if p.trades > 0 && p.sumQty > 0.0 {
      DividedNear(s.vwapWeighted, p.sumPriceQty, p.sumQty);
      RoundingIsNear(s.vwapWeighted / p.sumQty);
    }
  }

  ////////// When the merged price is the pooled one

  /** What a leg's rounding adds to what was paid. */
  function LegDrift(leg: Leg, span: nat, t: Tally): real {
    var w := Published(leg.windows, span);
    if w.Some? && w.value.volume.Some? && w.value.vwap.Some? then w.value.vwap.value * w.value.volume.value - t.sumPriceQty
    else 0.0
  }

  function Drift(legs: seq<Leg>, span: nat, tallies: seq<Tally>): real
    requires |legs| == |tallies|
  {
    if legs == [] then 0.0
    else
      var n := |legs| - 1;
      Drift(legs[..n], span, tallies[..n]) + LegDrift(legs[n], span, tallies[n])
  }

  lemma LegDrifts(s: Sums, leg: Leg, span: nat, t: Tally)
    requires Publishes(leg, span, t)
    ensures Added(s, leg, span).vwapWeighted == s.vwapWeighted + t.sumPriceQty + LegDrift(leg, span, t)
  {
    var w := Published(leg.windows, span);
    if w.Some? {
      LegIsNear(span, w.value.trustedMs, t);
    }
  }

  lemma {:induction false} SumsDrift(legs: seq<Leg>, span: nat, tallies: seq<Tally>)
    requires |legs| == |tallies| && forall i | 0 <= i < |legs| :: Publishes(legs[i], span, tallies[i])
    ensures Summed(legs, span).vwapWeighted == Pooled(tallies).sumPriceQty + Drift(legs, span, tallies)
  {
    if legs != [] {
      var n := |legs| - 1;
      SumsDrift(legs[..n], span, tallies[..n]);
      LegDrifts(Summed(legs[..n], span), legs[n], span, tallies[n]);
      assert Pooled(tallies).sumPriceQty == Pooled(tallies[..n]).sumPriceQty + tallies[n].sumPriceQty;
    }
  }

  /** The leg's price has no more places than a reading keeps. */
  predicate OnTheGrid(t: Tally) {
    t.trades > 0 && t.sumQty != 0.0 ==> RoundTo(t.sumPriceQty / t.sumQty, MID_UNIT) == t.sumPriceQty / t.sumQty
  }

  lemma {:induction false} GridLegsDoNotDrift(legs: seq<Leg>, span: nat, tallies: seq<Tally>)
    requires |legs| == |tallies| && forall i | 0 <= i < |legs| :: Publishes(legs[i], span, tallies[i]) && OnTheGrid(tallies[i])
    ensures Drift(legs, span, tallies) == 0.0
  {
    if legs != [] {
      var n := |legs| - 1;
      GridLegsDoNotDrift(legs[..n], span, tallies[..n]);
      assert Publishes(legs[n], span, tallies[n]) && OnTheGrid(tallies[n]);
      if tallies[n].sumQty != 0.0 {
        assert tallies[n].sumPriceQty / tallies[n].sumQty * tallies[n].sumQty == tallies[n].sumPriceQty;
      }
    }
  }

  /**
   The merged price is the pooled one exactly if the legs' roundings, weighed by volume, do not
   carry it over a rounding boundary; and so it is if every leg's price fits its eight places.
   */
  lemma {:induction false} MergedVwapIsPooledExactlyWhen(legs: seq<Leg>, span: nat, tallies: seq<Tally>, trustedMs: nat)
    requires |legs| == |tallies| && forall i | 0 <= i < |legs| :: Publishes(legs[i], span, tallies[i])
    requires Pooled(tallies).trades > 0 && Pooled(tallies).sumQty > 0.0
    ensures var p := Pooled(tallies);
            var merged := Reported(Summed(legs, span), span, Exclusions(legs, span)).vwap;
            && (merged == ReadingOf(span, trustedMs, p).vwap <==>
                  RoundTo(p.sumPriceQty / p.sumQty + Drift(legs, span, tallies) / p.sumQty, MID_UNIT) ==
                  RoundTo(p.sumPriceQty / p.sumQty, MID_UNIT))
            && ((forall i | 0 <= i < |tallies| :: OnTheGrid(tallies[i])) ==> merged == ReadingOf(span, trustedMs, p).vwap)
  {
    SumsTrackThePool(legs, span, tallies);
    SumsDrift(legs, span, tallies);
    MergedByDrift(Summed(legs, span), span, Exclusions(legs, span), Pooled(tallies), trustedMs, Drift(legs, span, tallies));
    if forall i | 0 <= i < |tallies| :: OnTheGrid(tallies[i]) {
      GridLegsDoNotDrift(legs, span, tallies);
    }
  }

  lemma MergedByDrift(s: Sums, span: nat, excluded: seq<Exclusion>, p: Tally, trustedMs: nat, drift: real)
    requires s.trades == p.trades > 0 && s.volume == p.sumQty > 0.0 && s.vwapWeighted == p.sumPriceQty + drift
    ensures var merged := Reported(s, span, excluded).vwap;
            && (merged == ReadingOf(span, trustedMs, p).vwap <==>
                  RoundTo(p.sumPriceQty / p.sumQty + drift / p.sumQty, MID_UNIT) == RoundTo(p.sumPriceQty / p.sumQty, MID_UNIT))
            && (drift == 0.0 ==> merged == ReadingOf(span, trustedMs, p).vwap)
  {
    QuotientOfSum(p.sumPriceQty, drift, p.sumQty);
  }

  lemma QuotientOfSum(x: real, y: real, d: real)
    requires d != 0.0
    ensures (x + y) / d == x / d + y / d && (y == 0.0 ==> y / d == 0.0)
  {
  }

  ////////// The order of the legs

  lemma LegsCommute(s: Sums, a: Leg, b: Leg, span: nat)
    ensures Added(Added(s, a, span), b, span) == Added(Added(s, b, span), a, span)
  {
    if Excluded(a, span).None? && Excluded(b, span).None? {
      var v, w := Published(a.windows, span).value, Published(b.windows, span).value;
      OptionsCommute(s, v, w);
    }
  }

  lemma OptionsCommute(s: Sums, v: Reading, w: Reading)
    ensures Floor(Floor(s.floor, v.trustedMs), w.trustedMs) == Floor(Floor(s.floor, w.trustedMs), v.trustedMs)
    ensures MaxOpt(MaxOpt(s.high, v.high), w.high) == MaxOpt(MaxOpt(s.high, w.high), v.high)
    ensures MinOpt(MinOpt(s.low, v.low), w.low) == MinOpt(MinOpt(s.low, w.low), v.low)
    ensures WeakestOpt(WeakestOpt(s.integrity, v.integrityFloor), w.integrityFloor) ==
            WeakestOpt(WeakestOpt(s.integrity, w.integrityFloor), v.integrityFloor)
  {
  }

  /** A leg may as well come last. */
  lemma {:induction false} LegMovesLast(legs: seq<Leg>, i: nat, span: nat)
    requires i < |legs|
    ensures Summed(legs, span) == Added(Summed(legs[..i] + legs[i + 1..], span), legs[i], span)
  {
    var n := |legs| - 1;
    var rest := legs[..i] + legs[i + 1..];
    if i == n {
      assert rest == legs[..n];
    } else {
      LegMovesLast(legs[..n], i, span);
      var fewer := legs[..n][..i] + legs[..n][i + 1..];
      assert rest[..|rest| - 1] == fewer && rest[|rest| - 1] == legs[n];
      LegsCommute(Summed(fewer, span), legs[i], legs[n], span);
    }
  }

  /** The same legs in another order give the same numbers; only the list of the excluded follows the order. */
  lemma {:induction false} LegOrderIsImmaterial(legs: seq<Leg>, others: seq<Leg>, span: nat)
    requires multiset(legs) == multiset(others)
    ensures Summed(legs, span) == Summed(others, span)
    decreases |legs|
  {
    if legs == [] {
      assert |multiset(others)| == 0;
    } else {
      var n := |legs| - 1;
      var last := legs[n];
      assert last in multiset(legs) && last in multiset(others);
      var i :| 0 <= i < |others| && others[i] == last;
      var rest := others[..i] + others[i + 1..];
      assert others == others[..i] + [last] + others[i + 1..];
      assert legs == legs[..n] + [last];
      assert multiset(rest) == multiset(others) - multiset{last} == multiset(legs[..n]);
      LegOrderIsImmaterial(legs[..n], rest, span);
      LegMovesLast(others, i, span);
    }
  }

  lemma SmallRoundings()
    ensures RoundTo(0.000000004, MID_UNIT) == 0.0 && RoundTo(0.000000005, MID_UNIT) == 0.0
    ensures RoundTo(0.000000006, MID_UNIT) == 0.00000001 && RoundTo(0.000000008, MID_UNIT) == 0.00000001
  {
  }

  /** One unit printed for this much. */
  function OnePrint(paid: real): Tally {
    Empty.(trades := 1, sumQty := 1.0, sumPriceQty := paid)
  }

  lemma OnePrintReads(trustedMs: nat, paid: real)
    ensures var w := ReadingOf(1, trustedMs, OnePrint(paid));
            && w.samples == 0 && w.trades == 1 && w.spanMs == 1 && w.trustedMs == trustedMs
            && w.volume == Some(1.0) && w.vwap == Some(RoundTo(paid, MID_UNIT))
  {
    assert paid / 1.0 == paid;
  }

  lemma TwoTradersSum(v: Reading, w: Reading)
    requires v.samples == 0 && v.trades == 1 && v.spanMs == 1 && v.volume == Some(1.0) && v.vwap.Some?
    requires w.samples == 0 && w.trades == 1 && w.spanMs == 1 && w.volume == Some(1.0) && w.vwap.Some?
    ensures var s := Summed([Leg("a", 0, [v]), Leg("b", 0, [w])], 1);
            s.trades == 2 && s.volume == 2.0 && s.vwapWeighted == v.vwap.value + w.vwap.value
  {
    var a, b := Leg("a", 0, [v]), Leg("b", 0, [w]);
    assert [a, b][..1] == [a] && [a][..0] == [];
    assert Summed([], 1) == NOTHING;
    assert Summed([a], 1) == Added(NOTHING, a, 1);
  }

  /** Rounded legs cannot give the pooled price exactly: two venues' prints merge to a price off by a whole unit. */
  lemma MergedVwapMayBeOff(trustedMs: nat)
    ensures var v, w := ReadingOf(1, trustedMs, OnePrint(0.000000004)), ReadingOf(1, trustedMs, OnePrint(0.000000008));
            var s := Summed([Leg("a", 0, [v]), Leg("b", 0, [w])], 1);
            && Reported(s, 1, []).vwap == Some(0.0)
            && ReadingOf(1, trustedMs, Combined(OnePrint(0.000000004), OnePrint(0.000000008))).vwap == Some(0.00000001)
  {
    SmallRoundings();
    OnePrintReads(trustedMs, 0.000000004);
    OnePrintReads(trustedMs, 0.000000008);
    TwoTradersSum(ReadingOf(1, trustedMs, OnePrint(0.000000004)), ReadingOf(1, trustedMs, OnePrint(0.000000008)));
    TwoTradersRead(Summed([Leg("a", 0, [ReadingOf(1, trustedMs, OnePrint(0.000000004))]),
                           Leg("b", 0, [ReadingOf(1, trustedMs, OnePrint(0.000000008))])], 1));
    TwoPrintsPool(trustedMs);
  }

  lemma TwoPrintsPool(trustedMs: nat)
    ensures ReadingOf(1, trustedMs, Combined(OnePrint(0.000000004), OnePrint(0.000000008))).vwap == Some(0.00000001)
  {
    SmallRoundings();
    assert 0.000000012 / 2.0 == 0.000000006 && 0.000000004 + 0.000000008 == 0.000000012;
  }

  lemma TwoTradersRead(s: Sums)
    requires s.trades == 2 && s.volume == 2.0 && s.vwapWeighted == 0.00000001
    ensures Reported(s, 1, []).vwap == Some(0.0)
  {
    SmallRoundings();
    assert 0.00000001 / 2.0 == 0.000000005;
  }
}
