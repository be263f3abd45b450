/**
 What a consolidated window says of its legs (crates/ma-core/src/cross_windows.rs): which venues
 it is made of, why the others are left out, and how much its weakest and slowest one is worth.
 */
module CrossReadings {
  import opened Types
  import opened Windows
  import opened CrossWindows
  import WindowReadings

  /** The leg's first window of this span is its j-th. */
  predicate IsFirst(leg: Leg, span: nat, j: nat) {
    && j < |leg.windows| && leg.windows[j].spanMs == span
    && forall k | 0 <= k < j :: leg.windows[k].spanMs != span
  }

  /** The leg's window of this span, which has something in it. */
  ghost predicate Contributes(leg: Leg, span: nat, w: Reading) {
    exists j: nat :: IsFirst(leg, span, j) && w == leg.windows[j] && (w.samples > 0 || w.trades > 0)
  }

  ghost predicate Counts(leg: Leg, span: nat) {
    exists w :: Contributes(leg, span, w)
  }

  /** Why a leg does not: it has no window of this span, or nothing in it. */
  ghost predicate LeftOut(leg: Leg, span: nat, why: Exclusion) {
    if exists j: nat :: IsFirst(leg, span, j) then why == NoData(leg.venue) else why == SpanNotPublished(leg.venue)
  }

  lemma FirstInRest(leg: Leg, span: nat, j: nat)
    requires leg.windows != [] && leg.windows[0].spanMs != span
    ensures IsFirst(leg, span, j) <==> j > 0 && IsFirst(leg.(windows := leg.windows[1..]), span, j - 1)
  {
    var rest := leg.(windows := leg.windows[1..]);
    assert forall k | 0 <= k < |rest.windows| :: rest.windows[k] == leg.windows[k + 1];
    if j > 0 && IsFirst(rest, span, j - 1) {
      assert forall k | 0 < k < j :: leg.windows[k] == rest.windows[k - 1];
    }
  }

  lemma {:induction false} PublishedIsTheFirst(leg: Leg, span: nat)
    ensures var w := Published(leg.windows, span);
            && (w.Some? <==> exists j: nat :: IsFirst(leg, span, j))
            && (forall j: nat | IsFirst(leg, span, j) :: w == Some(leg.windows[j]))
    decreases |leg.windows|
  {
    if leg.windows != [] && leg.windows[0].spanMs != span {
      var rest := leg.(windows := leg.windows[1..]);
      PublishedIsTheFirst(rest, span);
      forall j: nat ensures IsFirst(leg, span, j) <==> j > 0 && IsFirst(rest, span, j - 1) {
        FirstInRest(leg, span, j);
      }
      if j: nat :| IsFirst(rest, span, j) {
        assert IsFirst(leg, span, j + 1);
      }
    } else if leg.windows != [] {
      assert IsFirst(leg, span, 0);
    }
  }

  lemma ExcludedOrCounted(leg: Leg, span: nat)
    ensures Excluded(leg, span).Some? <==> !Counts(leg, span)
    ensures Excluded(leg, span).Some? ==> LeftOut(leg, span, Excluded(leg, span).value)
    ensures forall w | Contributes(leg, span, w) :: Published(leg.windows, span) == Some(w)
    ensures Counts(leg, span) ==> Published(leg.windows, span).Some? && Contributes(leg, span, Published(leg.windows, span).value)
  {
    PublishedIsTheFirst(leg, span);
    var w := Published(leg.windows, span);
    if w.Some? {
      var j: nat :| IsFirst(leg, span, j);
      if w.value.samples > 0 || w.value.trades > 0 {
        assert Contributes(leg, span, w.value);
      }
    }
  }

  /** How many legs count, and how many do not. */
  ghost function Counted(legs: seq<Leg>, span: nat): nat {
    if legs == [] then 0 else Counted(legs[..|legs| - 1], span) + if Counts(legs[|legs| - 1], span) then 1 else 0
  }

  /** These are the reasons of the legs left out, in the order of the legs. */
  ghost predicate AreExclusions(excluded: seq<Exclusion>, legs: seq<Leg>, span: nat) {
    if legs == [] then excluded == []
    else
      var n := |legs| - 1;
      if Counts(legs[n], span) then AreExclusions(excluded, legs[..n], span)
      else
        excluded != [] && LeftOut(legs[n], span, excluded[|excluded| - 1]) &&
        AreExclusions(excluded[..|excluded| - 1], legs[..n], span)
  }

  lemma {:induction false} ExclusionsAre(legs: seq<Leg>, span: nat)
    ensures AreExclusions(Exclusions(legs, span), legs, span)
    ensures |Exclusions(legs, span)| + Counted(legs, span) == |legs|
  {
    if legs != [] {
      var n := |legs| - 1;
      ExclusionsAre(legs[..n], span);
      ExcludedOrCounted(legs[n], span);
      var before, all := Exclusions(legs[..n], span), Exclusions(legs, span);
      if Excluded(legs[n], span).Some? {
        assert all[..|all| - 1] == before;
      } else {
        assert all == before;
      }
    }
  }

  /** A leg that counts has this much coverage; one has this lag. */
  ghost predicate HasCoverage(legs: seq<Leg>, span: nat, ms: nat) {
    exists i, w | 0 <= i < |legs| :: Contributes(legs[i], span, w) && w.trustedMs == ms
  }

  ghost predicate HasLag(legs: seq<Leg>, span: nat, ms: nat) {
    exists i | 0 <= i < |legs| :: Counts(legs[i], span) && legs[i].lagMs == ms
  }

  /** If the leg counts, it has no less coverage and no more lag. */
  ghost predicate NotWorse(leg: Leg, span: nat, floor: nat, lag: nat) {
    forall w | Contributes(leg, span, w) :: floor <= w.trustedMs && leg.lagMs <= lag
  }

  ghost predicate NoneWorse(legs: seq<Leg>, span: nat, floor: nat, lag: nat) {
    forall i | 0 <= i < |legs| :: NotWorse(legs[i], span, floor, lag)
  }

  /** The least coverage and the greatest lag of the legs that count; zero without any. */
  ghost predicate AreBounds(floor: nat, lag: nat, legs: seq<Leg>, span: nat) {
    && NoneWorse(legs, span, floor, lag)
    && if Counted(legs, span) == 0 then floor == 0 && lag == 0 else HasCoverage(legs, span, floor) && HasLag(legs, span, lag)
  }

  lemma HadInFront(front: seq<Leg>, last: Leg, span: nat, floor: nat, lag: nat)
    requires HasCoverage(front, span, floor) && HasLag(front, span, lag)
    ensures HasCoverage(front + [last], span, floor) && HasLag(front + [last], span, lag)
  {
    var legs := front + [last];
    var i, w :| 0 <= i < |front| && Contributes(front[i], span, w) && w.trustedMs == floor;
    assert Contributes(legs[i], span, w);
    var k :| 0 <= k < |front| && Counts(front[k], span) && front[k].lagMs == lag;
    assert Counts(legs[k], span) && legs[k].lagMs == lag;
  }

  lemma HasLast(front: seq<Leg>, last: Leg, span: nat, w: Reading)
    requires Contributes(last, span, w)
    ensures HasCoverage(front + [last], span, w.trustedMs) && HasLag(front + [last], span, last.lagMs)
    ensures Counts(last, span)
  {
    var legs := front + [last];
    assert Contributes(legs[|front|], span, w);
    assert Counts(legs[|front|], span);
  }

  lemma {:induction false} NoneCountWithoutAny(legs: seq<Leg>, span: nat, i: nat)
    requires i < |legs| && Counts(legs[i], span)
    ensures Counted(legs, span) > 0
  {
    if i < |legs| - 1 {
      NoneCountWithoutAny(legs[..|legs| - 1], span, i);
    }
  }

  lemma NobodyIsWorse(front: seq<Leg>, span: nat, floor: nat, lag: nat)
    requires Counted(front, span) == 0
    ensures NoneWorse(front, span, floor, lag)
  {
    forall i | 0 <= i < |front| ensures NotWorse(front[i], span, floor, lag) {
      if Counts(front[i], span) {
        NoneCountWithoutAny(front, span, i);
      }
    }
  }

  lemma NoneWorseWithOneMore(front: seq<Leg>, last: Leg, span: nat, floor: nat, lag: nat, floor': nat, lag': nat)
    requires NoneWorse(front, span, floor, lag) && floor' <= floor && lag <= lag' && NotWorse(last, span, floor', lag')
    ensures NoneWorse(front + [last], span, floor', lag')
  {
    forall i | 0 <= i < |front| ensures NotWorse(front[i], span, floor', lag') {
      assert NotWorse(front[i], span, floor, lag);
    }
  }

  /** The bounds with a leg more that counts. */
  lemma BoundsWithOneMore(front: seq<Leg>, last: Leg, span: nat, floor: nat, lag: nat, w: Reading)
    requires AreBounds(floor, lag, front, span)
    requires Contributes(last, span, w) && forall v | Contributes(last, span, v) :: v == w
    ensures AreBounds(if Counted(front, span) > 0 && floor <= w.trustedMs then floor else w.trustedMs,
                      Max(lag, last.lagMs), front + [last], span)
  {
    var floor' := if Counted(front, span) > 0 && floor <= w.trustedMs then floor else w.trustedMs;
    HasLast(front, last, span, w);
    assert (front + [last])[..|front|] == front;
    if Counted(front, span) > 0 {
      HadInFront(front, last, span, floor, lag);
      NoneWorseWithOneMore(front, last, span, floor, lag, floor', Max(lag, last.lagMs));
    } else {
      NobodyIsWorse(front, span, floor', lag);
      NoneWorseWithOneMore(front, last, span, floor', lag, floor', Max(lag, last.lagMs));
    }
  }

  lemma BoundsWithout(front: seq<Leg>, last: Leg, span: nat, floor: nat, lag: nat)
    requires !Counts(last, span) && AreBounds(floor, lag, front, span)
    ensures AreBounds(floor, lag, front + [last], span)
  {
    assert (front + [last])[..|front|] == front;
    assert forall v :: !Contributes(last, span, v);
    NoneWorseWithOneMore(front, last, span, floor, lag, floor, lag);
    if Counted(front, span) > 0 {
      HadInFront(front, last, span, floor, lag);
    }
  }

  function FloorOf(s: Sums): nat {
    if s.floor.Some? then s.floor.value else 0
  }

  /** The running sums know the bounds of the legs so far, and how many of them count. */
  ghost predicate Knows(s: Sums, legs: seq<Leg>, span: nat) {
    AreBounds(FloorOf(s), s.maxLag, legs, span) && s.used == Counted(legs, span) && (s.floor.Some? <==> s.used > 0)
  }

  lemma KnowsOneMore(s: Sums, front: seq<Leg>, last: Leg, span: nat)
    requires Knows(s, front, span)
    ensures Knows(Added(s, last, span), front + [last], span)
  {
    ExcludedOrCounted(last, span);
    assert (front + [last])[..|front|] == front;
    if Counts(last, span) {
      BoundsWithOneMore(front, last, span, FloorOf(s), s.maxLag, Published(last.windows, span).value);
    } else {
      BoundsWithout(front, last, span, FloorOf(s), s.maxLag);
    }
  }

  lemma {:induction false} SumsKnowTheLegs(legs: seq<Leg>, span: nat)
    ensures Knows(Summed(legs, span), legs, span)
  {
    if legs != [] {
      var front, last := legs[..|legs| - 1], legs[|legs| - 1];
      SumsKnowTheLegs(front, span);
      KnowsOneMore(Summed(front, span), front, last, span);
      assert legs == front + [last];
    }
  }

  /** High less low in basis points of the mean, if there is one to divide by. */
  ghost predicate IsRange(r: CrossReading) {
    && (r.rangeBps.Some? <==> r.mean.Some? && r.high.Some? && r.low.Some? && r.mean.value != 0.0)
    && (r.rangeBps.Some? ==>
          WindowReadings.Rounded(r.rangeBps.value, 10_000.0 * ((r.high.value - r.low.value) / r.mean.value), 10_000.0))
  }

  lemma ReportedRange(s: Sums, span: nat, excluded: seq<Exclusion>)
    ensures IsRange(Reported(s, span, excluded))
  {
    var r := Reported(s, span, excluded);
    if r.rangeBps.Some? {
      WindowReadings.BpsMeans(r.high.value - r.low.value, r.mean.value);
    }
  }

  /**
   What the consolidated reading of one span says of its legs: how many count, the least coverage
   and the greatest lag among them, and of each other leg, in order, why it does not.
   */
  lemma ConsolidationSaysWhoCounted(legs: seq<Leg>, span: nat)
    ensures var r := Reported(Summed(legs, span), span, Exclusions(legs, span));
            && r.spanMs == span && r.venuesUsed == Counted(legs, span) && |r.excluded| + r.venuesUsed == |legs|
            && AreExclusions(r.excluded, legs, span) && AreBounds(r.trustedMsFloor, r.maxLagMs, legs, span) && IsRange(r)
  {
    ExclusionsAre(legs, span);
    SumsKnowTheLegs(legs, span);
    ReportedRange(Summed(legs, span), span, Exclusions(legs, span));
  }
}
