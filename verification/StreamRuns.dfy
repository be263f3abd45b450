/**
 One stream over a whole run of the aggregator (crates/ma-pipeline/src/aggregator.rs): messages
 are folded in and snapshots published, and what is published is about every message before it.
 */
module StreamRuns {
  import opened Types
  import opened Tally
  import opened Coverage
  import opened Book
  import opened Windows
  import WindowReadings
  import opened TrustTime

  /** What the aggregator's loop does next with the stream, and when. */
  datatype Turn = Fold(m: Applied, at: IngestTime) | Tick(at: IngestTime)

  datatype Answer = Silent | Published(readings: seq<Reading>, desynced: nat)

  function StepOf(t: Turn): Step {
    match t
    case Fold(m, at) => Message(PhaseOf(m.book.state), at.mono)
    case Tick(now) => Snap(now.mono)
  }

  function StepsOf(turns: seq<Turn>): seq<Step> {
    if turns == [] then [] else StepsOf(turns[..|turns| - 1]) + [StepOf(turns[|turns| - 1])]
  }

  ghost function SeenIn(t: Turn, created: int, resolution: nat): seq<Seen>
    requires resolution > 0
  {
    match t
    case Fold(m, at) => SeenOf(m, IndexAt(created, resolution, at.mono))
    case Tick(_) => []
  }

  ghost function SeenOver(turns: seq<Turn>, created: int, resolution: nat): seq<Seen>
    requires resolution > 0
  {
    if turns == [] then []
    else SeenOver(turns[..|turns| - 1], created, resolution) + SeenIn(turns[|turns| - 1], created, resolution)
  }

  /**
   What is answered to turn `t` after the turns `before`: nothing to a message; to a tick, the
   desynced time so far and, if no stamp has gone back, the naive readings of all that came before.
   */
  ghost predicate Tells(a: Answer, created: int, resolution: nat, spans: seq<nat>, before: seq<Turn>, t: Turn)
    requires resolution > 0
  {
    var steps := StepsOf(before) + [StepOf(t)];
    match t
    case Fold(_, _) => a.Silent?
    case Tick(now) =>
      && a.Published? && |a.readings| == |spans| && a.desynced == DesyncedTotal(Ran(created, steps), now.mono)
      && (Ordered(created, steps) ==>
            forall j | 0 <= j < |spans| ::
              a.readings[j] == Naive(SeenOver(before, created, resolution), Ran(created, steps).log, created, resolution,
                                     spans[j], IndexAt(created, resolution, now.mono)))
  }

  method Take(s: VenueState, t: Turn) returns (a: Answer)
    requires s.Valid()
    modifies s, s.windows, s.windows.buckets
    ensures s.Valid() && s.Value() == Stepped(old(s.Value()), StepOf(t))
    ensures s.windows.seen == old(s.windows.seen) + SeenIn(t, s.windows.origin, s.windows.resolution)
    ensures old(s.windows.chargedTo) <= t.at.mono ==> s.windows.intact == old(s.windows.intact)
    ensures t.Fold? <==> a.Silent?
    ensures a.Published? ==>
              && |a.readings| == |s.windows.spans| && a.desynced == DesyncedTotal(s.Value(), t.at.mono)
              && (s.windows.intact && old(s.windows.chargedTo) <= t.at.mono ==>
                    forall j | 0 <= j < |s.windows.spans| ::
                      a.readings[j] == Naive(old(s.windows.seen), s.windows.log, s.windows.origin, s.windows.resolution,
                                             s.windows.spans[j], IndexAt(s.windows.origin, s.windows.resolution, t.at.mono)))
  {
    match t
    case Fold(m, at) =>
      s.Apply(m, at);
      a := Silent;
    case Tick(now) =>
      var readings, desynced := s.Snapshot(now);
      a := Published(readings, desynced);
  }

  /** The windows' clock stands at the latest stamp. */
  lemma ClockIsTheLatest(created: int, steps: seq<Step>)
    ensures Ran(created, steps).chargedTo == Latest(created, steps)
  {
    RunsAreExact(created, steps);
  }

  lemma TurnsOn(turns: seq<Turn>, k: nat, created: int, resolution: nat)
    requires k < |turns| && resolution > 0
    ensures StepsOf(turns[..k + 1]) == StepsOf(turns[..k]) + [StepOf(turns[k])]
    ensures SeenOver(turns[..k + 1], created, resolution) ==
            SeenOver(turns[..k], created, resolution) + SeenIn(turns[k], created, resolution)
    ensures Ran(created, StepsOf(turns[..k + 1])) == Stepped(Ran(created, StepsOf(turns[..k])), StepOf(turns[k]))
    ensures Ordered(created, StepsOf(turns[..k + 1])) <==>
              Ordered(created, StepsOf(turns[..k])) && Ran(created, StepsOf(turns[..k])).chargedTo <= turns[k].at.mono
  {
    var more := turns[..k + 1];
    assert more[..|more| - 1] == turns[..k] && more[|more| - 1] == turns[k];
    var steps := StepsOf(more);
    assert steps[..|steps| - 1] == StepsOf(turns[..k]) && steps[|steps| - 1] == StepOf(turns[k]);
    ClockIsTheLatest(created, StepsOf(turns[..k]));
  }

  /** A tick answered from these accounts and this record is told right. */
  lemma Answered(a: Answer, created: int, resolution: nat, spans: seq<nat>, before: seq<Turn>, t: Turn)
    requires resolution > 0 && (t.Fold? <==> a.Silent?)
    requires var after := Stepped(Ran(created, StepsOf(before)), StepOf(t));
             a.Published? ==>
               && |a.readings| == |spans| && a.desynced == DesyncedTotal(after, t.at.mono)
               && (Ordered(created, StepsOf(before)) && Ran(created, StepsOf(before)).chargedTo <= t.at.mono ==>
                     forall j | 0 <= j < |spans| ::
                       a.readings[j] == Naive(SeenOver(before, created, resolution), after.log, created, resolution,
                                              spans[j], IndexAt(created, resolution, t.at.mono)))
    ensures Tells(a, created, resolution, spans, before, t)
  {
    var turns := before + [t];
    assert turns[..|before|] == before && turns[..|before| + 1] == turns;
    TurnsOn(turns, |before|, created, resolution);
  }

  /** The stream's state is that of a run of these turns. */
  ghost predicate Stands(s: VenueState, created: int, resolution: nat, spans: seq<nat>, before: seq<Turn>)
    requires resolution > 0
    reads s, s.windows, s.windows.buckets
  {
    && s.Valid() && s.windows.origin == created && s.windows.resolution == resolution && s.windows.spans == spans
    && s.Value() == Ran(created, StepsOf(before)) && s.windows.seen == SeenOver(before, created, resolution)
    && (Ordered(created, StepsOf(before)) ==> s.windows.intact)
  }

  method Next(s: VenueState, turns: seq<Turn>, i: nat, ghost created: int, ghost resolution: nat, ghost spans: seq<nat>)
    returns (a: Answer)
    requires i < |turns| && resolution > 0 && Stands(s, created, resolution, spans, turns[..i])
    modifies s, s.windows, s.windows.buckets
    ensures Stands(s, created, resolution, spans, turns[..i + 1])
    ensures Tells(a, created, resolution, spans, turns[..i], turns[i])
  {
    TurnsOn(turns, i, created, resolution);
    a := Take(s, turns[i]);
    Answered(a, created, resolution, spans, turns[..i], turns[i]);
  }

  /** No span is shorter than the resolution. */
  function Clamped(spans: seq<nat>, resolution: nat): (clamped: seq<nat>)
    ensures |clamped| == |spans| && forall j | 0 <= j < |spans| :: clamped[j] == Max(spans[j], resolution)
  {
    seq(|spans|, j requires 0 <= j < |spans| => if spans[j] >= resolution then spans[j] else resolution)
  }

  /** Every answer tells what it should. */
  ghost predicate AllTell(answers: seq<Answer>, created: int, resolution: nat, spans: seq<nat>, turns: seq<Turn>)
    requires resolution > 0
  {
    && |answers| == |turns|
    && (turns != [] ==>
          && AllTell(answers[..|turns| - 1], created, resolution, spans, turns[..|turns| - 1])
          && Tells(answers[|turns| - 1], created, resolution, spans, turns[..|turns| - 1], turns[|turns| - 1]))
  }

  lemma AllTellOneMore(answers: seq<Answer>, a: Answer, created: int, resolution: nat, spans: seq<nat>, turns: seq<Turn>, i: nat)
    requires resolution > 0 && i < |turns| && AllTell(answers, created, resolution, spans, turns[..i])
    requires Tells(a, created, resolution, spans, turns[..i], turns[i])
    ensures AllTell(answers + [a], created, resolution, spans, turns[..i + 1])
  {
    assert (answers + [a])[..i] == answers && turns[..i + 1][..i] == turns[..i];
  }

  lemma {:induction false} EachTells(answers: seq<Answer>, created: int, resolution: nat, spans: seq<nat>, turns: seq<Turn>, k: nat)
    requires resolution > 0 && AllTell(answers, created, resolution, spans, turns) && k < |turns|
    ensures Tells(answers[k], created, resolution, spans, turns[..k], turns[k])
  {
    var n := |turns| - 1;
    if k < n {
      EachTells(answers[..n], created, resolution, spans, turns[..n], k);
      assert turns[..n][..k] == turns[..k];
    }
  }

  /** The loop of the aggregator, seen by one stream from its creation on; see `EachTells`. */
  method Serve(resolution: nat, spans: seq<nat>, created: IngestTime, turns: seq<Turn>) returns (answers: seq<Answer>)
    ensures AllTell(answers, created.mono, Max(resolution, NS_PER_MS), Clamped(spans, Max(resolution, NS_PER_MS)), turns)
  {
    var s := new VenueState(resolution, spans, created);
    answers := [];
    ghost var r: nat := Max(resolution, NS_PER_MS);
    ghost var clamped := Clamped(spans, r);
    assert s.windows.spans == clamped;
    for i := 0 to |turns|
      modifies s, s.windows, s.windows.buckets
      invariant Stands(s, created.mono, r, clamped, turns[..i])
      invariant AllTell(answers, created.mono, r, clamped, turns[..i])
    {
      var a := Next(s, turns, i, created.mono, r, clamped);
      AllTellOneMore(answers, a, created.mono, r, clamped, turns, i);
      answers := answers + [a];
    }
    assert turns[..|turns|] == turns;
  }

  ////////// What the readings count

  function QtyOf(prints: seq<(real, real)>): real {
    if prints == [] then 0.0 else QtyOf(prints[..|prints| - 1]) + prints[|prints| - 1].1
  }

  /** The message is stamped in one of these buckets. */
  predicate StampedIn(t: Turn, created: int, resolution: nat, lo: nat, hi: nat)
    requires resolution > 0
  {
    t.Fold? && lo <= IndexAt(created, resolution, t.at.mono) < hi
  }

  /** How many prints one turn carries into these buckets, and how much is traded in them. */
  function TradesOf(t: Turn, created: int, resolution: nat, lo: nat, hi: nat): nat
    requires resolution > 0
  {
    if StampedIn(t, created, resolution, lo, hi) then |t.m.prints| else 0
  }

  function VolumeOf(t: Turn, created: int, resolution: nat, lo: nat, hi: nat): real
    requires resolution > 0
  {
    if StampedIn(t, created, resolution, lo, hi) then QtyOf(t.m.prints) else 0.0
  }

  /** How many prints the messages stamped in these buckets carry. */
  function TradesIn(turns: seq<Turn>, created: int, resolution: nat, lo: nat, hi: nat): nat
    requires resolution > 0
  {
    if turns == [] then 0
    else
      TradesIn(turns[..|turns| - 1], created, resolution, lo, hi)
      + TradesOf(turns[|turns| - 1], created, resolution, lo, hi)
  }

  /** And how much is traded in them. */
  function VolumeIn(turns: seq<Turn>, created: int, resolution: nat, lo: nat, hi: nat): real
    requires resolution > 0
  {
    if turns == [] then 0.0
    else
      VolumeIn(turns[..|turns| - 1], created, resolution, lo, hi)
      + VolumeOf(turns[|turns| - 1], created, resolution, lo, hi)
  }

  lemma {:induction false} WithinConcat(xs: seq<Seen>, ys: seq<Seen>, lo: nat, hi: nat)
    ensures Within(xs + ys, lo, hi) == Within(xs, lo, hi) + Within(ys, lo, hi)
  {
    if ys == [] {
      assert xs + ys == xs;
    } else {
      var all := xs + ys;
      assert all[..|all| - 1] == xs + ys[..|ys| - 1] && all[|all| - 1] == ys[|ys| - 1];
      WithinConcat(xs, ys[..|ys| - 1], lo, hi);
    }
  }

  lemma {:induction false} TotalOfConcat(xs: seq<real>, ys: seq<real>)
    ensures Total(xs + ys) == Total(xs) + Total(ys)
  {
    if ys == [] {
      assert xs + ys == xs;
    } else {
      var all := xs + ys;
      assert all[..|all| - 1] == xs + ys[..|ys| - 1] && all[|all| - 1] == ys[|ys| - 1];
      TotalOfConcat(xs, ys[..|ys| - 1]);
    }
  }

  lemma QuantitiesOfConcat(xs: seq<Seen>, ys: seq<Seen>)
    ensures Total(Quantities(xs + ys)) == Total(Quantities(xs)) + Total(Quantities(ys))
  {
    assert Quantities(xs + ys) == Quantities(xs) + Quantities(ys);
    TotalOfConcat(Quantities(xs), Quantities(ys));
  }

  lemma WithinOne(s: Seen, lo: nat, hi: nat)
    ensures Within([s], lo, hi) == if lo <= s.index < hi then [s] else []
  {
    assert [s][..0] == [];
  }

  lemma {:induction false} PrintsCount(prints: seq<(real, real)>, index: nat, lo: nat, hi: nat)
    ensures var w := Within(PrintsOf(prints, index), lo, hi);
            && PrintCount(w) == (if lo <= index < hi then |prints| else 0)
            && Total(Quantities(w)) == if lo <= index < hi then QtyOf(prints) else 0.0
  {
    if prints != [] {
      var front, last := prints[..|prints| - 1], prints[|prints| - 1];
      var one := Printed(index, last.0, last.1);
      PrintsCount(front, index, lo, hi);
      CountsOfBoth(PrintsOf(front, index), [one], lo, hi);
      PrintCounts(one, lo, hi);
    }
  }

  lemma PrintCounts(s: Seen, lo: nat, hi: nat)
    requires s.Print?
    ensures var w := Within([s], lo, hi);
            && PrintCount(w) == (if lo <= s.index < hi then 1 else 0)
            && Total(Quantities(w)) == if lo <= s.index < hi then s.qty else 0.0
  {
    WithinOne(s, lo, hi);
    assert [] + [s] == [s];
    CountsAppend([], s);
    QuantitiesOn([], s);
  }

  lemma QuantitiesOn(w: seq<Seen>, s: Seen)
    ensures Total(Quantities(w + [s])) == Total(Quantities(w)) + if s.Print? then s.qty else 0.0
  {
    assert Quantities(w + [s]) == Quantities(w) + [if s.Print? then s.qty else 0.0];
    TotalAppend(Quantities(w), if s.Print? then s.qty else 0.0);
  }

  lemma MessageCounts(m: Applied, index: nat, lo: nat, hi: nat)
    ensures var w := Within(SeenOf(m, index), lo, hi);
            && PrintCount(w) == (if lo <= index < hi then |m.prints| else 0)
            && Total(Quantities(w)) == if lo <= index < hi then QtyOf(m.prints) else 0.0
  {
    var sample := SampleOf(TopOf(m.book), index);
    PrintsCount(m.prints, index, lo, hi);
    WithinConcat(PrintsOf(m.prints, index), sample, lo, hi);
    var w := Within(PrintsOf(m.prints, index), lo, hi);
    if sample == [] {
      assert w + Within(sample, lo, hi) == w;
    } else {
      WithinOne(sample[0], lo, hi);
      assert w + [] == w;
      CountsAppend(w, sample[0]);
      QuantitiesOn(w, sample[0]);
    }
  }

  lemma TurnCounts(t: Turn, created: int, resolution: nat, lo: nat, hi: nat)
    requires resolution > 0
    ensures var w := Within(SeenIn(t, created, resolution), lo, hi);
            PrintCount(w) == TradesOf(t, created, resolution, lo, hi) && Total(Quantities(w)) == VolumeOf(t, created, resolution, lo, hi)
  {
    if t.Fold? {
      MessageCounts(t.m, IndexAt(created, resolution, t.at.mono), lo, hi);
    }
  }

  lemma CountsOfBoth(before: seq<Seen>, more: seq<Seen>, lo: nat, hi: nat)
    ensures var w, a, b := Within(before + more, lo, hi), Within(before, lo, hi), Within(more, lo, hi);
            && PrintCount(w) == PrintCount(a) + PrintCount(b)
            && Total(Quantities(w)) == Total(Quantities(a)) + Total(Quantities(b))
  {
    WithinConcat(before, more, lo, hi);
    CountsOfConcat(Within(before, lo, hi), Within(more, lo, hi));
    QuantitiesOfConcat(Within(before, lo, hi), Within(more, lo, hi));
  }

  /** No print is lost or counted twice between the messages and the windows' record. */
  lemma {:induction false} PrintsAreConserved(turns: seq<Turn>, created: int, resolution: nat, lo: nat, hi: nat)
    requires resolution > 0
    ensures var w := Within(SeenOver(turns, created, resolution), lo, hi);
            && PrintCount(w) == TradesIn(turns, created, resolution, lo, hi)
            && Total(Quantities(w)) == VolumeIn(turns, created, resolution, lo, hi)
  {
    if turns != [] {
      var front, last := turns[..|turns| - 1], turns[|turns| - 1];
      PrintsAreConserved(front, created, resolution, lo, hi);
      CountsOfBoth(SeenOver(front, created, resolution), SeenIn(last, created, resolution), lo, hi);
      TurnCounts(last, created, resolution, lo, hi);
    }
  }

  /** The reading has the trades and the volume of the messages stamped in the span's buckets. */
  ghost predicate CountsPrints(r: Reading, before: seq<Turn>, created: int, resolution: nat, span: nat, end: nat)
    requires resolution > 0
  {
    var k := BucketsFor(span, resolution);
    var lo := if end >= k then end - k else 0;
    var trades := TradesIn(before, created, resolution, lo, end);
    r.trades == trades && r.volume == if trades > 0 then Some(VolumeIn(before, created, resolution, lo, end)) else None
  }

  lemma NaiveCountsPrints(before: seq<Turn>, log: seq<Stretch>, created: int, resolution: nat, span: nat, end: nat)
    requires resolution > 0
    ensures CountsPrints(Naive(SeenOver(before, created, resolution), log, created, resolution, span, end),
                         before, created, resolution, span, end)
  {
    var k := BucketsFor(span, resolution);
    WindowReadings.NaiveMeansWhatItSays(SeenOver(before, created, resolution), log, created, resolution, span, end);
    PrintsAreConserved(before, created, resolution, if end >= k then end - k else 0, end);
  }

  /** What a tick tells, with the log of the run so far. */
  lemma TickTells(created: int, resolution: nat, spans: seq<nat>, before: seq<Turn>, now: IngestTime, a: Answer, j: nat)
    returns (log: seq<Stretch>)
    requires resolution > 0 && j < |spans| && Tells(a, created, resolution, spans, before, Tick(now))
    requires Ordered(created, StepsOf(before) + [Snap(now.mono)])
    ensures a.Published? && j < |a.readings|
    ensures a.readings[j] == Naive(SeenOver(before, created, resolution), log, created, resolution, spans[j],
                                   IndexAt(created, resolution, now.mono))
  {
    log := Ran(created, StepsOf(before) + [Snap(now.mono)]).log;
  }

  /**
   So a window published in a run whose stamps do not go back reports as many trades and as much
   volume as the messages stamped in its span carried, whatever state the book was in.
   */
  lemma EveryPrintIsReported(
    created: int, resolution: nat, spans: seq<nat>, before: seq<Turn>, now: IngestTime, a: Answer, j: nat)
    requires resolution > 0 && j < |spans| && Tells(a, created, resolution, spans, before, Tick(now))
    requires Ordered(created, StepsOf(before) + [Snap(now.mono)])
    ensures a.Published? && j < |a.readings|
    ensures CountsPrints(a.readings[j], before, created, resolution, spans[j], IndexAt(created, resolution, now.mono))
  {
    var log := TickTells(created, resolution, spans, before, now, a, j);
    NaiveCountsPrints(before, log, created, resolution, spans[j], IndexAt(created, resolution, now.mono));
  }
}
