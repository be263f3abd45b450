/**
 The two accounts a stream keeps of its trust (crates/ma-pipeline/src/aggregator.rs): time
 desynced, kept at state transitions, and time trusted, kept by the rolling windows
 (crates/ma-core/src/window.rs). Times are nanoseconds on the ingest clock.
 */
module TrustTime {
  import opened Types
  import opened Coverage
  import opened Tally
  import opened Book
  import opened Windows

  datatype Phase = Unstarted | Trusted | Distrusted

  function PhaseOf(s: BookState): Phase {
    match s
    case Uninitialized => Unstarted
    case Live(_, _, _) => Trusted
    case Desynced(_, _) => Distrusted
  }

  /** Both accounts: `total` and `since` of desync, `log` of the windows up to `chargedTo`. */
  datatype Accounts = Accounts(
    phase: Phase, total: nat, since: Option<int>, chargedTo: int, trusted: bool, log: seq<Stretch>)

  function Opened(created: int): Accounts {
    Accounts(Unstarted, 0, None, created, false, [])
  }

  /** A state transition; staying desynced for another reason keeps the clock running. */
  function Transitioned(a: Accounts, after: Phase, at: int): Accounts {
    if !a.phase.Distrusted? && after.Distrusted? then a.(phase := after, since := Some(at))
    else if a.phase.Distrusted? && !after.Distrusted? && a.since.Some? then
      a.(phase := after, total := a.total + Max(0, at - a.since.value), since := None)
    else a.(phase := after)
  }

  /** Time passes for the windows with trust as it was. */
  function ChargedTo(a: Accounts, at: int): Accounts {
    var to := Max(a.chargedTo, at);
    a.(log := Extended(a.log, a.chargedTo, to, a.trusted), chargedTo := to)
  }

  /** A message leaves the book in this phase. */
  function Told(a: Accounts, after: Phase, at: int): Accounts {
    ChargedTo(Transitioned(a, after, at), at).(trusted := after.Trusted?)
  }

  function DesyncedTotal(a: Accounts, now: int): nat {
    if a.since.Some? then a.total + Max(0, now - a.since.value) else a.total
  }

  function TrustedTotal(a: Accounts, created: int): nat {
    Time(a.log, true, created, a.chargedTo)
  }

  ////////// Runs

  datatype Step = Message(after: Phase, at: int) | Snap(at: int)

  function Stepped(a: Accounts, s: Step): Accounts {
    match s
    case Message(after, at) => Told(a, after, at)
    case Snap(at) => ChargedTo(a, at)
  }

  function Ran(created: int, steps: seq<Step>): Accounts {
    if steps == [] then Opened(created)
    else Stepped(Ran(created, steps[..|steps| - 1]), steps[|steps| - 1])
  }

  /** The latest stamp so far: a late one does not turn the clock back. */
  function Latest(created: int, steps: seq<Step>): int {
    if steps == [] then created else Max(Latest(created, steps[..|steps| - 1]), steps[|steps| - 1].at)
  }

  /** Stamps never go back, from the stream's creation on. */
  predicate Ordered(created: int, steps: seq<Step>) {
    steps == [] ||
    (Ordered(created, steps[..|steps| - 1]) && Latest(created, steps[..|steps| - 1]) <= steps[|steps| - 1].at)
  }

  /** The phase the last message left. */
  function PhaseAfter(steps: seq<Step>): Phase {
    if steps == [] then Unstarted
    else if steps[|steps| - 1].Message? then steps[|steps| - 1].after
    else PhaseAfter(steps[..|steps| - 1])
  }

  /** The reference: time spent in a phase, each interval counted by the phase it began with. */
  function Spent(created: int, steps: seq<Step>, p: Phase): int {
    if steps == [] then 0
    else
      var front := steps[..|steps| - 1];
      Spent(created, front, p) + if PhaseAfter(front) == p then Latest(created, steps) - Latest(created, front) else 0
  }

  /** Every instant since creation is in exactly one phase. */
  lemma {:induction false} PhasesShareAllTime(created: int, steps: seq<Step>)
    ensures Spent(created, steps, Unstarted) + Spent(created, steps, Trusted) + Spent(created, steps, Distrusted) ==
            Latest(created, steps) - created
  {
    if steps != [] {
      PhasesShareAllTime(created, steps[..|steps| - 1]);
    }
  }

  /**
   The accounts of a stream in `phase` whose clock stands at `now` and which has spent this long
   live. What they say of desync may be off.
   */
  ghost predicate InStep(created: int, phase: Phase, now: int, trusted: int, a: Accounts) {
    && a.phase == phase && a.chargedTo == now && a.trusted == phase.Trusted?
    && (a.since.Some? <==> phase.Distrusted?) && (a.since.Some? ==> a.since.value <= now)
    && Covers(a.log, created, now) && TrustedTotal(a, created) == trusted
  }

  /** A log has nothing to say about time beyond its end. */
  lemma {:induction false} NothingBeyond(log: seq<Stretch>, from: int, to: int, trusted: bool, hi: int)
    requires Covers(log, from, to) && to <= hi
    ensures Time(log, trusted, from, hi) == Time(log, trusted, from, to)
  {
    CoversOrders(log, from, to);
    NoTimeAfter(log, from, to, trusted, to, hi);
    TimeSplits(log, trusted, from, to, hi);
  }

  lemma ChargingCounts(a: Accounts, created: int, at: int)
    requires Covers(a.log, created, a.chargedTo)
    ensures var after, to := ChargedTo(a, at), Max(a.chargedTo, at);
            && Covers(after.log, created, to)
            && TrustedTotal(after, created) == TrustedTotal(a, created) + if a.trusted then to - a.chargedTo else 0
  {
    var to := Max(a.chargedTo, at);
    ExtendedCovers(a.log, created, a.chargedTo, to, a.trusted);
    CoversOrders(a.log, created, a.chargedTo);
    NothingBeyond(a.log, created, a.chargedTo, true, to);
    if a.chargedTo < to {
      TimeAppend(a.log, Stretch(a.chargedTo, to, a.trusted), true, created, to);
    }
  }

  /** How much a step adds to the desync account beyond the time that passed in desync. */
  function Slip(a: Accounts, s: Step): int {
    if s.Snap? || s.after.Distrusted? == a.phase.Distrusted? then 0
    else if s.after.Distrusted? then Max(a.chargedTo, s.at) - s.at
    else if a.since.Some? then Max(a.since.value, s.at) - Max(a.chargedTo, s.at)
    else 0
  }

  /**
   One step, its stamp in order or not. Trusted time is always right; desynced time is too, but
   for a late message that enters desync, since counted from its stamp, or leaves it, until then.
   */
  lemma StepCounts(created: int, phase: Phase, now: int, trusted: int, a: Accounts, s: Step)
    requires InStep(created, phase, now, trusted, a)
    ensures var b, to := Stepped(a, s), Max(now, s.at);
            && InStep(created, if s.Message? then s.after else phase, to, trusted + (if phase.Trusted? then to - now else 0), b)
            && DesyncedTotal(b, to) == DesyncedTotal(a, now) + (if phase.Distrusted? then to - now else 0) + Slip(a, s)
  {
    if s.Message? {
      var b := Transitioned(a, s.after, s.at);
      ChargingCounts(b, created, s.at);
      assert TrustedTotal(b, created) == TrustedTotal(a, created);
      assert TrustedTotal(Stepped(a, s), created) == TrustedTotal(ChargedTo(b, s.at), created);
    } else {
      ChargingCounts(a, created, s.at);
    }
  }

  /** Everything a run's late messages add to the desync account, or take from it. */
  function Slips(created: int, steps: seq<Step>): int {
    if steps == [] then 0
    else
      var front := steps[..|steps| - 1];
      Slips(created, front) + Slip(Ran(created, front), steps[|steps| - 1])
  }

  /** After any run, in order or not: trusted time is the time spent live, and desynced time is off by the slips. */
  lemma {:induction false} RunsAreExact(created: int, steps: seq<Step>)
    ensures var a, now := Ran(created, steps), Latest(created, steps);
            && InStep(created, PhaseAfter(steps), now, Spent(created, steps, Trusted), a)
            && DesyncedTotal(a, now) == Spent(created, steps, Distrusted) + Slips(created, steps)
  {
    if steps != [] {
      var front, last := steps[..|steps| - 1], steps[|steps| - 1];
      RunsAreExact(created, front);
      StepCounts(created, PhaseAfter(front), Latest(created, front), Spent(created, front, Trusted), Ran(created, front), last);
    }
  }

  /** Stamps in order never slip. */
  lemma {:induction false} OrderedNeverSlips(created: int, steps: seq<Step>)
    requires Ordered(created, steps)
    ensures Slips(created, steps) == 0
  {
    if steps != [] {
      var front := steps[..|steps| - 1];
      OrderedNeverSlips(created, front);
      RunsAreExact(created, front);
    }
  }

  /**
   The two accounts agree with the phases and with each other: for stamps in order, the time
   counted as desynced is the time the book spent desynced at message boundaries, the windows'
   trusted time is the time it spent live, and with the time before it started they make up all
   the time there was.
   */
  lemma TrustTimeIsConserved(created: int, steps: seq<Step>, now: int)
    requires Ordered(created, steps + [Snap(now)])
    ensures var run := steps + [Snap(now)];
            var a := Ran(created, run);
            && DesyncedTotal(a, now) == Spent(created, run, Distrusted)
            && TrustedTotal(a, created) == Spent(created, run, Trusted)
            && TrustedTotal(a, created) + DesyncedTotal(a, now) + Spent(created, run, Unstarted) == now - created
  {
    var run := steps + [Snap(now)];
    assert run[..|run| - 1] == steps;
    RunsAreExact(created, run);
    OrderedNeverSlips(created, run);
    PhasesShareAllTime(created, run);
  }

  ////////// When stamps are not in order

  /** At the latest stamp of the run, desynced, trusted and unstarted time make up the time there was. */
  ghost predicate Conserves(created: int, steps: seq<Step>) {
    var a, now := Ran(created, steps), Latest(created, steps);
    TrustedTotal(a, created) + DesyncedTotal(a, now) + Spent(created, steps, Unstarted) == now - created
  }

  /** The message enters desync stamped before the windows' clock, or leaves one that stood before it by an earlier stamp. */
  predicate TooLate(a: Accounts, s: Step) {
    s.Message? &&
    if s.after.Distrusted? then !a.phase.Distrusted? && s.at < a.chargedTo
    else a.phase.Distrusted? && a.since.Some? && Max(s.at, a.since.value) < a.chargedTo
  }

  /** However late its stamps, a run conserves time exactly if its slips cancel. */
  lemma ConservesIffSlipsCancel(created: int, steps: seq<Step>)
    ensures Conserves(created, steps) <==> Slips(created, steps) == 0
  {
    RunsAreExact(created, steps);
    PhasesShareAllTime(created, steps);
  }

  /** While time is conserved, one more step keeps it so exactly if it is not too late. */
  lemma ConservesOn(created: int, steps: seq<Step>, k: nat)
    requires k < |steps| && Conserves(created, steps[..k])
    ensures Conserves(created, steps[..k + 1]) <==> !TooLate(Ran(created, steps[..k]), steps[k])
  {
    var front, more := steps[..k], steps[..k + 1];
    assert more[..|more| - 1] == front && more[|more| - 1] == steps[k];
    ConservesIffSlipsCancel(created, front);
    ConservesIffSlipsCancel(created, more);
    RunsAreExact(created, front);
    SlipsExactlyWhenTooLate(created, PhaseAfter(front), Latest(created, front), Spent(created, front, Trusted),
                            Ran(created, front), steps[k]);
  }

  lemma {:induction false} ConservedUntil(created: int, steps: seq<Step>, m: nat)
    requires m <= |steps| && forall k | 0 <= k < m :: !TooLate(Ran(created, steps[..k]), steps[k])
    ensures Conserves(created, steps[..m])
  {
    if m == 0 {
      ConservesIffSlipsCancel(created, []);
    } else {
      ConservedUntil(created, steps, m - 1);
      ConservesOn(created, steps, m - 1);
    }
  }

  /** Time is conserved at every point of a run exactly if no message enters or leaves desync too late. */
  lemma ConservedThroughoutExactlyWhen(created: int, steps: seq<Step>)
    ensures (forall k | 0 <= k <= |steps| :: Conserves(created, steps[..k]))
            <==> (forall k | 0 <= k < |steps| :: !TooLate(Ran(created, steps[..k]), steps[k]))
  {
    if forall k | 0 <= k < |steps| :: !TooLate(Ran(created, steps[..k]), steps[k]) {
      forall k | 0 <= k <= |steps| ensures Conserves(created, steps[..k]) {
        ConservedUntil(created, steps, k);
      }
    } else {
      var k :| 0 <= k < |steps| && TooLate(Ran(created, steps[..k]), steps[k]);
      if Conserves(created, steps[..k]) {
        ConservesOn(created, steps, k);
      }
    }
  }

  lemma SlipsExactlyWhenTooLate(created: int, phase: Phase, now: int, trusted: int, a: Accounts, s: Step)
    requires InStep(created, phase, now, trusted, a)
    ensures Slip(a, s) != 0 <==> TooLate(a, s)
  {
  }

  /** A message stamped before the last reading is counted by both accounts: trusted until the reading, desynced since its stamp. */
  lemma LateMessagesCountTwice(created: int, late: nat)
    requires late > 0
    ensures var steps := [Message(Trusted, created), Snap(created + late), Message(Distrusted, created)];
            var a := Ran(created, steps);
            TrustedTotal(a, created) + DesyncedTotal(a, created + late) == 2 * late
  {
    var one := [Message(Trusted, created)];
    var two := one + [Snap(created + late)];
    var three := two + [Message(Distrusted, created)];
    assert three == [Message(Trusted, created), Snap(created + late), Message(Distrusted, created)];
    RanOn(created, [], Message(Trusted, created));
    assert [] + one == one;
    RanOn(created, one, Snap(created + late));
    RanOn(created, two, Message(Distrusted, created));
    var log := [Stretch(created, created + late, true)];
    assert Ran(created, two).log == log by {
      assert [] + log == log;
    }
    assert log[..0] == [];
    assert Time(log[..0], true, created, created + late) == 0;
  }

  lemma RanOn(created: int, steps: seq<Step>, s: Step)
    ensures Ran(created, steps + [s]) == Stepped(Ran(created, steps), s)
  {
    assert (steps + [s])[..|steps|] == steps;
  }

  ////////// What a message shows the windows

  /** One applied message: the book it left, and the prints it carried as price and quantity. */
  datatype Applied = Applied(book: BookValue, prints: seq<(real, real)>)

  function PrintsOf(prints: seq<(real, real)>, index: nat): seq<Seen> {
    if prints == [] then []
    else
      var front, last := prints[..|prints| - 1], prints[|prints| - 1];
      PrintsOf(front, index) + [Printed(index, last.0, last.1)]
  }

  /** The part of a book that windows read. */
  ghost function TopOf(b: BookValue): Top {
    var bid, ask := Best(Bid, b.bids), Best(Ask, b.asks);
    Top(if bid.Some? then Some(bid.value.price) else None, if ask.Some? then Some(ask.value.price) else None,
        if b.state.Live? then Some(b.state.integrity) else None)
  }

  ghost function SampleOf(top: Top, index: nat): seq<Seen> {
    if top.live.Some? && top.bid.Some? && top.ask.Some? then
      [Sample(index, (top.bid.value + top.ask.value) / 2.0, top.ask.value - top.bid.value, top.live.value)]
    else []
  }

  ghost function SeenOf(m: Applied, index: nat): seq<Seen> {
    PrintsOf(m.prints, index) + SampleOf(TopOf(m.book), index)
  }

  lemma {:induction false} PrintsAreSeen(prints: seq<(real, real)>, index: nat)
    ensures |PrintsOf(prints, index)| == |prints|
    ensures forall j | 0 <= j < |prints| :: PrintsOf(prints, index)[j] == Print(index, prints[j].1, prints[j].0 * prints[j].1)
  {
    if prints != [] {
      PrintsAreSeen(prints[..|prints| - 1], index);
    }
  }

  /**
   The windows see each print of a message in order, with its quantity and what was paid for it,
   and then, if the book is live and has both sides, one sample of its best prices.
   */
  lemma MessagesAreSeenWhole(m: Applied, index: nat)
    ensures var seen, n := SeenOf(m, index), |m.prints|;
            && |seen| >= n && (forall j | 0 <= j < n :: seen[j] == Print(index, m.prints[j].1, m.prints[j].0 * m.prints[j].1))
            && (if m.book.state.Live? && m.book.bids != map[] && m.book.asks != map[] then
                  exists bid, ask :: IsBest(Bid, bid, m.book.bids.Keys) && IsBest(Ask, ask, m.book.asks.Keys) &&
                    seen[n..] == [Sample(index, (bid + ask) / 2.0, ask - bid, m.book.state.integrity)]
                else seen[n..] == [])
  {
    PrintsAreSeen(m.prints, index);
    assert SeenOf(m, index)[|m.prints|..] == SampleOf(TopOf(m.book), index);
    var bid, ask := Best(Bid, m.book.bids), Best(Ask, m.book.asks);
    if bid.Some? && ask.Some? {
      assert IsBest(Bid, bid.value.price, m.book.bids.Keys) && IsBest(Ask, ask.value.price, m.book.asks.Keys);
    }
  }

  ////////// The bookkeeping itself

  class VenueState {
    const windows: RollingWindows
    var state: BookState
    var desyncedTotal: nat
    var desyncedSince: Option<IngestTime>
    var statusSince: IngestTime

    ghost predicate Valid()
      reads this, windows, windows.buckets
    {
      windows.Valid()
    }

    ghost function Value(): Accounts
      reads this, windows
    {
      Accounts(PhaseOf(state), desyncedTotal, if desyncedSince.Some? then Some(desyncedSince.value.mono) else None,
               windows.chargedTo, windows.trusted, windows.log)
    }

    constructor (resolution: nat, spans: seq<nat>, now: IngestTime)
      ensures Valid() && fresh(windows) && fresh(windows.buckets)
      ensures Value() == Opened(now.mono) && windows.origin == now.mono && state.Uninitialized? && statusSince == now
      ensures windows.seen == [] && windows.intact
      ensures windows.resolution == (if resolution >= NS_PER_MS then resolution else NS_PER_MS)
      ensures |windows.spans| == |spans|
      ensures forall j | 0 <= j < |spans| ::
                windows.spans[j] == if spans[j] >= windows.resolution then spans[j] else windows.resolution
    {
      windows := new RollingWindows(resolution, spans, now.mono);
      state, desyncedTotal, desyncedSince, statusSince := Uninitialized, 0, None, now;
    }

    /** Whether two states differ in more than when they were last verified. */
    predicate SameStatus(s: BookState, t: BookState) {
      if s.Live? && t.Live? then s.integrity == t.integrity && s.since == t.since else s == t
    }

    method NoteTransition(after: BookState, at: IngestTime)
      modifies this
      ensures Value() == Transitioned(old(Value()), PhaseOf(after), at.mono) && state == after && statusSince == at
    {
      if !state.Desynced? && after.Desynced? {
        desyncedSince := Some(at);
      } else if state.Desynced? && !after.Desynced? && desyncedSince.Some? {
        desyncedTotal := desyncedTotal + Max(0, at.mono - desyncedSince.value.mono);
        desyncedSince := None;
      }
      statusSince := at;
      state := after;
    }

    /**
     Fold in one applied message: the transition first, then its prints, then a sample of the
     book it left. A frame that does not parse and the end of a session carry no prints.
     */
    method Apply(m: Applied, at: IngestTime)
      requires Valid()
      modifies this, windows, windows.buckets
      ensures Valid() && state == m.book.state && Value() == Told(old(Value()), PhaseOf(m.book.state), at.mono)
      ensures statusSince == if old(state) == m.book.state ||
                                (old(state).Live? && m.book.state.Live? && old(state).(lastVerified := None) == m.book.state.(lastVerified := None))
                             then old(statusSince) else at
      ensures windows.seen == old(windows.seen) + SeenOf(m, windows.Index(at.mono))
      ensures windows.intact == (old(windows.intact) && (SeenOf(m, windows.Index(at.mono)) != [] ==> windows.InReach(at.mono)))
    {
      if SameStatus(state, m.book.state) {
        state := m.book.state;
      } else {
        NoteTransition(m.book.state, at);
      }
      Record(m.prints, at);
      Sample(m.book, at);
      SeenInOrder(old(windows.seen), m, windows.Index(at.mono));
    }

    /** Charge every print to the windows. */
    method Record(prints: seq<(real, real)>, at: IngestTime)
      requires Valid()
      modifies windows, windows.buckets
      ensures Valid() && ChargedTo(Value(), at.mono) == ChargedTo(old(Value()), at.mono)
      ensures Value().(log := [], chargedTo := 0) == old(Value()).(log := [], chargedTo := 0)
      ensures windows.seen == old(windows.seen) + PrintsOf(prints, windows.Index(at.mono))
      ensures windows.chargedTo == if prints == [] then old(windows.chargedTo) else Max(old(windows.chargedTo), at.mono)
      ensures windows.intact == (old(windows.intact) && (prints != [] ==> windows.InReach(at.mono)))
    {
      for i := 0 to |prints|
        modifies windows, windows.buckets
        invariant Valid() && ChargedTo(Value(), at.mono) == ChargedTo(old(Value()), at.mono)
        invariant Value().(log := [], chargedTo := 0) == old(Value()).(log := [], chargedTo := 0)
        invariant windows.seen == old(windows.seen) + PrintsOf(prints[..i], windows.Index(at.mono))
        invariant windows.chargedTo == if i == 0 then old(windows.chargedTo) else Max(old(windows.chargedTo), at.mono)
        invariant windows.intact == (old(windows.intact) && (i > 0 ==> windows.InReach(at.mono)))
      {
        windows.ObserveTrade(prints[i].0, prints[i].1, at.mono);
        PrintsOneMore(old(windows.seen), prints, i, windows.Index(at.mono));
      }
      assert prints[..|prints|] == prints;
    }

    /** Show the windows the best prices of the book. */
    method Sample(book: BookValue, at: IngestTime)
      requires Valid()
      modifies windows, windows.buckets
      ensures Valid() && Value() == ChargedTo(old(Value()), at.mono).(trusted := book.state.Live?)
      ensures windows.seen == old(windows.seen) + SampleOf(TopOf(book), windows.Index(at.mono))
      ensures windows.intact == (old(windows.intact) && (SampleOf(TopOf(book), windows.Index(at.mono)) != [] ==> windows.InReach(at.mono)))
    {
      var bid := BestPrice(Bid, book.bids);
      var ask := BestPrice(Ask, book.asks);
      windows.Observe(Top(bid, ask, if book.state.Live? then Some(book.state.integrity) else None), at.mono);
    }

    method Desynced(now: IngestTime) returns (total: nat)
      ensures total == DesyncedTotal(Value(), now.mono)
    {
      total := if desyncedSince.Some? then desyncedTotal + Max(0, now.mono - desyncedSince.value.mono) else desyncedTotal;
    }

    /** A snapshot reads the windows and reports the desynced time. */
    method Snapshot(now: IngestTime) returns (readings: seq<Windows.Reading>, desynced: nat)
      requires Valid()
      modifies windows, windows.buckets
      ensures Valid() && Value() == ChargedTo(old(Value()), now.mono)
      ensures windows.seen == old(windows.seen) && windows.intact == old(windows.intact)
      ensures desynced == DesyncedTotal(Value(), now.mono)
      ensures |readings| == |windows.spans|
      ensures forall j | 0 <= j < |windows.spans| && windows.intact && windows.Reaches(windows.spans[j], windows.Index(now.mono)) ::
                readings[j] == Naive(windows.seen, windows.log, windows.origin, windows.resolution, windows.spans[j], windows.Index(now.mono))
      ensures old(windows.chargedTo) <= now.mono ==>
                forall j | 0 <= j < |windows.spans| :: windows.Reaches(windows.spans[j], windows.Index(now.mono))
    {
      readings := windows.Read(now.mono);
      desynced := Desynced(now);
    }
  }

  lemma PrintsOneMore(seen: seq<Seen>, prints: seq<(real, real)>, i: nat, index: nat)
    requires i < |prints|
    ensures seen + PrintsOf(prints[..i], index) + [Printed(index, prints[i].0, prints[i].1)] ==
            seen + PrintsOf(prints[..i + 1], index)
  {
    var all, one := prints[..i + 1], [Printed(index, prints[i].0, prints[i].1)];
    assert all[..|all| - 1] == prints[..i] && all[|all| - 1] == prints[i];
    assert PrintsOf(all, index) == PrintsOf(prints[..i], index) + one;
    assert seen + PrintsOf(prints[..i], index) + one == seen + (PrintsOf(prints[..i], index) + one);
  }

  lemma SeenInOrder(seen: seq<Seen>, m: Applied, index: nat)
    ensures seen + PrintsOf(m.prints, index) + SampleOf(TopOf(m.book), index) == seen + SeenOf(m, index)
    ensures SeenOf(m, index) == [] <==> m.prints == [] && SampleOf(TopOf(m.book), index) == []
  {
    PrintsAreSeen(m.prints, index);
  }

  method BestPrice(side: Side, m: Levels) returns (best: Option<Price>)
    ensures best == if Best(side, m).Some? then Some(Best(side, m).value.price) else None
  {
    if |m| == 0 {
      return None;
    }
    var p := FindBest(side, m.Keys);
    best := Some(p);
  }
}
