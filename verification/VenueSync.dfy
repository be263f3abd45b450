/**
 A venue's sync state paired with the book it maintains (crates/ma-venues/src/sync.rs), and
 the log of events it emits. The venue is present through what the book needs of it: its
 integrity and, if it publishes one, its checksum over the book's contents.
 */
module VenueSync {
  import opened Types
  import opened Book
  import Audit
  import Trail = AuditTrail

  datatype EventKind =
    | SnapshotEvent(bids: seq<Level>, asks: seq<Level>)
    | DeltaEvent(bids: seq<Level>, asks: seq<Level>)
    | TradeEvent(price: Price, qty: Qty, taker: Option<Side>)
    | ChecksumEvent(value: int)
    | HeartbeatEvent(counter: Option<nat>)

  datatype MarketEvent = MarketEvent(stream: StreamId, venueTs: Option<int>, ingest: IngestTime, kind: EventKind)

  /** What the venue layer tells the book to do. */
  datatype SyncAction =
    | Ignore
    | TakeSnapshot(bids: seq<Level>, asks: seq<Level>)
    | TakeDelta(bids: seq<Level>, asks: seq<Level>)
    | Verify(checksum: int)
    | Forward(kind: EventKind)
    | Desync(reason: DesyncReason)

  datatype Ingested = Ingested(actions: seq<SyncAction>, venueTs: Option<int>)

  datatype Output =
    | StateChanged(from: BookState, to: BookState)
    | Emitted(event: MarketEvent)

  /** The venue's hash of a book, `None` if it publishes none. */
  type Checksum = (Levels, Levels) -> Option<int>

  datatype Venue = Venue(stream: StreamId, integrity: Integrity, checksum: Checksum)

  /** A checksum confirms or refutes a live book; it says nothing about any other. */
  function Checked(v: Venue, b: BookValue, expected: int, at: IngestTime): BookValue {
    if !b.state.Live? then b
    else match v.checksum(b.bids, b.asks)
      case None => b
      case Some(computed) =>
        if computed == expected then MarkedVerified(b, at)
        else MarkedDesynced(b, ChecksumMismatch(expected, computed), at)
  }

  /** The book after one action. */
  ghost function Acted(v: Venue, b: BookValue, a: SyncAction, at: IngestTime): BookValue {
    match a
    case Ignore => b
    case Desync(reason) => MarkedDesynced(b, reason, at)
    case Verify(checksum) => Checked(v, b, checksum, at)
    case TakeSnapshot(bids, asks) => AfterSnapshot(b, bids, asks, v.integrity, at)
    case TakeDelta(bids, asks) => AfterDelta(b, bids, asks, at)
    case Forward(_) => b
  }

  /** The event an action leaves in the log: none for what changed nothing a replay could repeat. */
  function Logged(b: BookValue, a: SyncAction): Option<EventKind> {
    match a
    case Ignore => None
    case Desync(_) => None
    case Verify(checksum) => Some(ChecksumEvent(checksum))
    case TakeSnapshot(bids, asks) => Some(SnapshotEvent(bids, asks))
    case TakeDelta(bids, asks) => if b.state.Live? then Some(DeltaEvent(bids, asks)) else None
    case Forward(kind) => Some(kind)
  }

  ghost function ActedAll(v: Venue, b: BookValue, actions: seq<SyncAction>, at: IngestTime): BookValue {
    if actions == [] then b
    else Acted(v, ActedAll(v, b, actions[..|actions| - 1], at), actions[|actions| - 1], at)
  }

  ghost function EventsOf(v: Venue, b: BookValue, ingested: Ingested, at: IngestTime): seq<MarketEvent>
    decreases |ingested.actions|
  {
    var actions := ingested.actions;
    if actions == [] then []
    else
      var front := ingested.(actions := actions[..|actions| - 1]);
      var kind := Logged(ActedAll(v, b, front.actions, at), actions[|actions| - 1]);
      EventsOf(v, b, front, at) +
      if kind.Some? then [MarketEvent(v.stream, ingested.venueTs, at, kind.value)] else []
  }

  /** The action that replays an event. */
  function ActionOf(kind: EventKind): SyncAction {
    match kind
    case SnapshotEvent(bids, asks) => TakeSnapshot(bids, asks)
    case DeltaEvent(bids, asks) => TakeDelta(bids, asks)
    case ChecksumEvent(value) => Verify(value)
    case _ => Forward(kind)
  }

  function Emissions(events: seq<MarketEvent>): seq<Output> {
    seq(|events|, i requires 0 <= i < |events| => Emitted(events[i]))
  }

  function Change(from: BookState, to: BookState): seq<Output> {
    if from == to then [] else [StateChanged(from, to)]
  }

  class VenueBook {
    const venue: Venue
    const book: Book
    const policy: Audit.Policy
    const trail: Trail.AuditTrail

    constructor (venue: Venue, maxDepth: Option<nat>, policy: Audit.Policy)
      ensures book.Value() == NewBook(maxDepth) && trail.Value() == Trail.NewTrail
      ensures this.venue == venue && this.policy == policy && fresh(book) && fresh(trail)
    {
      this.venue, this.policy := venue, policy;
      book := new Book(maxDepth);
      trail := new Trail.AuditTrail();
    }

    /** After a reconnect the book is distrusted and the case against it dropped. */
    method Reset(at: IngestTime)
      modifies book, trail
      ensures book.Value() == MarkedDesynced(old(book.Value()), ConnectionLost, at)
      ensures trail.Value() == Trail.Forgotten(old(trail.Value()))
    {
      trail.Reset();
      book.MarkDesynced(ConnectionLost, at);
    }

    /** Compare a live book against a fetched snapshot; only repeated evidence distrusts it. */
    method AuditAgainst(bids: seq<Level>, asks: seq<Level>, at: IngestTime) returns (outputs: seq<Output>)
      modifies book, trail
      ensures !old(book.state.Live?) ==>
                outputs == [] && book.Value() == old(book.Value()) && trail.Value() == old(trail.Value())
      ensures old(book.state.Live?) ==>
                var o := Audit.Audited(old(book.Value()), bids, asks, policy);
                var reason := Trail.Reason(old(trail.Value()), o, policy);
                && trail.Value() == Trail.Observed(old(trail.Value()), o)
                && book.Value() == (if reason.Some? then MarkedDesynced(old(book.Value()), reason.value, at) else old(book.Value()))
      ensures outputs == Change(old(book.state), book.state)
    {
      if !book.state.Live? {
        return [];
      }
      var before := book.state;
      var snapshot := BookValue(book.bids, book.asks, book.state, book.lastUpdate, book.maxDepth);
      var outcome := Audit.RunAudit(snapshot, bids, asks, policy);
      var reason := trail.Observe(outcome, policy);
      if reason.Some? {
        book.MarkDesynced(reason.value, at);
      }
      outputs := Change(before, book.state);
    }

    method CheckAgainst(expected: int, at: IngestTime)
      modifies book
      ensures book.Value() == Checked(venue, old(book.Value()), expected, at)
    {
      if !book.state.Live? {
        return;
      }
      var computed := venue.checksum(book.bids, book.asks);
      if computed.None? {
        return;
      }
      if computed.value == expected {
        book.MarkVerified(at);
      } else {
        book.MarkDesynced(ChecksumMismatch(expected, computed.value), at);
      }
    }

    /** Apply one action; what it leaves in the log, if anything. */
    method Act(a: SyncAction, at: IngestTime) returns (kind: Option<EventKind>)
      modifies book
      ensures book.Value() == Acted(venue, old(book.Value()), a, at)
      ensures kind == Logged(old(book.Value()), a)
    {
      kind := None;
      match a {
        case Ignore =>
        case Desync(reason) =>
          book.MarkDesynced(reason, at);
        case Verify(checksum) =>
          CheckAgainst(checksum, at);
          kind := Some(ChecksumEvent(checksum));
        case TakeSnapshot(bids, asks) =>
          var _ := book.ApplySnapshot(bids, asks, venue.integrity, at);
          kind := Some(SnapshotEvent(bids, asks));
        case TakeDelta(bids, asks) =>
          var ok := book.ApplyDelta(bids, asks, at);
          if ok {
            kind := Some(DeltaEvent(bids, asks));
          }
        case Forward(forwarded) =>
          kind := Some(forwarded);
      }
    }

    /** Apply what the venue returned; every applied action leaves an event, in order. */
    method ApplyIngested(ingested: Ingested, at: IngestTime) returns (outputs: seq<Output>)
      modifies book
      ensures book.Value() == ActedAll(venue, old(book.Value()), ingested.actions, at)
      ensures outputs == Emissions(EventsOf(venue, old(book.Value()), ingested, at)) + Change(old(book.state), book.state)
    {
      var before := book.state;
      ghost var start := book.Value();
      outputs := [];
      var actions := ingested.actions;
      for i := 0 to |actions|
        invariant book.Value() == ActedAll(venue, start, actions[..i], at)
        invariant outputs == Emissions(EventsOf(venue, start, ingested.(actions := actions[..i]), at))
      {
        assert actions[..i + 1][..i] == actions[..i];
        var kind := Act(actions[i], at);
        if kind.Some? {
          outputs := outputs + [Emitted(MarketEvent(venue.stream, ingested.venueTs, at, kind.value))];
        }
      }
      assert actions[..|actions|] == actions;
      if before != book.state {
        outputs := outputs + [StateChanged(before, book.state)];
      }
    }

    /** Replay a normalised event, without the wire parser. */
    method ApplyEvent(event: MarketEvent, at: IngestTime) returns (outputs: seq<Output>)
      modifies book
      ensures book.Value() == Acted(venue, old(book.Value()), ActionOf(event.kind), at)
      ensures var kind := Logged(old(book.Value()), ActionOf(event.kind));
              outputs == Emissions(if kind.Some? then [MarketEvent(venue.stream, event.venueTs, at, kind.value)] else [])
                         + Change(old(book.state), book.state)
    {
      var action := ActionOf(event.kind);
      assert [action][..0] == [];
      outputs := ApplyIngested(Ingested([action], event.venueTs), at);
    }
  }

  ////////// Replaying the log

  /** Everything that happens to a live book: frames, reconnects, and audits that may distrust it. */
  datatype Input =
    | Frame(ingested: Ingested, at: IngestTime)
    | Reconnect(at: IngestTime)
    | AuditVerdict(reason: Option<DesyncReason>, at: IngestTime)

  ghost function Stepped(v: Venue, b: BookValue, input: Input): BookValue {
    match input
    case Frame(ingested, at) => ActedAll(v, b, ingested.actions, at)
    case Reconnect(at) => MarkedDesynced(b, ConnectionLost, at)
    case AuditVerdict(reason, at) =>
      if b.state.Live? && reason.Some? then MarkedDesynced(b, reason.value, at) else b
  }

  ghost function Lived(v: Venue, b: BookValue, inputs: seq<Input>): BookValue {
    if inputs == [] then b else Stepped(v, Lived(v, b, inputs[..|inputs| - 1]), inputs[|inputs| - 1])
  }

  /** The log of a run. */
  ghost function LogOf(v: Venue, b: BookValue, inputs: seq<Input>): seq<MarketEvent> {
    if inputs == [] then []
    else
      var front, last := inputs[..|inputs| - 1], inputs[|inputs| - 1];
      LogOf(v, b, front) + if last.Frame? then EventsOf(v, Lived(v, b, front), last.ingested, last.at) else []
  }

  /** A book fed only events, each at the time it was ingested. */
  ghost function Replayed(v: Venue, b: BookValue, events: seq<MarketEvent>): BookValue {
    if events == [] then b
    else
      var last := events[|events| - 1];
      Acted(v, Replayed(v, b, events[..|events| - 1]), ActionOf(last.kind), last.ingest)
  }

  /** The replayed book has the live one's contents, and its whole state whenever that is live. */
  ghost predicate Faithful(live: BookValue, replayed: BookValue) {
    && replayed.bids == live.bids && replayed.asks == live.asks
    && replayed.lastUpdate == live.lastUpdate && replayed.maxDepth == live.maxDepth
    && (live.state.Live? ==> replayed.state == live.state)
  }

  /** Events of kinds a venue may forward: neither book content nor checksums. */
  predicate Passive(a: SyncAction) {
    a.Forward? ==> a.kind.TradeEvent? || a.kind.HeartbeatEvent?
  }

  lemma ActionIsFaithful(v: Venue, live: BookValue, replayed: BookValue, a: SyncAction, at: IngestTime)
    requires Faithful(live, replayed) && Passive(a)
    ensures var kind := Logged(live, a);
            Faithful(Acted(v, live, a, at),
                     if kind.Some? then Acted(v, replayed, ActionOf(kind.value), at) else replayed)
  {
  }

  lemma {:induction false} ReplayedConcat(v: Venue, b: BookValue, xs: seq<MarketEvent>, ys: seq<MarketEvent>)
    ensures Replayed(v, b, xs + ys) == Replayed(v, Replayed(v, b, xs), ys)
  {
    if ys == [] {
      assert xs + ys == xs;
    } else {
      var all := xs + ys;
      assert all[..|all| - 1] == xs + ys[..|ys| - 1];
      ReplayedConcat(v, b, xs, ys[..|ys| - 1]);
    }
  }

  lemma {:induction false} FrameIsFaithful(v: Venue, live: BookValue, replayed: BookValue, ingested: Ingested, at: IngestTime)
    requires Faithful(live, replayed) && forall a | a in ingested.actions :: Passive(a)
    ensures Faithful(ActedAll(v, live, ingested.actions, at), Replayed(v, replayed, EventsOf(v, live, ingested, at)))
    decreases |ingested.actions|
  {
    var actions := ingested.actions;
    if actions != [] {
      var front := ingested.(actions := actions[..|actions| - 1]);
      var last := actions[|actions| - 1];
      assert last in actions && forall a | a in front.actions :: a in actions;
      FrameIsFaithful(v, live, replayed, front, at);
      var mid, events := ActedAll(v, live, front.actions, at), EventsOf(v, live, front, at);
      ActionIsFaithful(v, mid, Replayed(v, replayed, events), last, at);
      var kind := Logged(mid, last);
      if kind.Some? {
        var event := MarketEvent(v.stream, ingested.venueTs, at, kind.value);
        assert (events + [event])[..|events|] == events;
      } else {
        assert events + [] == events;
      }
    }
  }

  /**
   The log is enough: for every run of frames, resyncs, reconnects and audits, feeding only
   the emitted events into a fresh book gives the live book's contents, and its exact state
   whenever the live book is live. Every prefix of a run is a run, so this holds after every input.
   */
  lemma {:induction false} ReplayReproducesTheBook(v: Venue, maxDepth: Option<nat>, inputs: seq<Input>)
    requires forall i, a | i in inputs && i.Frame? && a in i.ingested.actions :: Passive(a)
    ensures Faithful(Lived(v, NewBook(maxDepth), inputs),
                     Replayed(v, NewBook(maxDepth), LogOf(v, NewBook(maxDepth), inputs)))
  {
    if inputs != [] {
      var b := NewBook(maxDepth);
      var front, last := inputs[..|inputs| - 1], inputs[|inputs| - 1];
      assert last in inputs && forall i | i in front :: i in inputs;
      ReplayReproducesTheBook(v, maxDepth, front);
      var log := LogOf(v, b, front);
      if last.Frame? {
        FrameIsFaithful(v, Lived(v, b, front), Replayed(v, b, log), last.ingested, last.at);
        ReplayedConcat(v, b, log, EventsOf(v, Lived(v, b, front), last.ingested, last.at));
      } else {
        assert log + [] == log;
      }
    }
  }

  ////////// When a replay trusts more than the live run did

  /** A run one action at a time. A reconnect acts like a desync; an audit's doubt hits live books only. */
  datatype Atom = Apply(action: SyncAction, at: IngestTime) | Doubt(reason: DesyncReason, at: IngestTime)

  function AtomsOf(input: Input): seq<Atom> {
    match input
    case Frame(ingested, at) => seq(|ingested.actions|, i requires 0 <= i < |ingested.actions| => Apply(ingested.actions[i], at))
    case Reconnect(at) => [Apply(Desync(ConnectionLost), at)]
    case AuditVerdict(reason, at) => if reason.Some? then [Doubt(reason.value, at)] else []
  }

  function Atoms(inputs: seq<Input>): seq<Atom> {
    if inputs == [] then [] else Atoms(inputs[..|inputs| - 1]) + AtomsOf(inputs[|inputs| - 1])
  }

  ghost function Hit(v: Venue, b: BookValue, a: Atom): BookValue {
    match a
    case Apply(action, at) => Acted(v, b, action, at)
    case Doubt(reason, at) => if b.state.Live? then MarkedDesynced(b, reason, at) else b
  }

  /** What the replay makes of it, by the event it left in the log, if any. */
  ghost function Echoed(v: Venue, live: BookValue, replayed: BookValue, a: Atom): BookValue {
    if a.Apply? && Logged(live, a.action).Some? then Acted(v, replayed, ActionOf(Logged(live, a.action).value), a.at)
    else replayed
  }

  ghost function HitAll(v: Venue, b: BookValue, atoms: seq<Atom>): BookValue {
    if atoms == [] then b else Hit(v, HitAll(v, b, atoms[..|atoms| - 1]), atoms[|atoms| - 1])
  }

  ghost function EchoedAll(v: Venue, b: BookValue, r: BookValue, atoms: seq<Atom>): BookValue {
    if atoms == [] then r
    else
      var front := atoms[..|atoms| - 1];
      Echoed(v, HitAll(v, b, front), EchoedAll(v, b, r, front), atoms[|atoms| - 1])
  }

  lemma {:induction false} HitConcat(v: Venue, b: BookValue, r: BookValue, xs: seq<Atom>, ys: seq<Atom>)
    ensures HitAll(v, b, xs + ys) == HitAll(v, HitAll(v, b, xs), ys)
    ensures EchoedAll(v, b, r, xs + ys) == EchoedAll(v, HitAll(v, b, xs), EchoedAll(v, b, r, xs), ys)
  {
    if ys == [] {
      assert xs + ys == xs;
    } else {
      var all := xs + ys;
      assert all[..|all| - 1] == xs + ys[..|ys| - 1] && all[|all| - 1] == ys[|ys| - 1];
      HitConcat(v, b, r, xs, ys[..|ys| - 1]);
    }
  }

  lemma {:induction false} FrameIsItsAtoms(v: Venue, live: BookValue, replayed: BookValue, ingested: Ingested, at: IngestTime)
    ensures HitAll(v, live, AtomsOf(Frame(ingested, at))) == ActedAll(v, live, ingested.actions, at)
    ensures EchoedAll(v, live, replayed, AtomsOf(Frame(ingested, at))) == Replayed(v, replayed, EventsOf(v, live, ingested, at))
    decreases |ingested.actions|
  {
    var actions, atoms := ingested.actions, AtomsOf(Frame(ingested, at));
    if actions != [] {
      var front, last := ingested.(actions := actions[..|actions| - 1]), actions[|actions| - 1];
      FrameIsItsAtoms(v, live, replayed, front, at);
      assert atoms[..|atoms| - 1] == AtomsOf(Frame(front, at)) && atoms[|atoms| - 1] == Apply(last, at);
      var mid, events := ActedAll(v, live, front.actions, at), EventsOf(v, live, front, at);
      var kind := Logged(mid, last);
      if kind.Some? {
        var event := MarketEvent(v.stream, ingested.venueTs, at, kind.value);
        assert (events + [event])[..|events|] == events;
      } else {
        assert events + [] == events;
      }
    }
  }

  lemma InputIsItsAtoms(v: Venue, live: BookValue, replayed: BookValue, input: Input)
    ensures HitAll(v, live, AtomsOf(input)) == Stepped(v, live, input)
    ensures EchoedAll(v, live, replayed, AtomsOf(input)) ==
            if input.Frame? then Replayed(v, replayed, EventsOf(v, live, input.ingested, input.at)) else replayed
  {
    if input.Frame? {
      FrameIsItsAtoms(v, live, replayed, input.ingested, input.at);
    } else if AtomsOf(input) != [] {
      assert AtomsOf(input)[..0] == [];
    }
  }

  lemma {:induction false} RunIsItsAtoms(v: Venue, b: BookValue, inputs: seq<Input>)
    ensures HitAll(v, b, Atoms(inputs)) == Lived(v, b, inputs)
    ensures EchoedAll(v, b, b, Atoms(inputs)) == Replayed(v, b, LogOf(v, b, inputs))
  {
    if inputs != [] {
      var front, last := inputs[..|inputs| - 1], inputs[|inputs| - 1];
      RunIsItsAtoms(v, b, front);
      HitConcat(v, b, b, Atoms(front), AtomsOf(last));
      var live, log := Lived(v, b, front), LogOf(v, b, front);
      InputIsItsAtoms(v, live, Replayed(v, b, log), last);
      if last.Frame? {
        ReplayedConcat(v, b, log, EventsOf(v, live, last.ingested, last.at));
      } else {
        assert log + [] == log;
      }
    }
  }

  /** Distrust that leaves no event: a desync action, a reconnect, an audit. */
  predicate Unlogged(a: Atom) {
    a.Doubt? || a.action.Desync?
  }

  predicate Resyncs(a: Atom) {
    a.Apply? && a.action.TakeSnapshot?
  }

  /** The venue publishes no checksum, or this one is right for these contents. */
  predicate Confirms(v: Venue, b: BookValue, a: Atom) {
    a.Apply? && a.action.Verify? ==>
      var computed := v.checksum(b.bids, b.asks);
      computed.None? || computed.value == a.action.checksum
  }

  /** Distrust the log does not show hit a live book here, and nothing since would have told a replay. */
  ghost predicate Unseen(v: Venue, b: BookValue, atoms: seq<Atom>, i: nat) {
    && i < |atoms| && Unlogged(atoms[i]) && HitAll(v, b, atoms[..i]).state.Live?
    && forall j | i < j < |atoms| :: !Resyncs(atoms[j]) && Confirms(v, HitAll(v, b, atoms[..i]), atoms[j])
  }

  /** A book that is distrusted stays so, contents and all, until a snapshot. */
  lemma {:induction false} DownUntilSnapshot(v: Venue, b: BookValue, atoms: seq<Atom>, i: nat)
    requires i < |atoms| && Unlogged(atoms[i]) && forall j | i < j < |atoms| :: !Resyncs(atoms[j])
    ensures var at, end := HitAll(v, b, atoms[..i]), HitAll(v, b, atoms);
            !end.state.Live? && end.bids == at.bids && end.asks == at.asks
  {
    var n := |atoms| - 1;
    if i < n {
      assert atoms[..n][..i] == atoms[..i];
      DownUntilSnapshot(v, b, atoms[..n], i);
    }
  }

  /** One more action: whether the replay is misled afterwards. */
  lemma MisledByOne(v: Venue, live: BookValue, replayed: BookValue, a: Atom)
    requires Faithful(live, replayed) && (a.Apply? ==> Passive(a.action))
    ensures var l, r := Hit(v, live, a), Echoed(v, live, replayed, a);
            && Faithful(l, r)
            && (r.state.Live? && !l.state.Live? <==>
                  if live.state.Live? then Unlogged(a)
                  else replayed.state.Live? && !Resyncs(a) && Confirms(v, live, a))
  {
  }

  lemma {:induction false} MisledExactlyWhen(v: Venue, b: BookValue, atoms: seq<Atom>)
    requires !b.state.Live? && forall a | a in atoms :: a.Apply? ==> Passive(a.action)
    ensures Faithful(HitAll(v, b, atoms), EchoedAll(v, b, b, atoms))
    ensures EchoedAll(v, b, b, atoms).state.Live? && !HitAll(v, b, atoms).state.Live?
            <==> exists i: nat :: Unseen(v, b, atoms, i)
  {
    if atoms != [] {
      var n := |atoms| - 1;
      var front, last := atoms[..n], atoms[n];
      assert last in atoms && forall a | a in front :: a in atoms;
      MisledExactlyWhen(v, b, front);
      var live := HitAll(v, b, front);
      MisledByOne(v, live, EchoedAll(v, b, b, front), last);
      assert live.state.Live? && Unlogged(last) <==> Unseen(v, b, atoms, n);
      forall i: nat | i < n
        ensures Unseen(v, b, atoms, i) <==> Unseen(v, b, front, i) && !Resyncs(last) && Confirms(v, live, last)
      {
        UnseenGoesOn(v, b, atoms, i);
      }
    }
  }

  lemma UnseenGoesOn(v: Venue, b: BookValue, atoms: seq<Atom>, i: nat)
    requires i < |atoms| - 1
    ensures var n := |atoms| - 1;
            Unseen(v, b, atoms, i) <==>
              Unseen(v, b, atoms[..n], i) && !Resyncs(atoms[n]) && Confirms(v, HitAll(v, b, atoms[..n]), atoms[n])
  {
    var n := |atoms| - 1;
    assert atoms[..n][..i] == atoms[..i];
    if Unlogged(atoms[i]) && forall j | i < j < n :: !Resyncs(atoms[j]) {
      DownUntilSnapshot(v, b, atoms[..n], i);
    }
  }

  lemma {:induction false} AtomsArePassive(inputs: seq<Input>)
    requires forall i, a | i in inputs && i.Frame? && a in i.ingested.actions :: Passive(a)
    ensures forall a | a in Atoms(inputs) :: a.Apply? ==> Passive(a.action)
  {
    if inputs != [] {
      var front, last := inputs[..|inputs| - 1], inputs[|inputs| - 1];
      assert last in inputs && forall i | i in front :: i in inputs;
      AtomsArePassive(front);
    }
  }

  /**
   How far a replay can be from what the live run believed: it is the same book, or neither is
   trusted, or it is trusted where the live one is not. The last happens exactly if distrust that
   leaves no event hit a live book, no snapshot came since, and every checksum since was right.
   */
  lemma ReplayTrustsMoreExactlyWhen(v: Venue, maxDepth: Option<nat>, inputs: seq<Input>)
    requires forall i, a | i in inputs && i.Frame? && a in i.ingested.actions :: Passive(a)
    ensures var b := NewBook(maxDepth);
            var live, replayed := Lived(v, b, inputs), Replayed(v, b, LogOf(v, b, inputs));
            && (live == replayed || !live.state.Live?)
            && (replayed.state.Live? && !live.state.Live? <==> exists i: nat :: Unseen(v, b, Atoms(inputs), i))
  {
    var b := NewBook(maxDepth);
    RunIsItsAtoms(v, b, inputs);
    AtomsArePassive(inputs);
    MisledExactlyWhen(v, b, Atoms(inputs));
  }

  /**
   It does happen, by design: one snapshot and one reconnect show it.
   */
  lemma ReplayMayTrustMore(v: Venue, at: IngestTime, later: IngestTime)
    ensures var b := NewBook(None);
            var inputs := [Frame(Ingested([TakeSnapshot([], [])], None), at), Reconnect(later)];
            && Lived(v, b, inputs).state.Desynced?
            && Replayed(v, b, LogOf(v, b, inputs)).state.Live?
  {
    var b := NewBook(None);
    var frame := Ingested([TakeSnapshot([], [])], None);
    var inputs := [Frame(frame, at), Reconnect(later)];
    assert inputs[..1] == [Frame(frame, at)] && [Frame(frame, at)][..0] == [];
    var event := MarketEvent(v.stream, None, at, SnapshotEvent([], []));
    assert frame.actions[..0] == [];
    assert EventsOf(v, b, frame, at) == [event] by {
      assert EventsOf(v, b, frame.(actions := []), at) == [];
    }
    assert LogOf(v, b, inputs[..1]) == [event];
    assert LogOf(v, b, inputs) == [event];
    assert [event][..0] == [];
    assert Replayed(v, b, [event]) == AfterSnapshot(b, [], [], v.integrity, at);
  }
}
