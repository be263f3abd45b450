/**
 What a venue's book believes of itself over any run (crates/ma-venues/src/sync.rs over
 crates/ma-core/src/book.rs): when it is live, since when, how recently verified, and otherwise
 why not; and what of a frame's news reaches the log.
 */
module BookLife {
  import opened Types
  import opened Book
  import opened VenueSync

  /** This action takes no trust away: it is no resync, no distrust, and no checksum that is wrong. */
  predicate Harmless(v: Venue, b: BookValue, a: Atom) {
    !Resyncs(a) && !Unlogged(a) && Confirms(v, b, a)
  }

  ghost predicate HarmlessAt(v: Venue, b: BookValue, atoms: seq<Atom>, j: int) {
    0 <= j < |atoms| && Harmless(v, HitAll(v, b, atoms[..j]), atoms[j])
  }

  ghost predicate UncrossedAfter(v: Venue, b: BookValue, atoms: seq<Atom>, j: int) {
    0 <= j <= |atoms| && !Crossed(HitAll(v, b, atoms[..j]).bids, HitAll(v, b, atoms[..j]).asks)
  }

  /** The snapshot the book still stands on: nothing has happened since that takes trust away, and its sides have not met. */
  ghost predicate InForce(v: Venue, b: BookValue, atoms: seq<Atom>, s: nat) {
    && s < |atoms| && Resyncs(atoms[s])
    && (forall j | s < j < |atoms| :: HarmlessAt(v, b, atoms, j))
    && (forall j | s < j <= |atoms| :: UncrossedAfter(v, b, atoms, j))
  }

  /** The action is a checksum, and the venue has one to compare it with. */
  predicate Verifies(v: Venue, b: BookValue, a: Atom) {
    a.Apply? && a.action.Verify? && v.checksum(b.bids, b.asks).Some?
  }

  ghost predicate VerifiesAt(v: Venue, b: BookValue, atoms: seq<Atom>, j: int) {
    0 <= j < |atoms| && Verifies(v, HitAll(v, b, atoms[..j]), atoms[j])
  }

  /** The last checksum since the snapshot was then; a venue that verifies nothing never has one. */
  ghost predicate LastVerified(v: Venue, b: BookValue, atoms: seq<Atom>, s: nat, last: Option<IngestTime>) {
    if v.integrity.Verified? && exists j :: s < j && VerifiesAt(v, b, atoms, j) then
      exists j :: s < j && VerifiesAt(v, b, atoms, j) && last == Some(atoms[j].at) && forall k | j < k :: !VerifiesAt(v, b, atoms, k)
    else last == None
  }

  /** What a live book says, given the snapshot it stands on. */
  ghost predicate LiveSince(v: Venue, b: BookValue, atoms: seq<Atom>, s: nat) {
    var state := HitAll(v, b, atoms).state;
    InForce(v, b, atoms, s) && state.Live? && state.integrity == v.integrity && state.since == atoms[s].at &&
    LastVerified(v, b, atoms, s, state.lastVerified)
  }

  /** One action on a book. */
  lemma OneHit(v: Venue, b: BookValue, a: Atom)
    requires b.state.Live? ==> !Crossed(b.bids, b.asks)
    ensures var after := Hit(v, b, a);
            && (after.state.Live? <==> (Resyncs(a) || (b.state.Live? && Harmless(v, b, a))) && !Crossed(after.bids, after.asks))
            && (after.state.Live? && Resyncs(a) ==> after.state == Live(v.integrity, a.at, None))
            && (after.state.Live? && !Resyncs(a) ==>
                  after.state == b.state.(lastVerified :=
                    if Verifies(v, b, a) && b.state.integrity.Verified? then Some(a.at) else b.state.lastVerified))
  {
    var after := Hit(v, b, a);
    if a.Apply? && a.action.TakeSnapshot? {
      GuardDetectsCrossing(BookValue(Capped(Bid, Snapped(a.action.bids), b.maxDepth), Capped(Ask, Snapped(a.action.asks), b.maxDepth),
                                     Live(v.integrity, a.at, None), Some(a.at), b.maxDepth), a.at);
    } else if a.Apply? && a.action.TakeDelta? && b.state.Live? {
      GuardDetectsCrossing(BookValue(Capped(Bid, Applied(b.bids, a.action.bids), b.maxDepth),
                                     Capped(Ask, Applied(b.asks, a.action.asks), b.maxDepth), b.state, Some(a.at), b.maxDepth), a.at);
    }
  }

  lemma Prefixes(atoms: seq<Atom>)
    requires atoms != []
    ensures forall j | 0 <= j < |atoms| :: atoms[..|atoms| - 1][..j] == atoms[..j]
    ensures atoms[..|atoms|] == atoms
  {
  }

  lemma EarlierStays(v: Venue, b: BookValue, atoms: seq<Atom>, j: int)
    requires atoms != []
    ensures var n := |atoms| - 1;
            && (j < n ==> (HarmlessAt(v, b, atoms, j) <==> HarmlessAt(v, b, atoms[..n], j)))
            && (j <= n ==> (UncrossedAfter(v, b, atoms, j) <==> UncrossedAfter(v, b, atoms[..n], j)))
  {
    Prefixes(atoms);
    assert atoms[..|atoms| - 1][..|atoms| - 1] == atoms[..|atoms| - 1];
  }

  lemma InForceGoesOn(v: Venue, b: BookValue, atoms: seq<Atom>, s: nat)
    requires s < |atoms| - 1
    ensures var n := |atoms| - 1;
            InForce(v, b, atoms, s) <==>
              InForce(v, b, atoms[..n], s) && HarmlessAt(v, b, atoms, n) && UncrossedAfter(v, b, atoms, n + 1)
  {
    var n := |atoms| - 1;
    forall j
      ensures j < n ==> (HarmlessAt(v, b, atoms, j) <==> HarmlessAt(v, b, atoms[..n], j))
      ensures j <= n ==> (UncrossedAfter(v, b, atoms, j) <==> UncrossedAfter(v, b, atoms[..n], j))
    {
      EarlierStays(v, b, atoms, j);
    }
  }

  lemma InForceAnew(v: Venue, b: BookValue, atoms: seq<Atom>)
    requires atoms != []
    ensures InForce(v, b, atoms, |atoms| - 1) <==> Resyncs(atoms[|atoms| - 1]) && UncrossedAfter(v, b, atoms, |atoms|)
  {
  }

  lemma VerifiesGoesOn(v: Venue, b: BookValue, atoms: seq<Atom>, j: int)
    requires atoms != []
    ensures var n := |atoms| - 1;
            VerifiesAt(v, b, atoms, j) <==>
              VerifiesAt(v, b, atoms[..n], j) || (j == n && Verifies(v, HitAll(v, b, atoms[..n]), atoms[n]))
  {
    Prefixes(atoms);
  }

  lemma LastVerifiedGoesOn(v: Venue, b: BookValue, atoms: seq<Atom>, s: nat, last: Option<IngestTime>)
    requires s < |atoms| - 1 && LastVerified(v, b, atoms[..|atoms| - 1], s, last)
    ensures var n := |atoms| - 1;
            LastVerified(v, b, atoms, s,
              if Verifies(v, HitAll(v, b, atoms[..n]), atoms[n]) && v.integrity.Verified? then Some(atoms[n].at) else last)
  {
    var n := |atoms| - 1;
    forall j ensures VerifiesAt(v, b, atoms, j) <==>
                       VerifiesAt(v, b, atoms[..n], j) || (j == n && Verifies(v, HitAll(v, b, atoms[..n]), atoms[n]))
    {
      VerifiesGoesOn(v, b, atoms, j);
    }
    if Verifies(v, HitAll(v, b, atoms[..n]), atoms[n]) {
      assert VerifiesAt(v, b, atoms, n);
    }
  }

  lemma LastVerifiedAnew(v: Venue, b: BookValue, atoms: seq<Atom>)
    requires atoms != []
    ensures LastVerified(v, b, atoms, |atoms| - 1, None)
  {
  }

  /**
   A book that started distrusted is live after a run exactly if some snapshot is still in force;
   then it is live since that one came, with the venue's integrity, and was last verified by the
   last checksum since.
   */
  lemma {:induction false} LiveExactlyWhen(v: Venue, b: BookValue, atoms: seq<Atom>)
    requires !b.state.Live?
    ensures HitAll(v, b, atoms).state.Live? <==> exists s: nat :: InForce(v, b, atoms, s)
    ensures forall s: nat | InForce(v, b, atoms, s) :: LiveSince(v, b, atoms, s)
    ensures HitAll(v, b, atoms).state.Live? ==> !Crossed(HitAll(v, b, atoms).bids, HitAll(v, b, atoms).asks)
  {
    if atoms != [] {
      var n := |atoms| - 1;
      var front := atoms[..n];
      LiveExactlyWhen(v, b, front);
      OneHit(v, HitAll(v, b, front), atoms[n]);
      InForceAnew(v, b, atoms);
      LastVerifiedAnew(v, b, atoms);
      Prefixes(atoms);
      assert UncrossedAfter(v, b, atoms, n + 1) <==> !Crossed(HitAll(v, b, atoms).bids, HitAll(v, b, atoms).asks);
      forall s: nat | s < n
        ensures InForce(v, b, atoms, s) <==>
                  InForce(v, b, front, s) && HarmlessAt(v, b, atoms, n) && UncrossedAfter(v, b, atoms, n + 1)
        ensures InForce(v, b, atoms, s) ==> LiveSince(v, b, atoms, s)
      {
        InForceGoesOn(v, b, atoms, s);
        if InForce(v, b, atoms, s) {
          LastVerifiedGoesOn(v, b, atoms, s, HitAll(v, b, front).state.lastVerified);
        }
      }
    }
  }

  /** So a venue's book is live after a run exactly if one of the run's snapshots is in force. */
  lemma BookIsLiveExactlyWhen(v: Venue, maxDepth: Option<nat>, inputs: seq<Input>)
    ensures var b := NewBook(maxDepth);
            && (Lived(v, b, inputs).state.Live? <==> exists s: nat :: InForce(v, b, Atoms(inputs), s))
            && HitAll(v, b, Atoms(inputs)) == Lived(v, b, inputs)
            && forall s: nat | InForce(v, b, Atoms(inputs), s) :: LiveSince(v, b, Atoms(inputs), s)
  {
    RunIsItsAtoms(v, NewBook(maxDepth), inputs);
    LiveExactlyWhen(v, NewBook(maxDepth), Atoms(inputs));
  }

  /**
   A live book that one action leaves distrusted says when and why; and a venue's distrust is noted
   anew on a book that was distrusted before.
   */
  lemma DistrustSaysWhy(v: Venue, b: BookValue, a: Atom)
    requires (b.state.Live? && !Hit(v, b, a).state.Live?) || (a.Apply? && a.action.Desync?)
    ensures var after := Hit(v, b, a);
            && after.state.Desynced? && after.state.since == a.at
            && (a.Doubt? ==> after.state.reason == a.reason)
            && (a.Apply? && a.action.Desync? ==> after.state.reason == a.action.reason && after == b.(state := after.state))
            && (a.Apply? && a.action.Verify? ==>
                  var computed := v.checksum(b.bids, b.asks);
                  computed.Some? && computed.value != a.action.checksum &&
                  after.state.reason == DesyncReason.ChecksumMismatch(wanted := a.action.checksum, computed := computed.value))
            && (a.Apply? && (a.action.TakeSnapshot? || a.action.TakeDelta?) ==>
                  exists bid, ask :: IsBest(Bid, bid, after.bids.Keys) && IsBest(Ask, ask, after.asks.Keys) && bid >= ask &&
                    after.state.reason == CrossedBook(bestBid := bid, bestAsk := ask))
  {
    var after := Hit(v, b, a);
    if a.Apply? && (a.action.TakeSnapshot? || a.action.TakeDelta?) {
      var bid, ask := Best(Bid, after.bids), Best(Ask, after.asks);
      assert IsBest(Bid, bid.value.price, after.bids.Keys) && IsBest(Ask, ask.value.price, after.asks.Keys);
    }
  }

  /** What a call reports: its events in order, and last the change of state, if there was one. */
  lemma OutputsTellAll(events: seq<MarketEvent>, before: BookState, after: BookState)
    ensures var outputs, n := Emissions(events) + Change(before, after), |events|;
            && (forall i | 0 <= i < n :: outputs[i] == Emitted(events[i]))
            && (if before == after then |outputs| == n
                else |outputs| == n + 1 && outputs[n] == Output.StateChanged(from := before, to := after))
  {
  }

  ////////// What reaches the log

  /** What a frame's actions pass on as it is. */
  function Forwards(actions: seq<SyncAction>): seq<EventKind> {
    if actions == [] then []
    else
      var last := actions[|actions| - 1];
      Forwards(actions[..|actions| - 1]) + if last.Forward? then [last.kind] else []
  }

  /** The trades and heartbeats among these events. */
  function PassedOn(events: seq<MarketEvent>): seq<EventKind> {
    if events == [] then []
    else
      var last := events[|events| - 1].kind;
      PassedOn(events[..|events| - 1]) + if last.TradeEvent? || last.HeartbeatEvent? then [last] else []
  }

  lemma PassedOnOneMore(events: seq<MarketEvent>, e: MarketEvent)
    ensures PassedOn(events + [e]) == PassedOn(events) + if e.kind.TradeEvent? || e.kind.HeartbeatEvent? then [e.kind] else []
  {
    assert (events + [e])[..|events|] == events;
  }

  /** The event a frame's last action leaves, after those of the others. */
  lemma EventsOneMore(v: Venue, b: BookValue, ingested: Ingested, at: IngestTime)
    requires ingested.actions != []
    ensures var n := |ingested.actions| - 1;
            var front := ingested.(actions := ingested.actions[..n]);
            var kind := Logged(ActedAll(v, b, front.actions, at), ingested.actions[n]);
            EventsOf(v, b, ingested, at) ==
            EventsOf(v, b, front, at) + if kind.Some? then [MarketEvent(v.stream, ingested.venueTs, at, kind.value)] else []
  {
  }

  lemma NewsOneMore(events: seq<MarketEvent>, passed: seq<EventKind>, b: BookValue, a: SyncAction, e: MarketEvent)
    requires PassedOn(events) == passed && Passive(a) && (Logged(b, a).Some? ==> e.kind == Logged(b, a).value)
    ensures PassedOn(events + if Logged(b, a).Some? then [e] else []) == passed + if a.Forward? then [a.kind] else []
  {
    if Logged(b, a).Some? {
      PassedOnOneMore(events, e);
    } else {
      assert events + [] == events;
    }
    assert passed + [] == passed;
  }

  /**
   Trades and heartbeats pass through whatever state the book is in: each is in the log once, in
   order; and every event of a frame bears its stream, its venue time and the time it came in.
   */
  lemma {:induction false} NewsIsLogged(v: Venue, b: BookValue, ingested: Ingested, at: IngestTime)
    requires forall a | a in ingested.actions :: Passive(a)
    ensures PassedOn(EventsOf(v, b, ingested, at)) == Forwards(ingested.actions)
    ensures forall e | e in EventsOf(v, b, ingested, at) :: e.stream == v.stream && e.venueTs == ingested.venueTs && e.ingest == at
    decreases |ingested.actions|
  {
    var actions := ingested.actions;
    if actions != [] {
      var front := ingested.(actions := actions[..|actions| - 1]);
      var last := actions[|actions| - 1];
      assert last in actions && forall a | a in front.actions :: a in actions;
      NewsIsLogged(v, b, front, at);
      EventsOneMore(v, b, ingested, at);
      var before := ActedAll(v, b, front.actions, at);
      var kind := Logged(before, last);
      var e := MarketEvent(v.stream, ingested.venueTs, at, if kind.Some? then kind.value else HeartbeatEvent(None));
      NewsOneMore(EventsOf(v, b, front, at), Forwards(front.actions), before, last, e);
    }
  }
}
