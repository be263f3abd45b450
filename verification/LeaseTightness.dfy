/**
 The timing hypothesis of the lease protocol is exact: with exact clocks, exclusive
 ownership holds over every run if and only if `Timely` does. There are two failing runs, both
 of a node that goes blind after a contact and misses as many renewals as its hold allows.
 In one, a settled node reads after the blind node's record expired and before it lets go. In
 the other, a newcomer whose first announcement is slow settles before it lets go, having
 announced itself just after its last good read. In both, every sleep lasts a renewal.
 */
module LeaseTightness {
  import opened Types
  import opened Assign
  import opened Lease
  import opened LeaseProtocol

  lemma Extend(W: World, s: State, a: Action)
    requires Reachable(W, s) && Enabled(W, s, a)
    ensures Reachable(W, Next(W, s, a))
  {
    var init, actions :| Init(W, init) && Reaches(W, init, actions, s);
    var longer := actions + [a];
    assert longer[..|longer| - 1] == actions && longer[|longer| - 1] == a;
    var after := Next(W, s, a);
    assert Reaches(W, init, longer[..|longer| - 1], s) && Enabled(W, s, longer[|longer| - 1]);
    assert Reaches(W, init, longer, after);
  }

  ////////// Whole steps, taken without time passing

  /** The node may take its next step now. */
  predicate Ready(s: State, id: NodeId) {
    id in s.nodes && s.nodes[id].phase.Idle? && s.nodes[id].lastMono <= s.now && s.nodes[id].wake <= s.now
  }

  function Contacted(W: World, id: NodeId, n: Node, now: int, records: seq<Record>): Node {
    AfterDecide(W, id, n.(phase := Deciding(now, now, now, now, Some(records), now), lastMono := now), now)
  }

  function ContactedState(W: World, s: State, id: NodeId, records: seq<Record>): State
    requires id in s.nodes
  {
    State(s.now, s.registry[id := RecordOf(W, id, s.now)],
          s.nodes[id := Contacted(W, id, s.nodes[id], s.now, records)])
  }

  lemma ContactStep(W: World, s: State, id: NodeId, records: seq<Record>)
    requires Reachable(W, s) && Ready(s, id)
    requires Lists(records, s.registry[id := RecordOf(W, id, s.now)])
    ensures Reachable(W, ContactedState(W, s, id, records))
  {
    var s1 := Next(W, s, Capture(id, s.now, s.now));
    Extend(W, s, Capture(id, s.now, s.now));
    Extend(W, s1, Announce(id, true, true));
    var s2 := Next(W, s1, Announce(id, true, true));
    Extend(W, s2, Read(id, Some(records)));
    var s3 := Next(W, s2, Read(id, Some(records)));
    Extend(W, s3, Decide(id));
    assert Next(W, s3, Decide(id)) == ContactedState(W, s, id, records);
  }

  function Missed(W: World, id: NodeId, n: Node, now: int): Node {
    AfterDecide(W, id, n.(phase := Deciding(now, now, now, now, None, now), lastMono := now), now)
  }

  /** A step whose announcement fails. */
  lemma MissedStep(W: World, s: State, id: NodeId)
    requires Reachable(W, s) && Ready(s, id)
    ensures Reachable(W, s.(nodes := s.nodes[id := Missed(W, id, s.nodes[id], s.now)]))
  {
    var s1 := Next(W, s, Capture(id, s.now, s.now));
    Extend(W, s, Capture(id, s.now, s.now));
    Extend(W, s1, Announce(id, false, false));
    var s2 := Next(W, s1, Announce(id, false, false));
    Extend(W, s2, Decide(id));
    assert Next(W, s2, Decide(id)) == s.(nodes := s.nodes[id := Missed(W, id, s.nodes[id], s.now)]);
  }

  ////////// Two nodes

  /** Exact clocks, something to hold, and a second step possible at all. */
  predicate Setting(W: World, a: NodeId, b: NodeId) {
    a != b && W.skew == 0 && W.config.HoldFor() > 0 && W.config.renew <= W.bound && W.bound > 0
  }

  /** The only nodes are these two, and the registry holds their records. */
  ghost predicate Duo(W: World, s: State, a: NodeId, b: NodeId) {
    && Reachable(W, s) && s.now >= 0 && s.nodes.Keys == {a, b} && s.registry.Keys <= {a, b}
    && forall n | n in s.registry :: s.registry[n].node == n
  }

  /** Between steps, in contact at `contact`, its last clock capture at `decided` and asleep until `wake`. */
  predicate Up(n: Node, settled: int, contact: int, decided: int, wake: int) {
    && n.phase.Idle? && n.lastMono == n.decided == decided && n.wake == wake
    && n.belief.lastContact == Some(contact) && n.belief.settledAt == settled
  }

  /** It holds what its view assigns to it. */
  predicate Owner(W: World, id: NodeId, n: Node) {
    n.belief.owned == AssignedTo(W.w, id, W.streams, n.belief.members)
  }

  /** It sees itself, at most the other node besides, and that one exactly if `sees`. */
  ghost predicate Sees(n: Node, self: NodeId, other: NodeId, sees: bool) {
    && self in n.belief.members && (other in n.belief.members <==> sees)
    && forall m | m in n.belief.members :: m == self || m == other
  }

  lemma ListsBoth(a: NodeId, x: Record, b: NodeId, y: Record)
    requires a != b && x.node == a && y.node == b
    ensures Lists([x, y], map[a := x, b := y])
  {
    var records := [x, y];
    assert records[0] in records && records[1] in records;
  }

  /** What one of the two reads. */
  function RecordsFor(s: State, a: NodeId, b: NodeId, mine: Record): seq<Record> {
    if b in s.registry then [mine, s.registry[b]] else [mine]
  }

  /** The other's record, if any, has not expired. */
  predicate Fresher(s: State, b: NodeId) {
    b in s.registry && !s.registry[b].ExpiredAt(s.now)
  }

  /** A whole step of `a`: it writes, reads both records, settles for long enough or not, and sleeps. */
  lemma Contact(W: World, s: State, a: NodeId, b: NodeId) returns (t: State)
    requires Setting(W, a, b) && Duo(W, s, a, b) && Ready(s, a)
    ensures Duo(W, t, a, b) && t.now == s.now
    ensures t.registry == s.registry[a := RecordOf(W, a, s.now)] && t.nodes == s.nodes[a := t.nodes[a]]
    ensures var was, m := s.nodes[a].belief, t.nodes[a];
            var settled := if was.lastContact.None? then s.now else was.settledAt;
            && Up(m, settled, s.now, s.now, s.now + W.config.renew) && Sees(m, a, b, Fresher(s, b))
            && (s.now - settled >= W.config.SettleFor() ==> Owner(W, a, m))
  {
    var mine := RecordOf(W, a, s.now);
    var records := RecordsFor(s, a, b, mine);
    if b in s.registry {
      ListsBoth(a, mine, b, s.registry[b]);
      assert s.registry[a := mine] == map[a := mine, b := s.registry[b]];
    } else {
      assert records[0] in records;
      assert s.registry[a := mine] == map[a := mine];
    }
    ContactStep(W, s, a, records);
    t := ContactedState(W, s, a, records);
    LiveMembersAreTheUnexpired(records, s.now);
    assert records[0] in records && (b in s.registry ==> records[1] in records);
  }

  /** A step of `a` that reaches nobody, within its hold. */
  lemma Miss(W: World, s: State, a: NodeId, b: NodeId, contact: int, decided: int, wake: int) returns (t: State)
    requires Setting(W, a, b) && Duo(W, s, a, b) && Up(s.nodes[a], 0, contact, decided, wake) && Owner(W, a, s.nodes[a])
    requires wake <= s.now && W.config.SettleFor() <= contact <= decided <= s.now < contact + W.config.HoldFor()
    ensures Duo(W, t, a, b) && t.now == s.now && t.registry == s.registry && t.nodes == s.nodes[a := t.nodes[a]]
    ensures Up(t.nodes[a], 0, contact, s.now, s.now + W.config.renew) && Owner(W, a, t.nodes[a])
    ensures t.nodes[a].belief.members == s.nodes[a].belief.members
  {
    MissedStep(W, s, a);
    t := s.(nodes := s.nodes[a := Missed(W, a, s.nodes[a], s.now)]);
  }

  /** Time passes while both are in time. */
  lemma Pass(W: World, s: State, a: NodeId, b: NodeId, to: int) returns (t: State)
    requires Duo(W, s, a, b) && s.now <= to && OnTime(W, s.nodes[a], to) && OnTime(W, s.nodes[b], to)
    ensures Duo(W, t, a, b) && t == s.(now := to)
  {
    Extend(W, s, Elapse(to));
    t := Next(W, s, Elapse(to));
  }

  ////////// A blind node against the clock

  /** From `d`, the time `x` can be met by `k` captures a pace apart. */
  predicate Fits(W: World, d: int, k: nat, x: int) {
    Paces(k, W.config.renew) <= x - d <= Paces(k, W.bound)
  }

  /** When the first of them is. */
  function NextAt(W: World, d: int, k: nat, x: int): int
    requires k > 0
  {
    Max(d + W.config.renew, x - Paces(k - 1, W.bound))
  }

  lemma NextFits(W: World, d: int, k: nat, x: int)
    requires k > 0 && W.config.renew <= W.bound && Fits(W, d, k, x)
    ensures d + W.config.renew <= NextAt(W, d, k, x) <= d + W.bound && NextAt(W, d, k, x) <= x
    ensures Fits(W, NextAt(W, d, k, x), k - 1, x)
  {
    PacesGrow(k - 1, W.config.renew, W.bound);
  }

  lemma {:induction false} PacesGrow(k: nat, x: nat, y: nat)
    requires x <= y
    ensures Paces(k, x) <= Paces(k, y)
  {
    if k > 0 {
      PacesGrow(k - 1, x, y);
    }
  }

  /** `a` has been blind since `contact` and still holds; `b` renews, and was last in contact at `db`. */
  ghost predicate Blind(W: World, s: State, a: NodeId, b: NodeId, contact: int, da: int, sb: int, db: int) {
    && Duo(W, s, a, b) && da <= s.now && db <= s.now && W.config.SettleFor() <= contact <= da && contact <= db
    && s.registry.Keys == {a, b} && s.registry[a] == RecordOf(W, a, contact)
    && Up(s.nodes[a], 0, contact, da, da + W.config.renew) && Owner(W, a, s.nodes[a])
    && Up(s.nodes[b], sb, db, db, db + W.config.renew) && Sees(s.nodes[b], b, a, db <= contact + W.config.ttl)
    && (db - sb >= W.config.SettleFor() ==> Owner(W, b, s.nodes[b]))
  }

  lemma BlindMisses(W: World, s: State, a: NodeId, b: NodeId, contact: int, da: int, sb: int, db: int, at: int) returns (t: State)
    requires Setting(W, a, b) && Blind(W, s, a, b, contact, da, sb, db) && s.now <= at
    requires da + W.config.renew <= at <= da + W.bound && at <= db + W.bound && at < contact + W.config.HoldFor()
    ensures Blind(W, t, a, b, contact, at, sb, db) && t.now == at
    ensures t.nodes[a].belief.members == s.nodes[a].belief.members
  {
    var s1 := Pass(W, s, a, b, at);
    t := Miss(W, s1, a, b, contact, da, da + W.config.renew);
  }

  lemma OtherRenews(W: World, s: State, a: NodeId, b: NodeId, contact: int, da: int, sb: int, db: int, at: int) returns (t: State)
    requires Setting(W, a, b) && Blind(W, s, a, b, contact, da, sb, db) && s.now <= at
    requires db + W.config.renew <= at <= db + W.bound && at <= da + W.bound
    ensures Blind(W, t, a, b, contact, da, sb, at) && t.now == at
    ensures t.nodes[a] == s.nodes[a]
  {
    var s1 := Pass(W, s, a, b, at);
    t := Contact(W, s1, b, a);
  }

  /** What is left of a race: `a` misses `i` more steps, the last at `last`; `b` takes `k` more, the last at `end`. */
  predicate Left(W: World, contact: int, now: int, da: int, i: nat, last: int, db: int, k: nat, end: int) {
    && Fits(W, da, i, last) && last < contact + W.config.HoldFor() && (i > 0 ==> now <= NextAt(W, da, i, last))
    && Fits(W, db, k, end) && end <= last + W.bound && now <= if k > 0 then NextAt(W, db, k, end) else end
  }

  /** `a` is next. */
  lemma LeftAfterMiss(W: World, contact: int, now: int, da: int, i: nat, last: int, db: int, k: nat, end: int)
    requires W.config.renew <= W.bound && Left(W, contact, now, da, i, last, db, k, end) && i > 0 && k > 0
    requires NextAt(W, da, i, last) <= NextAt(W, db, k, end)
    ensures var at := NextAt(W, da, i, last);
            && now <= at <= db + W.bound && da + W.config.renew <= at <= da + W.bound && at <= last
            && Left(W, contact, at, at, i - 1, last, db, k, end)
  {
    NextFits(W, da, i, last);
    NextFits(W, db, k, end);
    FirstOfRace(W, NextAt(W, da, i, last), NextAt(W, da, i, last), i - 1, last);
  }

  /** `b` is next. */
  lemma LeftAfterRenewal(W: World, contact: int, now: int, da: int, i: nat, last: int, db: int, k: nat, end: int)
    requires W.config.renew <= W.bound && Left(W, contact, now, da, i, last, db, k, end) && k > 0
    requires i > 0 ==> NextAt(W, db, k, end) < NextAt(W, da, i, last)
    ensures var at := NextAt(W, db, k, end);
            && now <= at <= da + W.bound && db + W.config.renew <= at <= db + W.bound
            && Left(W, contact, at, da, i, last, at, k - 1, end)
  {
    NextFits(W, db, k, end);
    FirstOfRace(W, NextAt(W, db, k, end), NextAt(W, db, k, end), k - 1, end);
    if i > 0 {
      NextFits(W, da, i, last);
    }
  }

  lemma FirstOfRace(W: World, now: int, d: int, k: nat, x: int)
    requires W.config.renew <= W.bound && Fits(W, d, k, x) && now <= d + W.config.renew
    ensures k > 0 ==> now <= NextAt(W, d, k, x)
  {
    if k > 0 {
      NextFits(W, d, k, x);
    }
  }

  /** The steps of both interleave in order of time, until `b` has taken its last and before `a` must have let go. */
  lemma {:induction false} Race(W: World, s: State, a: NodeId, b: NodeId, contact: int,
                                da: int, i: nat, last: int, sb: int, db: int, k: nat, end: int)
    returns (t: State, d: int)
    requires Setting(W, a, b) && Blind(W, s, a, b, contact, da, sb, db)
    requires Left(W, contact, s.now, da, i, last, db, k, end)
    ensures Blind(W, t, a, b, contact, d, sb, end)
    ensures t.nodes[a].belief.members == s.nodes[a].belief.members
    decreases i + k
  {
    if k == 0 {
      t, d := s, da;
    } else if i > 0 && NextAt(W, da, i, last) <= NextAt(W, db, k, end) {
      LeftAfterMiss(W, contact, s.now, da, i, last, db, k, end);
      var at := NextAt(W, da, i, last);
      var s1 := BlindMisses(W, s, a, b, contact, da, sb, db, at);
      t, d := Race(W, s1, a, b, contact, at, i - 1, last, sb, db, k, end);
    } else {
      LeftAfterRenewal(W, contact, s.now, da, i, last, db, k, end);
      var at := NextAt(W, db, k, end);
      var s1 := OtherRenews(W, s, a, b, contact, da, sb, db, at);
      t, d := Race(W, s1, a, b, contact, da, i, last, sb, at, k - 1, end);
    }
  }

  lemma SpanFits(W: World, contact: int)
    requires W.skew == 0 && W.config.HoldFor() > 0 && W.config.renew <= W.bound && W.bound > 0
    ensures Fits(W, contact, Misses(W), contact + Span(W)) && Span(W) < W.config.HoldFor()
  {
    PacesIsProduct(Misses(W), W.config.renew);
    PacesIsProduct(Misses(W), W.bound);
    PacesGrow(Misses(W), W.config.renew, W.bound);
    Scales(W.config.renew, Max(1, W.config.renew), Misses(W));
    assert Misses(W) * Max(1, W.config.renew) <= HoldLimit(W);
  }

  ////////// First run: the record expires before its node lets go

  /** A process that was never started. */
  function Idler(): Node {
    Node(Down, 0, Fresh(0), 0, 0, 0, 0, 0, 0, 0, 0, [], 0)
  }

  lemma Nothing(W: World, a: NodeId, b: NodeId) returns (s: State)
    requires Setting(W, a, b)
    ensures Duo(W, s, a, b) && s == State(0, map[], map[a := Idler(), b := Idler()])
  {
    s := State(0, map[], map[a := Idler(), b := Idler()]);
    assert Reaches(W, s, [], s);
  }

  lemma Launch(W: World, s: State, a: NodeId, b: NodeId) returns (t: State)
    requires Setting(W, a, b) && Duo(W, s, a, b) && s.nodes[a] == Idler()
    ensures Duo(W, t, a, b) && t.now == s.now && t.registry == s.registry && t.nodes == s.nodes[a := t.nodes[a]]
    ensures t.nodes[a] == Idler().(phase := Idle, lastMono := s.now, belief := Fresh(s.now), wake := s.now)
  {
    Extend(W, s, Start(a, s.now));
    t := Next(W, s, Start(a, s.now));
  }

  /** Both in contact at `now`, since time 0. */
  ghost predicate Together(W: World, s: State, a: NodeId, b: NodeId, now: int) {
    && Duo(W, s, a, b) && s.now == now && s.registry.Keys == {a, b} && s.registry[a] == RecordOf(W, a, now)
    && Up(s.nodes[a], 0, now, now, now + W.config.renew) && Up(s.nodes[b], 0, now, now, now + W.config.renew)
    && a in s.nodes[a].belief.members && (forall m | m in s.nodes[a].belief.members :: m == a || m == b)
    && Sees(s.nodes[b], b, a, true)
    && (now >= W.config.SettleFor() ==> Owner(W, a, s.nodes[a]) && Owner(W, b, s.nodes[b]))
  }

  lemma {:induction false} TogetherFor(W: World, a: NodeId, b: NodeId, k: nat) returns (s: State)
    requires Setting(W, a, b)
    ensures Together(W, s, a, b, Paces(k, W.bound))
  {
    var s1: State;
    if k == 0 {
      var s0 := Nothing(W, a, b);
      var s' := Launch(W, s0, a, b);
      s1 := Launch(W, s', b, a);
    } else {
      var s0 := TogetherFor(W, a, b, k - 1);
      s1 := Pass(W, s0, a, b, Paces(k, W.bound));
    }
    var s2 := Contact(W, s1, a, b);
    s := Contact(W, s2, b, a);
  }

  lemma LongEnough(W: World)
    requires W.bound > 0
    ensures Paces(W.config.SettleFor(), W.bound) >= W.config.SettleFor()
  {
    PacesIsProduct(W.config.SettleFor(), W.bound);
    Scales(1, W.bound, W.config.SettleFor());
  }

  lemma RunsTwiceOnExpiry(W: World, a: NodeId, b: NodeId, stream: StreamId) returns (s: State)
    requires Setting(W, a, b) && !OutlivesNobody(W) && stream in W.streams && Beats(W.w, stream, a, b)
    ensures Reachable(W, s) && s.nodes.Keys == {a, b}
    ensures stream in s.nodes[a].belief.owned && stream in s.nodes[b].belief.owned
  {
    LongEnough(W);
    var now := Paces(W.config.SettleFor(), W.bound);
    var s0 := TogetherFor(W, a, b, W.config.SettleFor());
    var i := Misses(W);
    SpanFits(W, now);
    var last, end := now + Span(W), now + Reach(W);
    assert Fits(W, now, i + 1, end);
    FirstOfRace(W, now, now, i, last);
    FirstOfRace(W, now, now, i + 1, end);
    var d: int;
    s, d := Race(W, s0, a, b, now, now, i, last, 0, now, i + 1, end);
    OwnsAgainst(W, s, a, b, stream);
    OwnsAlone(W, s, b, a, stream);
  }

  lemma OwnsAgainst(W: World, s: State, a: NodeId, b: NodeId, stream: StreamId)
    requires a in s.nodes && Owner(W, a, s.nodes[a]) && stream in W.streams && Beats(W.w, stream, a, b)
    requires a in s.nodes[a].belief.members && forall m | m in s.nodes[a].belief.members :: m == a || m == b
    ensures stream in s.nodes[a].belief.owned
  {
    var members := s.nodes[a].belief.members;
    assert Wins(W.w, stream, a, Members(members));
    OwnerIsTheWinner(W.w, stream, members, a);
  }

  lemma OwnsAlone(W: World, s: State, a: NodeId, b: NodeId, stream: StreamId)
    requires a in s.nodes && Owner(W, a, s.nodes[a]) && stream in W.streams && Sees(s.nodes[a], a, b, false)
    ensures stream in s.nodes[a].belief.owned
  {
    var members := s.nodes[a].belief.members;
    assert Wins(W.w, stream, a, Members(members));
    OwnerIsTheWinner(W.w, stream, members, a);
  }

  ////////// Second run: the joiner settles before the incumbent lets go

  /** `a` alone and in contact at `now`, since time 0. */
  ghost predicate Alone(W: World, s: State, a: NodeId, b: NodeId, now: int) {
    && Duo(W, s, a, b) && s.now == now && s.registry.Keys == {a} && s.registry[a] == RecordOf(W, a, now)
    && Up(s.nodes[a], 0, now, now, now + W.config.renew) && Sees(s.nodes[a], a, b, false)
    && (now >= W.config.SettleFor() ==> Owner(W, a, s.nodes[a]))
  }

  lemma {:induction false} AloneFor(W: World, a: NodeId, b: NodeId, k: nat) returns (s: State)
    requires Setting(W, a, b)
    ensures Alone(W, s, a, b, Paces(k, W.bound)) && s.nodes[b] == Idler()
  {
    var s1: State;
    if k == 0 {
      var s0 := Nothing(W, a, b);
      s1 := Launch(W, s0, a, b);
    } else {
      var s0 := AloneFor(W, a, b, k - 1);
      s1 := Pass(W, s0, a, b, Paces(k, W.bound));
    }
    s := Contact(W, s1, a, b);
  }

  /** The joiner, its clocks read at `t` and its first announcement still under way. */
  function Joiner(t: int): Node {
    Idler().(phase := Announcing(t, t, t), lastMono := t, belief := Fresh(t), wake := t)
  }

  /** `b` starts a renewal after `a`'s contact at `now`; `a`'s next one, a bound after, still misses it. */
  lemma JoinerAnnounces(W: World, a: NodeId, b: NodeId, s: State, now: nat) returns (t: State)
    requires Setting(W, a, b) && Alone(W, s, a, b, now) && s.nodes[b] == Idler()
    ensures Alone(W, t, a, b, now + W.bound) && t.nodes[b] == Joiner(now + W.config.renew)
  {
    var start := now + W.config.renew;
    var s1 := Pass(W, s, a, b, start);
    var s2 := JoinerStarts(W, s1, b, a);
    var s3 := Pass(W, s2, a, b, now + W.bound);
    t := Contact(W, s3, a, b);
  }

  lemma JoinerStarts(W: World, s: State, b: NodeId, a: NodeId) returns (t: State)
    requires Setting(W, b, a) && Duo(W, s, b, a) && s.nodes[b] == Idler()
    ensures Duo(W, t, b, a) && t == s.(nodes := s.nodes[b := Joiner(s.now)])
  {
    var s1 := Launch(W, s, b, a);
    Extend(W, s1, Capture(b, s.now, s.now));
    t := Next(W, s1, Capture(b, s.now, s.now));
  }

  /** Then the announcement lands, and the joiner is in contact, seeing both. */
  lemma JoinerLands(W: World, a: NodeId, b: NodeId, s: State, start: nat, now: nat) returns (t: State)
    requires Setting(W, a, b) && Alone(W, s, a, b, now) && s.nodes[b] == Joiner(start) && start <= now
    ensures Duo(W, t, a, b) && t.now == now && t.nodes[a] == s.nodes[a]
    ensures t.registry.Keys == {a, b} && t.registry[a] == RecordOf(W, a, now)
    ensures Up(t.nodes[b], start, start, start, now + W.config.renew)
  {
    Extend(W, s, Announce(b, true, true));
    var s1 := Next(W, s, Announce(b, true, true));
    var records := [RecordOf(W, a, now), RecordOf(W, b, start)];
    assert s1.registry == map[a := records[0], b := records[1]];
    ListsBoth(a, records[0], b, records[1]);
    Extend(W, s1, Read(b, Some(records)));
    var s2 := Next(W, s1, Read(b, Some(records)));
    Extend(W, s2, Decide(b));
    t := Next(W, s2, Decide(b));
  }

  /** The joiner's second step, as soon as its sleep allows. */
  lemma JoinerRenews(W: World, a: NodeId, b: NodeId) returns (s: State)
    requires Setting(W, a, b)
    ensures var now := Paces(W.config.SettleFor(), W.bound);
            var start, contact := now + W.config.renew, now + W.bound;
            Blind(W, s, a, b, contact, contact, start, start + W.bound) && s.now == start + W.bound
    ensures Sees(s.nodes[a], a, b, false)
  {
    LongEnough(W);
    var now := Paces(W.config.SettleFor(), W.bound);
    var s0 := AloneFor(W, a, b, W.config.SettleFor());
    var s1 := JoinerAnnounces(W, a, b, s0, now);
    var s2 := JoinerLands(W, a, b, s1, now + W.config.renew, now + W.bound);
    s := JoinerGoesOn(W, a, b, s2, now + W.config.renew, now + W.bound);
  }

  lemma JoinerGoesOn(W: World, a: NodeId, b: NodeId, s: State, start: nat, now: nat) returns (t: State)
    requires Setting(W, a, b) && Duo(W, s, a, b) && s.now == now == start + W.bound - W.config.renew
    requires s.registry.Keys == {a, b} && s.registry[a] == RecordOf(W, a, now) && W.config.SettleFor() <= now
    requires Up(s.nodes[a], 0, now, now, now + W.config.renew) && Owner(W, a, s.nodes[a])
    requires Up(s.nodes[b], start, start, start, now + W.config.renew)
    ensures Blind(W, t, a, b, now, now, start, start + W.bound) && t.now == start + W.bound
    ensures t.nodes[a] == s.nodes[a]
  {
    var s1 := Pass(W, s, a, b, start + W.bound);
    t := Contact(W, s1, b, a);
  }

  /** The joiner can take its captures so that one comes after it settled and before the incumbent lets go. */
  lemma JoinerFits(W: World, start: int) returns (end: int)
    requires W.skew == 0 && W.config.renew <= W.bound && W.bound > 0 && Settling(W) > 0 && JoinsTooSoon(W)
    ensures SettlingSteps(W) > 0 && Fits(W, start + W.bound, SettlingSteps(W) - 1, end)
    ensures start + Settling(W) <= end <= start + W.bound - W.config.renew + Reach(W)
  {
    var m := SettlingSteps(W);
    RoundedUp(Settling(W), W.bound);
    PacesIsProduct(m, W.bound);
    PacesIsProduct(m, W.config.renew);
    PacesGrow(m - 1, W.config.renew, W.bound);
    end := start + Max(Settling(W), W.bound - W.config.renew + Paces(m, W.config.renew));
  }

  lemma RoundedUp(n: nat, step: nat)
    requires n > 0 && step > 0
    ensures var m := (n + step - 1) / step; m > 0 && m * step >= n
  {
  }

  /** So the race that follows can be run. */
  lemma JoinerRaces(W: World, start: int, contact: int) returns (end: int)
    requires W.skew == 0 && W.config.HoldFor() > 0 && W.config.renew <= W.bound && W.bound > 0
    requires Settling(W) > 0 && JoinsTooSoon(W) && contact == start + W.bound - W.config.renew
    ensures SettlingSteps(W) > 0 && start + W.config.SettleFor() <= end
    ensures var k := SettlingSteps(W) - 1;
            Left(W, contact, start + W.bound, contact, Misses(W), contact + Span(W), start + W.bound, k, end)
  {
    end := JoinerFits(W, start);
    FirstOfRace(W, start + W.bound, start + W.bound, SettlingSteps(W) - 1, end);
    SpanFits(W, contact);
    FirstOfRace(W, start + W.bound, contact, Misses(W), contact + Span(W));
  }

  lemma RunsTwiceOnJoining(W: World, a: NodeId, b: NodeId, stream: StreamId) returns (s: State)
    requires Setting(W, a, b) && Settling(W) > 0 && JoinsTooSoon(W) && stream in W.streams && Beats(W.w, stream, b, a)
    ensures Reachable(W, s) && s.nodes.Keys == {a, b}
    ensures stream in s.nodes[a].belief.owned && stream in s.nodes[b].belief.owned
  {
    var s0 := JoinerRenews(W, a, b);
    var now := Paces(W.config.SettleFor(), W.bound);
    var start, contact := now + W.config.renew, now + W.bound;
    var end := JoinerRaces(W, start, contact);
    s := JoinerWins(W, s0, a, b, contact, Misses(W), contact + Span(W), start, SettlingSteps(W) - 1, end, stream);
  }

  lemma JoinerWins(W: World, s: State, a: NodeId, b: NodeId, contact: int, i: nat, last: int,
                   start: int, k: nat, end: int, stream: StreamId) returns (t: State)
    requires Setting(W, a, b) && Blind(W, s, a, b, contact, contact, start, start + W.bound) && Sees(s.nodes[a], a, b, false)
    requires Left(W, contact, s.now, contact, i, last, start + W.bound, k, end)
    requires start + W.config.SettleFor() <= end && stream in W.streams && Beats(W.w, stream, b, a)
    ensures Reachable(W, t) && t.nodes.Keys == {a, b}
    ensures stream in t.nodes[a].belief.owned && stream in t.nodes[b].belief.owned
  {
    var d: int;
    t, d := Race(W, s, a, b, contact, contact, i, last, start, start + W.bound, k, end);
    OwnedByBoth(W, t, a, b, contact, d, start, end, stream);
  }

  lemma OwnedByBoth(W: World, s: State, a: NodeId, b: NodeId, contact: int, da: int, sb: int, db: int, stream: StreamId)
    requires Blind(W, s, a, b, contact, da, sb, db) && Sees(s.nodes[a], a, b, false)
    requires db - sb >= W.config.SettleFor() && stream in W.streams && Beats(W.w, stream, b, a)
    ensures stream in s.nodes[a].belief.owned && stream in s.nodes[b].belief.owned
  {
    OwnsAlone(W, s, a, b, stream);
    OwnsAgainst(W, s, b, a, stream);
  }

  ////////// The exact condition

  /** Some run has a stream owned twice. */
  lemma UntimelyRunsTwice(W: World, x: NodeId, y: NodeId) returns (s: State)
    requires W.skew == 0 && x != y && W.streams != [] && !Timely(W)
    ensures Reachable(W, s) && !Exclusive(s)
  {
    var stream := W.streams[0];
    var a, b := if Beats(W.w, stream, x, y) then x else y, if Beats(W.w, stream, x, y) then y else x;
    if !OutlivesNobody(W) {
      s := RunsTwiceOnExpiry(W, a, b, stream);
    } else {
      s := RunsTwiceOnJoining(W, b, a, stream);
    }
    assert stream in s.nodes[a].belief.owned * s.nodes[b].belief.owned;
  }

  /**
   With exact clocks and something to share, exclusive ownership over every run of the paced
   loop holds exactly when the timing hypothesis does.
   */
  lemma ExclusiveExactlyWhenTimely(W: World, x: NodeId, y: NodeId)
    requires W.skew == 0 && x != y && W.streams != []
    ensures (forall s | Reachable(W, s) :: Exclusive(s)) <==> Timely(W)
  {
    if Timely(W) {
      forall s | Reachable(W, s) ensures Exclusive(s) {
        NoStreamRunsTwice(W, s);
      }
    } else {
      var s := UntimelyRunsTwice(W, x, y);
      assert Reachable(W, s) && !Exclusive(s);
    }
  }

  /** How many steps, a renewal apart, begin within the hold: the one in contact and those missed after it. */
  function Attempts(c: Config): nat
    requires c.renew > 0
  {
    Max(0, c.HoldFor() - 1) / c.renew + 1
  }

  /**
   For settings as the source asks for them, with a renewal shorter than the hold, the condition
   is that the attempts within one hold, each as late as the bound allows, fit into the ttl, or
   that one bound fits into the guard.
   */
  lemma AttemptsMustFitTheTtl(W: World)
    requires W.skew == 0 && W.config.guard > 0 && 1 < W.config.renew < W.config.HoldFor() && W.config.renew <= W.bound
    ensures Timely(W) <==> Attempts(W.config) * W.bound <= W.config.ttl || W.bound <= W.config.guard + 1
  {
    var n, c := Attempts(W.config), W.config;
    assert Misses(W) == n - 1 && (n - 1) * W.bound + W.bound == n * W.bound;
    if OutlivesNobody(W) && JoinsTooSoon(W) {
      var slack := W.bound - c.renew;
      assert slack >= c.guard;
      assert n * c.renew >= c.HoldFor();
      assert n * W.bound == n * c.renew + n * slack;
      Scales(2, n, slack);
      assert false;
    }
  }

  /**
   The shipped timings leave no slack: with the default of 15s, 3s and 2s ownership is exclusive
   over every run exactly if no step takes longer than the sleep before it, and with the server's
   fifth and seventh of the ttl any bound above that sleep admits a stream run twice.
   */
  lemma ShippedTimingsLeaveNoSlack(W: World, x: NodeId, y: NodeId)
    requires W.skew == 0 && x != y && W.streams != []
    ensures W.config == Config(15000, 3000, 2000) ==>
              ((forall s | Reachable(W, s) :: Exclusive(s)) <==> W.bound <= 3000)
    ensures W.config.renew == W.config.ttl / 5 && W.config.guard == W.config.ttl / 7 &&
            W.config.guard < W.config.renew < W.bound ==>
              exists s :: Reachable(W, s) && !Exclusive(s)
  {
    var c := W.config;
    ExclusiveExactlyWhenTimely(W, x, y);
    if c == Config(15000, 3000, 2000) && W.bound >= 3000 {
      AttemptsMustFitTheTtl(W);
      assert Attempts(c) == 5;
    }
    if c.renew == c.ttl / 5 && c.guard == c.ttl / 7 && c.guard < c.renew < W.bound {
      FifthsMissFourTimes(W);
      var s := UntimelyRunsTwice(W, x, y);
    }
  }

  /** Four renewals of a fifth of the ttl are within the hold, and the fifth bound is past the ttl. */
  lemma FifthsMissFourTimes(W: World)
    requires W.skew == 0 && W.config.renew == W.config.ttl / 5 && W.config.guard == W.config.ttl / 7
    requires W.config.guard < W.config.renew < W.bound
    ensures !Timely(W)
  {
    assert 4 * W.config.renew <= HoldLimit(W);
    MultipleFits(4, Max(1, W.config.renew), HoldLimit(W));
    Scales(4, Misses(W), W.bound);
  }
}
