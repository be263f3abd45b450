/**
 The lease protocol as an asynchronous transition system, and its safety over every run.

 Each node repeats one step: capture its clocks, announce its record, read every record,
 decide. Between those points the other nodes, failures, crashes and restarts interleave
 freely. The registry is one linearizable map. A node's monotonic and wall readings are
 both within `skew` of true time; an elapsed time is only ever taken between two readings
 of the same clock, so the monotonic origin does not matter.

 Between two steps a node sleeps for `renew`, counted from the decision of the first. The
 protocol itself does not bound how long a step takes. Safety needs such a bound, so it
 is explicit: `bound` limits the true time from one step's clock capture until the next
 step's decision has taken effect, for a node that has a lease, and until its own decision
 for one that does not. It is enforced by letting time pass only up to that deadline.
 */
module LeaseProtocol {
  import opened Types
  import opened Assign
  import opened Lease

  /** What every node shares, and the two timing assumptions. */
  datatype World = World(config: Config, streams: seq<StreamId>, w: Weight, bound: nat, skew: nat)

  /** Where a node's loop is. `since` is the true time of the clock capture. */
  datatype Phase =
    | Down
    | Idle
    | Announcing(mono: int, wall: int, since: int)
    | Reading(mono: int, wall: int, since: int, written: int)
    | Deciding(mono: int, wall: int, since: int, written: int, reply: Option<seq<Record>>, read: int)
    | Stopping

  /**
   A process. `wake` is the true time its sleep ends. The fields after it are history that no
   step reads: the true times of the last decided capture, of the capture behind the last
   contact and behind `settledAt`, of the first announcement of this run of contact; the
   decisions since that contact and since that announcement; the true time of the read behind
   `members`, its records, and the wall reading that filtered them.
   */
  datatype Node = Node(
    phase: Phase,
    lastMono: int,
    belief: Belief,
    wake: int,
    decided: int,
    contact: int,
    settled: int,
    joined: int,
    missed: nat,
    steps: nat,
    read: int,
    records: seq<Record>,
    wall: int)

  datatype State = State(now: int, registry: map<NodeId, Record>, nodes: map<NodeId, Node>)

  datatype Action =
    | Elapse(to: int)
    | Start(node: NodeId, mono: int)
    | Capture(node: NodeId, mono: int, wall: int)
    | Announce(node: NodeId, applied: bool, acked: bool)
    | Read(node: NodeId, reply: Option<seq<Record>>)
    | Decide(node: NodeId)
    | Stop(node: NodeId)
    | Withdraw(node: NodeId, applied: bool)
    | Crash(node: NodeId)

  predicate InStep(p: Phase) {
    p.Announcing? || p.Reading? || p.Deciding?
  }

  /** The node's current step, and its next one if it has a lease, are due by `bound`. */
  predicate OnTime(W: World, n: Node, t: int) {
    && (InStep(n.phase) ==> t <= n.phase.since + W.bound)
    && (n.belief.lastContact.Some? ==> t <= n.decided + W.bound)
  }

  predicate Near(reading: int, truth: int, skew: nat) {
    truth - skew <= reading <= truth + skew
  }

  /** A complete enumeration of the registry, in any order. */
  ghost predicate Lists(records: seq<Record>, registry: map<NodeId, Record>) {
    && (forall r | r in records :: r.node in registry && registry[r.node] == r)
    && (forall n | n in registry :: registry[n] in records)
  }

  /** The sleep is over, as the node's own clock measures it. */
  predicate Awake(W: World, n: Node, now: int) {
    n.wake <= now + 2 * W.skew
  }

  ghost predicate Enabled(W: World, s: State, a: Action) {
    match a
    case Elapse(to) => s.now <= to && forall n | n in s.nodes :: OnTime(W, s.nodes[n], to)
    case Start(n, mono) => n in s.nodes && s.nodes[n].phase.Down? && Near(mono, s.now, W.skew)
    case Capture(n, mono, wall) =>
      && n in s.nodes && s.nodes[n].phase.Idle? && Awake(W, s.nodes[n], s.now)
      && Near(mono, s.now, W.skew) && Near(wall, s.now, W.skew) && mono >= s.nodes[n].lastMono
    case Announce(n, applied, acked) => n in s.nodes && s.nodes[n].phase.Announcing? && (acked ==> applied)
    case Read(n, reply) =>
      && n in s.nodes && s.nodes[n].phase.Reading?
      && (reply.Some? ==> Lists(reply.value, s.registry))
    case Decide(n) => n in s.nodes && s.nodes[n].phase.Deciding?
    case Stop(n) => n in s.nodes && s.nodes[n].phase.Idle?
    case Withdraw(n, _) => n in s.nodes && s.nodes[n].phase.Stopping?
    case Crash(n) => n in s.nodes && !s.nodes[n].phase.Down?
  }

  function RecordOf(W: World, n: NodeId, wall: int): Record {
    Record(n, UnixMillis(wall), W.config.ttl)
  }

  /** A process that is gone holds nothing. */
  function Gone(n: Node, phase: Phase): Node {
    n.(phase := phase, belief := Fresh(0))
  }

  function AfterAnnounce(n: Node, now: int, acked: bool): Node
    requires n.phase.Announcing?
  {
    var p := n.phase;
    n.(phase := if acked then Reading(p.mono, p.wall, p.since, now)
                else Deciding(p.mono, p.wall, p.since, now, None, now))
  }

  function AfterRead(n: Node, now: int, reply: Option<seq<Record>>): Node
    requires n.phase.Reading?
  {
    var p := n.phase;
    n.(phase := Deciding(p.mono, p.wall, p.since, p.written, reply, now))
  }

  function AfterDecide(W: World, id: NodeId, n: Node, now: int): Node
    requires n.phase.Deciding?
  {
    var p := n.phase;
    var belief := Decided(n.belief, p.reply, p.mono, p.wall, W.config, id, W.streams, W.w);
    var first := n.belief.lastContact.None?;
    var after := n.(phase := Idle, belief := belief, wake := now + W.config.renew, decided := p.since);
    match p.reply
    case None => after.(missed := n.missed + 1, steps := n.steps + 1)
    case Some(records) =>
      after.(contact := p.since,
             settled := if first then p.since else n.settled,
             joined := if first then p.written else n.joined,
             missed := 0, steps := if first then 0 else n.steps + 1,
             read := p.read, records := records, wall := p.wall)
  }

  function Next(W: World, s: State, a: Action): State
    requires Enabled(W, s, a)
  {
    match a
    case Elapse(to) => s.(now := to)
    case Start(n, mono) =>
      s.(nodes := s.nodes[n := s.nodes[n].(phase := Idle, lastMono := mono, belief := Fresh(mono), wake := s.now)])
    case Capture(n, mono, wall) =>
      s.(nodes := s.nodes[n := s.nodes[n].(phase := Announcing(mono, wall, s.now), lastMono := mono)])
    case Announce(n, applied, acked) =>
      s.(registry := if applied then s.registry[n := RecordOf(W, n, s.nodes[n].phase.wall)] else s.registry,
         nodes := s.nodes[n := AfterAnnounce(s.nodes[n], s.now, acked)])
    case Read(n, reply) => s.(nodes := s.nodes[n := AfterRead(s.nodes[n], s.now, reply)])
    case Decide(n) => s.(nodes := s.nodes[n := AfterDecide(W, n, s.nodes[n], s.now)])
    case Stop(n) => s.(nodes := s.nodes[n := Gone(s.nodes[n], Stopping)])
    case Withdraw(n, applied) =>
      s.(registry := if applied then s.registry - {n} else s.registry,
         nodes := s.nodes[n := Gone(s.nodes[n], Down)])
    case Crash(n) => s.(nodes := s.nodes[n := Gone(s.nodes[n], Down)])
  }

  /** Nothing runs yet; the registry may hold records of earlier processes. */
  ghost predicate Init(W: World, s: State) {
    && s.now >= W.skew
    && (forall n | n in s.registry :: s.registry[n].node == n)
    && (forall n | n in s.nodes :: s.nodes[n].phase.Down? && s.nodes[n].belief == Fresh(0))
  }

  /** `s` is where the actions lead from `init`, each one enabled in turn. */
  ghost predicate Reaches(W: World, init: State, actions: seq<Action>, s: State)
    decreases |actions|
  {
    if actions == [] then s == init
    else
      var last := actions[|actions| - 1];
      exists mid ::
        Reaches(W, init, actions[..|actions| - 1], mid) && Enabled(W, mid, last) && Next(W, mid, last) == s
  }

  ghost predicate Reachable(W: World, s: State) {
    exists init, actions :: Init(W, init) && Reaches(W, init, actions, s)
  }

  predicate Holds(s: State, n: NodeId) {
    n in s.nodes && s.nodes[n].belief.owned != {}
  }

  /** No stream is run by two nodes. */
  ghost predicate Exclusive(s: State) {
    forall a, b | a in s.nodes && b in s.nodes && a != b ::
      s.nodes[a].belief.owned !! s.nodes[b].belief.owned
  }

  ////////// The timing hypothesis

  /** `k` steps of `step` each. */
  function Paces(k: nat, step: nat): nat {
    if k == 0 then 0 else Paces(k - 1, step) + step
  }

  lemma {:induction false} PacesIsProduct(k: nat, step: nat)
    ensures Paces(k, step) == k * step
  {
    if k > 0 {
      PacesIsProduct(k - 1, step);
    }
  }

  /** The least true time from one clock capture to the next: the sleep, less what the clock may hide. */
  function Pace(W: World): nat {
    Max(0, W.config.renew - 2 * W.skew)
  }

  /** The last true time after a contact at which a decision's clock can still be within the hold. */
  function HoldLimit(W: World): nat {
    Max(0, W.config.HoldFor() - 1) + 2 * W.skew
  }

  /** How many steps without contact a node can take within its hold. */
  function Misses(W: World): nat {
    HoldLimit(W) / Max(1, Pace(W))
  }

  /** The longest true time from a contact to the last clock capture within the hold. */
  function Span(W: World): nat {
    Min(HoldLimit(W), Misses(W) * W.bound)
  }

  /** The longest true time a node that has a lease can go on after its last contact. */
  function Reach(W: World): nat {
    Span(W) + W.bound
  }

  /** The shortest true time a joiner waits between two captures a settling period apart. */
  function Settling(W: World): int {
    W.config.SettleFor() - 2 * W.skew
  }

  /** The fewest steps a settling period can take. */
  function SettlingSteps(W: World): nat
    requires Settling(W) > 0
  {
    (Settling(W) + W.bound - 1) / Max(1, W.bound)
  }

  /** Nobody reads a record as expired while its node may still go on. */
  predicate OutlivesNobody(W: World) {
    Reach(W) + 2 * W.skew <= W.config.ttl
  }

  /** A joiner whose first announcement is slow can finish settling while an incumbent that missed it goes on. */
  predicate JoinsTooSoon(W: World)
    requires Settling(W) > 0
  {
    && Settling(W) <= Reach(W) + W.bound - Pace(W)
    && SettlingSteps(W) * Pace(W) <= Reach(W)
  }

  /**
   The timing hypothesis: nobody can ever hold anything, or take a second step in time, or
   holders are gone both before their records expire and before a joiner they missed acquires.
   */
  predicate Timely(W: World) {
    || W.config.HoldFor() == 0
    || (Settling(W) > 0 && (W.bound < Pace(W) || (OutlivesNobody(W) && !JoinsTooSoon(W))))
  }

  /** It is enough that the bound, and four skews, fit the guard. */
  lemma WithinTheGuardIsTimely(W: World)
    requires W.bound + 2 * W.skew <= W.config.guard && W.bound + 4 * W.skew <= W.config.guard + 1
    ensures Timely(W)
  {
  }

  lemma SpanIsLongest(W: World, missed: nat, d: nat)
    requires Paces(missed, Pace(W)) <= d <= Paces(missed, W.bound) && d <= HoldLimit(W)
    ensures d <= Span(W)
  {
    var pace := Max(1, Pace(W));
    PacesIsProduct(missed, Pace(W));
    PacesIsProduct(missed, W.bound);
    if Pace(W) > 0 {
      MultipleFits(missed, pace, HoldLimit(W));
      Scales(missed, Misses(W), W.bound);
    } else if W.bound > 0 {
      Scales(1, W.bound, HoldLimit(W));
    }
  }

  lemma MultipleFits(k: nat, step: nat, limit: nat)
    requires step > 0 && k * step <= limit
    ensures k <= limit / step
  {
    if k > limit / step {
      Scales(limit / step + 1, k, step);
    }
  }

  lemma Scales(a: nat, b: nat, c: nat)
    requires a <= b
    ensures a * c <= b * c
  {
  }

  /** Fewer steps than these do not last a settling period, so a joiner that settled took as many. */
  lemma SettlingTakesSteps(W: World, k: nat)
    requires 0 < Settling(W) <= Paces(k, W.bound)
    ensures SettlingSteps(W) <= k && SettlingSteps(W) * Pace(W) <= Paces(k, Pace(W))
  {
    PacesIsProduct(k, W.bound);
    PacesIsProduct(k, Pace(W));
    RoundedUpIsLeast(Settling(W), W.bound, k);
    Scales(SettlingSteps(W), k, Pace(W));
  }

  lemma RoundedUpIsLeast(n: nat, step: nat, k: nat)
    requires 0 < n <= k * step
    ensures (n + step - 1) / Max(1, step) <= k
  {
    var m := (n + step - 1) / Max(1, step);
    if m > k {
      Scales(k, m - 1, step);
    }
  }

  ////////// The invariant

  predicate StepInv(W: World, now: int, n: Node) {
    InStep(n.phase) ==>
      var p := n.phase;
      && W.skew <= p.since <= now <= p.since + W.bound
      && Near(p.mono, p.since, W.skew) && Near(p.wall, p.since, W.skew)
      && (!p.Announcing? ==> p.since <= p.written <= now)
      && (p.Deciding? ==> p.written <= p.read <= now)
      && (n.belief.lastContact.Some? ==> n.decided <= p.since && n.joined <= p.since && Awake(W, n, p.since))
  }

  /** What having a lease implies about when its pieces happened. */
  predicate LeaseInv(W: World, now: int, n: Node) {
    n.belief.lastContact.Some? ==>
      && !n.phase.Down? && !n.phase.Stopping?
      && n.settled <= n.contact <= n.decided <= now <= n.decided + W.bound
      && n.decided < n.contact + W.config.HoldFor() + 2 * W.skew
      && W.config.HoldFor() > 0
      && Near(n.belief.lastContact.value, n.contact, W.skew)
      && Near(n.belief.settledAt, n.settled, W.skew)
      && Near(n.wall, n.contact, W.skew)
      && n.settled <= n.joined <= n.settled + W.bound
      && n.contact <= n.read <= now && n.joined <= now
      && n.belief.members == LiveMembers(n.records, n.wall)
      && PaceInv(W, n)
  }

  /** How far apart the steps of a node that has a lease are. */
  predicate PaceInv(W: World, n: Node) {
    && Paces(n.missed, Pace(W)) <= n.decided - n.contact <= Paces(n.missed, W.bound)
    && n.decided - n.settled <= Paces(n.steps, W.bound)
    && (n.steps > 0 ==>
          n.joined + Paces(n.steps, Pace(W)) <= n.decided && n.joined + Pace(W) <= n.settled + W.bound)
    && n.wake >= Max(n.decided, n.joined) + W.config.renew
  }

  predicate OwnershipInv(W: World, id: NodeId, n: Node) {
    n.belief.owned != {} ==>
      && n.belief.lastContact.Some?
      && n.decided >= n.settled + W.config.SettleFor() - 2 * W.skew
      && n.belief.owned == AssignedTo(W.w, id, W.streams, n.belief.members)
  }

  /** A node's own record is no older than its last contact, or than the step it is in. */
  predicate RegistryInv(W: World, s: State, id: NodeId)
    requires id in s.nodes
  {
    var n := s.nodes[id];
    && (n.belief.lastContact.Some? ==>
          id in s.registry && s.registry[id].ttl == W.config.ttl && s.registry[id].writtenAt >= n.contact - W.skew)
    && (n.phase.Reading? || (n.phase.Deciding? && n.phase.reply.Some?) ==>
          id in s.registry && s.registry[id] == RecordOf(W, id, n.phase.wall))
  }

  /** The node has written a record it means to act on. */
  predicate Claimed(n: Node) {
    n.belief.lastContact.Some? || n.phase.Reading? || (n.phase.Deciding? && n.phase.reply.Some?)
  }

  /** When it did: the first announcement of its run of contact, or the one of its first step. */
  function ClaimedAt(n: Node): int
    requires Claimed(n)
  {
    if n.belief.lastContact.Some? then n.joined else n.phase.written
  }

  /** The records include one of `id`, recent enough for a read at time `read`. */
  ghost predicate Shows(W: World, records: seq<Record>, id: NodeId, read: int) {
    exists r | r in records ::
      r.node == id && r.ttl == W.config.ttl && read <= r.writtenAt + W.skew + Reach(W)
  }

  /** Any read later than `a`'s claim shows `a`: the ones behind `b`'s view and `b`'s current step. */
  ghost predicate PairInv(W: World, id: NodeId, a: Node, b: Node) {
    Claimed(a) ==>
      && (b.belief.lastContact.Some? && ClaimedAt(a) < b.read ==> Shows(W, b.records, id, b.read))
      && (b.phase.Deciding? && b.phase.reply.Some? && ClaimedAt(a) < b.phase.read ==>
            Shows(W, b.phase.reply.value, id, b.phase.read))
  }

  ghost predicate Inv(W: World, s: State) {
    && s.now >= W.skew
    && (forall n | n in s.registry :: s.registry[n].node == n)
    && (forall n | n in s.nodes :: NodeInv(W, s, n))
    && (forall a, b | a in s.nodes && b in s.nodes && a != b :: PairInv(W, a, s.nodes[a], s.nodes[b]))
  }

  ghost predicate NodeInv(W: World, s: State, id: NodeId)
    requires id in s.nodes
  {
    var n := s.nodes[id];
    && StepInv(W, s.now, n) && LeaseInv(W, s.now, n) && OwnershipInv(W, id, n) && RegistryInv(W, s, id)
  }

  lemma InitEstablishesInv(W: World, s: State)
    requires Init(W, s)
    ensures Inv(W, s)
  {
  }

  /** A step without contact, in time and within the hold, keeps the pace. */
  lemma MissKeepsPace(W: World, now: int, n: Node)
    requires StepInv(W, now, n) && LeaseInv(W, now, n) && n.phase.Deciding? && n.phase.reply.None?
    requires n.belief.lastContact.Some?
    ensures PaceInv(W, n.(wake := now + W.config.renew, decided := n.phase.since, missed := n.missed + 1, steps := n.steps + 1))
  {
  }

  /** And so does a renewal. */
  lemma RenewalKeepsPace(W: World, now: int, n: Node)
    requires StepInv(W, now, n) && LeaseInv(W, now, n) && n.phase.Deciding? && n.belief.lastContact.Some?
    ensures PaceInv(W, n.(wake := now + W.config.renew, decided := n.phase.since, contact := n.phase.since,
                          missed := 0, steps := n.steps + 1))
  {
  }

  /** A decision without contact. */
  lemma MissKeepsLeaseInv(W: World, id: NodeId, now: int, n: Node)
    requires StepInv(W, now, n) && LeaseInv(W, now, n) && OwnershipInv(W, id, n)
    requires n.phase.Deciding? && n.phase.reply.None?
    ensures LeaseInv(W, now, AfterDecide(W, id, n, now)) && OwnershipInv(W, id, AfterDecide(W, id, n, now))
  {
    if n.belief.lastContact.Some? {
      MissKeepsPace(W, now, n);
    }
  }

  /** A decision after a complete round trip. */
  lemma ContactKeepsLeaseInv(W: World, id: NodeId, now: int, n: Node)
    requires StepInv(W, now, n) && LeaseInv(W, now, n) && OwnershipInv(W, id, n)
    requires n.phase.Deciding? && n.phase.reply.Some?
    ensures LeaseInv(W, now, AfterDecide(W, id, n, now)) && OwnershipInv(W, id, AfterDecide(W, id, n, now))
  {
    if n.belief.lastContact.Some? {
      RenewalKeepsPace(W, now, n);
    }
  }

  lemma DecideKeepsNodeInv(W: World, s: State, id: NodeId)
    requires Inv(W, s) && Enabled(W, s, Decide(id))
    ensures NodeInv(W, Next(W, s, Decide(id)), id)
  {
    assert NodeInv(W, s, id);
    if s.nodes[id].phase.reply.None? {
      MissKeepsLeaseInv(W, id, s.now, s.nodes[id]);
    } else {
      ContactKeepsLeaseInv(W, id, s.now, s.nodes[id]);
    }
  }

  /** A read that lists the registry shows every node whose claim is older. */
  lemma ReadShowsClaims(W: World, s: State, id: NodeId, records: seq<Record>)
    requires Inv(W, s) && id in s.nodes && Claimed(s.nodes[id]) && Lists(records, s.registry)
    ensures Shows(W, records, id, s.now)
  {
    assert NodeInv(W, s, id);
    var n := s.nodes[id];
    assert id in s.registry && s.registry[id] in records;
    if n.belief.lastContact.Some? {
      LeaseWithinReach(W, s.now, n);
    }
  }

  /** A node that has a lease is within reach of its last contact. */
  lemma LeaseWithinReach(W: World, now: int, n: Node)
    requires LeaseInv(W, now, n) && n.belief.lastContact.Some?
    ensures now <= n.contact + Reach(W)
  {
    SpanIsLongest(W, n.missed, n.decided - n.contact);
  }

  lemma ElapseKeepsNodeInv(W: World, s: State, to: int, id: NodeId)
    requires id in s.nodes && NodeInv(W, s, id) && s.now <= to && OnTime(W, s.nodes[id], to)
    ensures NodeInv(W, s.(now := to), id)
  {
  }

  /** What the others do leaves a node and its own record alone. */
  lemma OthersKeepNodeInv(W: World, s: State, t: State, id: NodeId)
    requires id in s.nodes && NodeInv(W, s, id)
    requires t.now == s.now && id in t.nodes && t.nodes[id] == s.nodes[id]
    requires (id in t.registry <==> id in s.registry) && (id in s.registry ==> t.registry[id] == s.registry[id])
    ensures NodeInv(W, t, id)
  {
  }

  lemma OwnActionKeepsNodeInv(W: World, s: State, a: Action, id: NodeId)
    requires Inv(W, s) && Enabled(W, s, a) && id in s.nodes && !a.Elapse? && a.node == id
    ensures NodeInv(W, Next(W, s, a), id)
  {
    assert NodeInv(W, s, id);
    if a.Decide? {
      DecideKeepsNodeInv(W, s, id);
    }
  }

  lemma StepKeepsNodeInv(W: World, s: State, a: Action, id: NodeId)
    requires Inv(W, s) && Enabled(W, s, a) && id in s.nodes
    ensures NodeInv(W, Next(W, s, a), id)
  {
    assert NodeInv(W, s, id);
    if a.Elapse? {
      ElapseKeepsNodeInv(W, s, a.to, id);
    } else if a.node == id {
      OwnActionKeepsNodeInv(W, s, a, id);
    } else {
      OthersKeepNodeInv(W, s, Next(W, s, a), id);
    }
  }

  lemma PairStep(W: World, s: State, act: Action, a: NodeId, b: NodeId)
    requires Enabled(W, s, act) && a in s.nodes && b in s.nodes && a != b
    requires StepInv(W, s.now, s.nodes[a]) && LeaseInv(W, s.now, s.nodes[a])
    requires StepInv(W, s.now, s.nodes[b]) && LeaseInv(W, s.now, s.nodes[b])
    requires PairInv(W, a, s.nodes[a], s.nodes[b])
    requires act.Read? && act.node == b && act.reply.Some? && Claimed(s.nodes[a]) ==> Shows(W, act.reply.value, a, s.now)
    ensures var s' := Next(W, s, act); PairInv(W, a, s'.nodes[a], s'.nodes[b])
  {
  }

  lemma StepKeepsPairInv(W: World, s: State, act: Action, a: NodeId, b: NodeId)
    requires Inv(W, s) && Enabled(W, s, act) && a in s.nodes && b in s.nodes && a != b
    ensures var s' := Next(W, s, act); PairInv(W, a, s'.nodes[a], s'.nodes[b])
  {
    assert NodeInv(W, s, a) && NodeInv(W, s, b);
    assert PairInv(W, a, s.nodes[a], s.nodes[b]);
    if act.Read? && act.node == b && act.reply.Some? && Claimed(s.nodes[a]) {
      ReadShowsClaims(W, s, a, act.reply.value);
    }
    PairStep(W, s, act, a, b);
  }

  lemma NextKeepsInv(W: World, s: State, a: Action)
    requires Inv(W, s) && Enabled(W, s, a)
    ensures Inv(W, Next(W, s, a))
  {
    var s' := Next(W, s, a);
    assert s'.nodes.Keys == s.nodes.Keys;
    forall n | n in s'.nodes ensures NodeInv(W, s', n) {
      StepKeepsNodeInv(W, s, a, n);
    }
    forall x, y | x in s'.nodes && y in s'.nodes && x != y ensures PairInv(W, x, s'.nodes[x], s'.nodes[y]) {
      StepKeepsPairInv(W, s, a, x, y);
    }
  }

  lemma {:induction false} ReachesKeepsInv(W: World, init: State, actions: seq<Action>, s: State)
    requires Init(W, init) && Reaches(W, init, actions, s)
    ensures Inv(W, s)
    decreases |actions|
  {
    if actions == [] {
      InitEstablishesInv(W, init);
    } else {
      var front, last := actions[..|actions| - 1], actions[|actions| - 1];
      var mid :| Reaches(W, init, front, mid) && Enabled(W, mid, last) && Next(W, mid, last) == s;
      ReachesKeepsInv(W, init, front, mid);
      NextKeepsInv(W, mid, last);
    }
  }

  ////////// Safety

  /** A node that holds streams has settled, and its steps took their time. */
  lemma HolderHasSettled(W: World, s: State, a: NodeId)
    requires Timely(W) && Inv(W, s) && Holds(s, a)
    ensures Settling(W) > 0 && Pace(W) <= W.bound
    ensures var x := s.nodes[a];
            && x.belief.lastContact.Some?
            && x.settled + Settling(W) <= s.now && x.joined + Pace(W) <= x.settled + W.bound
            && x.joined + SettlingSteps(W) * Pace(W) <= s.now
  {
    assert NodeInv(W, s, a);
    var x := s.nodes[a];
    SettlingTakesSteps(W, x.steps);
  }

  /** A node that holds streams is in the view of every other node that does. */
  lemma HoldersSeeEachOther(W: World, s: State, a: NodeId, b: NodeId)
    requires Timely(W) && Inv(W, s) && a != b && Holds(s, a) && Holds(s, b)
    ensures a in s.nodes[b].belief.members
  {
    var x, y := s.nodes[a], s.nodes[b];
    assert NodeInv(W, s, a) && NodeInv(W, s, b) && PairInv(W, a, x, y);
    HolderHasSettled(W, s, a);
    LeaseWithinReach(W, s.now, y);
    assert x.joined < y.read;
    var r :| r in y.records && r.node == a && r.ttl == W.config.ttl && y.read <= r.writtenAt + W.skew + Reach(W);
    assert !r.ExpiredAt(y.wall);
    LiveMembersAreTheUnexpired(y.records, y.wall);
  }

  /**
   Safety: in every reachable state of any number of nodes, under every interleaving,
   failure, crash and restart, two nodes that hold streams are in each other's views,
   and no stream is run twice.
   */
  lemma NoStreamRunsTwice(W: World, s: State)
    requires Timely(W) && Reachable(W, s)
    ensures forall a, b | a != b && Holds(s, a) && Holds(s, b) ::
              a in s.nodes[b].belief.members && b in s.nodes[a].belief.members
    ensures Exclusive(s)
  {
    var init, actions :| Init(W, init) && Reaches(W, init, actions, s);
    ReachesKeepsInv(W, init, actions, s);
    forall a, b | a != b && Holds(s, a) && Holds(s, b)
      ensures a in s.nodes[b].belief.members && b in s.nodes[a].belief.members
      ensures s.nodes[a].belief.owned !! s.nodes[b].belief.owned
    {
      HoldersSeeEachOther(W, s, a, b);
      HoldersSeeEachOther(W, s, b, a);
      assert NodeInv(W, s, a) && NodeInv(W, s, b);
      MutuallyVisibleNodesShareNothing(W.w, W.streams, a, s.nodes[a].belief.members, b, s.nodes[b].belief.members);
    }
  }
}
