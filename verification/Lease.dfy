/**
 One node's lease: records, timings, and the state its loop changes
 (crates/ma-coord/src/lease.rs). Times are integer milliseconds; monotonic and wall
 readings are separate arguments, as they are separate clocks in the source.
 */
module Lease {
  import opened Types
  import opened Assign

  /** A node's claim to be alive, as other nodes read it. */
  datatype Record = Record(node: NodeId, writtenAt: int, ttl: int)
  {
    /** A reader whose clock stands before the epoch calls nothing expired. */
    predicate ExpiredAt(wall: int) {
      wall >= 0 && wall > writtenAt + ttl
    }
  }

  datatype Config = Config(ttl: nat, renew: nat, guard: nat)
  {
    /** How long a node holds streams after its last complete round trip. */
    function HoldFor(): nat {
      if ttl > guard then ttl - guard else 0
    }

    /** How long after its first announcement a node waits before acquiring. */
    function SettleFor(): nat {
      ttl + guard
    }
  }

  function Since(now: int, earlier: int): nat {
    if now >= earlier then now - earlier else 0
  }

  function UnixMillis(wall: int): nat {
    if wall >= 0 then wall else 0
  }

  /** The value of a `LeaseState`: what one node believes and holds. */
  datatype Belief = Belief(
    members: seq<NodeId>,
    lastContact: Option<int>,
    settledAt: int,
    stoodDown: bool,
    settling: bool,
    owned: set<StreamId>)

  function Fresh(mono: int): Belief {
    Belief([], None, mono, true, false, {})
  }

  function Noted(b: Belief, mono: int): Belief {
    b.(settledAt := if b.lastContact.None? then mono else b.settledAt, lastContact := Some(mono))
  }

  function StoodDown(b: Belief, mono: int): Belief {
    b.(owned := {}, stoodDown := true, settling := false, lastContact := None, settledAt := mono)
  }

  /** The node has had a complete round trip recently enough to hold anything. */
  predicate Held(b: Belief, mono: int, config: Config) {
    b.lastContact.Some? && Since(mono, b.lastContact.value) < config.HoldFor()
  }

  function Reconciled(b: Belief, mono: int, config: Config, node: NodeId, streams: seq<StreamId>, w: Weight): Belief {
    if !Held(b, mono, config) then StoodDown(b, mono)
    else if Since(mono, b.settledAt) < config.SettleFor() then b.(settling := true, owned := {})
    else b.(settling := false, stoodDown := false, owned := AssignedTo(w, node, streams, b.members))
  }

  /** The end of one step: fold in the round trip, if it completed, then decide. */
  function Decided(
      b: Belief, reply: Option<seq<Record>>, mono: int, wall: int,
      config: Config, node: NodeId, streams: seq<StreamId>, w: Weight): Belief
  {
    var noted := match reply
      case Some(records) => Noted(b, mono).(members := LiveMembers(records, wall))
      case None => b;
    Reconciled(noted, mono, config, node, streams, w)
  }

  /**
   What the end of a step decides: without a round trip in the last `ttl - guard` the node stands
   down as if it had just started; until it has held on for `ttl + guard` it owns nothing; then it
   owns exactly the streams its members assign it.
   */
  lemma DecisionMeans(b: Belief, mono: int, config: Config, node: NodeId, streams: seq<StreamId>, w: Weight)
    ensures var r := Reconciled(b, mono, config, node, streams, w);
            if b.lastContact.None? || mono - b.lastContact.value >= config.ttl - config.guard || config.ttl <= config.guard then
              r == Belief(b.members, None, mono, true, false, {})
            else if mono - b.settledAt < config.ttl + config.guard then
              r == Belief(b.members, b.lastContact, b.settledAt, b.stoodDown, true, {})
            else
              && r == Belief(b.members, b.lastContact, b.settledAt, false, false, r.owned)
              && forall s :: s in r.owned <==> s in streams && Owner(w, s, b.members) == Some(node)
  {
  }

  /** Insert into an ascending list, dropping a duplicate. */
  function Inserted(n: NodeId, sorted: seq<NodeId>): seq<NodeId> {
    if sorted == [] then [n]
    else if n < sorted[0] then [n] + sorted
    else if n == sorted[0] then sorted
    else [sorted[0]] + Inserted(n, sorted[1..])
  }

  /** Nodes whose record has not expired, sorted and without duplicates. */
  function LiveMembers(records: seq<Record>, wall: int): seq<NodeId> {
    if records == [] then []
    else
      var rest := LiveMembers(records[1..], wall);
      if records[0].ExpiredAt(wall) then rest else Inserted(records[0].node, rest)
  }

  ghost predicate Ascending(s: seq<int>) {
    forall i, j | 0 <= i < j < |s| :: s[i] < s[j]
  }

  lemma {:induction false} InsertedKeepsOrder(n: NodeId, sorted: seq<NodeId>)
    requires Ascending(sorted)
    ensures forall x :: x in Inserted(n, sorted) <==> x == n || x in sorted
    ensures Ascending(Inserted(n, sorted))
  {
    if sorted != [] && n > sorted[0] {
      var head, rest := sorted[0], sorted[1..];
      assert sorted == [head] + rest;
      assert Ascending(rest);
      InsertedKeepsOrder(n, rest);
      PrependKeepsOrder(head, Inserted(n, rest));
    } else if sorted != [] && n < sorted[0] {
      PrependKeepsOrder(n, sorted);
    }
  }

  lemma PrependKeepsOrder(head: int, s: seq<int>)
    requires Ascending(s)
    requires forall x | x in s :: head < x
    ensures Ascending([head] + s)
  {
    var t := [head] + s;
    forall i, j | 0 <= i < j < |t| ensures t[i] < t[j] {
      assert t[j] == s[j - 1] && s[j - 1] in s;
      assert i > 0 ==> t[i] == s[i - 1];
    }
  }

  /** The view holds exactly the nodes with an unexpired record, in ascending order. */
  lemma {:induction false} LiveMembersAreTheUnexpired(records: seq<Record>, wall: int)
    ensures Ascending(LiveMembers(records, wall))
    ensures forall n :: n in LiveMembers(records, wall) <==>
                        exists r | r in records :: r.node == n && !r.ExpiredAt(wall)
  {
    if records != [] {
      var rest := LiveMembers(records[1..], wall);
      LiveMembersAreTheUnexpired(records[1..], wall);
      InsertedKeepsOrder(records[0].node, rest);
      assert records == [records[0]] + records[1..];
    }
  }

  lemma NonEmptyTogether(xs: seq<int>, ys: seq<int>)
    requires forall n | n in xs :: n in ys
    ensures xs != [] ==> ys != []
  {
    if xs != [] {
      var head := xs[0];
      assert head in xs;
      assert head in ys;
    }
  }

  /** An ascending list is determined by its members. */
  lemma {:induction false} AscendingIsCanonical(xs: seq<int>, ys: seq<int>)
    requires Ascending(xs) && Ascending(ys)
    requires forall n :: n in xs <==> n in ys
    ensures xs == ys
  {
    NonEmptyTogether(xs, ys);
    NonEmptyTogether(ys, xs);
    if xs != [] {
      assert xs[0] in ys && ys[0] in xs;
      assert xs[0] == ys[0];
      assert xs == [xs[0]] + xs[1..] && ys == [ys[0]] + ys[1..];
      forall n ensures n in xs[1..] <==> n in ys[1..] {
        if n in xs[1..] { assert n in xs && n != xs[0]; }
        if n in ys[1..] { assert n in ys && n != ys[0]; }
      }
      AscendingIsCanonical(xs[1..], ys[1..]);
    }
  }

  /** Two readers of the same records at the same time compute one view, whatever the read order. */
  lemma ReadOrderDoesNotMatter(xs: seq<Record>, ys: seq<Record>, wall: int)
    requires forall r :: r in xs <==> r in ys
    ensures LiveMembers(xs, wall) == LiveMembers(ys, wall)
  {
    LiveMembersAreTheUnexpired(xs, wall);
    LiveMembersAreTheUnexpired(ys, wall);
    AscendingIsCanonical(LiveMembers(xs, wall), LiveMembers(ys, wall));
  }

  /** The part of the coordinator that changes. */
  class LeaseState {
    var members: seq<NodeId>
    var lastContact: Option<int>
    var settledAt: int
    var stoodDown: bool
    var settling: bool
    var owned: set<StreamId>

    ghost function Value(): Belief
      reads this
    {
      Belief(members, lastContact, settledAt, stoodDown, settling, owned)
    }

    constructor (mono: int)
      ensures Value() == Fresh(mono) && members == [] && lastContact == None && settledAt == mono
      ensures stoodDown && !settling && owned == {}
    {
      members, lastContact, settledAt := [], None, mono;
      stoodDown, settling, owned := true, false, {};
    }

    method NoteContact(mono: int)
      modifies this
      ensures Value() == Noted(old(Value()), mono) && lastContact == Some(mono)
      ensures settledAt == if old(lastContact).None? then mono else old(settledAt)
    {
      if lastContact.None? {
        settledAt := mono;
      }
      lastContact := Some(mono);
    }

    method StandDown(mono: int)
      modifies this
      ensures Value() == StoodDown(old(Value()), mono)
    {
      owned := {};
      stoodDown := true;
      settling := false;
      lastContact := None;
      settledAt := mono;
    }

    method Reconcile(mono: int, config: Config, node: NodeId, streams: seq<StreamId>, w: Weight)
      modifies this
      ensures Value() == Reconciled(old(Value()), mono, config, node, streams, w)
    {
      var held := lastContact.Some? && Since(mono, lastContact.value) < config.HoldFor();
      if !held {
        StandDown(mono);
        return;
      }
      if Since(mono, settledAt) < config.SettleFor() {
        settling := true;
        owned := {};
        return;
      }
      settling := false;
      if stoodDown {
        stoodDown := false;
      }
      var due := AssignedTo(w, node, streams, members);
      if due != owned {
        owned := due;
      }
    }

    /** The end of `Coordinator::step`, after the registry I/O has returned. */
    method FinishStep(reply: Option<seq<Record>>, mono: int, wall: int,
                      config: Config, node: NodeId, streams: seq<StreamId>, w: Weight)
      modifies this
      ensures Value() == Decided(old(Value()), reply, mono, wall, config, node, streams, w)
    {
      if reply.Some? {
        NoteContact(mono);
        members := LiveMembers(reply.value, wall);
      }
      Reconcile(mono, config, node, streams, w);
    }
  }
}
