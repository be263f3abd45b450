/**
 Closing the channel by hand (crates/ma-pipeline/src/channel.rs): two things its comments say
 that hold only under a condition, with the condition and a run that shows it is needed.
 */
module ChannelClosing {
  import opened Types
  import opened Channel
  import opened ChannelSafety
  import opened ChannelGuarantees

  lemma ReachedExtends(start: State, actions: seq<Action>, a: Action)
    requires Reached(start, actions).Some? && Enabled(Reached(start, actions).value, a)
    ensures Reached(start, actions + [a]) == Some(Next(Reached(start, actions).value, a))
  {
    assert (actions + [a])[..|actions|] == actions;
  }

  lemma ReachableExtends(s: State, a: Action)
    requires Reachable(s) && Enabled(s, a)
    ensures Reachable(Next(s, a))
  {
    var start, actions :| Init(start) && Reached(start, actions) == Some(s);
    ReachedExtends(start, actions, a);
  }

  lemma StartIsReachable(s: State)
    requires Init(s)
    ensures Reachable(s)
  {
    assert Reached(s, []) == Some(s);
  }

  ////////// What a closed channel still accepts

  /** Some sender has passed its check and is about to queue its item. */
  ghost predicate SendUnderWay(s: State) {
    exists t | t in s.senders :: s.senders[t].Entering?
  }

  lemma {:induction false} ClosedAcceptsNoMore(s: State, actions: seq<Action>)
    requires s.shared.closed && s.shared.capacity > 0 && !SendUnderWay(s) && Reached(s, actions).Some?
    ensures var after := Reached(s, actions).value;
            && after.shared.closed && after.shared.capacity > 0 && !SendUnderWay(after)
            && after.shared.log.accepted == s.shared.log.accepted
  {
    if actions != [] {
      var front, last := actions[..|actions| - 1], actions[|actions| - 1];
      ClosedAcceptsNoMore(s, front);
      ClosedStep(Reached(s, front).value, last);
    }
  }

  lemma ClosedStep(s: State, a: Action)
    requires s.shared.closed && s.shared.capacity > 0 && !SendUnderWay(s) && Enabled(s, a)
    ensures var after := Next(s, a);
            && after.shared.closed && after.shared.capacity > 0 && !SendUnderWay(after)
            && after.shared.log.accepted == s.shared.log.accepted
  {
    var after := Next(s, a);
    forall t | t in after.senders
      ensures !after.senders[t].Entering?
    {
      assert t in s.senders ==> !s.senders[t].Entering?;
    }
  }

  /**
   A closed channel refuses new items, and accepts nothing at all from then on exactly if no
   send is already past its check. A `recv` that has returned the end of the stream is then final.
   */
  lemma ClosedIsFinalExactlyWhen(s: State)
    requires Reachable(s) && s.shared.closed
    ensures (forall actions | Reached(s, actions).Some? ::
               Reached(s, actions).value.shared.log.accepted == s.shared.log.accepted)
            <==> !SendUnderWay(s)
  {
    ReachableIsInv(s);
    if SendUnderWay(s) {
      var t :| t in s.senders && s.senders[t].Entering?;
      assert Reached(s, []) == Some(s);
      ReachedExtends(s, [], SenderRuns(t));
      assert [] + [SenderRuns(t)] == [SenderRuns(t)];
      assert |Reached(s, [SenderRuns(t)]).value.shared.log.accepted| == |s.shared.log.accepted| + 1;
    } else {
      forall actions | Reached(s, actions).Some?
        ensures Reached(s, actions).value.shared.log.accepted == s.shared.log.accepted
      {
        ClosedAcceptsNoMore(s, actions);
      }
    }
  }

  /** Three actions in a row. */
  lemma Ran(s: State, actions: seq<Action>) returns (r: State)
    requires Reachable(s) && |actions| == 3
    requires Enabled(s, actions[0]) && Enabled(Next(s, actions[0]), actions[1])
    requires Enabled(Next(Next(s, actions[0]), actions[1]), actions[2])
    ensures Reachable(r) && r == Next(Next(Next(s, actions[0]), actions[1]), actions[2])
  {
    ReachableExtends(s, actions[0]);
    ReachableExtends(Next(s, actions[0]), actions[1]);
    r := Next(Next(Next(s, actions[0]), actions[1]), actions[2]);
    ReachableExtends(Next(Next(s, actions[0]), actions[1]), actions[2]);
  }

  function Fresh(capacity: nat): Shared {
    Shared(capacity, [], false, 0, 1, false, 0, 0, Away, Log([], [], [], false, false))
  }

  /** Two tasks: one past its send's check, the other having closed the channel meanwhile. */
  function Racing(capacity: nat, item: Item): State {
    State(Fresh(capacity).(handles := 2, closed := true, generation := 1, log := Log([item], [], [], false, true)),
          map[0 := Entering(item), 1 := Resting])
  }

  lemma RacingIsReachable(capacity: nat, item: Item)
    requires capacity > 0
    ensures Reachable(Racing(capacity, item))
  {
    var start := State(Fresh(capacity), map[0 := Resting]);
    StartIsReachable(start);
    var s := Ran(start, [Clone(0, 1), CallSend(0, item), SenderRuns(0)]);
    assert s == State(Fresh(capacity).(handles := 2, log := Log([item], [], [], false, false)),
                      map[0 := Entering(item), 1 := Resting]);
    var r := Ran(s, [CallClose(1), SenderRuns(1), SenderRuns(1)]);
    assert r == Racing(capacity, item);
  }

  /** A send past its check when another task closes: `recv` reports the end, and then the item is queued as sent. */
  lemma AClosedSendMayBeStranded(capacity: nat, item: Item) returns (s: State)
    requires capacity > 0
    ensures Reachable(s) && Still(s) && s.shared.closed && s.shared.log.ended && s.shared.queue == [item]
  {
    RacingIsReachable(capacity, item);
    var racing := Racing(capacity, item);
    var r := Ran(racing, [CallRecv, ReceiverRuns, ReceiverRuns]);
    assert r == racing.(shared := racing.shared.(receiver := LastPop));
    s := Ran(r, [ReceiverRuns, SenderRuns(0), SenderRuns(0)]);
  }

  ////////// A sender waiting for room when the channel closes

  /** Actions that touch neither the receiver nor this sender's wait. */
  predicate LeavesParked(a: Action, t: int) {
    !a.CallRecv? && !a.CallTryRecv? && !a.ReceiverRuns? && a != CancelLossless(t)
  }

  /** Closing does not wake a sender that waits for room: only a receive does. */
  lemma {:induction false} OnlyReceivingReleases(s: State, actions: seq<Action>, t: int)
    requires t in s.senders && s.senders[t].Parked? && s.senders[t].seen == s.shared.room
    requires Reached(s, actions).Some? && forall a | a in actions :: LeavesParked(a, t)
    ensures var after := Reached(s, actions).value;
            t in after.senders && after.senders[t] == s.senders[t] && after.shared.room == s.shared.room
  {
    if actions != [] {
      var front, last := actions[..|actions| - 1], actions[|actions| - 1];
      assert last in actions && forall a | a in front :: a in actions;
      OnlyReceivingReleases(s, front, t);
      var mid := Reached(s, front).value;
      if last.SenderRuns? {
        assert Effect(mid.shared, mid.senders[last.t]).room == mid.shared.room;
      }
    }
  }

  /** A channel of one filled by `x`, with `y` offered to it by task 0, now at `pc`. */
  function Filled(x: Item, y: Item, pc: SenderPc): State {
    State(Fresh(1).(queue := [x], handles := 2, permit := true, log := Log([x, y], [x], [], false, false)),
          map[0 := pc, 1 := Resting])
  }

  lemma FilledIsReachable(x: Item, y: Item)
    ensures Reachable(Filled(x, y, Looping(y)))
  {
    var start := State(Fresh(1), map[0 := Resting]);
    StartIsReachable(start);
    var s := Ran(start, [Clone(0, 1), CallSend(0, x), SenderRuns(0)]);
    assert s == State(Fresh(1).(handles := 2, log := Log([x], [], [], false, false)), map[0 := Entering(x), 1 := Resting]);
    var r := Ran(s, [SenderRuns(0), SenderRuns(0), CallLossless(0, y)]);
    assert r == Filled(x, y, Looping(y));
  }

  lemma WaitingIsReachable(x: Item, y: Item)
    ensures Reachable(Filled(x, y, Parked(y, 0)))
  {
    FilledIsReachable(x, y);
    var s := Ran(Filled(x, y, Looping(y)), [SenderRuns(0), SenderRuns(0), SenderRuns(0)]);
    assert s == Filled(x, y, Polling(y, 0));
    ReachableExtends(s, SenderRuns(0));
    assert Next(s, SenderRuns(0)) == Filled(x, y, Parked(y, 0));
  }

  /** So a channel can be closed and at rest with a lossless send still waiting, its item not come back. */
  lemma AParkedSendMissesTheClose(x: Item, y: Item) returns (s: State)
    ensures Reachable(s) && Still(s) && s.shared.closed
    ensures 0 in s.senders && s.senders[0] == Parked(y, s.shared.room)
  {
    WaitingIsReachable(x, y);
    s := Ran(Filled(x, y, Parked(y, 0)), [CallClose(1), SenderRuns(1), SenderRuns(1)]);
  }
}
