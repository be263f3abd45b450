/**
 What the channel promises its callers in every reachable state
 (crates/ma-pipeline/src/channel.rs), and two promises its comments make that it does not keep.
 */
module ChannelGuarantees {
  import opened Types
  import opened Channel
  import opened ChannelSafety

  /** The last handle to go closes the channel. */
  ghost predicate LastCloses(s: State) {
    s.shared.handles == 0 ==> s.shared.closed || exists t | t in s.senders :: s.senders[t] == Closing(true)
  }

  /** A `recv` that ended did so on a closed channel, which stays empty unless it was closed by hand. */
  ghost predicate EndsProperly(h: Shared) {
    && (h.receiver.LastPop? || h.log.ended ==> h.closed)
    && (h.log.ended ==> h.log.byHand || h.queue == [])
  }

  ghost predicate Inv(s: State) {
    && Conserved(s.shared) && Counted(s) && WillWake(s) && RoomComes(s) && HandlesCounted(s)
    && LastCloses(s) && EndsProperly(s.shared)
  }

  lemma InitIsInv(s: State)
    requires Init(s)
    ensures Inv(s)
  {
    assert Holders(s.senders) == {0};
    assert Owing(s.senders) == {};
    assert Items(s.shared.log.removed) == [];
  }

  lemma NextLastCloses(s: State, a: Action)
    requires Inv(s) && Enabled(s, a)
    ensures LastCloses(Next(s, a))
  {
    var after := Next(s, a);
    if a.SenderRuns? {
      EffectKeepsHandles(s.shared, s.senders[a.t]);
    } else if a.ReceiverRuns? {
      ReceivedKeepsHandles(s.shared);
    }
    if s.shared.handles == 0 && !s.shared.closed {
      var t :| t in s.senders && s.senders[t] == Closing(true);
      assert (a.SenderRuns? && a.t == t) || after.senders[t] == Closing(true);
    } else if a.DropSender? && s.shared.handles == 1 {
      assert after.senders[a.t] == Closing(true);
    }
  }

  lemma NextEndsProperly(s: State, a: Action)
    requires Inv(s) && Enabled(s, a)
    ensures EndsProperly(Next(s, a).shared)
  {
    if a.SenderRuns? && s.shared.handles == 0 {
      NobodyHolds(s, a.t);
    }
    if a.SenderRuns? {
      EffectEndsProperly(s.shared, s.senders[a.t]);
    } else if a.ReceiverRuns? {
      ReceivedEndsProperly(s.shared);
    }
  }

  lemma EffectEndsProperly(h: Shared, pc: SenderPc)
    requires h.capacity > 0 && EndsProperly(h) && (pc.Entering? ==> h.closed ==> h.log.byHand)
    ensures EndsProperly(Effect(h, pc))
  {
  }

  lemma ReceivedEndsProperly(h: Shared)
    requires EndsProperly(h)
    ensures EndsProperly(Received(h))
  {
  }

  lemma NextKeepsInv(s: State, a: Action)
    requires Inv(s) && Enabled(s, a)
    ensures Inv(Next(s, a))
  {
    NextConserves(s, a);
    NextCounts(s, a);
    NextWakes(s, a);
    forall t | t in Next(s, a).senders
      ensures Waits(Next(s, a).shared, Next(s, a).senders[t])
    {
      NextKeepsWaits(s, a, t);
    }
    NextCountsHandles(s, a);
    NextLastCloses(s, a);
    NextEndsProperly(s, a);
  }

  lemma {:induction false} ReachedIsInv(start: State, actions: seq<Action>)
    requires Init(start) && Reached(start, actions).Some?
    ensures Inv(Reached(start, actions).value)
  {
    if actions == [] {
      InitIsInv(start);
    } else {
      var front := actions[..|actions| - 1];
      ReachedIsInv(start, front);
      NextKeepsInv(Reached(start, front).value, actions[|actions| - 1]);
    }
  }

  lemma ReachableIsInv(s: State)
    requires Reachable(s)
    ensures Inv(s)
  {
    var start, actions :| Init(start) && Reached(start, actions) == Some(s);
    ReachedIsInv(start, actions);
  }

  /**
   In every interleaving: an unwoken receiver with something to see has a notification on its
   way, and so has a parked lossless sender once the queue it waits on is not full.
   */
  lemma NoLostWakeup(s: State)
    requires Reachable(s)
    ensures s.shared.receiver == Asleep(NotYet) && s.shared.queue != [] ==> PushPending(s)
    ensures s.shared.receiver == Asleep(NotYet) && s.shared.closed ==> ClosePending(s)
    ensures forall t | t in s.senders && s.senders[t].Parked? && |s.shared.queue| < s.shared.capacity ::
              s.senders[t].seen < s.shared.room || s.shared.receiver.MakingRoom?
  {
    ReachableIsInv(s);
    forall t | t in s.senders && s.senders[t].Parked? && |s.shared.queue| < s.shared.capacity
      ensures s.senders[t].seen < s.shared.room || s.shared.receiver.MakingRoom?
    {
      assert Waits(s.shared, s.senders[t]);
    }
  }

  /** No task has a step to take: every sender rests, is gone or is parked, and nothing has woken the receiver. */
  ghost predicate Still(s: State) {
    && (s.shared.receiver.Away? || s.shared.receiver == Asleep(NotYet))
    && forall t | t in s.senders ::
         s.senders[t].Resting? || s.senders[t].Gone? || (s.senders[t].Parked? && s.senders[t].seen == s.shared.room)
  }

  /** Everyone asleep means there is nothing to do: the queue is empty, a sender is left, and none waits for room. */
  lemma NoDeadlock(s: State)
    requires Reachable(s) && Still(s) && s.shared.receiver == Asleep(NotYet)
    ensures s.shared.queue == [] && !s.shared.closed && s.shared.handles > 0
    ensures forall t | t in s.senders :: !s.senders[t].Parked?
  {
    ReachableIsInv(s);
    forall t | t in s.senders
      ensures !s.senders[t].Parked?
    {
      assert Waits(s.shared, s.senders[t]);
    }
  }

  /** Nothing is lost uncounted: what was accepted left in order or is queued, and every eviction is counted or about to be. */
  lemma NothingIsLostUncounted(s: State)
    requires Reachable(s)
    ensures s.shared.log.accepted == Items(s.shared.log.removed) + s.shared.queue && |s.shared.queue| <= s.shared.capacity
    ensures Evictions(s.shared.log.removed) == s.shared.dropped + |Owing(s.senders)|
    ensures Still(s) ==> Evictions(s.shared.log.removed) == s.shared.dropped
  {
    ReachableIsInv(s);
    if Still(s) {
      assert forall t | t in s.senders :: !Owes(s.senders[t]);
      assert Owing(s.senders) == {};
    }
  }

  /** A stream closed by its last sender ends only when everything accepted has left the queue, and nothing follows. */
  lemma EndOfStreamIsTheEnd(s: State)
    requires Reachable(s) && s.shared.log.ended && !s.shared.log.byHand
    ensures s.shared.log.accepted == Items(s.shared.log.removed)
    ensures s.shared.handles == 0 && forall t | t in s.senders :: !Holds(s.senders[t])
  {
    ReachableIsInv(s);
    forall t | t in s.senders
      ensures !Holds(s.senders[t])
    {
      NobodyHolds(s, t);
    }
    assert s.shared.log.accepted == Items(s.shared.log.removed) + [];
  }

  /** In a closed channel a parked sender has a full queue before it, so the next receive releases it. */
  lemma DrainingReleasesTheParked(s: State, t: int)
    requires Reachable(s) && t in s.senders && s.senders[t].Parked? && s.shared.receiver.Away?
    ensures s.senders[t].seen == s.shared.room ==> |s.shared.queue| == s.shared.capacity
    ensures Next(Next(s, CallTryRecv), ReceiverRuns).shared.room > s.senders[t].seen
  {
    ReachableIsInv(s);
    assert Waits(s.shared, s.senders[t]);
  }

  ////////// A lone lossless producer

  /** Runs where only task `p` sends, losslessly, and never gives up. */
  predicate Solo(a: Action, p: int) {
    !a.CallSend? && !a.CancelLossless? && (a.CallLossless? ==> a.t == p)
  }

  /** The item a sender has yet to get in. */
  function Pending(pc: SenderPc): Option<Item> {
    match pc
    case Checking(item) => Some(item)
    case Entering(item) => Some(item)
    case Looping(item) => Some(item)
    case Subscribing(item) => Some(item)
    case Measuring(item, _) => Some(item)
    case Polling(item, _) => Some(item)
    case Parked(item, _) => Some(item)
    case _ => None
  }

  predicate Idle(pc: SenderPc) {
    pc.Resting? || pc.Closing? || pc.Announcing? || pc.Gone?
  }

  /** Up to the item in hand, everything offered was accepted, unless the channel closed first. */
  ghost predicate InStep(h: Shared, pc: SenderPc) {
    var item := Pending(pc);
    var before := if item.Some? then h.log.offered[..Max(0, |h.log.offered| - 1)] else h.log.offered;
    && (item.Some? ==> h.log.offered == before + [item.value])
    && h.log.accepted <= before
    && (!h.closed || pc.Entering? ==> h.log.accepted == before)
  }

  ghost predicate NoneEvicted(h: Shared) {
    h.dropped == 0 && forall i | 0 <= i < |h.log.removed| :: !h.log.removed[i].evicted
  }

  /** What the producer may assume: room once it has seen room, since nobody else fills it. */
  ghost predicate Roomy(h: Shared, pc: SenderPc) {
    && (pc.Checking? || pc.Entering? ==> |h.queue| < h.capacity)
    && (pc.Notifying? ==> pc.evicted.None?)
    && !pc.Counting?
  }

  ghost predicate OnTrack(h: Shared, producer: SenderPc) {
    InStep(h, producer) && Roomy(h, producer) && NoneEvicted(h)
  }

  function Producer(s: State, p: int): SenderPc {
    if p in s.senders then s.senders[p] else Gone
  }

  ghost predicate Lone(s: State, p: int) {
    && OnTrack(s.shared, Producer(s, p))
    && forall t | t in s.senders && t != p :: Idle(s.senders[t])
  }

  lemma ProducerEntersInStep(h: Shared, item: Item)
    requires Conserved(h) && InStep(h, Entering(item)) && |h.queue| < h.capacity && NoneEvicted(h)
    ensures InStep(Push(h, item), Notifying(None)) && NoneEvicted(Push(h, item))
  {
  }

  lemma ProducerStepInStep(h: Shared, pc: SenderPc)
    requires h.capacity > 0 && InStep(h, pc) && Roomy(h, pc) && NoneEvicted(h) && !pc.Entering?
    ensures InStep(Effect(h, pc), Onward(h, pc)) && NoneEvicted(Effect(h, pc))
  {
    assert Effect(h, pc).log == h.log;
    if Pending(pc).Some? && Pending(Onward(h, pc)).None? {
      assert h.closed;
    }
  }

  lemma ProducerStepKeepsLone(h: Shared, pc: SenderPc)
    requires Conserved(h) && OnTrack(h, pc)
    ensures OnTrack(Effect(h, pc), Onward(h, pc))
  {
    if pc.Entering? {
      ProducerEntersInStep(h, pc.item);
    } else {
      ProducerStepInStep(h, pc);
    }
  }

  lemma IdleStepKeepsLone(h: Shared, pc: SenderPc, producer: SenderPc)
    requires Conserved(h) && Idle(pc) && OnTrack(h, producer)
    ensures OnTrack(Effect(h, pc), producer)
    ensures Idle(Onward(h, pc))
  {
  }

  lemma PopKeepsLone(h: Shared, otherwise: ReceiverPc, producer: SenderPc)
    requires OnTrack(h, producer)
    ensures OnTrack(Pop(h, otherwise), producer)
  {
    var after := Pop(h, otherwise);
    assert after.log.offered == h.log.offered && after.log.accepted == h.log.accepted;
    assert InStep(after, producer);
  }

  lemma OnlyTheQueueMatters(h: Shared, h': Shared, producer: SenderPc)
    requires OnTrack(h, producer)
    requires h'.queue == h.queue && h'.capacity == h.capacity && h'.closed == h.closed && h'.dropped == h.dropped
    requires h'.log.offered == h.log.offered && h'.log.accepted == h.log.accepted && h'.log.removed == h.log.removed
    ensures OnTrack(h', producer)
  {
  }

  lemma ReceivedKeepsLone(h: Shared, producer: SenderPc)
    requires OnTrack(h, producer)
    ensures OnTrack(Received(h), producer)
  {
    match h.receiver {
      case FirstPop => PopKeepsLone(h, FirstCheck, producer);
      case SecondPop(seen) => PopKeepsLone(h, SecondCheck(seen), producer);
      case LastPop =>
        if |h.queue| == 0 {
          OnlyTheQueueMatters(h, Received(h), producer);
        } else {
          PopKeepsLone(h, Away, producer);
        }
      case _ => OnlyTheQueueMatters(h, Received(h), producer);
    }
  }

  lemma CallKeepsLone(h: Shared, item: Item)
    requires OnTrack(h, Resting)
    ensures OnTrack(h.(log := h.log.(offered := h.log.offered + [item])), Looping(item))
  {
    assert (h.log.offered + [item])[..|h.log.offered|] == h.log.offered;
  }

  lemma NextOnTrack(s: State, a: Action, p: int)
    requires Conserved(s.shared) && Lone(s, p) && Enabled(s, a) && Solo(a, p)
    ensures OnTrack(Next(s, a).shared, Producer(Next(s, a), p))
  {
    var producer, after := Producer(s, p), Next(s, a).shared;
    match a {
      case SenderRuns(t) =>
        if t == p {
          ProducerStepKeepsLone(s.shared, s.senders[t]);
        } else {
          IdleStepKeepsLone(s.shared, s.senders[t], producer);
        }
      case CallLossless(t, item) => CallKeepsLone(s.shared, item);
      case ReceiverRuns => ReceivedKeepsLone(s.shared, producer);
      case CallTryRecv => PopKeepsLone(s.shared, Away, producer);
      case _ => OnlyTheQueueMatters(s.shared, after, producer);
    }
  }

  lemma OthersStayIdle(s: State, a: Action, p: int)
    requires Conserved(s.shared) && Lone(s, p) && Enabled(s, a) && Solo(a, p)
    ensures forall t | t in Next(s, a).senders && t != p :: Idle(Next(s, a).senders[t])
  {
  }

  lemma NextKeepsLone(s: State, a: Action, p: int)
    requires Conserved(s.shared) && Lone(s, p) && Enabled(s, a) && Solo(a, p)
    ensures Lone(Next(s, a), p)
  {
    NextOnTrack(s, a, p);
    OthersStayIdle(s, a, p);
  }

  lemma {:induction false} LoneHolds(start: State, actions: seq<Action>, p: int)
    requires Init(start) && Reached(start, actions).Some? && forall a | a in actions :: Solo(a, p)
    ensures Lone(Reached(start, actions).value, p)
  {
    if actions != [] {
      var front, last := actions[..|actions| - 1], actions[|actions| - 1];
      assert last in actions && forall a | a in front :: a in actions;
      LoneHolds(start, front, p);
      ReachedIsInv(start, front);
      NextKeepsLone(Reached(start, front).value, last, p);
    }
  }

  /** A replay loses nothing: what was received is a prefix of what was sent, and nothing was ever evicted. */
  lemma LosslessDeliversAPrefix(start: State, actions: seq<Action>, p: int)
    requires Init(start) && Reached(start, actions).Some? && forall a | a in actions :: Solo(a, p)
    ensures var h := Reached(start, actions).value.shared;
            && Items(h.log.removed) <= h.log.accepted <= h.log.offered
            && h.dropped == 0 && Evictions(h.log.removed) == 0
  {
    LoneHolds(start, actions, p);
    ReachedIsInv(start, actions);
    NoEvictions(Reached(start, actions).value.shared.log.removed);
  }

  lemma {:induction false} NoEvictions(removed: seq<Removal>)
    requires forall i | 0 <= i < |removed| :: !removed[i].evicted
    ensures Evictions(removed) == 0
  {
    if removed != [] {
      NoEvictions(removed[..|removed| - 1]);
    }
  }
}
