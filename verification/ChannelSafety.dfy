/** What every interleaving of the channel keeps (crates/ma-pipeline/src/channel.rs). */
module ChannelSafety {
  import opened Types
  import opened Channel

  ////////// Conservation and order

  function Items(removed: seq<Removal>): seq<Item> {
    seq(|removed|, i requires 0 <= i < |removed| => removed[i].item)
  }

  function Evictions(removed: seq<Removal>): nat {
    if removed == [] then 0
    else Evictions(removed[..|removed| - 1]) + if removed[|removed| - 1].evicted then 1 else 0
  }

  /** Every accepted item left in order or is still queued, and the queue is within its bound. */
  ghost predicate Conserved(h: Shared) {
    h.capacity > 0 && |h.queue| <= h.capacity && h.log.accepted == Items(h.log.removed) + h.queue
  }

  lemma RemovedExtends(removed: seq<Removal>, r: Removal)
    ensures Items(removed + [r]) == Items(removed) + [r.item]
    ensures Evictions(removed + [r]) == Evictions(removed) + if r.evicted then 1 else 0
  {
    assert (removed + [r])[..|removed|] == removed;
  }

  lemma PopConserves(h: Shared, otherwise: ReceiverPc)
    requires Conserved(h)
    ensures Conserved(Pop(h, otherwise))
    ensures Evictions(Pop(h, otherwise).log.removed) == Evictions(h.log.removed)
  {
    if |h.queue| > 0 {
      RemovedExtends(h.log.removed, Removal(h.queue[0], false));
      assert Items(h.log.removed) + h.queue == (Items(h.log.removed) + [h.queue[0]]) + h.queue[1..];
    }
  }

  lemma PushConserves(h: Shared, item: Item)
    requires Conserved(h)
    ensures Conserved(Push(h, item))
    ensures Evictions(Push(h, item).log.removed) ==
            Evictions(h.log.removed) + if Evicted(h.queue, h.capacity).Some? then 1 else 0
  {
    if |h.queue| >= h.capacity {
      RemovedExtends(h.log.removed, Removal(h.queue[0], true));
      assert h.log.accepted + [item] == (Items(h.log.removed) + [h.queue[0]]) + (h.queue[1..] + [item]);
    } else {
      assert h.log.accepted + [item] == Items(h.log.removed) + (h.queue + [item]);
    }
  }

  lemma ReceivedConserves(h: Shared)
    requires Conserved(h)
    ensures Conserved(Received(h)) && Evictions(Received(h).log.removed) == Evictions(h.log.removed)
  {
    match h.receiver {
      case FirstPop => PopConserves(h, FirstCheck);
      case SecondPop(seen) => PopConserves(h, SecondCheck(seen));
      case LastPop => PopConserves(h, Away);
      case _ =>
    }
  }

  lemma EffectConserves(h: Shared, pc: SenderPc)
    requires Conserved(h)
    ensures Conserved(Effect(h, pc))
  {
    if pc.Entering? {
      PushConserves(h, pc.item);
    }
  }

  lemma NextConserves(s: State, a: Action)
    requires Conserved(s.shared) && Enabled(s, a)
    ensures Conserved(Next(s, a).shared)
  {
    match a {
      case SenderRuns(t) => EffectConserves(s.shared, s.senders[t]);
      case CallTryRecv => PopConserves(s.shared, Away);
      case ReceiverRuns => ReceivedConserves(s.shared);
      case _ =>
    }
  }

  ////////// Every eviction is counted

  /** This sender has evicted an item it has not counted yet. */
  predicate Owes(pc: SenderPc) {
    pc.Counting? || (pc.Notifying? && pc.evicted.Some?)
  }

  function Owing(senders: map<int, SenderPc>): set<int> {
    set t | t in senders && Owes(senders[t])
  }

  ghost predicate Counted(s: State) {
    Evictions(s.shared.log.removed) == s.shared.dropped + |Owing(s.senders)|
  }

  lemma OwingMoves(senders: map<int, SenderPc>, t: int, pc: SenderPc)
    ensures |Owing(senders[t := pc])| ==
            |Owing(senders)| - (if t in senders && Owes(senders[t]) then 1 else 0) + (if Owes(pc) then 1 else 0)
  {
    var rest := Owing(senders) - {t};
    assert Owing(senders[t := pc]) == if Owes(pc) then rest + {t} else rest;
    assert Owing(senders) == if t in senders && Owes(senders[t]) then rest + {t} else rest;
  }

  /** What a step adds to the evictions, it adds to the count or leaves owing. */
  lemma EffectCounts(h: Shared, pc: SenderPc)
    requires Conserved(h)
    ensures var after := Effect(h, pc);
            Evictions(after.log.removed) - Evictions(h.log.removed) ==
            after.dropped - h.dropped + (if Owes(Onward(h, pc)) then 1 else 0) - (if Owes(pc) then 1 else 0)
  {
    if pc.Entering? {
      PushConserves(h, pc.item);
    }
  }

  lemma NextCounts(s: State, a: Action)
    requires Conserved(s.shared) && Counted(s) && Enabled(s, a)
    ensures Counted(Next(s, a))
  {
    var moved := Moved(s, a);
    if moved.Some? {
      OwingMoves(s.senders, moved.value.0, moved.value.1);
    }
    match a {
      case SenderRuns(t) => EffectCounts(s.shared, s.senders[t]);
      case CallTryRecv => PopConserves(s.shared, Away);
      case ReceiverRuns => ReceivedConserves(s.shared);
      case _ =>
    }
  }

  ////////// No lost wakeup

  /** Some sender has queued an item and not yet notified the receiver. */
  ghost predicate PushPending(s: State) {
    exists t | t in s.senders :: s.senders[t].Notifying?
  }

  /** Some task has stored `closed` and not yet notified the receiver. */
  ghost predicate ClosePending(s: State) {
    exists t | t in s.senders :: s.senders[t].Announcing?
  }

  /** From its second look on, whatever the receiver has not seen has a way to wake it. */
  ghost predicate Wakeable(h: Shared, pushPending: bool, closePending: bool) {
    var r := h.receiver;
    && (r.SecondPop? || r.SecondCheck? || r.Poll? ==> r.seen <= h.generation)
    && (r.SecondCheck? || r.Poll? ==> h.queue == [] || h.permit || pushPending)
    && (r.Poll? && h.closed ==> h.generation != r.seen || closePending)
    && (r == Asleep(NotYet) ==> !h.permit && (h.queue == [] || pushPending) && (h.closed ==> closePending))
  }

  ghost predicate WillWake(s: State) {
    Wakeable(s.shared, PushPending(s), ClosePending(s))
  }

  /** Moving one sender keeps what the others have pending. */
  lemma PendingSurvives(s: State, a: Action)
    requires Enabled(s, a)
    ensures PushPending(s) && !(a.SenderRuns? && s.senders[a.t].Notifying?) ==> PushPending(Next(s, a))
    ensures ClosePending(s) && !(a.SenderRuns? && s.senders[a.t].Announcing?) ==> ClosePending(Next(s, a))
    ensures a.SenderRuns? && s.senders[a.t].Entering? ==> PushPending(Next(s, a))
    ensures a.SenderRuns? && s.senders[a.t].Closing? ==> ClosePending(Next(s, a))
  {
    var after, moved := Next(s, a), Moved(s, a);
    if PushPending(s) && !(a.SenderRuns? && s.senders[a.t].Notifying?) {
      var u :| u in s.senders && s.senders[u].Notifying?;
      assert after.senders[u].Notifying?;
    }
    if ClosePending(s) && !(a.SenderRuns? && s.senders[a.t].Announcing?) {
      var u :| u in s.senders && s.senders[u].Announcing?;
      assert after.senders[u].Announcing?;
    }
    if moved.Some? {
      assert moved.value.0 in after.senders && after.senders[moved.value.0] == moved.value.1;
    }
  }

  lemma EffectWakes(h: Shared, pc: SenderPc, pp: bool, cp: bool, pp': bool, cp': bool)
    requires h.capacity > 0 && Wakeable(h, pp, cp)
    requires (pp && !pc.Notifying?) || pc.Entering? ==> pp'
    requires (cp && !pc.Announcing?) || pc.Closing? ==> cp'
    ensures Wakeable(Effect(h, pc), pp', cp')
  {
  }

  lemma ReceivedWakes(h: Shared, pp: bool, cp: bool)
    requires Wakeable(h, pp, cp)
    ensures Wakeable(Received(h), pp, cp)
  {
  }

  lemma WakeableWeakens(h: Shared, pp: bool, cp: bool, pp': bool, cp': bool)
    requires Wakeable(h, pp, cp) && (pp ==> pp') && (cp ==> cp')
    ensures Wakeable(h, pp', cp')
  {
  }

  lemma NextWakes(s: State, a: Action)
    requires s.shared.capacity > 0 && WillWake(s) && Enabled(s, a)
    ensures WillWake(Next(s, a))
  {
    var pp, cp := PushPending(s), ClosePending(s);
    var pp', cp' := PushPending(Next(s, a)), ClosePending(Next(s, a));
    PendingSurvives(s, a);
    match a {
      case SenderRuns(t) => EffectWakes(s.shared, s.senders[t], pp, cp, pp', cp');
      case ReceiverRuns =>
        ReceivedWakes(s.shared, pp, cp);
        WakeableWeakens(Received(s.shared), pp, cp, pp', cp');
      case _ =>
    }
  }

  ////////// No lost room

  /** A lossless sender that has seen a full queue still faces one, or has a notification coming. */
  predicate Waits(h: Shared, pc: SenderPc) {
    && (pc.Measuring? || pc.Polling? || pc.Parked? ==> pc.seen <= h.room)
    && ((pc.Polling? || pc.Parked?) && pc.seen == h.room ==> |h.queue| == h.capacity || h.receiver.MakingRoom?)
  }

  ghost predicate RoomComes(s: State) {
    forall t | t in s.senders :: Waits(s.shared, s.senders[t])
  }

  lemma EffectKeepsWaits(h: Shared, pc: SenderPc, other: SenderPc)
    requires Conserved(h) && Waits(h, other)
    ensures Waits(Effect(h, pc), other)
  {
  }

  lemma OnwardWaits(h: Shared, pc: SenderPc)
    requires Conserved(h) && Waits(h, pc)
    ensures Waits(Effect(h, pc), Onward(h, pc))
  {
  }

  lemma ReceivedKeepsWaits(h: Shared, other: SenderPc)
    requires Conserved(h) && Waits(h, other)
    ensures Waits(Received(h), other)
  {
  }

  lemma NextKeepsWaits(s: State, a: Action, t: int)
    requires Conserved(s.shared) && RoomComes(s) && Enabled(s, a) && t in Next(s, a).senders
    ensures Waits(Next(s, a).shared, Next(s, a).senders[t])
  {
    if t in s.senders {
      assert Waits(s.shared, s.senders[t]);
    }
    match a {
      case SenderRuns(u) =>
        if u == t {
          OnwardWaits(s.shared, s.senders[u]);
        } else {
          EffectKeepsWaits(s.shared, s.senders[u], s.senders[t]);
        }
      case ReceiverRuns => ReceivedKeepsWaits(s.shared, s.senders[t]);
      case _ =>
    }
  }

  ////////// Handles

  predicate Holds(pc: SenderPc) {
    !pc.Gone? && !(pc.Closing? && pc.last) && !(pc.Announcing? && pc.last)
  }

  function Holders(senders: map<int, SenderPc>): set<int> {
    set t | t in senders && Holds(senders[t])
  }

  /** A task that is closing the channel is its last, or was told to by hand. */
  predicate ClosesFor(h: Shared, pc: SenderPc) {
    pc.Closing? || pc.Announcing? ==> if pc.last then h.handles == 0 else h.log.byHand
  }

  /** The count is the number of live handles, and a channel nobody closed by hand closes once none is left. */
  ghost predicate HandlesCounted(s: State) {
    && s.shared.handles == |Holders(s.senders)|
    && (s.shared.closed ==> s.shared.log.byHand || s.shared.handles == 0)
    && forall t | t in s.senders :: ClosesFor(s.shared, s.senders[t])
  }

  lemma HoldersMove(senders: map<int, SenderPc>, t: int, pc: SenderPc)
    ensures |Holders(senders[t := pc])| ==
            |Holders(senders)| - (if t in senders && Holds(senders[t]) then 1 else 0) + (if Holds(pc) then 1 else 0)
  {
    var rest := Holders(senders) - {t};
    assert Holders(senders[t := pc]) == if Holds(pc) then rest + {t} else rest;
    assert Holders(senders) == if t in senders && Holds(senders[t]) then rest + {t} else rest;
  }

  lemma NobodyHolds(s: State, t: int)
    requires HandlesCounted(s) && s.shared.handles == 0 && t in s.senders
    ensures !Holds(s.senders[t])
  {
    assert Holders(s.senders) == {};
    assert t !in Holders(s.senders);
  }

  lemma EffectKeepsHandles(h: Shared, pc: SenderPc)
    requires h.capacity > 0
    ensures var after := Effect(h, pc);
            && after.handles == h.handles && after.log.byHand == h.log.byHand
            && (after.closed ==> h.closed || pc.Closing?)
    ensures Holds(Onward(h, pc)) == Holds(pc)
    ensures ClosesFor(h, pc) ==> ClosesFor(h, Onward(h, pc))
  {
  }

  lemma ReceivedKeepsHandles(h: Shared)
    ensures var after := Received(h);
            after.handles == h.handles && after.log.byHand == h.log.byHand && after.closed == h.closed
  {
  }

  lemma NextCountsHandles(s: State, a: Action)
    requires s.shared.capacity > 0 && HandlesCounted(s) && Enabled(s, a)
    ensures HandlesCounted(Next(s, a))
  {
    var moved := Moved(s, a);
    if moved.Some? {
      HoldersMove(s.senders, moved.value.0, moved.value.1);
    }
    if s.shared.handles == 0 && (a.Clone? || a.CallSend? || a.CallLossless? || a.CallClose? || a.CancelLossless?) {
      NobodyHolds(s, a.t);
    }
    match a {
      case SenderRuns(t) => EffectKeepsHandles(s.shared, s.senders[t]);
      case ReceiverRuns => ReceivedKeepsHandles(s.shared);
      case _ =>
    }
  }

  ////////// One task alone

  function Runs(s: State, t: int): State
    requires t in s.senders && s.shared.capacity > 0
  {
    Next(s, SenderRuns(t))
  }

  /** Uninterrupted, the steps of a send do what `Inner.Send` does. */
  lemma AloneASendIsTheMethod(s: State, t: int, item: Item)
    requires IsResting(s, t) && Conserved(s.shared)
    ensures var e := Runs(Runs(Runs(Runs(Next(s, CallSend(t, item)), t), t), t), t);
            && IsResting(e, t)
            && e.shared.closed == s.shared.closed
            && e.shared.queue == (if s.shared.closed then s.shared.queue else Enqueued(s.shared.queue, s.shared.capacity, item))
            && e.shared.dropped == s.shared.dropped +
                                   if !s.shared.closed && |s.shared.queue| == s.shared.capacity then 1 else 0
  {
    var a := Next(s, CallSend(t, item));
    var b := Runs(a, t);
    if s.shared.closed {
      assert b.senders[t] == Resting;
    } else {
      assert b.senders[t] == Entering(item);
      var c := Runs(b, t);
      assert c.senders[t] == Notifying(Evicted(s.shared.queue, s.shared.capacity));
      assert c.shared.queue == Enqueued(s.shared.queue, s.shared.capacity, item);
    }
  }

  /** And those of a lossless send into a channel with room queue the item and evict nothing; a closed one refuses it. */
  lemma AloneALosslessSendGetsIn(s: State, t: int, item: Item)
    requires IsResting(s, t) && s.shared.capacity > 0 && |s.shared.queue| < s.shared.capacity
    ensures var e := Runs(Runs(Runs(Runs(Runs(Runs(Next(s, CallLossless(t, item)), t), t), t), t), t), t);
            && IsResting(e, t) && e.shared.closed == s.shared.closed && e.shared.dropped == s.shared.dropped
            && e.shared.queue == if s.shared.closed then s.shared.queue else s.shared.queue + [item]
  {
    var a := Next(s, CallLossless(t, item));
    var b := Runs(a, t);
    if s.shared.closed {
      assert b.senders[t] == Resting;
    } else {
      assert b.senders[t] == Subscribing(item);
      var c := Runs(b, t);
      assert c.senders[t] == Measuring(item, s.shared.room);
      var d := Runs(c, t);
      assert d.senders[t] == Checking(item);
      var e := Runs(d, t);
      assert e.senders[t] == Entering(item);
      var f := Runs(e, t);
      assert f.senders[t] == Notifying(None) && f.shared.queue == s.shared.queue + [item];
    }
  }

  function ReceivedTimes(h: Shared, n: nat): Shared {
    if n == 0 then h else Received(ReceivedTimes(h, n - 1))
  }

  /** A receive takes the front at once if there is one, and tells those who wait for room. */
  lemma AloneARecvTakesTheFront(h: Shared)
    requires h.receiver.FirstPop? && h.queue != []
    ensures var e := ReceivedTimes(h, 2);
            && e.receiver.Away? && h.queue == [h.queue[0]] + e.queue && e.room == h.room + 1
            && e.log.removed == h.log.removed + [Removal(h.queue[0], false)] && e.log.ended == h.log.ended
  {
    assert ReceivedTimes(h, 1) == Received(h);
  }

  /** With nothing queued it reports the end if the channel is closed, and sleeps if it is open and nothing is owed. */
  lemma AloneARecvEndsOrSleeps(h: Shared)
    requires h.receiver.FirstPop? && h.queue == [] && !h.permit
    ensures h.closed ==> ReceivedTimes(h, 3) == h.(receiver := Away, log := h.log.(ended := true))
    ensures !h.closed ==> ReceivedTimes(h, 6) == h.(receiver := Asleep(NotYet))
  {
    assert ReceivedTimes(h, 1) == h.(receiver := FirstCheck);
    if h.closed {
      assert ReceivedTimes(h, 2) == h.(receiver := LastPop);
    } else {
      assert ReceivedTimes(h, 2) == h.(receiver := Subscribe);
      assert ReceivedTimes(h, 3) == h.(receiver := SecondPop(h.generation));
      assert ReceivedTimes(h, 4) == h.(receiver := SecondCheck(h.generation));
      assert ReceivedTimes(h, 5) == h.(receiver := Poll(h.generation));
    }
  }
}
