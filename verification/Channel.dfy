/**
 The bounded channel between ingest and the aggregator (crates/ma-pipeline/src/channel.rs):
 any number of sender tasks and one receiver, interleaved at every critical section, atomic
 access and `Notify` operation. A `Notify` is a permit and a generation counter: `notify_one`
 wakes the waiter or leaves a permit, `notify_waiters` wakes all and leaves a new generation.
 */
module Channel {
  import opened Types

  ////////// The queue under its lock

  /** The newest item always gets in; a full queue gives up its oldest for it. */
  function Evicted<T>(queue: seq<T>, capacity: nat): Option<T>
    requires capacity > 0
  {
    if |queue| >= capacity then Some(queue[0]) else None
  }

  function Enqueued<T>(queue: seq<T>, capacity: nat, item: T): seq<T>
    requires capacity > 0
  {
    (if |queue| >= capacity then queue[1..] else queue) + [item]
  }

  datatype SendOutcome<T> = Sent | DroppedOldest(evicted: T) | Refused(item: T)

  /** The channel as one task sees it while no other is running. */
  class Inner<T> {
    const capacity: nat
    var queue: seq<T>
    var dropped: nat
    var senders: nat
    var closed: bool

    ghost predicate Valid()
      reads this
    {
      capacity > 0 && |queue| <= capacity
    }

    constructor (capacity: nat)
      requires capacity > 0
      ensures Valid() && this.capacity == capacity && queue == [] && dropped == 0 && senders == 1 && !closed
    {
      this.capacity, queue, dropped, senders, closed := capacity, [], 0, 1, false;
    }

    method Send(item: T) returns (outcome: SendOutcome<T>)
      requires Valid()
      modifies this`queue, this`dropped
      ensures Valid()
      ensures closed ==> outcome == Refused(item) && queue == old(queue) && dropped == old(dropped)
      ensures !closed ==>
                && queue == Enqueued(old(queue), capacity, item)
                && (old(|queue|) < capacity ==> outcome == Sent && dropped == old(dropped))
                && (old(|queue|) == capacity ==> outcome == DroppedOldest(old(queue)[0]) && dropped == old(dropped) + 1)
    {
      if closed {
        return Refused(item);
      }
      var evicted := None;
      if |queue| >= capacity {
        evicted := Some(queue[0]);
        queue := queue[1..];
      }
      queue := queue + [item];
      if evicted.None? {
        return Sent;
      }
      dropped := dropped + 1;
      outcome := DroppedOldest(evicted.value);
    }

    method TryRecv() returns (item: Option<T>)
      requires Valid()
      modifies this`queue
      ensures Valid()
      ensures old(queue) == (if item.Some? then [item.value] else []) + queue
      ensures item.None? ==> queue == []
    {
      if |queue| == 0 {
        return None;
      }
      item := Some(queue[0]);
      queue := queue[1..];
    }

    method Close()
      modifies this`closed
      ensures closed
    {
      closed := true;
    }

    method CloneSender()
      modifies this`senders
      ensures senders == old(senders) + 1
    {
      senders := senders + 1;
    }

    method DropSender()
      requires senders > 0
      modifies this`senders, this`closed
      ensures senders == old(senders) - 1
      ensures closed == (old(closed) || senders == 0)
    {
      senders := senders - 1;
      if senders == 0 {
        closed := true;
      }
    }
  }

  function EnqueuedAll<T>(queue: seq<T>, capacity: nat, items: seq<T>): seq<T>
    requires capacity > 0
  {
    if items == [] then queue
    else Enqueued(EnqueuedAll(queue, capacity, items[..|items| - 1]), capacity, items[|items| - 1])
  }

  /** Freshness: a burst leaves exactly the newest items, in order, whatever was queued before it. */
  lemma {:induction false} TheNewestSurvive<T>(queue: seq<T>, capacity: nat, items: seq<T>)
    requires 0 < capacity && |queue| <= capacity
    ensures var all := queue + items;
            EnqueuedAll(queue, capacity, items) == all[if |all| <= capacity then 0 else |all| - capacity..]
  {
    if items == [] {
      assert queue + items == queue;
    } else {
      var front := items[..|items| - 1];
      TheNewestSurvive(queue, capacity, front);
      assert queue + items == (queue + front) + [items[|items| - 1]];
    }
  }

  ////////// The interleaved channel

  /** The channel never looks inside an item. */
  type Item = int

  /** Where a sender task is in a call. `Looping` to `Parked` are a lossless send waiting for room. */
  datatype SenderPc =
    | Resting
    | Checking(item: Item)
    | Entering(item: Item)
    | Notifying(evicted: Option<Item>)
    | Counting
    | Looping(item: Item)
    | Subscribing(item: Item)
    | Measuring(item: Item, seen: nat)
    | Polling(item: Item, seen: nat)
    | Parked(item: Item, seen: nat)
    | Closing(last: bool)
    | Announcing(last: bool)
    | Gone

  datatype Wake = NotYet | ByOne | ByAll

  /** Where the receiver is, in the order `recv` visits these. */
  datatype ReceiverPc =
    | Away
    | FirstPop
    | FirstCheck
    | Subscribe
    | SecondPop(seen: nat)
    | SecondCheck(seen: nat)
    | Poll(seen: nat)
    | Asleep(woken: Wake)
    | LastPop
    | MakingRoom

  /** An item that left the queue, and how. */
  datatype Removal = Removal(item: Item, evicted: bool)

  /** A record of the run; nothing in the channel reads it. */
  datatype Log = Log(offered: seq<Item>, accepted: seq<Item>, removed: seq<Removal>, ended: bool, byHand: bool)

  /** What all senders share, and the receiver. */
  datatype Shared = Shared(
    capacity: nat, queue: seq<Item>, closed: bool, dropped: nat, handles: nat,
    permit: bool, generation: nat, room: nat, receiver: ReceiverPc, log: Log)

  datatype State = State(shared: Shared, senders: map<int, SenderPc>)

  ghost predicate Init(s: State) {
    && s.shared.capacity > 0
    && s.shared == Shared(s.shared.capacity, [], false, 0, 1, false, 0, 0, Away, Log([], [], [], false, false))
    && s.senders == map[0 := Resting]
  }

  function NotifyOne(h: Shared): Shared {
    if h.receiver == Asleep(NotYet) then h.(receiver := Asleep(ByOne)) else h.(permit := true)
  }

  function NotifyWaiters(h: Shared): Shared {
    h.(generation := h.generation + 1,
       receiver := if h.receiver == Asleep(NotYet) then Asleep(ByAll) else h.receiver)
  }

  /** The critical section of a send. */
  function Push(h: Shared, item: Item): Shared
    requires h.capacity > 0
  {
    var evicted := Evicted(h.queue, h.capacity);
    var removed := if evicted.Some? then h.log.removed + [Removal(evicted.value, true)] else h.log.removed;
    h.(queue := Enqueued(h.queue, h.capacity, item),
       log := h.log.(accepted := h.log.accepted + [item], removed := removed))
  }

  /** What one step of a sender in the middle of a call does to the channel. */
  function Effect(h: Shared, pc: SenderPc): Shared
    requires h.capacity > 0
  {
    match pc
    case Entering(item) => Push(h, item)
    case Notifying(_) => NotifyOne(h)
    case Counting => h.(dropped := h.dropped + 1)
    case Closing(_) => h.(closed := true)
    case Announcing(_) => NotifyWaiters(h)
    case _ => h
  }

  /** Where that step takes the sender. */
  function Onward(h: Shared, pc: SenderPc): SenderPc
    requires h.capacity > 0
  {
    match pc
    case Resting => Resting
    case Checking(item) => if h.closed then Resting else Entering(item)
    case Entering(_) => Notifying(Evicted(h.queue, h.capacity))
    case Notifying(evicted) => if evicted.Some? then Counting else Resting
    case Counting => Resting
    case Looping(item) => if h.closed then Resting else Subscribing(item)
    case Subscribing(item) => Measuring(item, h.room)
    case Measuring(item, seen) => if |h.queue| < h.capacity then Checking(item) else Polling(item, seen)
    case Polling(item, seen) => if h.room != seen then Looping(item) else Parked(item, seen)
    case Parked(item, seen) => if h.room != seen then Looping(item) else pc
    case Closing(last) => Announcing(last)
    case Announcing(last) => if last then Gone else Resting
    case Gone => Gone
  }

  /** Take the front item and owe the space waiters a notification, or go on without one. */
  function Pop(h: Shared, otherwise: ReceiverPc): Shared {
    if |h.queue| == 0 then h.(receiver := otherwise)
    else
      h.(queue := h.queue[1..], receiver := MakingRoom,
         log := h.log.(removed := h.log.removed + [Removal(h.queue[0], false)]))
  }

  /** One step of the receiver. A poll takes a permit if there is one, and otherwise a newer generation. */
  function Received(h: Shared): Shared {
    match h.receiver
    case Away => h
    case FirstPop => Pop(h, FirstCheck)
    case FirstCheck => h.(receiver := if h.closed then LastPop else Subscribe)
    case Subscribe => h.(receiver := SecondPop(h.generation))
    case SecondPop(seen) => Pop(h, SecondCheck(seen))
    case SecondCheck(seen) => h.(receiver := if h.closed then LastPop else Poll(seen))
    case Poll(seen) =>
      if h.permit then h.(permit := false, receiver := FirstPop)
      else h.(receiver := if h.generation != seen then FirstPop else Asleep(NotYet))
    case Asleep(woken) => if woken.NotYet? then h else h.(receiver := FirstPop)
    case LastPop =>
      if |h.queue| == 0 then h.(receiver := Away, log := h.log.(ended := true)) else Pop(h, Away)
    case MakingRoom => h.(room := h.room + 1, receiver := Away)
  }

  datatype Action =
    | CallSend(t: int, item: Item)
    | CallLossless(t: int, item: Item)
    | CallClose(t: int)
    | Clone(t: int, u: int)
    | DropSender(t: int)
    | SenderRuns(t: int)
    | CancelLossless(t: int)
    | CallRecv
    | CallTryRecv
    | ReceiverRuns
    | CancelRecv

  predicate IsResting(s: State, t: int) {
    t in s.senders && s.senders[t].Resting?
  }

  predicate Enabled(s: State, a: Action) {
    match a
    case CallSend(t, _) => IsResting(s, t)
    case CallLossless(t, _) => IsResting(s, t)
    case CallClose(t) => IsResting(s, t)
    case Clone(t, u) => IsResting(s, t) && u !in s.senders
    case DropSender(t) => IsResting(s, t) && s.shared.handles > 0
    case SenderRuns(t) => t in s.senders && s.shared.capacity > 0
    case CancelLossless(t) => t in s.senders && s.senders[t].Parked?
    case CallRecv => s.shared.receiver.Away?
    case CallTryRecv => s.shared.receiver.Away?
    case ReceiverRuns => true
    case CancelRecv => s.shared.receiver.Asleep?
  }

  /** What an action does to the channel. A dropped `recv` hands on a wakeup meant for one waiter. */
  function SharedNext(s: State, a: Action): Shared
    requires Enabled(s, a)
  {
    var h := s.shared;
    match a
    case CallSend(_, item) => h.(log := h.log.(offered := h.log.offered + [item]))
    case CallLossless(_, item) => h.(log := h.log.(offered := h.log.offered + [item]))
    case CallClose(_) => h.(log := h.log.(byHand := true))
    case Clone(_, _) => h.(handles := h.handles + 1)
    case DropSender(_) => h.(handles := h.handles - 1)
    case SenderRuns(t) => Effect(h, s.senders[t])
    case CancelLossless(_) => h
    case CallRecv => h.(receiver := FirstPop)
    case CallTryRecv => Pop(h, Away)
    case ReceiverRuns => Received(h)
    case CancelRecv => h.(receiver := Away, permit := h.permit || h.receiver.woken.ByOne?)
  }

  /** The sender an action moves, and where to. */
  function Moved(s: State, a: Action): Option<(int, SenderPc)>
    requires Enabled(s, a)
  {
    match a
    case CallSend(t, item) => Some((t, Checking(item)))
    case CallLossless(t, item) => Some((t, Looping(item)))
    case CallClose(t) => Some((t, Closing(false)))
    case Clone(_, u) => Some((u, Resting))
    case DropSender(t) => Some((t, if s.shared.handles == 1 then Closing(true) else Gone))
    case SenderRuns(t) => Some((t, Onward(s.shared, s.senders[t])))
    case CancelLossless(t) => Some((t, Resting))
    case _ => None
  }

  function Next(s: State, a: Action): State
    requires Enabled(s, a)
  {
    var moved := Moved(s, a);
    State(SharedNext(s, a), if moved.Some? then s.senders[moved.value.0 := moved.value.1] else s.senders)
  }

  /** The state a list of actions leads to, if each is enabled in turn. */
  ghost function Reached(s: State, actions: seq<Action>): Option<State> {
    if actions == [] then Some(s)
    else
      var before := Reached(s, actions[..|actions| - 1]);
      var last := actions[|actions| - 1];
      if before.Some? && Enabled(before.value, last) then Some(Next(before.value, last)) else None
  }

  ghost predicate Reachable(s: State) {
    exists start, actions :: Init(start) && Reached(start, actions) == Some(s)
  }
}
