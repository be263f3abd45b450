/**
 What each discipline of the scripted venue guarantees when a tape is damaged
 (crates/ma-venues/src/fake.rs): which live books are right, and which are silently wrong.
 */
module GapGuarantee {
  import opened Types
  import opened Book
  import opened FakeVenue
  import Sync = VenueSync

  /** A frame of the script, by position, or a reconnect. */
  datatype Delivery = Frame(i: nat) | Reconnect(at: IngestTime)

  ghost predicate FromScript(ops: seq<Op>, ds: seq<Delivery>) {
    forall d | d in ds :: d.Frame? ==> d.i < |ops|
  }

  ghost function Delivered(w: Wire, integrity: Integrity, ops: seq<Op>, s: Feed, d: Delivery): Feed
    requires d.Frame? ==> d.i < |ops|
  {
    match d
    case Frame(i) => Fed(w, integrity, s, FrameOf(w, ops, i))
    case Reconnect(at) => Feed(None, MarkedDesynced(s.book, ConnectionLost, at))
  }

  ghost function Outcome(w: Wire, integrity: Integrity, ops: seq<Op>, ds: seq<Delivery>): Feed
    requires FromScript(ops, ds)
  {
    if ds == [] then FRESH
    else
      assert ds[|ds| - 1] in ds && forall d | d in ds[..|ds| - 1] :: d in ds;
      Delivered(w, integrity, ops, Outcome(w, integrity, ops, ds[..|ds| - 1]), ds[|ds| - 1])
  }

  lemma OutcomeExtends(w: Wire, integrity: Integrity, ops: seq<Op>, ds: seq<Delivery>, d: Delivery)
    requires FromScript(ops, ds) && (d.Frame? ==> d.i < |ops|)
    ensures FromScript(ops, ds + [d])
    ensures Outcome(w, integrity, ops, ds + [d]) == Delivered(w, integrity, ops, Outcome(w, integrity, ops, ds), d)
  {
    var more := ds + [d];
    assert more[..|ds|] == ds;
    assert forall e | e in more :: e in ds || e == d;
  }

  /** Same contents, and both live or neither. */
  ghost predicate Alike(a: BookValue, b: BookValue) {
    a.bids == b.bids && a.asks == b.asks && a.maxDepth == b.maxDepth && (a.state.Live? <==> b.state.Live?)
  }

  lemma SameSnapshot(a: BookValue, b: BookValue, bids: seq<Level>, asks: seq<Level>,
                     i: Integrity, j: Integrity, at: IngestTime, bt: IngestTime)
    requires a.maxDepth == b.maxDepth
    ensures Alike(AfterSnapshot(a, bids, asks, i, at), AfterSnapshot(b, bids, asks, j, bt))
  {
  }

  lemma SameDelta(a: BookValue, b: BookValue, bids: seq<Level>, asks: seq<Level>, at: IngestTime, bt: IngestTime)
    requires Alike(a, b)
    ensures Alike(AfterDelta(a, bids, asks, at), AfterDelta(b, bids, asks, bt))
  {
  }

  /** What a single-action reply does. */
  lemma OneAction(v: Sync.Venue, b: BookValue, a: Sync.SyncAction, at: IngestTime)
    ensures Sync.ActedAll(v, b, [a], at) == Sync.Acted(v, b, a, at)
  {
    assert [a][..0] == [];
    assert Sync.ActedAll(v, b, [], at) == b;
  }

  lemma PrefixShadow(w: Wire, ops: seq<Op>, i: nat)
    requires i < |ops|
    ensures Shadow(w, ops[..i + 1]) == ShadowStep(w, Shadow(w, ops[..i]), ops[i], Stamp(w, i))
  {
    assert ops[..i + 1][..i] == ops[..i];
  }

  ////////// Contiguous sequence numbers

  /** A live book is the reference book at the sequence number before the one expected next. */
  ghost predicate Right(w: Wire, ops: seq<Op>, s: Feed) {
    s.book.state.Live? ==>
      && s.expected.Some? && 1 <= s.expected.value <= |ops| + 1
      && Alike(s.book, Shadow(w, ops[..s.expected.value - 1]))
  }

  predicate Unparsable(w: Wire, op: Op) {
    op.SnapshotOp? && !Parses(w, op.bids, op.asks)
  }

  /** Wherever a snapshot cannot be parsed, the reference book is the one it is at every live moment. */
  ghost predicate SnapshotsHarmless(w: Wire, ops: seq<Op>) {
    forall j, k | 0 <= j < |ops| && Unparsable(w, ops[j]) && 0 <= k <= |ops| && Shadow(w, ops[..k]).state.Live? ::
      Alike(Shadow(w, ops[..k]), Shadow(w, ops[..j + 1]))
  }

  /** A parsed snapshot or an in-sequence frame leaves the book as the reference book is after that frame. */
  lemma FrameFollowsShadow(w: Wire, ops: seq<Op>, s: Feed, i: nat)
    requires i < |ops| && s.book.maxDepth == None
    requires Alike(s.book, Shadow(w, ops[..i])) || (ops[i].SnapshotOp? && Parses(w, ops[i].bids, ops[i].asks))
    requires s.expected == Some(i + 1) || s.expected == None || ops[i].SnapshotOp?
    ensures var after := Delivered(w, GapDetectable, ops, s, Frame(i));
            after.expected == Some(i + 2) && Alike(after.book, Shadow(w, ops[..i + 1]))
  {
    PrefixShadow(w, ops, i);
    ShadowUncapped(w, ops[..i]);
    var msg, at := MessageOf(w, ops, i), Stamp(w, i);
    var v, ref := VenueOf(w, GapDetectable), Shadow(w, ops[..i]);
    var reply := Replied(w, GapDetectable, s.expected, msg);
    if reply.Actions? {
      OneAction(v, s.book, reply.actions[0], at);
      if ops[i].SnapshotOp? {
        SameSnapshot(s.book, ref, ToLevels(w, ops[i].bids).value, ToLevels(w, ops[i].asks).value, GapDetectable, Verified, at, at);
      } else if ops[i].DeltaOp? {
        SameDelta(s.book, ref, ToLevels(w, ops[i].bids).value, ToLevels(w, ops[i].asks).value, at, at);
      }
    }
  }

  lemma {:induction false} ShadowUncapped(w: Wire, ops: seq<Op>)
    ensures Shadow(w, ops).maxDepth == None
  {
    if ops != [] {
      ShadowUncapped(w, ops[..|ops| - 1]);
    }
  }

  /** Any other frame leaves the book distrusted or, if it cannot be parsed, untouched. */
  lemma OtherFrameDistrusts(w: Wire, ops: seq<Op>, s: Feed, i: nat)
    requires i < |ops| && s.book.state.Live? && s.expected.Some? && s.expected != Some(i + 1)
    requires !ops[i].SnapshotOp?
    ensures !Delivered(w, GapDetectable, ops, s, Frame(i)).book.state.Live?
  {
    var reply := Replied(w, GapDetectable, s.expected, MessageOf(w, ops, i));
    OneAction(VenueOf(w, GapDetectable), s.book, reply.actions[0], Stamp(w, i));
  }

  lemma DistrustedStaysSo(w: Wire, integrity: Integrity, ops: seq<Op>, s: Feed, i: nat)
    requires i < |ops| && !s.book.state.Live?
    requires !ops[i].SnapshotOp? || Unparsable(w, ops[i])
    ensures !Delivered(w, integrity, ops, s, Frame(i)).book.state.Live?
  {
    var reply := Replied(w, integrity, s.expected, MessageOf(w, ops, i));
    if reply.Actions? {
      OneAction(VenueOf(w, integrity), s.book, reply.actions[0], Stamp(w, i));
    }
  }

  lemma DeliveryUncapped(w: Wire, integrity: Integrity, ops: seq<Op>, s: Feed, d: Delivery)
    requires s.book.maxDepth == None && (d.Frame? ==> d.i < |ops|)
    ensures Delivered(w, integrity, ops, s, d).book.maxDepth == None
  {
    if d.Frame? {
      var reply := Replied(w, integrity, s.expected, MessageOf(w, ops, d.i));
      if reply.Actions? {
        OneAction(VenueOf(w, integrity), s.book, reply.actions[0], Stamp(w, d.i));
      }
    }
  }

  lemma DeliveryKeepsRight(w: Wire, ops: seq<Op>, s: Feed, d: Delivery)
    requires Right(w, ops, s) && s.book.maxDepth == None && (d.Frame? ==> d.i < |ops|)
    requires SnapshotsHarmless(w, ops)
    ensures Right(w, ops, Delivered(w, GapDetectable, ops, s, d))
  {
    if d.Frame? {
      var i := d.i;
      ShadowUncapped(w, ops[..i]);
      if ops[i].SnapshotOp? && Parses(w, ops[i].bids, ops[i].asks) {
        FrameFollowsShadow(w, ops, s, i);
      } else if !s.book.state.Live? {
        DistrustedStaysSo(w, GapDetectable, ops, s, i);
      } else if ops[i].SnapshotOp? {
        var k := s.expected.value - 1;
        assert Unparsable(w, ops[i]) && Shadow(w, ops[..k]).state.Live?;
        assert Alike(Shadow(w, ops[..k]), Shadow(w, ops[..i + 1]));
      } else if s.expected == Some(i + 1) {
        FrameFollowsShadow(w, ops, s, i);
      } else {
        OtherFrameDistrusts(w, ops, s, i);
      }
    }
  }

  lemma {:induction false} EveryDeliveryIsRight(w: Wire, ops: seq<Op>, ds: seq<Delivery>)
    requires FromScript(ops, ds) && SnapshotsHarmless(w, ops)
    ensures Right(w, ops, Outcome(w, GapDetectable, ops, ds)) && Outcome(w, GapDetectable, ops, ds).book.maxDepth == None
  {
    if ds != [] {
      var last := ds[|ds| - 1];
      assert last in ds && forall d | d in ds[..|ds| - 1] :: d in ds;
      EveryDeliveryIsRight(w, ops, ds[..|ds| - 1]);
      var s := Outcome(w, GapDetectable, ops, ds[..|ds| - 1]);
      DeliveryKeepsRight(w, ops, s, last);
      DeliveryUncapped(w, GapDetectable, ops, s, last);
    }
  }

  function FirstFrames(k: nat): seq<Delivery> {
    seq(k, i requires 0 <= i < k => Frame(i))
  }

  /** An undamaged tape reproduces the reference book. */
  lemma {:induction false} UndamagedIsTheShadow(w: Wire, ops: seq<Op>, k: nat)
    requires k <= |ops|
    ensures FromScript(ops, FirstFrames(k))
    ensures var s := Outcome(w, GapDetectable, ops, FirstFrames(k));
            && Alike(s.book, Shadow(w, ops[..k])) && s.book.maxDepth == None
            && s.expected == (if k == 0 then None else Some(k + 1))
  {
    if k > 0 {
      UndamagedIsTheShadow(w, ops, k - 1);
      var ds := FirstFrames(k);
      assert ds[..k - 1] == FirstFrames(k - 1);
      var s := Outcome(w, GapDetectable, ops, FirstFrames(k - 1));
      ShadowUncapped(w, ops[..k - 1]);
      FrameFollowsShadow(w, ops, s, k - 1);
      DeliveryUncapped(w, GapDetectable, ops, s, Frame(k - 1));
    }
  }

  lemma LastFrameIsExpected(w: Wire, integrity: Integrity, ops: seq<Op>, ds: seq<Delivery>, i: nat)
    requires FromScript(ops, ds) && i < |ops|
    ensures FromScript(ops, ds + [Frame(i)]) && Outcome(w, integrity, ops, ds + [Frame(i)]).expected == Some(i + 2)
  {
    OutcomeExtends(w, integrity, ops, ds, Frame(i));
  }

  /**
   A frame that follows frame `i` out of turn is refused for what it is: a gap between the number
   due and the one that came, or a step back behind the last one; venues that check their books
   refuse nothing. Numbers count from one.
   */
  lemma RefusalsNameTheGap(w: Wire, integrity: Integrity, ops: seq<Op>, ds: seq<Delivery>, i: nat, j: nat)
    requires FromScript(ops, ds) && i < |ops| && j < |ops| && !ops[j].SnapshotOp?
    ensures FromScript(ops, ds + [Frame(i)])
    ensures var s := Outcome(w, integrity, ops, ds + [Frame(i)]);
            var reply := Replied(w, integrity, s.expected, MessageOf(w, ops, j));
            match integrity
            case Verified => reply.Actions? ==> !reply.actions[0].Desync?
            case GapDetectable =>
              (reply.Actions? && reply.actions[0].Desync? <==> j != i + 1) &&
              (j != i + 1 ==> reply == Actions([Sync.Desync(SequenceGap(expected := i + 2, got := j + 1))]))
            case OrderOnly =>
              (reply.Actions? && reply.actions[0].Desync? <==> j <= i) &&
              (j <= i ==> reply == Actions([Sync.Desync(TimestampRegression(last := i + 1, gotStamp := j + 1))]))
  {
    LastFrameIsExpected(w, integrity, ops, ds, i);
  }

  /** A snapshot that cannot be parsed moves the expectation all the same, so the gap before it is never seen. */
  lemma UnparsableSwallowsTheGap(w: Wire, ops: seq<Op>, j: nat, k: nat)
    requires j < |ops| && Unparsable(w, ops[j]) && k <= |ops| && Shadow(w, ops[..k]).state.Live?
    requires !Alike(Shadow(w, ops[..k]), Shadow(w, ops[..j + 1]))
    ensures FromScript(ops, FirstFrames(k) + [Frame(j)])
    ensures !Right(w, ops, Outcome(w, GapDetectable, ops, FirstFrames(k) + [Frame(j)]))
  {
    UndamagedIsTheShadow(w, ops, k);
    OutcomeExtends(w, GapDetectable, ops, FirstFrames(k), Frame(j));
    var s := Outcome(w, GapDetectable, ops, FirstFrames(k));
    assert Delivered(w, GapDetectable, ops, s, Frame(j)) == Feed(Some(j + 2), s.book);
  }

  ghost predicate AlwaysRight(w: Wire, ops: seq<Op>) {
    forall ds | FromScript(ops, ds) :: Right(w, ops, Outcome(w, GapDetectable, ops, ds))
  }

  /**
   Contiguous numbers never serve a wrong live book, whatever is dropped, duplicated,
   reordered, cut off or reconnected, exactly for the scripts whose unparsable snapshots
   are harmless. A script whose every snapshot parses is one of them.
   */
  lemma LiveBooksAreRightExactlyWhen(w: Wire, ops: seq<Op>)
    ensures AlwaysRight(w, ops) <==> SnapshotsHarmless(w, ops)
    ensures (forall op | op in ops :: !Unparsable(w, op)) ==> AlwaysRight(w, ops)
  {
    if SnapshotsHarmless(w, ops) {
      forall ds | FromScript(ops, ds)
        ensures Right(w, ops, Outcome(w, GapDetectable, ops, ds))
      {
        EveryDeliveryIsRight(w, ops, ds);
      }
    } else {
      var j, k :| 0 <= j < |ops| && Unparsable(w, ops[j]) && 0 <= k <= |ops| && Shadow(w, ops[..k]).state.Live?
        && !Alike(Shadow(w, ops[..k]), Shadow(w, ops[..j + 1]));
      UnparsableSwallowsTheGap(w, ops, j, k);
    }
  }

  ////////// Damaged tapes are deliveries

  function Frames(delivery: seq<nat>): seq<Delivery> {
    seq(|delivery|, k requires 0 <= k < |delivery| => Frame(delivery[k]))
  }

  lemma FramesFromScript(ops: seq<Op>, delivery: seq<nat>)
    requires forall k | 0 <= k < |delivery| :: delivery[k] < |ops|
    ensures FromScript(ops, Frames(delivery))
  {
  }

  lemma {:induction false} FeedingIsDelivering(w: Wire, integrity: Integrity, tape: seq<RawFrame>, ops: seq<Op>,
                                               damaged: seq<RawFrame>, delivery: seq<nat>)
    requires Scripted(w, tape, ops) && Picks(tape, damaged, delivery)
    ensures FromScript(ops, Frames(delivery))
    ensures FedAll(w, integrity, FRESH, damaged) == Outcome(w, integrity, ops, Frames(delivery))
  {
    FramesFromScript(ops, delivery);
    if damaged != [] {
      var n := |damaged| - 1;
      FeedingIsDelivering(w, integrity, tape, ops, damaged[..n], delivery[..n]);
      assert Frames(delivery)[..n] == Frames(delivery[..n]);
    }
  }

  /** The guarantee for the damage a network does to a recorded tape: what `Run` returns is right. */
  lemma DamagedTapesAreRight(w: Wire, tape: seq<RawFrame>, ops: seq<Op>, ds: seq<Damage>)
    requires Scripted(w, tape, ops) && forall op | op in ops :: !Unparsable(w, op)
    ensures Right(w, ops, FedAll(w, GapDetectable, FRESH, DamagedAll(tape, ds)))
  {
    DamageOnlyRearranges(tape, ds);
    FeedingIsDelivering(w, GapDetectable, tape, ops, DamagedAll(tape, ds), DamagedAll(InOrder(|tape|), ds));
    LiveBooksAreRightExactlyWhen(w, ops);
  }

  ////////// Order only

  /** The reference steps of the chosen frames alone. */
  ghost function Folded(w: Wire, ops: seq<Op>, picks: seq<nat>): BookValue
    requires forall k | 0 <= k < |picks| :: picks[k] < |ops|
  {
    if picks == [] then NewBook(None)
    else
      var last := picks[|picks| - 1];
      ShadowStep(w, Folded(w, ops, picks[..|picks| - 1]), ops[last], Stamp(w, last))
  }

  /** Positions going strictly forwards from a snapshot that parses. */
  ghost predicate Chain(w: Wire, ops: seq<Op>, picks: seq<nat>) {
    && picks != []
    && (forall k | 0 <= k < |picks| :: picks[k] < |ops|)
    && (forall j, k | 0 <= j < k < |picks| :: picks[j] < picks[k])
    && ops[picks[0]].SnapshotOp? && !Unparsable(w, ops[picks[0]])
  }

  /** A live book is the fold of some chain of delivered frames, all before the number expected next. */
  ghost predicate Plausible(w: Wire, ops: seq<Op>, ds: seq<Delivery>, s: Feed, picks: seq<nat>) {
    && Chain(w, ops, picks)
    && (forall p | p in picks :: Frame(p) in ds)
    && s.expected.Some? && picks[|picks| - 1] + 2 <= s.expected.value
    && Alike(s.book, Folded(w, ops, picks))
  }

  /** Feeding an in-order frame is one more reference step. */
  lemma ForwardIsAStep(w: Wire, ops: seq<Op>, s: Feed, b: BookValue, i: nat)
    requires i < |ops| && Alike(s.book, b) && s.book.maxDepth == None
    requires ops[i].SnapshotOp? || s.expected == None || i + 1 >= s.expected.value
    ensures Alike(Delivered(w, OrderOnly, ops, s, Frame(i)).book, ShadowStep(w, b, ops[i], Stamp(w, i)))
  {
    var reply := Replied(w, OrderOnly, s.expected, MessageOf(w, ops, i));
    if reply.Actions? {
      OneAction(VenueOf(w, OrderOnly), s.book, reply.actions[0], Stamp(w, i));
      if !ops[i].CheckpointOp? {
        var bids, asks, at := ToLevels(w, ops[i].bids).value, ToLevels(w, ops[i].asks).value, Stamp(w, i);
        if ops[i].SnapshotOp? {
          SameSnapshot(s.book, b, bids, asks, OrderOnly, Verified, at, at);
        } else {
          SameDelta(s.book, b, bids, asks, at, at);
        }
      }
    }
  }

  lemma LateFrameDistrusts(w: Wire, ops: seq<Op>, s: Feed, i: nat)
    requires i < |ops| && !ops[i].SnapshotOp? && s.expected.Some? && i + 1 < s.expected.value
    ensures !Delivered(w, OrderOnly, ops, s, Frame(i)).book.state.Live?
  {
    var reply := Replied(w, OrderOnly, s.expected, MessageOf(w, ops, i));
    OneAction(VenueOf(w, OrderOnly), s.book, reply.actions[0], Stamp(w, i));
  }

  /** A snapshot's step forgets the book before it. */
  lemma SnapshotStartsAfresh(w: Wire, ops: seq<Op>, b: BookValue, i: nat)
    requires i < |ops| && b.maxDepth == None && ops[i].SnapshotOp? && !Unparsable(w, ops[i])
    ensures Folded(w, ops, [i]) == ShadowStep(w, b, ops[i], Stamp(w, i))
  {
    assert [i][..0] == [];
    assert Folded(w, ops, []) == NewBook(None);
  }

  lemma FoldedExtends(w: Wire, ops: seq<Op>, picks: seq<nat>, i: nat)
    requires i < |ops| && forall k | 0 <= k < |picks| :: picks[k] < |ops|
    ensures Folded(w, ops, picks + [i]) == ShadowStep(w, Folded(w, ops, picks), ops[i], Stamp(w, i))
  {
    assert (picks + [i])[..|picks|] == picks;
  }

  lemma {:induction false} LiveMeansPlausible(w: Wire, ops: seq<Op>, ds: seq<Delivery>) returns (picks: seq<nat>)
    requires FromScript(ops, ds) && forall op | op in ops :: !Unparsable(w, op)
    ensures var s := Outcome(w, OrderOnly, ops, ds);
            s.book.maxDepth == None && (s.book.state.Live? ==> Plausible(w, ops, ds, s, picks))
  {
    picks := [];
    if ds != [] {
      var front, last := ds[..|ds| - 1], ds[|ds| - 1];
      assert last in ds && forall d | d in front :: d in ds;
      var before := LiveMeansPlausible(w, ops, front);
      var s := Outcome(w, OrderOnly, ops, front);
      DeliveryUncapped(w, OrderOnly, ops, s, last);
      if last.Frame? {
        var i := last.i;
        if ops[i].SnapshotOp? {
          assert !Unparsable(w, ops[i]);
          picks := [i];
          SnapshotStartsAfresh(w, ops, s.book, i);
          ForwardIsAStep(w, ops, s, s.book, i);
        } else if !s.book.state.Live? {
          DistrustedStaysSo(w, OrderOnly, ops, s, i);
        } else if i + 1 < s.expected.value {
          LateFrameDistrusts(w, ops, s, i);
        } else {
          picks := before + [i];
          FoldedExtends(w, ops, before, i);
          ForwardIsAStep(w, ops, s, Folded(w, ops, before), i);
        }
      }
    }
  }

  /** Every chain is believed: delivering just its frames gives exactly its fold, with no complaint. */
  lemma {:induction false} EveryChainIsBelieved(w: Wire, ops: seq<Op>, picks: seq<nat>)
    requires Chain(w, ops, picks)
    ensures FromScript(ops, Frames(picks))
    ensures var s := Outcome(w, OrderOnly, ops, Frames(picks));
            && Alike(s.book, Folded(w, ops, picks)) && s.book.maxDepth == None
            && s.expected == Some(picks[|picks| - 1] + 2)
    decreases |picks|
  {
    FramesFromScript(ops, picks);
    var n := |picks| - 1;
    var front, i := picks[..n], picks[n];
    assert Frames(picks)[..n] == Frames(front);
    FramesFromScript(ops, front);
    var s := Outcome(w, OrderOnly, ops, Frames(front));
    if n == 0 {
      assert front == [];
      ForwardIsAStep(w, ops, FRESH, NewBook(None), i);
    } else {
      EveryChainIsBelieved(w, ops, front);
      ForwardIsAStep(w, ops, s, Folded(w, ops, front), i);
    }
    DeliveryUncapped(w, OrderOnly, ops, s, Frame(i));
  }

  /** Some delivery ends in a live book with these contents. */
  ghost predicate Servable(w: Wire, ops: seq<Op>, bids: Levels, asks: Levels) {
    exists ds | FromScript(ops, ds) ::
      var b := Outcome(w, OrderOnly, ops, ds).book;
      b.state.Live? && b.bids == bids && b.asks == asks
  }

  /** Some strictly forward choice of frames, from a snapshot on, folds to these contents. */
  ghost predicate Foldable(w: Wire, ops: seq<Op>, bids: Levels, asks: Levels) {
    exists picks | Chain(w, ops, picks) ::
      var b := Folded(w, ops, picks);
      b.state.Live? && b.bids == bids && b.asks == asks
  }

  /**
   What order alone can promise, and no more: the live books it serves are exactly the folds
   of strictly forward choices of frames from a snapshot on. A loss is one such choice.
   */
  lemma OrderOnlyServesExactlyTheChains(w: Wire, ops: seq<Op>, bids: Levels, asks: Levels)
    requires forall op | op in ops :: !Unparsable(w, op)
    ensures Servable(w, ops, bids, asks) <==> Foldable(w, ops, bids, asks)
  {
    if Servable(w, ops, bids, asks) {
      var ds :| FromScript(ops, ds) &&
        var b := Outcome(w, OrderOnly, ops, ds).book; b.state.Live? && b.bids == bids && b.asks == asks;
      var picks := LiveMeansPlausible(w, ops, ds);
      assert Chain(w, ops, picks);
    }
    if Foldable(w, ops, bids, asks) {
      var picks :| Chain(w, ops, picks) &&
        var b := Folded(w, ops, picks); b.state.Live? && b.bids == bids && b.asks == asks;
      EveryChainIsBelieved(w, ops, picks);
      assert FromScript(ops, Frames(picks));
    }
  }

  lemma OnePairParses(w: Wire, price: string, qty: string)
    requires w.parse(price, qty).Some?
    ensures ToLevels(w, [(price, qty)]) == Some([w.parse(price, qty).value])
  {
    var pairs: Pairs := [(price, qty)];
    assert pairs[..|pairs| - 1] == [];
    var none: Pairs := [];
    var parsed := ToLevels(w, none);
    assert parsed == Some([]);
    assert pairs[|pairs| - 1] == (price, qty);
    assert parsed.value + [w.parse(price, qty).value] == [w.parse(price, qty).value];
  }

  /** A snapshot, an update, and a checkpoint. */
  function ShortScript(price: string, qty: string): seq<Op> {
    [SnapshotOp([], []), DeltaOp([(price, qty)], []), CheckpointOp]
  }

  lemma TheReferenceHasTheLevel(w: Wire, price: string, qty: string)
    requires w.parse(price, qty).Some? && !w.parse(price, qty).value.IsDelete()
    ensures w.parse(price, qty).value.price in Shadow(w, ShortScript(price, qty)).bids
  {
    var ops, level := ShortScript(price, qty), w.parse(price, qty).value;
    OnePairParses(w, price, qty);
    assert ops[..3] == ops && ops[..0] == [];
    PrefixShadow(w, ops, 0);
    PrefixShadow(w, ops, 1);
    PrefixShadow(w, ops, 2);
    AppliedIsLastWord(Shadow(w, ops[..1]).bids, [level], level.price);
  }

  lemma TheChainHasNot(w: Wire, price: string, qty: string)
    ensures var b := Folded(w, ShortScript(price, qty), [0, 2]); b.state.Live? && b.bids == map[]
  {
    var ops := ShortScript(price, qty);
    assert [0, 2][..1] == [0];
    FoldedExtends(w, ops, [0], 2);
    SnapshotStartsAfresh(w, ops, NewBook(None), 0);
  }

  /** A lost update that order alone never sees, and contiguous numbers see at the next frame. */
  lemma ALossGoesUnseen(w: Wire, price: string, qty: string)
    requires w.parse(price, qty).Some? && !w.parse(price, qty).value.IsDelete()
    ensures var ops, ds := ShortScript(price, qty), [Frame(0), Frame(2)];
            && FromScript(ops, ds)
            && Outcome(w, OrderOnly, ops, ds).book.state.Live?
            && !Alike(Outcome(w, OrderOnly, ops, ds).book, Shadow(w, ops))
            && !Outcome(w, GapDetectable, ops, ds).book.state.Live?
  {
    var ops := ShortScript(price, qty);
    assert Frames([0, 2]) == [Frame(0)] + [Frame(2)];
    TheReferenceHasTheLevel(w, price, qty);
    TheChainHasNot(w, price, qty);
    EveryChainIsBelieved(w, ops, [0, 2]);
    assert FirstFrames(1) == [Frame(0)];
    UndamagedIsTheShadow(w, ops, 1);
    OutcomeExtends(w, GapDetectable, ops, [Frame(0)], Frame(2));
    var s := Outcome(w, GapDetectable, ops, [Frame(0)]);
    if s.book.state.Live? {
      OtherFrameDistrusts(w, ops, s, 2);
    } else {
      DistrustedStaysSo(w, GapDetectable, ops, s, 2);
    }
  }

  ////////// Checksums

  /** Checksums judge the state, not the path: a live book that outlives a checkpoint hashes as the reference book does there. */
  lemma CheckpointsCatchDivergence(w: Wire, ops: seq<Op>, s: Feed, i: nat)
    requires i < |ops| && ops[i].CheckpointOp? && w.hash(s.book.bids, s.book.asks).Some?
    ensures var after := Delivered(w, Verified, ops, s, Frame(i)).book;
            && after.bids == s.book.bids && after.asks == s.book.asks
            && (after.state.Live? <==> s.book.state.Live? && HashOf(w, s.book) == HashOf(w, Shadow(w, ops[..i])))
  {
    var reply := Replied(w, Verified, s.expected, MessageOf(w, ops, i));
    OneAction(VenueOf(w, Verified), s.book, reply.actions[0], Stamp(w, i));
  }
}
