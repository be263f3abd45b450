/**
 The scripted venue (crates/ma-venues/src/fake.rs): a script emits a well-formed stream and
 keeps a reference book beside it, the tape is then damaged, and the venue is fed what is left
 under one of three disciplines. Parsing a level and hashing a book are parameters.
 */
module FakeVenue {
  import opened Types
  import opened Book
  import Audit
  import Sync = VenueSync

  type Pairs = seq<(string, string)>

  datatype FakeMsg =
    | SnapshotMsg(no: nat, bids: Pairs, asks: Pairs)
    | DeltaMsg(no: nat, bids: Pairs, asks: Pairs)
    | ChecksumMsg(no: nat, value: int)

  /** `payload` is `None` when the bytes are not a message. */
  datatype RawFrame = RawFrame(stream: StreamId, payload: Option<FakeMsg>, at: IngestTime)

  /** What the wire format leaves open: a level's text, the hash of a book, the stream and clock. */
  datatype Wire = Wire(
    parse: (string, string) -> Option<Level>, hash: Sync.Checksum, stream: StreamId, start: IngestTime)

  const VENUE := "fake"

  const FRAME_INTERVAL := 10_000_000

  /** Every pair must parse. */
  function ToLevels(w: Wire, pairs: Pairs): Option<seq<Level>> {
    if pairs == [] then Some([])
    else
      var front := ToLevels(w, pairs[..|pairs| - 1]);
      var last := w.parse(pairs[|pairs| - 1].0, pairs[|pairs| - 1].1);
      if front.Some? && last.Some? then Some(front.value + [last.value]) else None
  }

  /** Levels come in the order of their pairs, and one pair that does not parse spoils them all. */
  lemma {:induction false} LevelsAreTheirPairs(w: Wire, pairs: Pairs)
    ensures ToLevels(w, pairs).Some? <==> forall i | 0 <= i < |pairs| :: w.parse(pairs[i].0, pairs[i].1).Some?
    ensures ToLevels(w, pairs).Some? ==>
              && |ToLevels(w, pairs).value| == |pairs|
              && forall i | 0 <= i < |pairs| :: Some(ToLevels(w, pairs).value[i]) == w.parse(pairs[i].0, pairs[i].1)
  {
    if pairs != [] {
      LevelsAreTheirPairs(w, pairs[..|pairs| - 1]);
    }
  }

  predicate Parses(w: Wire, bids: Pairs, asks: Pairs) {
    ToLevels(w, bids).Some? && ToLevels(w, asks).Some?
  }

  ////////// The script and its reference book

  datatype Op = SnapshotOp(bids: Pairs, asks: Pairs) | DeltaOp(bids: Pairs, asks: Pairs) | CheckpointOp

  function Stamp(w: Wire, i: nat): IngestTime {
    IngestTime(w.start.mono + i * FRAME_INTERVAL, w.start.wall + i * FRAME_INTERVAL)
  }

  /** Frames are ten milliseconds apart on both clocks, from the script's start. */
  lemma FramesAreEvenlySpaced(w: Wire, i: nat)
    ensures Stamp(w, 0) == w.start
    ensures Stamp(w, i + 1).mono - Stamp(w, i).mono == 10_000_000 && Stamp(w, i + 1).wall - Stamp(w, i).wall == 10_000_000
  {
  }

  ghost function ShadowStep(w: Wire, b: BookValue, op: Op, at: IngestTime): BookValue {
    if op.CheckpointOp? || !Parses(w, op.bids, op.asks) then b
    else
      var bids, asks := ToLevels(w, op.bids).value, ToLevels(w, op.asks).value;
      if op.SnapshotOp? then AfterSnapshot(b, bids, asks, Verified, at) else AfterDelta(b, bids, asks, at)
  }

  /** The reference book after a script. */
  ghost function Shadow(w: Wire, ops: seq<Op>): BookValue {
    if ops == [] then NewBook(None)
    else ShadowStep(w, Shadow(w, ops[..|ops| - 1]), ops[|ops| - 1], Stamp(w, |ops| - 1))
  }

  function HashOf(w: Wire, b: BookValue): int {
    var h := w.hash(b.bids, b.asks);
    if h.Some? then h.value else 0
  }

  ghost function MessageOf(w: Wire, ops: seq<Op>, i: nat): FakeMsg
    requires i < |ops|
  {
    match ops[i]
    case SnapshotOp(bids, asks) => SnapshotMsg(i + 1, bids, asks)
    case DeltaOp(bids, asks) => DeltaMsg(i + 1, bids, asks)
    case CheckpointOp => ChecksumMsg(i + 1, HashOf(w, Shadow(w, ops[..i])))
  }

  ghost function FrameOf(w: Wire, ops: seq<Op>, i: nat): RawFrame
    requires i < |ops|
  {
    RawFrame(StreamId(VENUE, w.stream.symbol), Some(MessageOf(w, ops, i)), Stamp(w, i))
  }

  ghost predicate Scripted(w: Wire, frames: seq<RawFrame>, ops: seq<Op>) {
    |frames| == |ops| && forall i | 0 <= i < |ops| :: frames[i] == FrameOf(w, ops, i)
  }

  lemma ScriptedExtends(w: Wire, frames: seq<RawFrame>, ops: seq<Op>, op: Op)
    requires Scripted(w, frames, ops)
    ensures Scripted(w, frames + [FrameOf(w, ops + [op], |ops|)], ops + [op])
    ensures Shadow(w, ops + [op]) == ShadowStep(w, Shadow(w, ops), op, Stamp(w, |ops|))
    ensures (ops + [op])[..|ops|] == ops
  {
    var more := ops + [op];
    assert more[..|ops|] == ops;
    forall i | 0 <= i < |ops|
      ensures FrameOf(w, more, i) == FrameOf(w, ops, i)
    {
      assert more[..i] == ops[..i];
    }
  }

  class Script {
    const wire: Wire
    var frames: seq<RawFrame>
    var no: nat
    const shadow: Book
    var now: IngestTime
    ghost var ops: seq<Op>

    ghost predicate Valid()
      reads this, shadow
    {
      && Scripted(wire, frames, ops)
      && no == |ops|
      && now == Stamp(wire, |ops|)
      && shadow.Value() == Shadow(wire, ops)
    }

    constructor (wire: Wire)
      ensures Valid() && ops == [] && this.wire == wire && fresh(shadow)
    {
      this.wire := wire;
      frames, no, now, ops := [], 0, wire.start, [];
      shadow := new Book(None);
    }

    method Push(msg: FakeMsg)
      modifies this`frames, this`now
      ensures frames == old(frames) + [RawFrame(StreamId(VENUE, wire.stream.symbol), Some(msg), old(now))]
      ensures now == IngestTime(old(now).mono + FRAME_INTERVAL, old(now).wall + FRAME_INTERVAL)
    {
      frames := frames + [RawFrame(StreamId(VENUE, wire.stream.symbol), Some(msg), now)];
      now := IngestTime(now.mono + FRAME_INTERVAL, now.wall + FRAME_INTERVAL);
    }

    method Snapshot(bids: Pairs, asks: Pairs)
      requires Valid()
      modifies this, shadow
      ensures Valid() && ops == old(ops) + [SnapshotOp(bids, asks)]
    {
      ScriptedExtends(wire, frames, ops, SnapshotOp(bids, asks));
      no := no + 1;
      var b, a := ToLevels(wire, bids), ToLevels(wire, asks);
      if b.Some? && a.Some? {
        var _ := shadow.ApplySnapshot(b.value, a.value, Verified, now);
      }
      Push(SnapshotMsg(no, bids, asks));
      ops := ops + [SnapshotOp(bids, asks)];
    }

    method Delta(bids: Pairs, asks: Pairs)
      requires Valid()
      modifies this, shadow
      ensures Valid() && ops == old(ops) + [DeltaOp(bids, asks)]
    {
      ScriptedExtends(wire, frames, ops, DeltaOp(bids, asks));
      no := no + 1;
      var b, a := ToLevels(wire, bids), ToLevels(wire, asks);
      if b.Some? && a.Some? {
        var _ := shadow.ApplyDelta(b.value, a.value, now);
      }
      Push(DeltaMsg(no, bids, asks));
      ops := ops + [DeltaOp(bids, asks)];
    }

    method Checkpoint()
      requires Valid()
      modifies this, shadow
      ensures Valid() && ops == old(ops) + [CheckpointOp]
    {
      ScriptedExtends(wire, frames, ops, CheckpointOp);
      no := no + 1;
      var h := wire.hash(shadow.bids, shadow.asks);
      Push(ChecksumMsg(no, if h.Some? then h.value else 0));
      ops := ops + [CheckpointOp];
    }
  }

  ////////// Damaging a tape

  datatype Damage = DropAt(i: nat) | DuplicateAt(i: nat) | Swap(i: nat, j: nat) | TruncateFrom(i: nat)

  function Damaged<T>(tape: seq<T>, d: Damage): seq<T> {
    match d
    case DropAt(i) => if i < |tape| then tape[..i] + tape[i + 1..] else tape
    case DuplicateAt(i) => if i < |tape| then tape[..i + 1] + [tape[i]] + tape[i + 1..] else tape
    case Swap(i, j) => if i < |tape| && j < |tape| then tape[i := tape[j]][j := tape[i]] else tape
    case TruncateFrom(i) => if i < |tape| then tape[..i] else tape
  }

  function DamagedAll<T>(tape: seq<T>, ds: seq<Damage>): seq<T> {
    if ds == [] then tape else Damaged(DamagedAll(tape, ds[..|ds| - 1]), ds[|ds| - 1])
  }

  /** Each kind of damage loses, repeats or moves just the frames it names. */
  lemma DamageIsWhatItSays<T>(tape: seq<T>, d: Damage)
    ensures var damaged := Damaged(tape, d);
            match d
            case DropAt(i) =>
              if i < |tape| then
                |damaged| == |tape| - 1 && forall k | 0 <= k < |damaged| :: damaged[k] == tape[if k < i then k else k + 1]
              else damaged == tape
            case DuplicateAt(i) =>
              if i < |tape| then
                |damaged| == |tape| + 1 && forall k | 0 <= k < |damaged| :: damaged[k] == tape[if k <= i then k else k - 1]
              else damaged == tape
            case Swap(i, j) =>
              |damaged| == |tape| && forall k | 0 <= k < |tape| ::
                damaged[k] == tape[if i < |tape| && j < |tape| && k == i then j else if i < |tape| && j < |tape| && k == j then i else k]
            case TruncateFrom(i) => damaged <= tape && |damaged| == if i < |tape| then i else |tape|
  {
  }

  /** The positions of a tape, in order. */
  function InOrder(n: nat): seq<nat> {
    seq(n, i requires 0 <= i < n => i)
  }

  ghost predicate Picks(tape: seq<RawFrame>, damaged: seq<RawFrame>, delivery: seq<nat>) {
    && |damaged| == |delivery|
    && forall k | 0 <= k < |delivery| :: delivery[k] < |tape| && damaged[k] == tape[delivery[k]]
  }

  lemma OneDamagePicks(tape: seq<RawFrame>, damaged: seq<RawFrame>, delivery: seq<nat>, d: Damage)
    requires Picks(tape, damaged, delivery)
    ensures Picks(tape, Damaged(damaged, d), Damaged(delivery, d))
  {
    var a, b := Damaged(damaged, d), Damaged(delivery, d);
    if d.DropAt? && d.i < |damaged| {
      assert forall k | 0 <= k < |b| :: b[k] == delivery[if k < d.i then k else k + 1];
      assert forall k | 0 <= k < |a| :: a[k] == damaged[if k < d.i then k else k + 1];
    } else if d.DuplicateAt? && d.i < |damaged| {
      assert forall k | 0 <= k < |b| :: b[k] == delivery[if k <= d.i then k else k - 1];
      assert forall k | 0 <= k < |a| :: a[k] == damaged[if k <= d.i then k else k - 1];
    }
  }

  /** However a tape is damaged, what remains is frames of the original, at positions damaged the same way. */
  lemma {:induction false} DamageOnlyRearranges(tape: seq<RawFrame>, ds: seq<Damage>)
    ensures Picks(tape, DamagedAll(tape, ds), DamagedAll(InOrder(|tape|), ds))
  {
    if ds != [] {
      DamageOnlyRearranges(tape, ds[..|ds| - 1]);
      OneDamagePicks(tape, DamagedAll(tape, ds[..|ds| - 1]), DamagedAll(InOrder(|tape|), ds[..|ds| - 1]), ds[|ds| - 1]);
    }
  }

  ////////// The venue

  datatype Reply = Actions(actions: seq<Sync.SyncAction>) | WrongVenue | Malformed

  /** Whether the ordering field is acceptable; `None` accepts it. */
  function Sequenced(integrity: Integrity, expected: Option<nat>, no: nat): Option<DesyncReason> {
    match integrity
    case Verified => None
    case GapDetectable => if expected.Some? && no != expected.value then Some(SequenceGap(expected.value, no)) else None
    case OrderOnly =>
      if expected.Some? && no < expected.value then Some(TimestampRegression(expected.value - 1, no)) else None
  }

  predicate Recognised(frame: RawFrame) {
    frame.stream.venue == VENUE && frame.payload.Some?
  }

  /** The reply to a message, given the number expected before it. */
  function Replied(w: Wire, integrity: Integrity, expected: Option<nat>, msg: FakeMsg): Reply {
    match msg
    case SnapshotMsg(no, bids, asks) =>
      if Parses(w, bids, asks) then Actions([Sync.TakeSnapshot(ToLevels(w, bids).value, ToLevels(w, asks).value)])
      else Malformed
    case DeltaMsg(no, bids, asks) =>
      var refused := Sequenced(integrity, expected, no);
      if refused.Some? then Actions([Sync.Desync(refused.value)])
      else if Parses(w, bids, asks) then Actions([Sync.TakeDelta(ToLevels(w, bids).value, ToLevels(w, asks).value)])
      else Malformed
    case ChecksumMsg(no, value) =>
      var refused := Sequenced(integrity, expected, no);
      if refused.Some? then Actions([Sync.Desync(refused.value)])
      else Actions([if integrity.Verified? then Sync.Verify(value) else Sync.Ignore])
  }

  class FakeSync {
    const wire: Wire
    const integrity: Integrity
    var expected: Option<nat>

    constructor (wire: Wire, integrity: Integrity)
      ensures this.wire == wire && this.integrity == integrity && expected == None
    {
      this.wire, this.integrity, expected := wire, integrity, None;
    }

    method Reset()
      modifies this
      ensures expected == None
    {
      expected := None;
    }

    /** The expectation moves on whether or not the number was the expected one. */
    method CheckSeq(no: nat) returns (refused: Option<DesyncReason>)
      modifies this
      ensures refused == Sequenced(integrity, old(expected), no)
      ensures expected == Some(no + 1)
    {
      var before := expected;
      expected := Some(no + 1);
      refused := Sequenced(integrity, before, no);
    }

    /** A recognised message moves the expectation before its levels are parsed, so even one that then fails. */
    method Ingest(frame: RawFrame) returns (reply: Reply)
      modifies this
      ensures Recognised(frame) ==>
                && expected == Some(frame.payload.value.no + 1)
                && reply == Replied(wire, integrity, old(expected), frame.payload.value)
      ensures !Recognised(frame) ==>
                expected == old(expected) && reply == (if frame.stream.venue != VENUE then WrongVenue else Malformed)
    {
      if frame.stream.venue != VENUE {
        return WrongVenue;
      }
      if frame.payload.None? {
        return Malformed;
      }
      var msg := frame.payload.value;
      if msg.SnapshotMsg? {
        expected := Some(msg.no + 1);
        var bids, asks := ToLevels(wire, msg.bids), ToLevels(wire, msg.asks);
        return if bids.None? || asks.None? then Malformed else Actions([Sync.TakeSnapshot(bids.value, asks.value)]);
      }
      var refused := CheckSeq(msg.no);
      if refused.Some? {
        return Actions([Sync.Desync(refused.value)]);
      }
      if msg.ChecksumMsg? {
        return Actions([if integrity.Verified? then Sync.Verify(msg.value) else Sync.Ignore]);
      }
      var bids, asks := ToLevels(wire, msg.bids), ToLevels(wire, msg.asks);
      reply := if bids.None? || asks.None? then Malformed else Actions([Sync.TakeDelta(bids.value, asks.value)]);
    }
  }

  /** Only a venue that publishes checksums can hash our book. */
  function VenueOf(w: Wire, integrity: Integrity): Sync.Venue {
    Sync.Venue(w.stream, integrity, if integrity.Verified? then w.hash else ((b: Levels, a: Levels) => None))
  }

  datatype Feed = Feed(expected: Option<nat>, book: BookValue)

  const FRESH := Feed(None, NewBook(None))

  /** The book after a reply: an error leaves it alone. */
  ghost function Heeded(v: Sync.Venue, b: BookValue, reply: Reply, at: IngestTime): BookValue {
    if reply.Actions? then Sync.ActedAll(v, b, reply.actions, at) else b
  }

  ghost function Fed(w: Wire, integrity: Integrity, s: Feed, frame: RawFrame): Feed {
    if !Recognised(frame) then s
    else
      var msg := frame.payload.value;
      Feed(Some(msg.no + 1),
           Heeded(VenueOf(w, integrity), s.book, Replied(w, integrity, s.expected, msg), frame.at))
  }

  ghost function FedAll(w: Wire, integrity: Integrity, s: Feed, tape: seq<RawFrame>): Feed {
    if tape == [] then s else Fed(w, integrity, FedAll(w, integrity, s, tape[..|tape| - 1]), tape[|tape| - 1])
  }

  /** Run a tape through a fresh book. */
  method Run(wire: Wire, tape: seq<RawFrame>, integrity: Integrity, policy: Audit.Policy)
    returns (vb: Sync.VenueBook, sync: FakeSync)
    ensures Feed(sync.expected, vb.book.Value()) == FedAll(wire, integrity, FRESH, tape)
  {
    sync := new FakeSync(wire, integrity);
    vb := new Sync.VenueBook(VenueOf(wire, integrity), None, policy);
    for k := 0 to |tape|
      invariant fresh(sync) && fresh(vb) && fresh(vb.book) && vb.venue == VenueOf(wire, integrity)
      invariant sync.wire == wire && sync.integrity == integrity
      invariant Feed(sync.expected, vb.book.Value()) == FedAll(wire, integrity, FRESH, tape[..k])
    {
      assert tape[..k + 1][..k] == tape[..k];
      var reply := sync.Ingest(tape[k]);
      if reply.Actions? {
        var _ := vb.ApplyIngested(Sync.Ingested(reply.actions, None), tape[k].at);
      }
    }
    assert tape[..|tape|] == tape;
  }
}
