/**
 The Parquet row codec: an event as rows (crates/ma-persist/src/writer.rs) and rows as events
 (crates/ma-persist/src/reader.rs). Printing and parsing of decimals is a parameter.
 */
module Codec {
  import opened Types
  import opened Book
  import opened VenueSync

  datatype VenueId = Coinbase | Kraken | Bitstamp | Fake

  /** An event as the writer receives it. Times are nanoseconds, the wall clock's since 1970. */
  datatype Event = Event(venue: VenueId, symbol: string, venueTs: Option<int>, ingest: IngestTime, kind: EventKind)

  datatype Row = Row(
    no: int, venue: string, symbol: string, kind: string, wall: int, elapsed: int, venueTs: Option<int>,
    side: Option<string>, price: Option<string>, qty: Option<string>, levelIndex: Option<int>,
    checksum: Option<int>, heartbeat: Option<int>, taker: Option<string>)

  /** An event as the reader returns it. */
  datatype StoredEvent = StoredEvent(
    venue: VenueId, symbol: string, venueTs: Option<int>, wall: int, kind: EventKind, elapsed: int)

  datatype ReadError =
    | Unknown(row: nat, field: string, value: string)
    | Incomplete(row: nat, kind: string, field: string)

  datatype Result<T> = Ok(value: T) | Err(error: ReadError)

  /** Decimals as text. */
  datatype Text = Text(
    showPrice: Price -> string, showQty: Qty -> string,
    parsePrice: string -> Option<Price>, parseQty: string -> Option<Qty>)

  /** A level whose decimals read back as themselves once printed. */
  predicate Printable(text: Text, level: Level) {
    && text.parsePrice(text.showPrice(level.price)) == Some(level.price)
    && text.parseQty(text.showQty(level.qty)) == Some(level.qty)
  }

  predicate AllPrintable(text: Text, levels: seq<Level>) {
    forall i | 0 <= i < |levels| :: Printable(text, levels[i])
  }

  /** Every decimal of an event does, and so does the zero that stands in for one. */
  predicate Exact(text: Text, kind: EventKind) {
    && text.parsePrice("0").Some? && text.parseQty("0").Some?
    && match kind
       case SnapshotEvent(bids, asks) => AllPrintable(text, bids) && AllPrintable(text, asks)
       case DeltaEvent(bids, asks) => AllPrintable(text, bids) && AllPrintable(text, asks)
       case TradeEvent(price, qty, _) => Printable(text, Level(price, qty))
       case _ => true
  }

  const I64_MAX := 0x7fff_ffff_ffff_ffff
  const I32_MAX := 0x7fff_ffff

  const SNAPSHOT := "snapshot"
  const DELTA := "delta"
  const TRADE := "trade"
  const CHECKSUM := "checksum"
  const HEARTBEAT := "heartbeat"

  function VenueName(v: VenueId): string {
    match v
    case Coinbase => "coinbase"
    case Kraken => "kraken"
    case Bitstamp => "bitstamp"
    case Fake => "fake"
  }

  function ParseVenue(name: string, row: nat): Result<VenueId> {
    match name
    case "coinbase" => Ok(Coinbase)
    case "kraken" => Ok(Kraken)
    case "bitstamp" => Ok(Bitstamp)
    case "fake" => Ok(Fake)
    case _ => Err(Unknown(row, "venue", name))
  }

  function SideName(side: Side): string {
    match side
    case Bid => "bid"
    case Ask => "ask"
  }

  function ParseSide(name: string, row: nat): Result<Side> {
    match name
    case "bid" => Ok(Bid)
    case "ask" => Ok(Ask)
    case _ => Err(Unknown(row, "side", name))
  }

  /** Nanoseconds as a column holds them: the magnitude saturates. */
  function UnixNanos(at: int): int {
    if at >= 0 then Min(at, I64_MAX) else -Min(-at, I64_MAX)
  }

  function ElapsedNanos(at: IngestTime, base: IngestTime): int {
    Min(Max(0, at.mono - base.mono), I64_MAX)
  }

  function Mapped<A, B>(o: Option<A>, f: A -> B): Option<B> {
    if o.Some? then Some(f(o.value)) else None
  }

  ////////// Events to rows

  /** The columns every row of an event shares. */
  function Template(e: Event, no: int, base: IngestTime): Row {
    Row(no, VenueName(e.venue), e.symbol, HEARTBEAT, UnixNanos(e.ingest.wall), ElapsedNanos(e.ingest, base),
        Mapped(e.venueTs, UnixNanos), None, None, None, None, None, None, None)
  }

  function LevelRow(text: Text, shared: Row, kind: string, side: Side, index: nat, level: Level): Row {
    shared.(kind := kind, side := Some(SideName(side)), price := Some(text.showPrice(level.price)),
            qty := Some(text.showQty(level.qty)), levelIndex := Some(Min(index, I32_MAX)))
  }

  function SideRows(text: Text, shared: Row, kind: string, side: Side, levels: seq<Level>): seq<Row> {
    seq(|levels|, i requires 0 <= i < |levels| => LevelRow(text, shared, kind, side, i, levels[i]))
  }

  /** Bids, then asks; an event without levels is one row all the same. */
  function LevelRows(text: Text, shared: Row, kind: string, bids: seq<Level>, asks: seq<Level>): seq<Row> {
    var rows := SideRows(text, shared, kind, Bid, bids) + SideRows(text, shared, kind, Ask, asks);
    if rows == [] then [shared.(kind := kind)] else rows
  }

  function Flattened(text: Text, e: Event, no: int, base: IngestTime): seq<Row> {
    var shared := Template(e, no, base);
    match e.kind
    case SnapshotEvent(bids, asks) => LevelRows(text, shared, SNAPSHOT, bids, asks)
    case DeltaEvent(bids, asks) => LevelRows(text, shared, DELTA, bids, asks)
    case TradeEvent(price, qty, taker) =>
      [shared.(kind := TRADE, price := Some(text.showPrice(price)), qty := Some(text.showQty(qty)),
               taker := Mapped(taker, SideName))]
    case ChecksumEvent(value) => [shared.(kind := CHECKSUM, checksum := Some(value))]
    case HeartbeatEvent(counter) =>
      [shared.(kind := HEARTBEAT, heartbeat := Mapped(counter, (c: nat) => Min(c, I64_MAX)))]
  }

  method PushSide(text: Text, shared: Row, kind: string, side: Side, levels: seq<Level>, rows: seq<Row>)
    returns (all: seq<Row>)
    ensures all == rows + SideRows(text, shared, kind, side, levels)
  {
    all := rows;
    for i := 0 to |levels|
      invariant all == rows + SideRows(text, shared, kind, side, levels)[..i]
    {
      all := all + [LevelRow(text, shared, kind, side, i, levels[i])];
    }
  }

  method Flatten(text: Text, e: Event, no: int, base: IngestTime) returns (rows: seq<Row>)
    ensures rows == Flattened(text, e, no, base)
  {
    var shared := Template(e, no, base);
    match e.kind {
      case SnapshotEvent(bids, asks) =>
        rows := PushSide(text, shared, SNAPSHOT, Bid, bids, []);
        rows := PushSide(text, shared, SNAPSHOT, Ask, asks, rows);
        if rows == [] {
          rows := [shared.(kind := SNAPSHOT)];
        }
      case DeltaEvent(bids, asks) =>
        rows := PushSide(text, shared, DELTA, Bid, bids, []);
        rows := PushSide(text, shared, DELTA, Ask, asks, rows);
        if rows == [] {
          rows := [shared.(kind := DELTA)];
        }
      case TradeEvent(price, qty, taker) =>
        rows := [shared.(kind := TRADE, price := Some(text.showPrice(price)), qty := Some(text.showQty(qty)),
                         taker := Mapped(taker, SideName))];
      case ChecksumEvent(value) =>
        rows := [shared.(kind := CHECKSUM, checksum := Some(value))];
      case HeartbeatEvent(counter) =>
        rows := [shared.(kind := HEARTBEAT, heartbeat := Mapped(counter, (c: nat) => Min(c, I64_MAX)))];
    }
  }

  ////////// Rows to events

  /** An event whose rows are still arriving. */
  datatype Open = Open(no: int, event: StoredEvent, bids: seq<Level>, asks: seq<Level>)

  datatype Decoding = Decoding(open: Option<Open>, done: seq<StoredEvent>)

  function Finished(o: Open): StoredEvent {
    match o.event.kind
    case SnapshotEvent(_, _) => o.event.(kind := SnapshotEvent(o.bids, o.asks))
    case DeltaEvent(_, _) => o.event.(kind := DeltaEvent(o.bids, o.asks))
    case _ => o.event
  }

  function Closed(d: Decoding): Decoding {
    if d.open.None? then d else Decoding(None, d.done + [Finished(d.open.value)])
  }

  function Magnitude(n: int): nat {
    if n < 0 then -n else n
  }

  /** A null text column reads as empty. */
  function TextOf(o: Option<string>): string {
    if o.Some? then o.value else ""
  }

  /** The kind with nothing in it yet; a trade's is overwritten at once. */
  function EmptyKind(text: Text, r: Row, row: nat): Result<EventKind> {
    if r.kind == SNAPSHOT then Ok(SnapshotEvent([], []))
    else if r.kind == DELTA then Ok(DeltaEvent([], []))
    else if r.kind == CHECKSUM then
      if r.checksum.None? then Err(Incomplete(row, CHECKSUM, "checksum")) else Ok(ChecksumEvent(r.checksum.value))
    else if r.kind == HEARTBEAT then Ok(HeartbeatEvent(Mapped(r.heartbeat, Magnitude)))
    else if r.kind == TRADE then
      var price, qty := text.parsePrice("0"), text.parseQty("0");
      if price.None? then Err(Unknown(row, "price", "0"))
      else if qty.None? then Err(Unknown(row, "qty", "0"))
      else Ok(TradeEvent(price.value, qty.value, None))
    else Err(Unknown(row, "kind", r.kind))
  }

  /** The first row of an event opens it. */
  function Opened(text: Text, d: Decoding, r: Row, row: nat): Result<Open> {
    if d.open.Some? then Ok(d.open.value)
    else match ParseVenue(r.venue, row)
      case Err(e) => Err(e)
      case Ok(venue) =>
        match EmptyKind(text, r, row)
        case Err(e) => Err(e)
        case Ok(kind) =>
          Ok(Open(r.no, StoredEvent(venue, r.symbol, r.venueTs, r.wall, kind, Magnitude(r.elapsed)), [], []))
  }

  function ReadTrade(text: Text, o: Open, r: Row, row: nat): Result<Open> {
    if r.price.None? then Err(Incomplete(row, TRADE, "price"))
    else if r.qty.None? then Err(Incomplete(row, TRADE, "qty"))
    else
      var price, qty := text.parsePrice(r.price.value), text.parseQty(r.qty.value);
      if price.None? then Err(Unknown(row, "price", r.price.value))
      else if qty.None? then Err(Unknown(row, "qty", r.qty.value))
      else if r.taker.None? then Ok(o.(event := o.event.(kind := TradeEvent(price.value, qty.value, None))))
      else match ParseSide(r.taker.value, row)
        case Err(e) => Err(e)
        case Ok(side) => Ok(o.(event := o.event.(kind := TradeEvent(price.value, qty.value, Some(side)))))
  }

  function ReadLevel(text: Text, o: Open, r: Row, row: nat): Result<Open>
    requires r.side.Some?
  {
    var price, qty := text.parsePrice(TextOf(r.price)), text.parseQty(TextOf(r.qty));
    if price.None? then Err(Unknown(row, "price", TextOf(r.price)))
    else if qty.None? then Err(Unknown(row, "qty", TextOf(r.qty)))
    else match ParseSide(r.side.value, row)
      case Err(e) => Err(e)
      case Ok(Bid) => Ok(o.(bids := o.bids + [Level(price.value, qty.value)]))
      case Ok(Ask) => Ok(o.(asks := o.asks + [Level(price.value, qty.value)]))
  }

  /** A row of another event closes the one before it. */
  function ReadRow(text: Text, d: Decoding, r: Row, row: nat): Result<Decoding> {
    var before := if d.open.Some? && d.open.value.no != r.no then Closed(d) else d;
    match Opened(text, before, r, row)
    case Err(e) => Err(e)
    case Ok(o) =>
      var read :=
        if r.kind == TRADE then ReadTrade(text, o, r, row)
        else if r.side.None? then Ok(o)
        else ReadLevel(text, o, r, row);
      match read
      case Err(e) => Err(e)
      case Ok(after) => Ok(Decoding(Some(after), before.done))
  }

  function ReadRows(text: Text, d: Decoding, rows: seq<Row>): Result<Decoding> {
    if rows == [] then Ok(d)
    else match ReadRows(text, d, rows[..|rows| - 1])
      case Err(e) => Err(e)
      case Ok(before) => ReadRow(text, before, rows[|rows| - 1], |rows| - 1)
  }

  function ReadBatches(text: Text, d: Decoding, batches: seq<seq<Row>>): Result<Decoding> {
    if batches == [] then Ok(d)
    else match ReadBatches(text, d, batches[..|batches| - 1])
      case Err(e) => Err(e)
      case Ok(before) => ReadRows(text, before, batches[|batches| - 1])
  }

  const NOTHING := Decoding(None, [])

  function Decoded(text: Text, batches: seq<seq<Row>>): Result<seq<StoredEvent>> {
    match ReadBatches(text, NOTHING, batches)
    case Err(e) => Err(e)
    case Ok(d) => Ok(Closed(d).done)
  }

  method DecodeBatch(text: Text, d: Decoding, rows: seq<Row>) returns (result: Result<Decoding>)
    ensures result == ReadRows(text, d, rows)
  {
    var open, done := d.open, d.done;
    for row := 0 to |rows|
      invariant ReadRows(text, d, rows[..row]) == Ok(Decoding(open, done))
    {
      var r := rows[row];
      ghost var state := Decoding(open, done);
      assert rows[..row + 1][..row] == rows[..row];
      ReadingFails(text, d, rows, row);
      if open.Some? && open.value.no != r.no {
        done := done + [Finished(open.value)];
        open := None;
      }
      var started := Opened(text, Decoding(open, done), r, row);
      if started.Err? {
        return Err(started.error);
      }
      var read := Ok(started.value);
      if r.kind == TRADE {
        read := ReadTrade(text, started.value, r, row);
      } else if r.side.Some? {
        read := ReadLevel(text, started.value, r, row);
      }
      if read.Err? {
        return Err(read.error);
      }
      open := Some(read.value);
      assert ReadRow(text, state, r, row) == Ok(Decoding(open, done));
    }
    assert rows[..|rows|] == rows;
    result := Ok(Decoding(open, done));
  }

  /** A bad row fails its whole batch. */
  lemma ReadingFails(text: Text, d: Decoding, rows: seq<Row>, bad: nat)
    requires bad < |rows| && ReadRows(text, d, rows[..bad]).Ok?
    ensures var failed := ReadRow(text, ReadRows(text, d, rows[..bad]).value, rows[bad], bad);
            failed.Err? ==> ReadRows(text, d, rows) == Err(failed.error)
  {
    ReadingIsFolding(text, d, rows);
    ReadingIsFolding(text, d, rows[..bad]);
    FoldingFails(RowReader(text), d, rows, bad);
  }

  /** A run of fallible steps, each told where its input is. */
  ghost function Folding<S, R>(f: (S, R, nat) -> Result<S>, s: S, rows: seq<R>): Result<S> {
    if rows == [] then Ok(s)
    else match Folding(f, s, rows[..|rows| - 1])
      case Err(e) => Err(e)
      case Ok(before) => f(before, rows[|rows| - 1], |rows| - 1)
  }

  lemma {:induction false} FoldingFails<S, R>(f: (S, R, nat) -> Result<S>, s: S, rows: seq<R>, bad: nat)
    requires bad < |rows| && Folding(f, s, rows[..bad]).Ok?
    ensures var failed := f(Folding(f, s, rows[..bad]).value, rows[bad], bad);
            failed.Err? ==> Folding(f, s, rows) == Err(failed.error)
    decreases |rows|
  {
    var n := |rows| - 1;
    if bad < n {
      assert rows[..n][..bad] == rows[..bad];
      FoldingFails(f, s, rows[..n], bad);
    }
  }

  function RowReader(text: Text): (Decoding, Row, nat) -> Result<Decoding> {
    (d: Decoding, r: Row, i: nat) => ReadRow(text, d, r, i)
  }

  lemma {:induction false} ReadingIsFolding(text: Text, d: Decoding, rows: seq<Row>)
    ensures ReadRows(text, d, rows) == Folding(RowReader(text), d, rows)
  {
    if rows != [] {
      ReadingIsFolding(text, d, rows[..|rows| - 1]);
    }
  }

  method Decode(text: Text, batches: seq<seq<Row>>) returns (result: Result<seq<StoredEvent>>)
    ensures result == Decoded(text, batches)
  {
    var d := NOTHING;
    for i := 0 to |batches|
      invariant ReadBatches(text, NOTHING, batches[..i]) == Ok(d)
    {
      assert batches[..i + 1][..i] == batches[..i];
      BatchFails(text, NOTHING, batches, i);
      var read := DecodeBatch(text, d, batches[i]);
      if read.Err? {
        return Err(read.error);
      }
      d := read.value;
    }
    assert batches[..|batches|] == batches;
    if d.open.Some? {
      return Ok(d.done + [Finished(d.open.value)]);
    }
    result := Ok(d.done);
  }

  lemma {:induction false} BatchFails(text: Text, d: Decoding, batches: seq<seq<Row>>, bad: nat)
    requires bad < |batches| && ReadBatches(text, d, batches[..bad]).Ok?
    ensures var failed := ReadRows(text, ReadBatches(text, d, batches[..bad]).value, batches[bad]);
            failed.Err? ==> ReadBatches(text, d, batches) == Err(failed.error)
    decreases |batches|
  {
    var n := |batches| - 1;
    if bad < n {
      assert batches[..n][..bad] == batches[..bad];
      BatchFails(text, d, batches[..n], bad);
    }
  }
}
