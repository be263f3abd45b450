/**
 What is written is what is read (crates/ma-persist/src/writer.rs, crates/ma-persist/src/reader.rs):
 decoding undoes flattening however the rows fall into batches, and integers survive exactly
 within the columns' range.
 */
module CodecRoundTrip {
  import opened Types
  import opened Book
  import opened VenueSync
  import opened Codec

  datatype Numbered = Numbered(no: int, event: Event)

  /** What the columns keep of a kind. */
  function StoredKind(kind: EventKind): EventKind {
    if kind.HeartbeatEvent? && kind.counter.Some? then HeartbeatEvent(Some(Min(kind.counter.value, I64_MAX))) else kind
  }

  function StoredOf(e: Event, base: IngestTime): StoredEvent {
    StoredEvent(e.venue, e.symbol, Mapped(e.venueTs, UnixNanos), UnixNanos(e.ingest.wall), StoredKind(e.kind),
                ElapsedNanos(e.ingest, base))
  }

  function StoredAll(es: seq<Numbered>, base: IngestTime): seq<StoredEvent> {
    seq(|es|, i requires 0 <= i < |es| => StoredOf(es[i].event, base))
  }

  function RowsOf(text: Text, es: seq<Numbered>, base: IngestTime): seq<Row> {
    if es == [] then []
    else
      var last := es[|es| - 1];
      RowsOf(text, es[..|es| - 1], base) + Flattened(text, last.event, last.no, base)
  }

  function Joined(batches: seq<seq<Row>>): seq<Row> {
    if batches == [] then [] else Joined(batches[..|batches| - 1]) + batches[|batches| - 1]
  }

  lemma NamesRoundTrip(v: VenueId, s: Side, row: nat)
    ensures ParseVenue(VenueName(v), row) == Ok(v) && ParseSide(SideName(s), row) == Ok(s)
  {
  }

  ////////// Reading rows one at a time

  /** Only an error knows where its input was. */
  ghost predicate Placeless<S(!new), R(!new)>(f: (S, R, nat) -> Result<S>) {
    forall s, r, i, j :: f(s, r, i).Ok? || f(s, r, j).Ok? ==> f(s, r, i) == f(s, r, j)
  }

  lemma OneMore<S, R>(f: (S, R, nat) -> Result<S>, s: S, rows: seq<R>, r: R)
    ensures var before := Folding(f, s, rows);
            && (before.Ok? ==> Folding(f, s, rows + [r]) == f(before.value, r, |rows|))
            && (before.Err? ==> Folding(f, s, rows + [r]).Err?)
  {
    assert (rows + [r])[..|rows|] == rows;
  }

  lemma {:induction false} FoldingSplits<S(!new), R(!new)>(f: (S, R, nat) -> Result<S>, s: S, xs: seq<R>, ys: seq<R>)
    requires Placeless(f)
    ensures var first, whole := Folding(f, s, xs), Folding(f, s, xs + ys);
            && (whole.Ok? ==> first.Ok? && Folding(f, first.value, ys) == whole)
            && (first.Ok? && Folding(f, first.value, ys).Ok? ==> whole.Ok?)
    decreases |ys|
  {
    if ys == [] {
      assert xs + ys == xs;
    } else {
      var front, last := ys[..|ys| - 1], ys[|ys| - 1];
      assert ys == front + [last] && xs + ys == (xs + front) + [last];
      FoldingSplits(f, s, xs, front);
      OneMore(f, s, xs + front, last);
      if Folding(f, s, xs).Ok? {
        OneMore(f, Folding(f, s, xs).value, front, last);
      }
    }
  }

  lemma PlaceIsImmaterial(text: Text, d: Decoding, r: Row, i: nat, j: nat)
    ensures ReadRow(text, d, r, i).Ok? || ReadRow(text, d, r, j).Ok? ==> ReadRow(text, d, r, i) == ReadRow(text, d, r, j)
  {
  }

  lemma ReaderIsPlaceless(text: Text)
    ensures Placeless(RowReader(text))
  {
    forall d, r, i, j
      ensures RowReader(text)(d, r, i).Ok? || RowReader(text)(d, r, j).Ok? ==>
                RowReader(text)(d, r, i) == RowReader(text)(d, r, j)
    {
      PlaceIsImmaterial(text, d, r, i, j);
    }
  }

  /** Reading on from where reading some rows got to is reading them all. */
  lemma ReadingSplits(text: Text, d: Decoding, xs: seq<Row>, ys: seq<Row>)
    ensures var first, whole := ReadRows(text, d, xs), ReadRows(text, d, xs + ys);
            && (whole.Ok? ==> first.Ok? && ReadRows(text, first.value, ys) == whole)
            && (first.Ok? && ReadRows(text, first.value, ys).Ok? ==> whole.Ok?)
  {
    ReaderIsPlaceless(text);
    FoldingSplits(RowReader(text), d, xs, ys);
    ReadingIsFolding(text, d, xs);
    ReadingIsFolding(text, d, xs + ys);
    var first := ReadRows(text, d, xs);
    if first.Ok? {
      ReadingIsFolding(text, first.value, ys);
    }
  }

  ////////// One event

  /** An event of levels before any has been read. */
  function Shell(e: Event, base: IngestTime, kind: EventKind): StoredEvent {
    StoredOf(e, base).(kind := kind)
  }

  lemma FirstRowOpens(text: Text, d: Decoding, e: Event, no: int, base: IngestTime, r: Row, row: nat)
    requires d.open.Some? ==> d.open.value.no != no
    requires var t := Template(e, no, base);
             r.no == no && r.venue == t.venue && r.symbol == t.symbol && r.wall == t.wall && r.elapsed == t.elapsed
             && r.venueTs == t.venueTs
    ensures var kind := EmptyKind(text, r, row);
            kind.Ok? ==> Opened(text, Closed(d), r, row) == Ok(Open(no, Shell(e, base, kind.value), [], []))
    ensures Closed(d).open == None
    ensures d.open.None? ==> Closed(d) == d
  {
    NamesRoundTrip(e.venue, Bid, row);
  }

  lemma LevelRowReads(text: Text, o: Open, shared: Row, kind: string, side: Side, index: nat, level: Level, row: nat)
    requires Printable(text, level)
    ensures ReadLevel(text, o, LevelRow(text, shared, kind, side, index, level), row) ==
            Ok(if side.Bid? then o.(bids := o.bids + [level]) else o.(asks := o.asks + [level]))
  {
    NamesRoundTrip(Fake, side, row);
  }

  /** A further level row goes to the event already open. */
  lemma LevelRowContinues(text: Text, o: Open, done: seq<StoredEvent>, shared: Row, kind: string, side: Side,
                          index: nat, level: Level, row: nat)
    requires Printable(text, level) && o.no == shared.no && IsLevels(kind)
    ensures ReadRow(text, Decoding(Some(o), done), LevelRow(text, shared, kind, side, index, level), row) ==
            Ok(Decoding(Some(if side.Bid? then o.(bids := o.bids + [level]) else o.(asks := o.asks + [level])), done))
  {
    LevelRowReads(text, o, shared, kind, side, index, level, row);
  }

  /** The levels among the first `k` rows of an event. */
  function BidsIn(bids: seq<Level>, k: nat): seq<Level> {
    if k <= |bids| then bids[..k] else bids
  }

  function AsksIn(bids: seq<Level>, asks: seq<Level>, k: nat): seq<Level>
    requires k <= |bids| + |asks|
  {
    if k <= |bids| then [] else asks[..k - |bids|]
  }

  predicate IsLevels(kind: string) {
    kind == SNAPSHOT || kind == DELTA
  }

  function EmptyLevels(kind: string): EventKind {
    if kind == SNAPSHOT then SnapshotEvent([], []) else DeltaEvent([], [])
  }

  /** The row that carries the `i`th level of an event. */
  function NthRow(text: Text, shared: Row, kind: string, bids: seq<Level>, asks: seq<Level>, i: nat): Row
    requires i < |bids| + |asks|
  {
    if i < |bids| then LevelRow(text, shared, kind, Bid, i, bids[i])
    else LevelRow(text, shared, kind, Ask, i - |bids|, asks[i - |bids|])
  }

  lemma NthRowIs(text: Text, shared: Row, kind: string, bids: seq<Level>, asks: seq<Level>, i: nat)
    requires i < |bids| + |asks|
    ensures var rows := LevelRows(text, shared, kind, bids, asks);
            |rows| == |bids| + |asks| && rows[i] == NthRow(text, shared, kind, bids, asks, i)
  {
  }

  /** An event with the first `k` of its levels read. */
  function Partly(e: Event, no: int, base: IngestTime, kind: string, bids: seq<Level>, asks: seq<Level>, k: nat): Open
    requires k <= |bids| + |asks|
  {
    Open(no, Shell(e, base, EmptyLevels(kind)), BidsIn(bids, k), AsksIn(bids, asks, k))
  }

  lemma NthRowReads(text: Text, done: seq<StoredEvent>, e: Event, no: int, base: IngestTime, kind: string,
                    bids: seq<Level>, asks: seq<Level>, i: nat, row: nat)
    requires AllPrintable(text, bids) && AllPrintable(text, asks) && IsLevels(kind) && i < |bids| + |asks|
    ensures ReadRow(text, Decoding(Some(Partly(e, no, base, kind, bids, asks, i)), done),
                    NthRow(text, Template(e, no, base), kind, bids, asks, i), row) ==
            Ok(Decoding(Some(Partly(e, no, base, kind, bids, asks, i + 1)), done))
  {
    var o := Partly(e, no, base, kind, bids, asks, i);
    if i < |bids| {
      LevelRowContinues(text, o, done, Template(e, no, base), kind, Bid, i, bids[i], row);
      assert BidsIn(bids, i + 1) == BidsIn(bids, i) + [bids[i]];
    } else {
      LevelRowContinues(text, o, done, Template(e, no, base), kind, Ask, i - |bids|, asks[i - |bids|], row);
      assert AsksIn(bids, asks, i + 1) == AsksIn(bids, asks, i) + [asks[i - |bids|]];
      assert BidsIn(bids, i + 1) == BidsIn(bids, i);
    }
  }

  /** The first level row both opens the event and is read into it. */
  lemma FirstLevelReads(text: Text, d: Decoding, e: Event, no: int, base: IngestTime, kind: string,
                        bids: seq<Level>, asks: seq<Level>)
    requires AllPrintable(text, bids) && AllPrintable(text, asks) && IsLevels(kind) && (d.open.Some? ==> d.open.value.no != no) && |bids| + |asks| > 0
    ensures ReadRow(text, d, NthRow(text, Template(e, no, base), kind, bids, asks, 0), 0) ==
            Ok(Decoding(Some(Partly(e, no, base, kind, bids, asks, 1)), Closed(d).done))
  {
    var r := NthRow(text, Template(e, no, base), kind, bids, asks, 0);
    FirstRowOpens(text, d, e, no, base, r, 0);
    var o := Partly(e, no, base, kind, bids, asks, 0);
    assert Opened(text, Closed(d), r, 0) == Ok(o);
    var side, level := if |bids| > 0 then Bid else Ask, if |bids| > 0 then bids[0] else asks[0];
    LevelRowReads(text, o, Template(e, no, base), kind, side, 0, level, 0);
    assert BidsIn(bids, 1) == o.bids + if |bids| > 0 then [level] else [];
    assert AsksIn(bids, asks, 1) == o.asks + if |bids| > 0 then [] else [level];
  }

  /** These are the rows of an event's levels. */
  ghost predicate Carries(text: Text, shared: Row, kind: string, bids: seq<Level>, asks: seq<Level>, rows: seq<Row>) {
    && |rows| == |bids| + |asks|
    && forall i | 0 <= i < |rows| :: rows[i] == NthRow(text, shared, kind, bids, asks, i)
  }

  lemma LevelRowsCarry(text: Text, shared: Row, kind: string, bids: seq<Level>, asks: seq<Level>)
    requires |bids| + |asks| > 0
    ensures Carries(text, shared, kind, bids, asks, LevelRows(text, shared, kind, bids, asks))
  {
    forall i | 0 <= i < |bids| + |asks|
      ensures LevelRows(text, shared, kind, bids, asks)[i] == NthRow(text, shared, kind, bids, asks, i)
    {
      NthRowIs(text, shared, kind, bids, asks, i);
    }
  }

  lemma {:induction false} LevelsRead(text: Text, d: Decoding, e: Event, no: int, base: IngestTime, kind: string,
                                      bids: seq<Level>, asks: seq<Level>, rows: seq<Row>, k: nat)
    requires AllPrintable(text, bids) && AllPrintable(text, asks) && IsLevels(kind)
    requires d.open.Some? ==> d.open.value.no != no
    requires Carries(text, Template(e, no, base), kind, bids, asks, rows) && 1 <= k <= |rows|
    ensures ReadRows(text, d, rows[..k]) ==
            Ok(Decoding(Some(Partly(e, no, base, kind, bids, asks, k)), Closed(d).done))
  {
    assert rows[..k] == rows[..k - 1] + [rows[k - 1]];
    OneMoreRow(text, d, rows[..k - 1], rows[k - 1]);
    if k == 1 {
      FirstLevelReads(text, d, e, no, base, kind, bids, asks);
    } else {
      LevelsRead(text, d, e, no, base, kind, bids, asks, rows, k - 1);
      NthRowReads(text, Closed(d).done, e, no, base, kind, bids, asks, k - 1, k - 1);
    }
  }

  /** Reading an event's rows closes what was open and leaves this event, whole, to be closed next. */
  ghost predicate Reads(text: Text, d: Decoding, e: Event, no: int, base: IngestTime) {
    var read := ReadRows(text, d, Flattened(text, e, no, base));
    && read.Ok? && read.value.done == Closed(d).done
    && read.value.open.Some? && read.value.open.value.no == no
    && Finished(read.value.open.value) == StoredOf(e, base)
  }

  /** What an event of levels leaves open. */
  function OpenLevels(e: Event, no: int, base: IngestTime, kind: string, bids: seq<Level>, asks: seq<Level>): Open {
    Open(no, Shell(e, base, EmptyLevels(kind)), bids, asks)
  }

  lemma LevelRowsRead(text: Text, d: Decoding, e: Event, no: int, base: IngestTime, kind: string,
                      bids: seq<Level>, asks: seq<Level>)
    requires AllPrintable(text, bids) && AllPrintable(text, asks) && IsLevels(kind) && (d.open.Some? ==> d.open.value.no != no)
    ensures ReadRows(text, d, LevelRows(text, Template(e, no, base), kind, bids, asks)) ==
            Ok(Decoding(Some(OpenLevels(e, no, base, kind, bids, asks)), Closed(d).done))
  {
    var n := |bids| + |asks|;
    var rows := LevelRows(text, Template(e, no, base), kind, bids, asks);
    if n == 0 {
      var r := Template(e, no, base).(kind := kind);
      assert rows == [r] && bids == [] && asks == [];
      OneRowReads(text, d, r);
      FirstRowOpens(text, d, e, no, base, r, 0);
    } else {
      LevelRowsCarry(text, Template(e, no, base), kind, bids, asks);
      LevelsRead(text, d, e, no, base, kind, bids, asks, rows, n);
      assert rows[..n] == rows;
      assert BidsIn(bids, n) == bids && AsksIn(bids, asks, n) == asks;
    }
  }

  lemma LevelEventReads(text: Text, d: Decoding, e: Event, no: int, base: IngestTime)
    requires Exact(text, e.kind) && (d.open.Some? ==> d.open.value.no != no)
    requires e.kind.SnapshotEvent? || e.kind.DeltaEvent?
    ensures Reads(text, d, e, no, base)
  {
    var kind := if e.kind.SnapshotEvent? then SNAPSHOT else DELTA;
    LevelRowsRead(text, d, e, no, base, kind, e.kind.bids, e.kind.asks);
    assert Finished(OpenLevels(e, no, base, kind, e.kind.bids, e.kind.asks)) == StoredOf(e, base);
  }

  lemma OneMoreRow(text: Text, d: Decoding, rows: seq<Row>, r: Row)
    ensures ReadRows(text, d, rows).Ok? ==>
              ReadRows(text, d, rows + [r]) == ReadRow(text, ReadRows(text, d, rows).value, r, |rows|)
    ensures ReadRows(text, d, rows).Err? ==> ReadRows(text, d, rows + [r]).Err?
  {
    assert (rows + [r])[..|rows|] == rows;
  }

  lemma OneRowReads(text: Text, d: Decoding, r: Row)
    ensures ReadRows(text, d, [r]) == ReadRow(text, d, r, 0)
  {
    assert [r][..0] == [];
  }

  lemma EventReads(text: Text, d: Decoding, e: Event, no: int, base: IngestTime)
    requires Exact(text, e.kind) && (d.open.Some? ==> d.open.value.no != no)
    ensures Reads(text, d, e, no, base)
  {
    if e.kind.SnapshotEvent? || e.kind.DeltaEvent? {
      LevelEventReads(text, d, e, no, base);
    } else {
      var r := Flattened(text, e, no, base)[0];
      assert Flattened(text, e, no, base) == [r];
      OneRowReads(text, d, r);
      FirstRowOpens(text, d, e, no, base, r, 0);
      if e.kind.TradeEvent? && e.kind.taker.Some? {
        NamesRoundTrip(Fake, e.kind.taker.value, 0);
      }
    }
  }

  ////////// Many events, any batches

  /** Where the batches fall does not matter, even inside an event. */
  lemma {:induction false} BatchesDoNotMatter(text: Text, d: Decoding, batches: seq<seq<Row>>)
    requires ReadRows(text, d, Joined(batches)).Ok?
    ensures ReadBatches(text, d, batches) == ReadRows(text, d, Joined(batches))
  {
    if batches != [] {
      var n := |batches| - 1;
      ReadingSplits(text, d, Joined(batches[..n]), batches[n]);
      BatchesDoNotMatter(text, d, batches[..n]);
    }
  }

  /** These rows are numbered from zero, as far as the column counts, and of this side. */
  ghost predicate NumberedRows(rows: seq<Row>, side: string) {
    forall k | 0 <= k < |rows| ::
      rows[k].side == Some(side) && rows[k].levelIndex == Some(if k <= 0x7FFF_FFFF then k else 0x7FFF_FFFF)
  }

  /** The column nobody reads back: each side's levels are numbered in their own order, and nothing else is. */
  lemma LevelsAreNumbered(text: Text, e: Event, no: int, base: IngestTime)
    ensures var rows := Flattened(text, e, no, base);
            if e.kind.SnapshotEvent? && e.kind.bids + e.kind.asks != [] then
              && |rows| == |e.kind.bids| + |e.kind.asks|
              && NumberedRows(rows[..|e.kind.bids|], "bid") && NumberedRows(rows[|e.kind.bids|..], "ask")
            else if e.kind.DeltaEvent? && e.kind.bids + e.kind.asks != [] then
              && |rows| == |e.kind.bids| + |e.kind.asks|
              && NumberedRows(rows[..|e.kind.bids|], "bid") && NumberedRows(rows[|e.kind.bids|..], "ask")
            else |rows| == 1 && rows[0].levelIndex == None
  {
    if e.kind.SnapshotEvent? || e.kind.DeltaEvent? {
      var kind := if e.kind.SnapshotEvent? then SNAPSHOT else DELTA;
      LevelRowsAreNumbered(text, Template(e, no, base), kind, e.kind.bids, e.kind.asks);
    }
  }

  lemma LevelRowsAreNumbered(text: Text, shared: Row, kind: string, bids: seq<Level>, asks: seq<Level>)
    requires shared.levelIndex.None?
    ensures var rows := LevelRows(text, shared, kind, bids, asks);
            if bids + asks != [] then
              |rows| == |bids| + |asks| && NumberedRows(rows[..|bids|], "bid") && NumberedRows(rows[|bids|..], "ask")
            else |rows| == 1 && rows[0].levelIndex == None
  {
    var rows, b, a := LevelRows(text, shared, kind, bids, asks), SideRows(text, shared, kind, Bid, bids), SideRows(text, shared, kind, Ask, asks);
    if bids + asks != [] {
      assert (b + a)[..|bids|] == b && (b + a)[|bids|..] == a;
    }
  }

  /** For instance, a trade as it is stored. */
  lemma AStoredTrade(text: Text, symbol: string, price: Price, qty: Qty)
    ensures Flattened(text, Event(Kraken, symbol, Some(900), IngestTime(7, 1_000), TradeEvent(price, qty, Some(Ask))), 4, IngestTime(2, 995)) ==
            [Row(4, "kraken", symbol, "trade", 1_000, 5, Some(900), None, Some(text.showPrice(price)), Some(text.showQty(qty)),
                 None, None, None, Some("ask"))]
  {
  }

  /** The names of venues and kinds in a file. */
  lemma StoredNames(text: Text, e: Event, no: int, base: IngestTime)
    ensures var row := Flattened(text, e, no, base)[0];
            && row.venue == (if e.venue.Coinbase? then "coinbase" else if e.venue.Kraken? then "kraken"
                             else if e.venue.Bitstamp? then "bitstamp" else "fake")
            && row.kind == (if e.kind.SnapshotEvent? then "snapshot" else if e.kind.DeltaEvent? then "delta"
                            else if e.kind.TradeEvent? then "trade" else if e.kind.ChecksumEvent? then "checksum" else "heartbeat")
            && row.symbol == e.symbol
  {
  }

  /** No event vanishes: each has a row, and its rows are all its own. */
  lemma EveryEventHasRows(text: Text, e: Event, no: int, base: IngestTime)
    ensures var rows := Flattened(text, e, no, base);
            rows != [] && forall i | 0 <= i < |rows| :: rows[i].no == no
  {
  }

  predicate AllExact(text: Text, es: seq<Numbered>) {
    forall i | 0 <= i < |es| :: Exact(text, es[i].event.kind)
  }

  predicate Distinct(es: seq<Numbered>) {
    forall i | 0 < i < |es| :: es[i - 1].no != es[i].no
  }

  /** Reading these events' rows has left `d`: all of them done once the last is closed. */
  ghost predicate AllRead(text: Text, es: seq<Numbered>, base: IngestTime, d: Decoding) {
    && ReadRows(text, NOTHING, RowsOf(text, es, base)) == Ok(d)
    && Closed(d).done == StoredAll(es, base)
    && (d.open.Some? ==> es != [] && d.open.value.no == es[|es| - 1].no)
  }

  lemma OneMoreEvent(text: Text, es: seq<Numbered>, base: IngestTime, d: Decoding) returns (after: Decoding)
    requires es != [] && Exact(text, es[|es| - 1].event.kind) && AllRead(text, es[..|es| - 1], base, d)
    requires d.open.Some? ==> d.open.value.no != es[|es| - 1].no
    ensures AllRead(text, es, base, after)
  {
    var last := es[|es| - 1];
    after := EventReadsTo(text, d, last.event, last.no, base);
    ReadsOn(text, RowsOf(text, es[..|es| - 1], base), Flattened(text, last.event, last.no, base), d, after);
    StoredAllExtends(es, base);
  }

  lemma EventReadsTo(text: Text, d: Decoding, e: Event, no: int, base: IngestTime) returns (after: Decoding)
    requires Exact(text, e.kind) && (d.open.Some? ==> d.open.value.no != no)
    ensures ReadRows(text, d, Flattened(text, e, no, base)) == Ok(after)
    ensures Closed(after).done == Closed(d).done + [StoredOf(e, base)]
    ensures after.open.Some? && after.open.value.no == no
  {
    EventReads(text, d, e, no, base);
    after := ReadRows(text, d, Flattened(text, e, no, base)).value;
  }

  lemma ReadsOn(text: Text, front: seq<Row>, rows: seq<Row>, d: Decoding, after: Decoding)
    requires ReadRows(text, NOTHING, front) == Ok(d) && ReadRows(text, d, rows) == Ok(after)
    ensures ReadRows(text, NOTHING, front + rows) == Ok(after)
  {
    ReadingSplits(text, NOTHING, front, rows);
  }

  lemma StoredAllExtends(es: seq<Numbered>, base: IngestTime)
    requires es != []
    ensures StoredAll(es, base) == StoredAll(es[..|es| - 1], base) + [StoredOf(es[|es| - 1].event, base)]
  {
  }

  lemma {:induction false} AllEventsRead(text: Text, es: seq<Numbered>, base: IngestTime) returns (d: Decoding)
    requires AllExact(text, es) && Distinct(es)
    ensures AllRead(text, es, base, d)
  {
    if es == [] {
      d := NOTHING;
    } else {
      var n := |es| - 1;
      var before := AllEventsRead(text, es[..n], base);
      assert n > 0 ==> es[..n][n - 1].no == es[n - 1].no != es[n].no;
      d := OneMoreEvent(text, es, base, before);
    }
  }

  /**
   Decoding undoes flattening: for all events of every kind, numbered so that neighbours
   differ, and all ways to cut their rows into batches, the same events come back in order.
   */
  lemma RoundTrip(text: Text, es: seq<Numbered>, base: IngestTime, batches: seq<seq<Row>>)
    requires AllExact(text, es) && Distinct(es) && Joined(batches) == RowsOf(text, es, base)
    ensures Decoded(text, batches) == Ok(StoredAll(es, base))
  {
    var d := AllEventsRead(text, es, base);
    BatchesDoNotMatter(text, NOTHING, batches);
  }

  ////////// What the columns keep

  predicate InRange(n: int) {
    -I64_MAX <= n <= I64_MAX
  }

  /** Every integer of the event fits its column, and the event is not before the writer's first. */
  predicate Fits(e: Event, base: IngestTime) {
    && InRange(e.ingest.wall) && (e.venueTs.Some? ==> InRange(e.venueTs.value))
    && (e.kind.HeartbeatEvent? && e.kind.counter.Some? ==> InRange(e.kind.counter.value))
    && 0 <= e.ingest.mono - base.mono <= I64_MAX
  }

  /** The event itself, were nothing lost: its times, kind and distance from the writer's first event. */
  function Intact(e: Event, base: IngestTime): StoredEvent {
    StoredEvent(e.venue, e.symbol, e.venueTs, e.ingest.wall, e.kind, e.ingest.mono - base.mono)
  }

  /** An event comes back intact exactly if its integers fit. */
  lemma IntactExactlyWhenItFits(e: Event, base: IngestTime)
    ensures StoredOf(e, base) == Intact(e, base) <==> Fits(e, base)
  {
    if e.venueTs.Some? {
      assert UnixNanos(e.venueTs.value) == e.venueTs.value <==> InRange(e.venueTs.value);
    }
  }

  ////////// Any rows at all

  /** How many stretches of equally numbered rows there are. */
  function Stretches(rows: seq<Row>): nat {
    if rows == [] then 0
    else
      var n := |rows| - 1;
      Stretches(rows[..n]) + if n == 0 || rows[n - 1].no != rows[n].no then 1 else 0
  }

  /** Whatever the rows hold, what decodes has one event for each stretch of equal numbers. */
  lemma {:induction false} OneEventPerStretch(text: Text, rows: seq<Row>)
    requires ReadRows(text, NOTHING, rows).Ok?
    ensures var d := ReadRows(text, NOTHING, rows).value;
            && |Closed(d).done| == Stretches(rows)
            && (rows != [] ==> d.open.Some? && d.open.value.no == rows[|rows| - 1].no)
  {
    if rows != [] {
      var n := |rows| - 1;
      OneEventPerStretch(text, rows[..n]);
      assert n > 0 ==> rows[..n][n - 1] == rows[n - 1];
    }
  }
}
