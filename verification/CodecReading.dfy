/**
 Which archive files can be read (crates/ma-persist/src/reader.rs), whoever wrote them: what each
 row must carry, and what the error says of one that does not.
 */
module CodecReading {
  import opened Types
  import opened Codec
  import CodecRoundTrip

  ////////// Which rows are read

  predicate KnownVenue(name: string) {
    name in ["coinbase", "kraken", "bitstamp", "fake"]
  }

  predicate KnownSide(name: string) {
    name in ["bid", "ask"]
  }

  /** A row that opens an event is of a known venue and kind, with its checksum if it is one. */
  predicate Opens(text: Text, r: Row) {
    && KnownVenue(r.venue) && r.kind in ["snapshot", "delta", "trade", "checksum", "heartbeat"]
    && (r.kind == "checksum" ==> r.checksum.Some?)
    && (r.kind == "trade" ==> text.parsePrice("0").Some? && text.parseQty("0").Some?)
  }

  /** A trade has a price and a quantity; so does a row with a side, where none at all reads as empty text. */
  predicate Carries(text: Text, r: Row) {
    if r.kind == "trade" then
      && r.price.Some? && text.parsePrice(r.price.value).Some? && r.qty.Some? && text.parseQty(r.qty.value).Some?
      && (r.taker.Some? ==> KnownSide(r.taker.value))
    else
      r.side.Some? ==>
        && text.parsePrice(if r.price.Some? then r.price.value else "").Some?
        && text.parseQty(if r.qty.Some? then r.qty.value else "").Some? && KnownSide(r.side.value)
  }

  /** The row belongs to the event that is open. */
  predicate Continues(d: Decoding, r: Row) {
    d.open.Some? && d.open.value.no == r.no
  }

  lemma VenuesParse(name: string, row: nat)
    ensures ParseVenue(name, row).Ok? <==> KnownVenue(name)
  {
  }

  lemma KindsOpen(text: Text, r: Row, row: nat)
    ensures EmptyKind(text, r, row).Ok? && KnownVenue(r.venue) <==> Opens(text, r)
  {
  }

  /** A row is read exactly if it carries what it must and, unless it continues the open event, may open one. */
  lemma RowIsReadExactlyWhen(text: Text, d: Decoding, r: Row, row: nat)
    ensures ReadRow(text, d, r, row).Ok? <==> (Continues(d, r) || Opens(text, r)) && Carries(text, r)
  {
    VenuesParse(r.venue, row);
    KindsOpen(text, r, row);
  }

  /** The error names its row and the field at fault: one with a value nobody knows, or one that is missing. */
  predicate Blames(text: Text, r: Row, row: nat, e: ReadError) {
    match e
    case Unknown(at, field, value) =>
      && at == row
      && (|| (field == "venue" && value == r.venue && !KnownVenue(value))
          || (field == "kind" && value == r.kind && value !in ["snapshot", "delta", "trade", "checksum", "heartbeat"])
          || (field == "side" && Some(value) in [r.side, r.taker] && !KnownSide(value))
          || (field == "price" && value in ["0", if r.price.Some? then r.price.value else ""] && text.parsePrice(value).None?)
          || (field == "qty" && value in ["0", if r.qty.Some? then r.qty.value else ""] && text.parseQty(value).None?))
    case Incomplete(at, kind, field) =>
      && at == row && kind == r.kind
      && (|| (kind == "checksum" && field == "checksum" && r.checksum.None?)
          || (kind == "trade" && field == "price" && r.price.None?)
          || (kind == "trade" && field == "qty" && r.qty.None?))
  }

  lemma OpeningBlames(text: Text, d: Decoding, r: Row, row: nat)
    requires Opened(text, d, r, row).Err?
    ensures Blames(text, r, row, Opened(text, d, r, row).error)
  {
  }

  lemma TradesBlame(text: Text, o: Open, r: Row, row: nat)
    requires r.kind == TRADE && ReadTrade(text, o, r, row).Err?
    ensures Blames(text, r, row, ReadTrade(text, o, r, row).error)
  {
  }

  lemma LevelsBlame(text: Text, o: Open, r: Row, row: nat)
    requires r.side.Some? && ReadLevel(text, o, r, row).Err?
    ensures Blames(text, r, row, ReadLevel(text, o, r, row).error)
  {
  }

  lemma ErrorsNameTheField(text: Text, d: Decoding, r: Row, row: nat)
    requires ReadRow(text, d, r, row).Err?
    ensures Blames(text, r, row, ReadRow(text, d, r, row).error)
  {
    var before := if d.open.Some? && d.open.value.no != r.no then Closed(d) else d;
    var start := Opened(text, before, r, row);
    if start.Err? {
      OpeningBlames(text, before, r, row);
    } else if r.kind == TRADE {
      TradesBlame(text, start.value, r, row);
    } else {
      LevelsBlame(text, start.value, r, row);
    }
  }

  ////////// Which files are read

  function NoBefore(d: Decoding): Option<int> {
    if d.open.Some? then Some(d.open.value.no) else None
  }

  function LastNo(before: Option<int>, rows: seq<Row>): Option<int> {
    if rows == [] then before else Some(rows[|rows| - 1].no)
  }

  predicate Reads(text: Text, before: Option<int>, r: Row) {
    (before == Some(r.no) || Opens(text, r)) && Carries(text, r)
  }

  predicate AllRead(text: Text, before: Option<int>, rows: seq<Row>) {
    rows == [] ||
    (AllRead(text, before, rows[..|rows| - 1]) && Reads(text, LastNo(before, rows[..|rows| - 1]), rows[|rows| - 1]))
  }

  lemma OneRowReads(text: Text, d: Decoding, r: Row, row: nat)
    ensures ReadRow(text, d, r, row).Ok? <==> Reads(text, NoBefore(d), r)
    ensures ReadRow(text, d, r, row).Ok? ==> NoBefore(ReadRow(text, d, r, row).value) == Some(r.no)
  {
    RowIsReadExactlyWhen(text, d, r, row);
  }

  lemma {:induction false} RowsRead(text: Text, d: Decoding, rows: seq<Row>)
    ensures ReadRows(text, d, rows).Ok? <==> AllRead(text, NoBefore(d), rows)
    ensures ReadRows(text, d, rows).Ok? ==> NoBefore(ReadRows(text, d, rows).value) == LastNo(NoBefore(d), rows)
  {
    if rows != [] {
      var n := |rows| - 1;
      RowsRead(text, d, rows[..n]);
      if ReadRows(text, d, rows[..n]).Ok? {
        OneRowReads(text, ReadRows(text, d, rows[..n]).value, rows[n], n);
      }
    }
  }

  lemma {:induction false} AllReadSplits(text: Text, before: Option<int>, xs: seq<Row>, ys: seq<Row>)
    ensures AllRead(text, before, xs + ys) <==> AllRead(text, before, xs) && AllRead(text, LastNo(before, xs), ys)
    ensures LastNo(before, xs + ys) == LastNo(LastNo(before, xs), ys)
  {
    if ys == [] {
      assert xs + ys == xs;
    } else {
      var all, n := xs + ys, |ys| - 1;
      assert all[..|all| - 1] == xs + ys[..n] && all[|all| - 1] == ys[n];
      AllReadSplits(text, before, xs, ys[..n]);
    }
  }

  lemma {:induction false} BatchesRead(text: Text, d: Decoding, batches: seq<seq<Row>>)
    ensures ReadBatches(text, d, batches).Ok? <==> AllRead(text, NoBefore(d), CodecRoundTrip.Joined(batches))
    ensures ReadBatches(text, d, batches).Ok? ==>
              NoBefore(ReadBatches(text, d, batches).value) == LastNo(NoBefore(d), CodecRoundTrip.Joined(batches))
  {
    if batches != [] {
      var n := |batches| - 1;
      BatchesRead(text, d, batches[..n]);
      AllReadSplits(text, NoBefore(d), CodecRoundTrip.Joined(batches[..n]), batches[n]);
      if ReadBatches(text, d, batches[..n]).Ok? {
        RowsRead(text, ReadBatches(text, d, batches[..n]).value, batches[n]);
      }
    }
  }

  /** The row carries what it must, and opens an event or continues the one of the row before it. */
  predicate ReadsAt(text: Text, rows: seq<Row>, i: int) {
    0 <= i < |rows| && Carries(text, rows[i]) && (Opens(text, rows[i]) || (i > 0 && rows[i - 1].no == rows[i].no))
  }

  lemma {:induction false} AllReadAt(text: Text, rows: seq<Row>)
    ensures AllRead(text, None, rows) <==> forall i | 0 <= i < |rows| :: ReadsAt(text, rows, i)
  {
    if rows != [] {
      var n := |rows| - 1;
      AllReadAt(text, rows[..n]);
      assert forall i | 0 <= i < n :: ReadsAt(text, rows[..n], i) <==> ReadsAt(text, rows, i);
      assert Reads(text, LastNo(None, rows[..n]), rows[n]) <==> ReadsAt(text, rows, n);
    }
  }

  /** A file decodes exactly if each of its rows can be read after the one before it, whatever the batches. */
  lemma DecodesExactlyWhen(text: Text, batches: seq<seq<Row>>)
    ensures Decoded(text, batches).Ok? <==> forall i | 0 <= i < |CodecRoundTrip.Joined(batches)| :: ReadsAt(text, CodecRoundTrip.Joined(batches), i)
  {
    BatchesRead(text, NOTHING, batches);
    AllReadAt(text, CodecRoundTrip.Joined(batches));
  }
}
