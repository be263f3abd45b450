/**
 How rows are grouped in files (crates/ma-persist/src/writer.rs): a writer holds fewer rows than
 a group between calls, every group it closes early is full, and only a file's last may be short.
 */
module RowGroups {
  import opened Types
  import opened Codec
  import opened CodecRoundTrip
  import opened ArchiveLedger
  import opened WriterSteps
  import opened WriterRuns

  ghost predicate AllFull(n: nat, groups: File) {
    forall i | 0 <= i < |groups| :: groups[i] != [] && |groups[i]| >= n
  }

  /** An open file's groups are full, and fewer rows than a group are waiting. */
  ghost predicate OpenGrouped(n: nat, f: OpenFile) {
    AllFull(n, f.groups) && (|f.rows| < n || f.rows == [])
  }

  /** A closed file's groups are full but for the last, and none is empty. */
  ghost predicate ClosedGrouped(n: nat, file: File) {
    && (forall i | 0 <= i < |file| :: file[i] != [])
    && (forall i | 0 <= i < |file| - 1 :: |file[i]| >= n)
  }

  ghost predicate Grouped(n: nat, l: Ledger) {
    && (forall p | p in l.open :: OpenGrouped(n, l.open[p]))
    && (forall k | k in l.record.stored :: k in l.objects && ClosedGrouped(n, l.objects[k]))
  }

  lemma ClosingIsGrouped(n: nat, f: OpenFile)
    requires OpenGrouped(n, f)
    ensures ClosedGrouped(n, Closing(f))
  {
  }

  lemma FilledIsGrouped(c: Config, f: OpenFile, rows: seq<Row>)
    requires AllFull(c.rowGroupRows, f.groups)
    ensures OpenGrouped(c.rowGroupRows, Filled(c, f, rows))
  {
  }

  lemma HandedOverIsGrouped(n: nat, l: Ledger, p: string, outcome: PutOutcome)
    requires Grouped(n, l)
    ensures Grouped(n, HandedOver(l, p, outcome))
  {
    if p in l.open {
      ClosingIsGrouped(n, l.open[p]);
    }
  }

  lemma BegunIsGrouped(c: Setup, n: nat, l: Ledger, p: string, at: IngestTime)
    requires Grouped(n, l)
    ensures Grouped(n, Begun(c, l, p, at))
  {
  }

  lemma GivenIsGrouped(c: Config, l: Ledger, p: string, rows: seq<Row>)
    requires Grouped(c.rowGroupRows, l) && p in l.open
    ensures Grouped(c.rowGroupRows, Given(c, l, p, rows))
  {
    assert OpenGrouped(c.rowGroupRows, l.open[p]);
    FilledIsGrouped(c, l.open[p], rows);
  }

  lemma MadeReadyIsGrouped(c: Setup, n: nat, l: Ledger, p: string, at: IngestTime, weather: Weather)
    requires Grouped(n, l)
    ensures Grouped(n, MadeReady(c, l, p, at, weather))
  {
    HandedOverIsGrouped(n, l, p, weather.put);
    BegunIsGrouped(c, n, RolledIfDue(c, l, p, at, weather.put), p, at);
  }

  lemma {:induction false} ShutIsGrouped(n: nat, l: Ledger, done: set<string>, puts: string -> PutOutcome)
    requires Grouped(n, l)
    ensures Grouped(n, Shut(l, done, puts))
  {
    if done != {} {
      var p :| p in done && Shut(l, done, puts) == HandedOver(Shut(l, done - {p}, puts), p, puts(p));
      ShutIsGrouped(n, l, done - {p}, puts);
      HandedOverIsGrouped(n, Shut(l, done - {p}, puts), p, puts(p));
    }
  }

  lemma AppendedIsGrouped(c: Setup, v: Progress, e: Event, weather: Weather)
    requires Grouped(c.config.rowGroupRows, v.books)
    ensures Grouped(c.config.rowGroupRows, Appended(c, v, e, weather).books)
  {
    var p := PartitionName(e.symbol);
    var ready := MadeReady(c, v.books, p, e.ingest, weather);
    MadeReadyIsGrouped(c, c.config.rowGroupRows, v.books, p, e.ingest, weather);
    ReadyTouchesOnePartition(c, v.books, p, e.ingest, weather);
    if Accepts(c, v.books, p, e.ingest, weather) {
      GivenIsGrouped(c.config, ready, p, c.flat(e, v.no + 1, Anchored(v.base, e.ingest)));
    }
  }

  /**
   After any calls: every open file has only full groups and waits with fewer rows than one, and
   every file stored has full groups but for its last.
   */
  lemma {:induction false} RanIsGrouped(c: Setup, objects: map<string, File>, calls: seq<Call>)
    ensures Grouped(c.config.rowGroupRows, Ran(c, objects, calls).books)
  {
    if calls != [] {
      var front, last := calls[..|calls| - 1], calls[|calls| - 1];
      RanIsGrouped(c, objects, front);
      match last {
        case CallAppend(e, weather) => AppendedIsGrouped(c, Ran(c, objects, front), e, weather);
        case CallClose(puts) =>
          var books := Ran(c, objects, front).books;
          ShutIsGrouped(c.config.rowGroupRows, books, books.open.Keys, puts);
      }
    }
  }
}
