/**
 The archive writer (crates/ma-persist/src/writer.rs) and the object store it writes to.
 Whether a listing or an upload succeeds is the caller's choice, so every failure is covered;
 an upload may also take effect and still be reported failed.
 */
module Writer {
  import opened Types
  import opened Codec
  import opened CodecRoundTrip
  import opened ArchiveLedger
  import opened WriterSteps
  import Keys

  ////////// The object store

  class Store {
    var objects: map<string, File>
    /** How many uploads found their key taken. */
    ghost var clashes: nat

    constructor ()
      ensures objects == map[] && clashes == 0
    {
      objects, clashes := map[], 0;
    }

    method Put(key: string, file: File, outcome: PutOutcome) returns (ok: bool)
      modifies this
      ensures ok <==> outcome.Stored?
      ensures objects == if outcome.Refused? then old(objects) else old(objects)[key := file]
      ensures clashes == old(clashes) + if key in old(objects) then 1 else 0
    {
      clashes := clashes + if key in objects then 1 else 0;
      if !outcome.Refused? {
        objects := objects[key := file];
      }
      ok := outcome.Stored?;
    }

    /** The keys under a directory. */
    method List(dir: string) returns (keys: seq<string>)
      ensures forall k :: k in keys <==> k in objects && dir <= k
    {
      keys := [];
      var left := objects.Keys;
      while left != {}
        invariant left <= objects.Keys
        invariant forall k :: k in keys <==> k in objects && k !in left && dir <= k
        decreases |left|
      {
        var k :| k in left;
        left := left - {k};
        if dir <= k {
          keys := keys + [k];
        }
      }
    }
  }

  /** The partitions whose upload does not succeed. */
  ghost function Unstored(partitions: set<string>, puts: string -> PutOutcome): set<string> {
    set p | p in partitions && !puts(p).Stored?
  }

  /** The files of the partitions whose upload does. */
  ghost function WrittenOf(open: map<string, OpenFile>, partitions: set<string>, puts: string -> PutOutcome): map<string, OpenFile> {
    map p | p in open && p in partitions && puts(p).Stored? :: open[p]
  }

  lemma NoOutcomes(open: map<string, OpenFile>, puts: string -> PutOutcome)
    ensures Unstored({}, puts) == {} && forall n :: AfterClosingAll(n, open, {}, puts) == n
  {
    assert Places(Totals(map[])) == {};
    assert WrittenOf(open, {}, puts) == map[];
  }

  lemma StoredOneMore(open: map<string, OpenFile>, done: set<string>, p: string, puts: string -> PutOutcome)
    requires p in open && p !in done && puts(p).Stored?
    ensures Unstored(done + {p}, puts) == Unstored(done, puts)
    ensures var before, after := WrittenOf(open, done, puts), WrittenOf(open, done + {p}, puts);
            |after| == |before| + 1 && RowsOpenIn(after) == RowsOpenIn(before) + open[p].total
  {
    assert WrittenOf(open, done + {p}, puts) == WrittenOf(open, done, puts)[p := open[p]];
    OneFileMore(WrittenOf(open, done, puts), p, open[p]);
  }

  lemma OneFileMore(m: map<string, OpenFile>, p: string, f: OpenFile)
    requires p !in m
    ensures |m[p := f]| == |m| + 1 && RowsOpenIn(m[p := f]) == RowsOpenIn(m) + f.total
  {
    RowsOpenWith(m, p, f);
    assert m - {p} == m;
  }

  lemma UnstoredCounts(open: map<string, OpenFile>, done: set<string>, p: string, puts: string -> PutOutcome)
    requires p !in done && !puts(p).Stored?
    ensures WrittenOf(open, done + {p}, puts) == WrittenOf(open, done, puts)
    ensures |Unstored(done + {p}, puts)| == |Unstored(done, puts)| + 1
  {
    assert Unstored(done + {p}, puts) == Unstored(done, puts) + {p};
  }

  /** The writer's tallies after closing the files of these partitions. */
  ghost function AfterClosingAll(n: Counters, open: map<string, OpenFile>, done: set<string>, puts: string -> PutOutcome): Counters {
    Counters(n.files + |WrittenOf(open, done, puts)|, n.rows + RowsOpenIn(WrittenOf(open, done, puts)),
             n.failures + |Unstored(done, puts)|)
  }

  lemma ClosedOneMore(n: Counters, open: map<string, OpenFile>, left: set<string>, p: string, puts: string -> PutOutcome)
    requires p in left && left <= open.Keys
    ensures AfterClosingAll(n, open, open.Keys - (left - {p}), puts) ==
            AfterClosing(AfterClosingAll(n, open, open.Keys - left, puts), open[p].total, puts(p).Stored?)
  {
    assert open.Keys - (left - {p}) == open.Keys - left + {p};
    if puts(p).Stored? {
      StoredOneMore(open, open.Keys - left, p, puts);
    } else {
      UnstoredCounts(open, open.Keys - left, p, puts);
    }
  }

  lemma ShutNext(books: Ledger, left: set<string>, p: string, puts: string -> PutOutcome)
    requires InOrder(books) && p in left && left <= books.open.Keys
    ensures var l := Shut(books, books.open.Keys - left, puts);
            && InOrder(l) && p in l.open && l.open[p] == books.open[p]
            && HandedOver(l, p, puts(p)) == Shut(books, books.open.Keys - (left - {p}), puts)
  {
    var done := books.open.Keys - left;
    assert books.open.Keys - (left - {p}) == done + {p};
    ShutInOrder(books, done, puts);
    InOrderHasOneKeyEach(books);
    ShutKeepsKeys(books, done, puts);
    ShutOneMore(books, done, p, puts);
  }

  lemma WithoutNothing(s: set<string>)
    ensures s - {} == s
  {
  }

  lemma WithoutItself(s: set<string>)
    ensures s - s == {}
  {
  }

  ////////// The writer itself

  class EventWriter {
    const store: Store
    const flat: Flattening
    const prefix: string
    const config: Config
    var base: Option<IngestTime>
    var no: int
    var open: map<string, OpenFile>
    var parts: map<string, nat>
    var filesWritten: nat
    var rowsWritten: nat
    var failures: nat
    ghost const initial: map<string, File>
    ghost var issued: map<string, string>
    ghost var given: map<string, seq<Row>>
    ghost var stored: set<string>
    ghost var refused: set<string>
    ghost var appended: nat
    ghost var lost: nat
    ghost var entries: seq<Entry>

    ghost function Settings(): Setup {
      Setup(flat, prefix, config)
    }

    ghost function Tallies(): Counters
      reads this
    {
      Counters(filesWritten, rowsWritten, failures)
    }

    ghost function Books(): Ledger
      reads this, store
    {
      Ledger(Record(issued, given, stored, refused), store.objects, parts, open, initial, appended, lost)
    }

    ghost function Value(): Progress
      reads this, store
    {
      Progress(base, no, Books(), entries)
    }

    ghost predicate Valid()
      reads this, store
    {
      InOrder(Books())
    }

    constructor (store: Store, flat: Flattening, prefix: string, config: Config)
      ensures Valid() && this.store == store && Settings() == Setup(flat, prefix, config)
      ensures Value() == NewWriter(store.objects) && Tallies() == Counters(0, 0, 0)
    {
      this.store, this.flat, this.prefix, this.config := store, flat, prefix, config;
      base, no, open, parts := None, 0, map[], map[];
      filesWritten, rowsWritten, failures := 0, 0, 0;
      initial, issued, given, stored, refused, appended, lost, entries := store.objects, map[], map[], {}, {}, 0, 0, [];
      new;
      assert Value() == NewWriter(store.objects);
      NewWriterInOrder(store.objects);
    }

    /** Finish a partition's file and hand it to the store. */
    method HandOver(partition: string, outcome: PutOutcome) returns (ok: bool)
      requires partition in open && open[partition].key !in store.objects
      modifies this`open, this`filesWritten, this`rowsWritten, this`stored, this`refused, this`lost, store
      ensures Books() == HandedOver(old(Books()), partition, outcome)
      ensures ok <==> outcome.Stored?
      ensures Tallies() == if ok then Stowed(old(Tallies()), old(open)[partition].total) else old(Tallies())
      ensures store.clashes == old(store.clashes)
    {
      var f := open[partition];
      open := open - {partition};
      ok := store.Put(f.key, Closing(f), outcome);
      if outcome.Refused? {
        refused, lost := refused + {f.key}, lost + f.total;
      } else {
        stored := stored + {f.key};
      }
      if ok {
        filesWritten := filesWritten + 1;
        rowsWritten := rowsWritten + f.total;
      }
    }

    /** Close a partition's file, if it has one, under a key the store does not have. */
    method Roll(partition: string, outcome: PutOutcome) returns (ok: bool)
      requires Valid()
      modifies this`open, this`filesWritten, this`rowsWritten, this`stored, this`refused, this`lost, store
      ensures Valid() && store.clashes == old(store.clashes)
      ensures ok <==> partition !in old(open) || outcome.Stored?
      ensures Books() == HandedOver(old(Books()), partition, outcome)
      ensures Tallies() == if ok && partition in old(open) then Stowed(old(Tallies()), old(open)[partition].total) else old(Tallies())
    {
      ghost var books := Books();
      HandedOverInOrder(books, partition, outcome);
      if partition !in open {
        return true;
      }
      OpenKeyIsFree(books, partition);
      ok := HandOver(partition, outcome);
    }

    /** Open a file under the next number of its directory, which the first use of a directory lists to find. */
    method StartFile(partition: string, at: IngestTime, lists: bool) returns (ok: bool)
      requires partition !in open
      modifies this`open, this`parts, this`issued, this`given
      ensures ok <==> lists || DirAt(Settings(), partition, at) in old(parts)
      ensures Books() == if ok then Begun(Settings(), old(Books()), partition, at) else old(Books())
    {
      var dir := Keys.DirFor(prefix, partition, Seconds(at));
      var part: nat;
      if dir in parts {
        part := parts[dir];
      } else if !lists {
        return false;
      } else {
        var listing := store.List(dir);
        part := Keys.NextPart(listing);
        ListingGivesPart(store.objects, dir, listing);
      }
      OpenAs(partition, at, dir, part);
      ok := true;
    }

    method OpenAs(partition: string, at: IngestTime, dir: string, part: nat)
      modifies this`open, this`parts, this`issued, this`given
      ensures Books() == Started(old(Books()), partition, dir, part, NewFile(config, at, dir, part))
    {
      var f := NewFile(config, at, dir, part);
      parts := parts[dir := part + 1];
      open := open[partition := f];
      issued, given := issued[f.key := partition], given[f.key := []];
    }

    method RollIfDue(partition: string, at: IngestTime, put: PutOutcome) returns (ok: bool)
      requires Valid()
      modifies this`open, this`filesWritten, this`rowsWritten, this`stored, this`refused, this`lost, store
      ensures store.clashes == old(store.clashes)
      ensures ok <==> Rolls(Settings(), old(Books()), partition, at) ==> put.Stored?
      ensures Books() == RolledIfDue(Settings(), old(Books()), partition, at, put)
      ensures Tallies() == TalliesAfterRolling(old(Tallies()), Settings(), old(Books()), partition, at, put)
    {
      ok := true;
      if partition in open && Due(config, open[partition], at) {
        ok := Roll(partition, put);
      }
    }

    /** Leave the partition with a file this event may go to: its own, or a new and empty one. */
    method MakeReady(partition: string, at: IngestTime, weather: Weather) returns (ok: bool)
      requires Valid()
      modifies this`open, this`parts, this`issued, this`given, this`filesWritten, this`rowsWritten, this`stored,
               this`refused, this`lost, store
      ensures store.clashes == old(store.clashes)
      ensures ok <==> Accepts(Settings(), old(Books()), partition, at, weather)
      ensures Books() == MadeReady(Settings(), old(Books()), partition, at, weather)
      ensures Tallies() == TalliesAfterRolling(old(Tallies()), Settings(), old(Books()), partition, at, weather.put)
    {
      ok := RollIfDue(partition, at, weather.put);
      if !ok {
        return;
      }
      if partition !in open {
        ok := StartFile(partition, at, weather.lists);
      }
    }

    /** Number an event and give its rows to its partition's file. */
    method Take(partition: string, e: Event)
      requires base.Some? && partition in open
      modifies this`no, this`open, this`given, this`appended, this`entries
      ensures Value() == Taken(Settings(), old(Value()), partition, e)
    {
      no := no + 1;
      var rows := flat(e, no, base.value);
      entries := entries + [Entry(open[partition].key, Numbered(no, e))];
      Give(partition, rows);
    }

    /** Give rows to the partition's file, closing a row group once it is large enough. */
    method Give(partition: string, rows: seq<Row>)
      requires partition in open
      modifies this`open, this`given, this`appended
      ensures Books() == Given(config, old(Books()), partition, rows)
    {
      var f := open[partition];
      open := open[partition := Filled(config, f, rows)];
      given := Grown(given, f.key, rows);
      appended := appended + |rows|;
    }

    /** The writer's first event anchors its elapsed times. */
    method Anchor(at: IngestTime)
      modifies this`base
      ensures base == Some(Anchored(old(base), at))
      ensures Books() == old(Books()) && Tallies() == old(Tallies())
    {
      if base.None? {
        base := Some(at);
      }
    }

    /** Anchor the writer and make its partition ready, whatever comes of the event. */
    method Prepare(partition: string, at: IngestTime, weather: Weather) returns (ok: bool)
      requires Valid()
      modifies this, store
      ensures store.clashes == old(store.clashes)
      ensures ok <==> Accepts(Settings(), old(Books()), partition, at, weather)
      ensures Value() == old(Value()).(base := Some(Anchored(old(base), at)),
                                       books := MadeReady(Settings(), old(Books()), partition, at, weather))
      ensures Tallies() == TalliesAfterRolling(old(Tallies()), Settings(), old(Books()), partition, at, weather.put)
    {
      Anchor(at);
      ok := MakeReady(partition, at, weather);
    }

    method Submit(partition: string, e: Event, weather: Weather) returns (ok: bool)
      requires Valid() && partition == PartitionName(e.symbol)
      modifies this, store
      ensures store.clashes == old(store.clashes)
      ensures ok <==> Accepts(Settings(), old(Books()), partition, e.ingest, weather)
      ensures Value() == Appended(Settings(), old(Value()), e, weather)
      ensures Tallies() == TalliesAfterRolling(old(Tallies()), Settings(), old(Books()), partition, e.ingest, weather.put)
    {
      ok := Prepare(partition, e.ingest, weather);
      if ok {
        Take(partition, e);
      }
    }

    /**
     Append an event, first rolling its partition's file if it is due. An error drops the event
     and, if an upload failed, the rows of that file; nothing else.
     */
    method Append(e: Event, weather: Weather) returns (ok: bool)
      requires Valid()
      modifies this, store
      ensures Valid() && store.clashes == old(store.clashes)
      ensures Preserves(old(store.objects), store.objects)
      ensures ok <==> Accepts(Settings(), old(Books()), PartitionName(e.symbol), e.ingest, weather)
      ensures Value() == Appended(Settings(), old(Value()), e, weather)
      ensures SameElsewhere(old(open), open, PartitionName(e.symbol))
      ensures store.objects == ObjectsAfterRolling(Settings(), old(Books()), PartitionName(e.symbol), e.ingest, weather.put)
      ensures lost == old(lost) + LostByRolling(Settings(), old(Books()), PartitionName(e.symbol), e.ingest, weather.put)
      ensures Tallies() == TalliesAfterRolling(old(Tallies()), Settings(), old(Books()), PartitionName(e.symbol), e.ingest, weather.put)
    {
      ghost var before := Value();
      AppendedInOrder(Settings(), before, e, weather);
      AppendTouchesOnePartition(Settings(), before, e, weather);
      RollingPreserves(Settings(), before.books, PartitionName(e.symbol), e.ingest, weather.put);
      ok := Submit(PartitionName(e.symbol), e, weather);
    }

    /** Close one file for good, whatever comes of it. */
    method Finish(partition: string, outcome: PutOutcome) returns (ok: bool)
      requires Valid() && partition in open
      modifies this`open, this`filesWritten, this`rowsWritten, this`failures, this`stored, this`refused, this`lost, store
      ensures Valid() && (ok <==> outcome.Stored?) && store.clashes == old(store.clashes)
      ensures Books() == HandedOver(old(Books()), partition, outcome)
      ensures Tallies() == AfterClosing(old(Tallies()), old(open)[partition].total, ok)
    {
      ok := Roll(partition, outcome);
      if !ok {
        failures := failures + 1;
      }
    }

    /** Close one of the files left. */
    method CloseNext(left: set<string>, puts: string -> PutOutcome, ghost books: Ledger, ghost tallies: Counters)
      returns (p: string, ok: bool)
      requires InOrder(books) && left != {} && left <= books.open.Keys
      requires Books() == Shut(books, books.open.Keys - left, puts)
      requires Tallies() == AfterClosingAll(tallies, books.open, books.open.Keys - left, puts)
      modifies this`open, this`filesWritten, this`rowsWritten, this`failures, this`stored, this`refused, this`lost, store
      ensures p in left && Books() == Shut(books, books.open.Keys - (left - {p}), puts)
      ensures (ok <==> puts(p).Stored?) && store.clashes == old(store.clashes)
      ensures Tallies() == AfterClosingAll(tallies, books.open, books.open.Keys - (left - {p}), puts)
      ensures failures == old(failures) + if ok then 0 else 1
    {
      p :| p in left;
      ShutNext(books, left, p, puts);
      ClosedOneMore(tallies, books.open, left, p, puts);
      ok := Finish(p, puts(p));
    }

    /** The open files one by one, in any order. */
    method CloseThese(puts: string -> PutOutcome) returns (ok: bool)
      requires Valid()
      modifies this`open, this`filesWritten, this`rowsWritten, this`failures, this`stored, this`refused, this`lost, store
      ensures Books() == Shut(old(Books()), old(open).Keys, puts) && store.clashes == old(store.clashes)
      ensures ok <==> failures == old(failures)
      ensures Tallies() == AfterClosingAll(old(Tallies()), old(open), old(open).Keys, puts)
    {
      var left := open.Keys;
      ok := true;
      ghost var books, tallies := Books(), Tallies();
      ShutNone(books, puts);
      NoOutcomes(books.open, puts);
      WithoutItself(left);
      while left != {}
        modifies this`open, this`filesWritten, this`rowsWritten, this`failures, this`stored, this`refused, this`lost, store
        invariant left <= books.open.Keys && store.clashes == old(store.clashes)
        invariant Books() == Shut(books, books.open.Keys - left, puts)
        invariant failures >= old(failures) && (ok <==> failures == old(failures))
        invariant Tallies() == AfterClosingAll(tallies, books.open, books.open.Keys - left, puts)
        decreases left
      {
        var p, closed := CloseNext(left, puts, books, tallies);
        left, ok := left - {p}, ok && closed;
      }
      assert left == {};
      WithoutNothing(books.open.Keys);
    }

    /**
     Close every open file; one failure does not keep the others from being tried. Exactly the
     rows of the files refused are lost.
     */
    method Close(puts: string -> PutOutcome) returns (ok: bool)
      requires Valid()
      modifies this`open, this`filesWritten, this`rowsWritten, this`failures, this`stored, this`refused, this`lost, store
      ensures Valid() && store.clashes == old(store.clashes) && open == map[]
      ensures Preserves(old(store.objects), store.objects)
      ensures Books() == Shut(old(Books()), old(open).Keys, puts)
      ensures lost == old(lost) + Sum(Losses(old(open), old(open).Keys, puts))
      ensures ok <==> Unstored(old(open).Keys, puts) == {}
      ensures Tallies() == AfterClosingAll(old(Tallies()), old(open), old(open).Keys, puts)
    {
      ShutAll(Books(), puts);
      ok := CloseThese(puts);
      assert ok <==> |Unstored(old(open).Keys, puts)| == 0;
    }
  }
}
