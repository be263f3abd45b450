/**
 What one call of the archive writer makes of it, as functions on values
 (crates/ma-persist/src/writer.rs): when a file is due, what key a new one gets, when an append
 succeeds, and what it leaves.
 */
module WriterSteps {
  import opened Types
  import opened Codec
  import opened CodecRoundTrip
  import opened ArchiveLedger
  import Keys

  ////////// What the writer decides by

  /** Rows to a row group, seconds to a roll window, and the longest a file stays open, in nanoseconds. */
  datatype Config = Config(rowGroupRows: nat, rollEvery: nat, maxOpen: int)

  const SECOND := 1_000_000_000

  function Seconds(at: IngestTime): nat {
    if at.wall < 0 then 0 else at.wall / SECOND
  }

  function WindowOf(c: Config, at: IngestTime): int {
    Seconds(at) / Max(c.rollEvery, 1)
  }

  /** The file must be closed before this event: another window, or open too long. */
  predicate Due(c: Config, f: OpenFile, at: IngestTime) {
    f.window != WindowOf(c, at) || Max(0, at.mono - f.openedAt.mono) >= c.maxOpen
  }

  function SafeChar(c: char): char {
    if 'a' <= c <= 'z' || 'A' <= c <= 'Z' || '0' <= c <= '9' || c in {'-', '_', '.'} then c else '_'
  }

  /** A symbol as a path component. */
  function PartitionName(symbol: string): string {
    var safe := seq(|symbol|, i requires 0 <= i < |symbol| => SafeChar(symbol[i]));
    if forall i | 0 <= i < |safe| :: safe[i] == '.' then "unknown" else safe
  }

  /** Whether a listing works, and what comes of an upload. */
  datatype Weather = Weather(lists: bool, put: PutOutcome)

  function NewFile(c: Config, at: IngestTime, dir: string, part: nat): OpenFile {
    OpenFile(WindowOf(c, at), at, Keys.KeyFor(dir, part), [], [], 0)
  }

  /** How an event becomes rows, given its number and the writer's first event. */
  type Flattening = (Event, int, IngestTime) -> seq<Row>

  /** What a writer is made with. */
  datatype Setup = Setup(flat: Flattening, prefix: string, config: Config)

  ////////// The next part of a directory

  ghost function Listed(objects: map<string, File>, dir: string): set<string> {
    set k | k in objects && dir <= k
  }

  ghost function Enumerated(keys: set<string>): seq<string> {
    if keys == {} then [] else var k :| k in keys; Enumerated(keys - {k}) + [k]
  }

  lemma {:induction false} EnumeratedHasAll(keys: set<string>)
    ensures forall k :: k in Enumerated(keys) <==> k in keys
  {
    if keys != {} {
      var k :| k in keys && Enumerated(keys) == Enumerated(keys - {k}) + [k];
      EnumeratedHasAll(keys - {k});
    }
  }

  /** The number after the highest the store has in this directory. */
  ghost function PartFor(objects: map<string, File>, dir: string): nat {
    Keys.NextPart(Enumerated(Listed(objects, dir)))
  }

  /** Any listing of the directory gives it. */
  lemma ListingGivesPart(objects: map<string, File>, dir: string, listing: seq<string>)
    requires forall k :: k in listing <==> k in objects && dir <= k
    ensures Keys.NextPart(listing) == PartFor(objects, dir)
  {
    EnumeratedHasAll(Listed(objects, dir));
    Keys.NextPartIgnoresOrder(listing, Enumerated(Listed(objects, dir)));
  }

  lemma PartForIsFree(objects: map<string, File>, dir: string, n: nat)
    requires IsDir(dir) && n >= PartFor(objects, dir)
    ensures Keys.KeyFor(dir, n) !in objects
  {
    EnumeratedHasAll(Listed(objects, dir));
    Keys.NextPartIsNew(Enumerated(Listed(objects, dir)), dir, n);
    assert dir <= Keys.KeyFor(dir, n);
  }

  ////////// Making ready

  /** The partition's file must be rolled before an event of this time. */
  ghost predicate Rolls(c: Setup, l: Ledger, p: string, at: IngestTime) {
    p in l.open && Due(c.config, l.open[p], at)
  }

  ghost function DirAt(c: Setup, p: string, at: IngestTime): string {
    Keys.DirFor(c.prefix, p, Seconds(at))
  }

  /** An event is taken unless its partition's due file is not stored, or a new one's directory cannot be listed. */
  ghost predicate Accepts(c: Setup, l: Ledger, p: string, at: IngestTime, weather: Weather) {
    && (Rolls(c, l, p, at) ==> weather.put.Stored?)
    && (Rolls(c, l, p, at) || p !in l.open ==> weather.lists || DirAt(c, p, at) in l.parts)
  }

  ghost function RolledIfDue(c: Setup, l: Ledger, p: string, at: IngestTime, put: PutOutcome): Ledger {
    if Rolls(c, l, p, at) then HandedOver(l, p, put) else l
  }

  ghost function PartAt(l: Ledger, dir: string): nat {
    if dir in l.parts then l.parts[dir] else PartFor(l.objects, dir)
  }

  /** A new file of the partition, under its directory's next number. */
  ghost function Begun(c: Setup, l: Ledger, p: string, at: IngestTime): Ledger {
    var dir := DirAt(c, p, at);
    var part := PartAt(l, dir);
    Started(l, p, dir, part, NewFile(c.config, at, dir, part))
  }

  /** The due file is rolled whatever comes of the event; a new one is begun only for an event that is taken. */
  ghost function MadeReady(c: Setup, l: Ledger, p: string, at: IngestTime, weather: Weather): Ledger {
    var rolled := RolledIfDue(c, l, p, at, weather.put);
    if Accepts(c, l, p, at, weather) && p !in rolled.open then Begun(c, rolled, p, at) else rolled
  }

  lemma DirsAreDirs(c: Setup, p: string, at: IngestTime)
    ensures IsDir(DirAt(c, p, at))
  {
    Keys.DirEnds(c.prefix, p, Seconds(at));
  }

  lemma BegunInOrder(c: Setup, l: Ledger, p: string, at: IngestTime)
    requires InOrder(l) && p !in l.open
    ensures InOrder(Begun(c, l, p, at)) && p in Begun(c, l, p, at).open
  {
    var dir := DirAt(c, p, at);
    var part := PartAt(l, dir);
    DirsAreDirs(c, p, at);
    assert NumbersFree(l.objects, l.parts, l.record.issued);
    forall n: nat | n >= part
      ensures Keys.KeyFor(dir, n) !in l.objects
    {
      if dir !in l.parts {
        PartForIsFree(l.objects, dir, n);
      }
    }
    StartedInOrder(l, p, dir, part, NewFile(c.config, at, dir, part));
  }

  lemma RolledIfDueInOrder(c: Setup, l: Ledger, p: string, at: IngestTime, put: PutOutcome)
    requires InOrder(l)
    ensures InOrder(RolledIfDue(c, l, p, at, put))
  {
    HandedOverInOrder(l, p, put);
  }

  lemma MadeReadyInOrder(c: Setup, l: Ledger, p: string, at: IngestTime, weather: Weather)
    requires InOrder(l)
    ensures InOrder(MadeReady(c, l, p, at, weather))
    ensures Accepts(c, l, p, at, weather) ==>
              var ready := MadeReady(c, l, p, at, weather); p in ready.open && ready.open[p].key in ready.record.given
  {
    var rolled := RolledIfDue(c, l, p, at, weather.put);
    RolledIfDueInOrder(c, l, p, at, weather.put);
    if p !in rolled.open {
      BegunInOrder(c, rolled, p, at);
    }
    if Accepts(c, l, p, at, weather) {
      OpenKeyIsRecorded(MadeReady(c, l, p, at, weather), p);
    }
  }

  ////////// Appending

  /** A file given more rows, which become a row group once there are enough. */
  function Filled(c: Config, f: OpenFile, rows: seq<Row>): OpenFile {
    var fuller := f.(rows := f.rows + rows, total := f.total + |rows|);
    if |fuller.rows| >= c.rowGroupRows then Flushed(fuller) else fuller
  }

  /** An event taken: the key of the file it went to, and its number. */
  datatype Entry = Entry(key: string, event: Numbered)

  /** All a writer has done: its first event's time, its event counter, its books, and the events it took. */
  datatype Progress = Progress(base: Option<IngestTime>, no: int, books: Ledger, entries: seq<Entry>)

  ghost function NewWriter(objects: map<string, File>): Progress {
    Progress(None, 0, Ledger(Record(map[], map[], {}, {}), objects, map[], map[], objects, 0, 0), [])
  }

  lemma NewWriterInOrder(objects: map<string, File>)
    ensures InOrder(NewWriter(objects).books)
  {
    assert RowsOpenIn(map[]) == 0;
  }

  function Anchored(base: Option<IngestTime>, at: IngestTime): IngestTime {
    if base.Some? then base.value else at
  }

  /** More rows for the partition's file. */
  ghost function Given(c: Config, l: Ledger, p: string, rows: seq<Row>): Ledger
    requires p in l.open
  {
    Added(l, p, rows, Filled(c, l.open[p], rows))
  }

  /** Number an event, give its rows to its partition's file, and note it. */
  ghost function Taken(c: Setup, v: Progress, p: string, e: Event): Progress
    requires v.base.Some? && p in v.books.open
  {
    var rows := c.flat(e, v.no + 1, v.base.value);
    Progress(v.base, v.no + 1, Given(c.config, v.books, p, rows),
             v.entries + [Entry(v.books.open[p].key, Numbered(v.no + 1, e))])
  }

  /** The writer after an append, which took the event or not. */
  ghost function Appended(c: Setup, v: Progress, e: Event, weather: Weather): Progress {
    var p := PartitionName(e.symbol);
    var ready := v.(base := Some(Anchored(v.base, e.ingest)), books := MadeReady(c, v.books, p, e.ingest, weather));
    if Accepts(c, v.books, p, e.ingest, weather) then Taken(c, ready, p, e) else ready
  }

  lemma FilledExtends(c: Config, f: OpenFile, rows: seq<Row>)
    ensures Extends(f, Filled(c, f, rows), rows)
  {
    FlushedExtends(f, rows);
  }

  lemma GivenInOrder(c: Config, l: Ledger, p: string, rows: seq<Row>)
    requires InOrder(l) && p in l.open
    ensures InOrder(Given(c, l, p, rows))
  {
    OpenKeyIsRecorded(l, p);
    FilledExtends(c, l.open[p], rows);
    AddedInOrder(l, p, rows, Filled(c, l.open[p], rows));
  }

  lemma TakenInOrder(c: Setup, v: Progress, p: string, e: Event)
    requires v.base.Some? && InOrder(v.books) && p in v.books.open
    ensures InOrder(Taken(c, v, p, e).books)
  {
    GivenInOrder(c.config, v.books, p, c.flat(e, v.no + 1, v.base.value));
  }

  lemma AppendedInOrder(c: Setup, v: Progress, e: Event, weather: Weather)
    requires InOrder(v.books)
    ensures InOrder(Appended(c, v, e, weather).books)
  {
    var p := PartitionName(e.symbol);
    MadeReadyInOrder(c, v.books, p, e.ingest, weather);
    if Accepts(c, v.books, p, e.ingest, weather) {
      TakenInOrder(c, v.(base := Some(Anchored(v.base, e.ingest)), books := MadeReady(c, v.books, p, e.ingest, weather)), p, e);
    }
  }

  ////////// What an append leaves alone

  /** Partition `p` apart, the same files are open with the same contents. */
  ghost predicate SameElsewhere(before: map<string, OpenFile>, after: map<string, OpenFile>, p: string) {
    forall q | q != p :: (q in after <==> q in before) && (q in before ==> after[q] == before[q])
  }

  /** Rows lost to a refused upload of the partition's due file. */
  ghost function LostByRolling(c: Setup, l: Ledger, p: string, at: IngestTime, put: PutOutcome): nat {
    if Rolls(c, l, p, at) && put.Refused? then l.open[p].total else 0
  }

  /** The files and rows known to be stored, and the closings that failed. */
  datatype Counters = Counters(files: nat, rows: nat, failures: nat)

  /** One more file with so many rows. */
  function Stowed(n: Counters, rows: nat): Counters {
    n.(files := n.files + 1, rows := n.rows + rows)
  }

  function AfterClosing(n: Counters, rows: nat, ok: bool): Counters {
    if ok then Stowed(n, rows) else n.(failures := n.failures + 1)
  }

  ghost function TalliesAfterRolling(n: Counters, c: Setup, l: Ledger, p: string, at: IngestTime, put: PutOutcome): Counters {
    if Rolls(c, l, p, at) && put.Stored? then Stowed(n, l.open[p].total) else n
  }

  /** What the store holds afterwards: what it did, and the due file unless it was refused. */
  ghost function ObjectsAfterRolling(c: Setup, l: Ledger, p: string, at: IngestTime, put: PutOutcome): map<string, File> {
    if Rolls(c, l, p, at) && !put.Refused? then l.objects[l.open[p].key := Closing(l.open[p])] else l.objects
  }

  lemma RollingTouchesOnePartition(c: Setup, l: Ledger, p: string, at: IngestTime, put: PutOutcome)
    ensures var after := RolledIfDue(c, l, p, at, put);
            && SameElsewhere(l.open, after.open, p) && after.record.given == l.record.given
            && after.objects == ObjectsAfterRolling(c, l, p, at, put)
            && after.lost == l.lost + LostByRolling(c, l, p, at, put) && after.appended == l.appended
            && after.initial == l.initial
  {
  }

  lemma ReadyTouchesOnePartition(c: Setup, l: Ledger, p: string, at: IngestTime, weather: Weather)
    ensures var after := MadeReady(c, l, p, at, weather);
            && SameElsewhere(l.open, after.open, p)
            && after.objects == ObjectsAfterRolling(c, l, p, at, weather.put)
            && after.lost == l.lost + LostByRolling(c, l, p, at, weather.put) && after.appended == l.appended
            && after.initial == l.initial
    ensures Accepts(c, l, p, at, weather) ==> p in MadeReady(c, l, p, at, weather).open
    ensures !Accepts(c, l, p, at, weather) ==> MadeReady(c, l, p, at, weather).record.given == l.record.given
  {
    RollingTouchesOnePartition(c, l, p, at, weather.put);
  }

  lemma RollingPreserves(c: Setup, l: Ledger, p: string, at: IngestTime, put: PutOutcome)
    requires InOrder(l)
    ensures Preserves(l.objects, ObjectsAfterRolling(c, l, p, at, put))
  {
    if p in l.open {
      OpenKeyIsFree(l, p);
    }
  }

  /**
   An append touches its own partition only: other files stay open as they are, the store gains
   the rolled file or nothing, and rows are lost only if that was refused.
   */
  lemma AppendTouchesOnePartition(c: Setup, v: Progress, e: Event, weather: Weather)
    ensures var p, l, after := PartitionName(e.symbol), v.books, Appended(c, v, e, weather).books;
            && SameElsewhere(l.open, after.open, p)
            && after.objects == ObjectsAfterRolling(c, l, p, e.ingest, weather.put)
            && after.lost == l.lost + LostByRolling(c, l, p, e.ingest, weather.put)
            && after.initial == l.initial
  {
    ReadyTouchesOnePartition(c, v.books, PartitionName(e.symbol), e.ingest, weather);
  }

  /**
   The event is taken exactly when it should be: it gets the next number, and its rows are the
   next of its partition's file; otherwise no number is used and no file gets a row.
   */
  lemma AppendTakesOrNot(c: Setup, v: Progress, e: Event, weather: Weather)
    requires InOrder(v.books)
    ensures var p, after := PartitionName(e.symbol), Appended(c, v, e, weather);
            var rows := c.flat(e, v.no + 1, Anchored(v.base, e.ingest));
            if Accepts(c, v.books, p, e.ingest, weather) then
              && after.no == v.no + 1 && p in after.books.open
              && after.books.appended == v.books.appended + |rows|
              && after.books.record.given == Grown(v.books.record.given, after.books.open[p].key, rows)
              && after.entries == v.entries + [Entry(after.books.open[p].key, Numbered(v.no + 1, e))]
            else
              && after.no == v.no && after.books.appended == v.books.appended
              && after.books.record.given == v.books.record.given && after.entries == v.entries
  {
    var p := PartitionName(e.symbol);
    ReadyTouchesOnePartition(c, v.books, p, e.ingest, weather);
    if Accepts(c, v.books, p, e.ingest, weather) {
      var rows := c.flat(e, v.no + 1, Anchored(v.base, e.ingest));
      NewFilesAreEmpty(c, v.books, p, e.ingest, weather, rows);
    }
  }

  lemma NewFilesAreEmpty(c: Setup, l: Ledger, p: string, at: IngestTime, weather: Weather, rows: seq<Row>)
    requires InOrder(l) && Accepts(c, l, p, at, weather)
    ensures var ready := MadeReady(c, l, p, at, weather);
            && p in ready.open
            && Grown(ready.record.given, ready.open[p].key, rows) == Grown(l.record.given, ready.open[p].key, rows)
  {
    var rolled := RolledIfDue(c, l, p, at, weather.put);
    RollingTouchesOnePartition(c, l, p, at, weather.put);
    if p !in rolled.open {
      RolledIfDueInOrder(c, l, p, at, weather.put);
      BegunIsEmpty(c, rolled, p, at, rows);
    }
  }

  lemma BegunIsEmpty(c: Setup, l: Ledger, p: string, at: IngestTime, rows: seq<Row>)
    requires InOrder(l) && p !in l.open
    ensures var after := Begun(c, l, p, at);
            p in after.open && Grown(after.record.given, after.open[p].key, rows) == Grown(l.record.given, after.open[p].key, rows)
  {
    BegunKeyIsNew(c, l, p, at);
    GrownFromNothing(l.record.given, Begun(c, l, p, at).open[p].key, rows);
  }

  lemma GrownFromNothing(given: map<string, seq<Row>>, key: string, rows: seq<Row>)
    requires key !in given
    ensures Grown(given[key := []], key, rows) == Grown(given, key, rows)
  {
  }

  lemma BegunKeyIsNew(c: Setup, l: Ledger, p: string, at: IngestTime)
    requires InOrder(l) && p !in l.open
    ensures var dir := DirAt(c, p, at); Keys.KeyFor(dir, PartAt(l, dir)) !in l.record.issued
    ensures l.record.given.Keys == l.record.issued.Keys
  {
    var dir := DirAt(c, p, at);
    DirsAreDirs(c, p, at);
    assert NumbersFree(l.objects, l.parts, l.record.issued);
  }

  ////////// Closing

  ghost function AllClosed(v: Progress, puts: string -> PutOutcome): Progress {
    v.(books := Shut(v.books, v.books.open.Keys, puts))
  }
}
