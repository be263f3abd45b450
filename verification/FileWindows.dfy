/**
 Which events share a file (crates/ma-persist/src/writer.rs): over any run of a writer the events
 of a file lie in one roll window, the one it is named after, and come soon enough after its
 first; and a file is kept open exactly as long as its own partition's events do.
 */
module FileWindows {
  import opened Types
  import opened Codec
  import opened CodecRoundTrip
  import opened ArchiveLedger
  import opened WriterSteps
  import opened WriterRuns
  import Keys

  ////////// Roll windows

  /** A roll window in nanoseconds; a shorter one than a second is a second. */
  function RollNanos(c: Config): int {
    Max(c.rollEvery, 1) * SECOND
  }

  /** The instant lies in this window; one before 1970 counts as 1970. */
  predicate InWindow(c: Config, at: IngestTime, w: int) {
    w * RollNanos(c) <= Max(0, at.wall) < (w + 1) * RollNanos(c)
  }

  lemma SecondsMeans(at: IngestTime)
    ensures Seconds(at) * SECOND <= Max(0, at.wall) < (Seconds(at) + 1) * SECOND
  {
  }

  lemma OnlyOneMultiple(n: int, per: int, v: int, w: int)
    requires per > 0 && v * per <= n < (v + 1) * per && w * per <= n < (w + 1) * per
    ensures v == w
  {
  }

  lemma WindowIs(c: Config, at: IngestTime)
    ensures InWindow(c, at, WindowOf(c, at))
  {
    var every, s, w := Max(c.rollEvery, 1), Seconds(at), WindowOf(c, at);
    SecondsMeans(at);
    assert w * every <= s < (w + 1) * every;
    assert w * RollNanos(c) == w * every * SECOND && (w + 1) * RollNanos(c) == (w + 1) * every * SECOND;
  }

  /** Both instants lie in one window. */
  ghost predicate SameWindow(c: Config, a: IngestTime, b: IngestTime) {
    exists w: int :: InWindow(c, a, w) && InWindow(c, b, w)
  }

  lemma SameWindowIs(c: Config, a: IngestTime, b: IngestTime)
    ensures SameWindow(c, a, b) <==> WindowOf(c, a) == WindowOf(c, b)
  {
    WindowIs(c, a);
    WindowIs(c, b);
    if w: int :| InWindow(c, a, w) && InWindow(c, b, w) {
      OnlyOneMultiple(Max(0, a.wall), RollNanos(c), w, WindowOf(c, a));
      OnlyOneMultiple(Max(0, b.wall), RollNanos(c), w, WindowOf(c, b));
    }
  }

  ////////// Which events may share a file

  /** An event of this time may go to a file whose first event is of that one: same window, and soon enough. */
  ghost predicate Joins(c: Config, first: IngestTime, at: IngestTime) {
    SameWindow(c, first, at) && Max(0, at.mono - first.mono) < c.maxOpen
  }

  /** The key is of a file for this symbol at this time: of its partition, and of its date and hour. */
  ghost predicate IsKeyFor(c: Setup, key: string, symbol: string, at: IngestTime) {
    exists part: nat :: key == Keys.KeyFor(Keys.DirFor(c.prefix, PartitionName(symbol), Seconds(at)), part)
  }

  /** The file's key names the directory of its first event, and all the others may share it with that one. */
  ghost predicate Lies(c: Setup, key: string, es: seq<Numbered>) {
    es != [] ==>
      var first := es[0].event;
      && IsKeyFor(c, key, first.symbol, first.ingest)
      && forall i | 0 < i < |es| ::
           PartitionName(es[i].event.symbol) == PartitionName(first.symbol) && Joins(c.config, first.ingest, es[i].event.ingest)
  }

  /** This is the partition's open file, and when its first event came. */
  ghost predicate Begins(c: Setup, v: Progress, p: string) {
    p in v.books.open &&
    var f := v.books.open[p];
    var es := FileOf(v.entries, f.key);
    && f.window == WindowOf(c.config, f.openedAt)
    && es != [] && es[0].event.ingest == f.openedAt && PartitionName(es[0].event.symbol) == p
  }

  ghost predicate Placed(c: Setup, v: Progress) {
    && (forall key :: Lies(c, key, FileOf(v.entries, key)))
    && (forall p | p in v.books.open :: Begins(c, v, p))
  }

  ////////// One append

  /** The file is due exactly if the event may not join it. */
  lemma DueExactlyWhen(c: Setup, v: Progress, p: string, at: IngestTime)
    requires Begins(c, v, p)
    ensures Due(c.config, v.books.open[p], at) <==> !Joins(c.config, FileOf(v.entries, v.books.open[p].key)[0].event.ingest, at)
  {
    SameWindowIs(c.config, v.books.open[p].openedAt, at);
  }

  /** The partition has a file and the event may go to it. */
  ghost predicate Current(c: Setup, v: Progress, p: string, at: IngestTime) {
    p in v.books.open && !Due(c.config, v.books.open[p], at)
  }

  /** The event goes to the partition's file of this key, opened then. */
  ghost predicate GoesTo(v: Progress, w: Progress, e: Event, f: OpenFile) {
    var p := PartitionName(e.symbol);
    && p in w.books.open && w.entries == v.entries + [Entry(f.key, Numbered(v.no + 1, e))]
    && w.books.open[p] == f.(groups := w.books.open[p].groups, rows := w.books.open[p].rows, total := w.books.open[p].total)
  }

  lemma TakenGoesTo(c: Setup, v: Progress, ready: Progress, p: string, e: Event)
    requires ready.base.Some? && ready.no == v.no && ready.entries == v.entries
    requires p in ready.books.open && p == PartitionName(e.symbol)
    ensures GoesTo(v, Taken(c, ready, p, e), e, ready.books.open[p])
    ensures Taken(c, ready, p, e).books.record.issued == ready.books.record.issued
  {
  }

  /** A current file takes the event. */
  lemma CurrentFileTakes(c: Setup, v: Progress, e: Event, weather: Weather)
    requires Current(c, v, PartitionName(e.symbol), e.ingest)
    ensures var w := Appended(c, v, e, weather);
            && GoesTo(v, w, e, v.books.open[PartitionName(e.symbol)]) && w.books.record.issued == v.books.record.issued
            && Takes(c, v, CallAppend(e, weather))
  {
    TakenGoesTo(c, v, v.(base := Some(Anchored(v.base, e.ingest))), PartitionName(e.symbol), e);
  }

  /** A new file for an event of this time. */
  ghost predicate IsNew(c: Setup, f: OpenFile, p: string, at: IngestTime, issued: map<string, string>) {
    && f.key !in issued && f.window == WindowOf(c.config, at) && f.openedAt == at
    && exists part: nat :: f.key == Keys.KeyFor(DirAt(c, p, at), part)
  }

  lemma BegunIsNew(c: Setup, l: Ledger, p: string, at: IngestTime)
    requires InOrder(l) && p !in l.open
    ensures var after := Begun(c, l, p, at);
            p in after.open && IsNew(c, after.open[p], p, at, l.record.issued) && after.record.issued == l.record.issued[after.open[p].key := p]
  {
    BegunKeyIsNew(c, l, p, at);
  }

  lemma ReadyIsNew(c: Setup, l: Ledger, p: string, at: IngestTime, weather: Weather)
    requires InOrder(l) && Accepts(c, l, p, at, weather) && (p in l.open ==> Due(c.config, l.open[p], at))
    ensures var ready := MadeReady(c, l, p, at, weather);
            p in ready.open && IsNew(c, ready.open[p], p, at, l.record.issued) && ready.record.issued == l.record.issued[ready.open[p].key := p]
  {
    var rolled := RolledIfDue(c, l, p, at, weather.put);
    RolledIfDueInOrder(c, l, p, at, weather.put);
    BegunIsNew(c, rolled, p, at);
  }

  /** The event begins a file. */
  ghost predicate BeginsFile(c: Setup, v: Progress, w: Progress, e: Event) {
    var p := PartitionName(e.symbol);
    && p in w.books.open && GoesTo(v, w, e, w.books.open[p])
    && IsNew(c, w.books.open[p], p, e.ingest, v.books.record.issued)
    && w.books.record.issued == v.books.record.issued[w.books.open[p].key := p]
  }

  lemma BeginsWith(c: Setup, v: Progress, w: Progress, e: Event, f: OpenFile)
    requires IsNew(c, f, PartitionName(e.symbol), e.ingest, v.books.record.issued) && GoesTo(v, w, e, f)
    requires w.books.record.issued == v.books.record.issued[f.key := PartitionName(e.symbol)]
    ensures BeginsFile(c, v, w, e)
  {
  }

  lemma TakenBegins(c: Setup, v: Progress, ready: Progress, p: string, e: Event)
    requires ready.base.Some? && p == PartitionName(e.symbol) && ready.no == v.no && ready.entries == v.entries
    requires p in ready.books.open && IsNew(c, ready.books.open[p], p, e.ingest, v.books.record.issued)
    requires ready.books.record.issued == v.books.record.issued[ready.books.open[p].key := p]
    ensures BeginsFile(c, v, Taken(c, ready, p, e), e)
  {
    TakenGoesTo(c, v, ready, p, e);
    BeginsWith(c, v, Taken(c, ready, p, e), e, ready.books.open[p]);
  }

  lemma TakesIsTaken(c: Setup, v: Progress, e: Event, weather: Weather)
    requires Takes(c, v, CallAppend(e, weather))
    ensures var p := PartitionName(e.symbol);
            var books := MadeReady(c, v.books, p, e.ingest, weather);
            p in books.open && Appended(c, v, e, weather) == Taken(c, v.(base := Some(Anchored(v.base, e.ingest)), books := books), p, e)
  {
  }

  /** Otherwise an event that is taken begins a file, under a new key of its own directory. */
  lemma OthersBegin(c: Setup, v: Progress, e: Event, weather: Weather)
    requires InOrder(v.books) && !Current(c, v, PartitionName(e.symbol), e.ingest) && Takes(c, v, CallAppend(e, weather))
    ensures BeginsFile(c, v, Appended(c, v, e, weather), e)
  {
    var p := PartitionName(e.symbol);
    var books := MadeReady(c, v.books, p, e.ingest, weather);
    ReadyIsNew(c, v.books, p, e.ingest, weather);
    TakesIsTaken(c, v, e, weather);
    TakenBegins(c, v, v.(base := Some(Anchored(v.base, e.ingest)), books := books), p, e);
  }

  /** And one that is not taken leaves the partition without a file. */
  lemma OthersEnd(c: Setup, v: Progress, e: Event, weather: Weather)
    requires !Current(c, v, PartitionName(e.symbol), e.ingest) && !Takes(c, v, CallAppend(e, weather))
    ensures var w := Appended(c, v, e, weather);
            PartitionName(e.symbol) !in w.books.open && w.entries == v.entries && w.books.record.issued == v.books.record.issued
  {
  }

  ////////// Every run

  lemma LiesOneMore(c: Setup, key: string, es: seq<Numbered>, n: Numbered)
    requires es != [] && Lies(c, key, es)
    requires PartitionName(n.event.symbol) == PartitionName(es[0].event.symbol) && Joins(c.config, es[0].event.ingest, n.event.ingest)
    ensures Lies(c, key, es + [n])
  {
  }

  lemma FirstLies(c: Setup, key: string, n: Numbered, part: nat)
    requires key == Keys.KeyFor(DirAt(c, PartitionName(n.event.symbol), n.event.ingest), part)
    ensures Lies(c, key, [n])
  {
  }

  /** One more entry touches its own file only. */
  lemma OthersLie(c: Setup, v: Progress, entry: Entry)
    requires forall key :: Lies(c, key, FileOf(v.entries, key))
    requires Lies(c, entry.key, FileOf(v.entries + [entry], entry.key))
    ensures forall key :: Lies(c, key, FileOf(v.entries + [entry], key))
  {
    forall key ensures Lies(c, key, FileOf(v.entries + [entry], key)) {
      if key != entry.key {
        FileOfOneMore(v.entries, entry, key);
        assert FileOf(v.entries, key) + [] == FileOf(v.entries, key);
      }
    }
  }

  /** A file that stays open, and gets no event or a later one, begins as it did. */
  lemma StillBegins(c: Setup, v: Progress, w: Progress, q: string, entry: Entry)
    requires Begins(c, v, q) && q in w.books.open && w.entries == v.entries + [entry]
    requires var f, g := v.books.open[q], w.books.open[q]; f.key == g.key && f.window == g.window && f.openedAt == g.openedAt
    ensures Begins(c, w, q)
  {
    FileOfOneMore(v.entries, entry, v.books.open[q].key);
  }

  lemma NewFileIsEmpty(c: Setup, v: Progress, key: string)
    requires InOrder(v.books) && Journaled(c, v) && key !in v.books.record.issued
    ensures FileOf(v.entries, key) == []
  {
    assert Consistent(v.books.record, v.books.objects, v.books.parts, v.books.open);
    NoFileWithoutEntry(v.entries, key);
  }

  /** An event that joins its partition's file keeps all files right. */
  lemma JoinedIsPlaced(c: Setup, v: Progress, w: Progress, e: Event, f: OpenFile)
    requires Placed(c, v) && Begins(c, v, PartitionName(e.symbol)) && f == v.books.open[PartitionName(e.symbol)]
    requires Joins(c.config, FileOf(v.entries, f.key)[0].event.ingest, e.ingest)
    requires GoesTo(v, w, e, f) && SameElsewhere(v.books.open, w.books.open, PartitionName(e.symbol))
    ensures Placed(c, w)
  {
    var entry := Entry(f.key, Numbered(v.no + 1, e));
    FileOfOneMore(v.entries, entry, f.key);
    LiesOneMore(c, f.key, FileOf(v.entries, f.key), entry.event);
    OthersLie(c, v, entry);
    forall q | q in w.books.open ensures Begins(c, w, q) {
      StillBegins(c, v, w, q, entry);
    }
  }

  /** And so does one that begins a file. */
  lemma BegunIsPlaced(c: Setup, v: Progress, w: Progress, e: Event, f: OpenFile)
    requires Placed(c, v) && FileOf(v.entries, f.key) == []
    requires IsNew(c, f, PartitionName(e.symbol), e.ingest, v.books.record.issued)
    requires GoesTo(v, w, e, f) && SameElsewhere(v.books.open, w.books.open, PartitionName(e.symbol))
    ensures Placed(c, w)
  {
    var entry := Entry(f.key, Numbered(v.no + 1, e));
    FileOfOneMore(v.entries, entry, f.key);
    assert FileOf(w.entries, f.key) == [entry.event];
    var part: nat :| f.key == Keys.KeyFor(DirAt(c, PartitionName(e.symbol), e.ingest), part);
    FirstLies(c, f.key, entry.event, part);
    OthersLie(c, v, entry);
    forall q | q in w.books.open ensures Begins(c, w, q) {
      if q != PartitionName(e.symbol) {
        StillBegins(c, v, w, q, entry);
      }
    }
  }

  lemma JoiningIsPlaced(c: Setup, v: Progress, e: Event, weather: Weather)
    requires Placed(c, v) && Current(c, v, PartitionName(e.symbol), e.ingest)
    ensures Placed(c, Appended(c, v, e, weather))
  {
    var p := PartitionName(e.symbol);
    CurrentFileTakes(c, v, e, weather);
    AppendTouchesOnePartition(c, v, e, weather);
    assert Begins(c, v, p);
    DueExactlyWhen(c, v, p, e.ingest);
    JoinedIsPlaced(c, v, Appended(c, v, e, weather), e, v.books.open[p]);
  }

  lemma BeginningIsPlaced(c: Setup, v: Progress, e: Event, weather: Weather)
    requires InOrder(v.books) && Journaled(c, v) && Placed(c, v)
    requires !Current(c, v, PartitionName(e.symbol), e.ingest) && Takes(c, v, CallAppend(e, weather))
    ensures Placed(c, Appended(c, v, e, weather))
  {
    var w := Appended(c, v, e, weather);
    OthersBegin(c, v, e, weather);
    AppendTouchesOnePartition(c, v, e, weather);
    NewFileIsEmpty(c, v, w.books.open[PartitionName(e.symbol)].key);
    BegunIsPlaced(c, v, w, e, w.books.open[PartitionName(e.symbol)]);
  }

  lemma ServedIsPlaced(c: Setup, v: Progress, call: Call)
    requires InOrder(v.books) && Journaled(c, v) && Placed(c, v)
    ensures Placed(c, Served(c, v, call))
  {
    match call {
      case CallAppend(e, weather) =>
        if Current(c, v, PartitionName(e.symbol), e.ingest) {
          JoiningIsPlaced(c, v, e, weather);
        } else if Takes(c, v, call) {
          BeginningIsPlaced(c, v, e, weather);
        } else {
          EndingIsPlaced(c, v, e, weather);
        }
      case CallClose(puts) =>
        ShutOnlyCloses(v.books, v.books.open.Keys, puts);
    }
  }

  lemma EndingIsPlaced(c: Setup, v: Progress, e: Event, weather: Weather)
    requires Placed(c, v) && !Current(c, v, PartitionName(e.symbol), e.ingest) && !Takes(c, v, CallAppend(e, weather))
    ensures Placed(c, Appended(c, v, e, weather))
  {
    var w := Appended(c, v, e, weather);
    OthersEnd(c, v, e, weather);
    AppendTouchesOnePartition(c, v, e, weather);
    forall q | q in w.books.open ensures Begins(c, w, q) {
      assert Begins(c, v, q);
    }
  }

  /**
   Over every run: all events of a file are in the roll window of its first, come less than the
   limit after it on the ingest clock, and are of its partition; the key names that partition
   and the date and hour of the first event.
   */
  lemma {:induction false} RanIsPlaced(c: Setup, objects: map<string, File>, calls: seq<Call>)
    ensures Placed(c, Ran(c, objects, calls))
  {
    if calls != [] {
      var front := calls[..|calls| - 1];
      RanIsPlaced(c, objects, front);
      RanInOrder(c, objects, front);
      RanIsJournaled(c, objects, front);
      ServedIsPlaced(c, Ran(c, objects, front), calls[|calls| - 1]);
    }
  }

  ////////// What a file holds

  /** Windows of a whole fraction of an hour do not cross hours. */
  lemma SameWindowSameHour(c: Config, a: IngestTime, b: IngestTime)
    requires c.rollEvery > 0 && Keys.HOUR % c.rollEvery == 0 && SameWindow(c, a, b)
    ensures Seconds(a) / Keys.HOUR == Seconds(b) / Keys.HOUR
  {
    SameWindowIs(c, a, b);
    var n := Keys.HOUR / c.rollEvery;
    assert n * c.rollEvery == Keys.HOUR;
    HourOfWindow(Seconds(a), c.rollEvery, n);
    HourOfWindow(Seconds(b), c.rollEvery, n);
  }

  lemma HourOfWindow(s: nat, every: nat, n: nat)
    requires every > 0 && n > 0 && n * every == Keys.HOUR
    ensures s / Keys.HOUR == s / every / n
  {
    var w, h := s / every, s / every / n;
    QuotientBounds(s, every);
    QuotientBounds(w, n);
    TimesKeepsOrder(h * n, w, every);
    TimesKeepsOrder(w + 1, (h + 1) * n, every);
    Regrouped(h, n, every);
    Regrouped(h + 1, n, every);
    OnlyOneMultiple(s, Keys.HOUR, h, s / Keys.HOUR);
  }

  lemma Regrouped(h: int, n: int, every: int)
    ensures h * n * every == h * (n * every)
  {
  }

  lemma QuotientBounds(s: nat, every: nat)
    requires every > 0
    ensures s / every * every <= s && s + 1 <= (s / every + 1) * every
  {
  }

  lemma TimesKeepsOrder(a: int, b: int, k: nat)
    requires a <= b
    ensures a * k <= b * k
  {
  }

  lemma SameHourSameDir(prefix: string, partition: string, s: nat, t: nat)
    requires s / Keys.HOUR == t / Keys.HOUR
    ensures Keys.DirFor(prefix, partition, s) == Keys.DirFor(prefix, partition, t)
  {
    Keys.HourParts(s);
    Keys.HourParts(t);
  }

  /**
   An event may lie in a file whose first event is `first`: it is of its partition, in its roll
   window, and soon after it; the key is the first event's, and if windows divide the hour every
   event's own.
   */
  ghost predicate BelongsWith(c: Setup, key: string, first: Event, e: Event, later: bool) {
    && PartitionName(e.symbol) == PartitionName(first.symbol) && SameWindow(c.config, first.ingest, e.ingest)
    && (later ==> Max(0, e.ingest.mono - first.ingest.mono) < c.config.maxOpen)
    && IsKeyFor(c, key, first.symbol, first.ingest)
    && (c.config.rollEvery > 0 && Keys.HOUR % c.config.rollEvery == 0 ==> IsKeyFor(c, key, e.symbol, e.ingest))
  }

  /** So it is for every event of every file, after any calls. */
  lemma EventsLieWhereTheirFileSays(c: Setup, objects: map<string, File>, calls: seq<Call>, key: string, i: nat)
    requires i < |FileOf(Ran(c, objects, calls).entries, key)|
    ensures var es := FileOf(Ran(c, objects, calls).entries, key); BelongsWith(c, key, es[0].event, es[i].event, i > 0)
  {
    RanIsPlaced(c, objects, calls);
    LiesWhereItSays(c, key, FileOf(Ran(c, objects, calls).entries, key), i);
  }

  lemma LiesWhereItSays(c: Setup, key: string, es: seq<Numbered>, i: nat)
    requires Lies(c, key, es) && i < |es|
    ensures BelongsWith(c, key, es[0].event, es[i].event, i > 0)
  {
    var first, e := es[0].event, es[i].event;
    SameWindowIs(c.config, first.ingest, e.ingest);
    if c.config.rollEvery > 0 && Keys.HOUR % c.config.rollEvery == 0 {
      SameWindowSameHour(c.config, first.ingest, e.ingest);
      SameHourSameDir(c.prefix, PartitionName(e.symbol), Seconds(first.ingest), Seconds(e.ingest));
    }
  }

  ////////// How long a file stays open

  /** This file is the partition's open one. */
  ghost predicate IsOpen(v: Progress, p: string, key: string) {
    p in v.books.open && v.books.open[p].key == key
  }

  /** The file has been issued and is nobody's open one. */
  ghost predicate IsClosed(v: Progress, key: string) {
    key in v.books.record.given && forall q | q in v.books.open :: v.books.open[q].key != key
  }

  /** The call does not close the partition's file whose first event was at this time. */
  ghost predicate LeavesOpen(c: Config, p: string, first: IngestTime, call: Call) {
    call.CallAppend? && (PartitionName(call.e.symbol) == p ==> Joins(c, first, call.e.ingest))
  }

  lemma GivenIsIssued(v: Progress)
    requires InOrder(v.books)
    ensures v.books.record.given.Keys == v.books.record.issued.Keys
    ensures forall p, q | p in v.books.open && q in v.books.open && v.books.open[p].key == v.books.open[q].key :: p == q
    ensures forall p | p in v.books.open :: v.books.open[p].key in v.books.record.given
  {
    assert Consistent(v.books.record, v.books.objects, v.books.parts, v.books.open);
  }

  /** What one append means for a key already issued: it stays the open one, or becomes or stays closed. */
  lemma AppendAndKey(c: Setup, v: Progress, e: Event, weather: Weather, key: string)
    requires InOrder(v.books) && Placed(c, v) && key in v.books.record.given
    ensures var p, w := PartitionName(e.symbol), Appended(c, v, e, weather);
            && SameElsewhere(v.books.open, w.books.open, p)
            && (IsOpen(w, p, key) <==> IsOpen(v, p, key) && Current(c, v, p, e.ingest))
            && key in w.books.record.given && v.entries <= w.entries
  {
    var p, w := PartitionName(e.symbol), Appended(c, v, e, weather);
    AppendTouchesOnePartition(c, v, e, weather);
    AppendedInOrder(c, v, e, weather);
    GivenIsIssued(v);
    GivenIsIssued(w);
    if Current(c, v, p, e.ingest) {
      CurrentFileTakes(c, v, e, weather);
    } else if Takes(c, v, CallAppend(e, weather)) {
      OthersBegin(c, v, e, weather);
    } else {
      OthersEnd(c, v, e, weather);
    }
  }

  /** What one call means for a key already issued. */
  ghost predicate Follows(c: Setup, v: Progress, w: Progress, call: Call, key: string) {
    && key in w.books.record.given && v.entries <= w.entries
    && match call
       case CallAppend(e, _) =>
         && SameElsewhere(v.books.open, w.books.open, PartitionName(e.symbol))
         && (IsOpen(w, PartitionName(e.symbol), key) <==>
               IsOpen(v, PartitionName(e.symbol), key) && Current(c, v, PartitionName(e.symbol), e.ingest))
       case CallClose(_) => w.books.open == map[]
  }

  lemma ServedFollows(c: Setup, v: Progress, call: Call, key: string)
    requires InOrder(v.books) && Placed(c, v) && key in v.books.record.given
    ensures Follows(c, v, Served(c, v, call), call, key)
  {
    if call.CallClose? {
      ShutOnlyCloses(v.books, v.books.open.Keys, call.puts);
    } else {
      AppendAndKey(c, v, call.e, call.weather, key);
    }
  }

  /** One call keeps the open file exactly if it leaves it open, and closes it for good otherwise. */
  lemma OneCallAndKey(c: Setup, v: Progress, w: Progress, call: Call, p: string, key: string)
    requires Begins(c, v, p) && v.books.open[p].key == key && Follows(c, v, w, call, key)
    requires forall q | q in v.books.open && v.books.open[q].key == key :: q == p
    ensures IsOpen(w, p, key) <==> LeavesOpen(c.config, p, FileOf(v.entries, key)[0].event.ingest, call)
    ensures !IsOpen(w, p, key) ==> IsClosed(w, key)
  {
    if call.CallAppend? && PartitionName(call.e.symbol) == p {
      DueExactlyWhen(c, v, p, call.e.ingest);
    }
  }

  lemma ClosedStaysClosed(c: Setup, v: Progress, w: Progress, call: Call, key: string)
    requires IsClosed(v, key) && Follows(c, v, w, call, key)
    ensures IsClosed(w, key)
  {
  }

  lemma {:induction false} FirstStays(entries: seq<Entry>, more: seq<Entry>, key: string)
    requires entries <= more && FileOf(entries, key) != []
    ensures FileOf(more, key) != [] && FileOf(more, key)[0] == FileOf(entries, key)[0]
  {
    if entries != more {
      FirstStays(entries, more[..|more| - 1], key);
    }
  }

  /** All of these calls leave the file open. */
  ghost predicate AllLeaveOpen(c: Config, p: string, first: IngestTime, calls: seq<Call>) {
    forall k | 0 <= k < |calls| :: LeavesOpen(c, p, first, calls[k])
  }

  /** The file is open exactly if all of these calls left it so, and otherwise closed. */
  ghost predicate OpenWhile(c: Setup, w: Progress, p: string, key: string, first: Numbered, calls: seq<Call>) {
    && (IsOpen(w, p, key) <==> AllLeaveOpen(c.config, p, first.event.ingest, calls))
    && (IsOpen(w, p, key) || IsClosed(w, key))
    && FileOf(w.entries, key) != [] && FileOf(w.entries, key)[0] == first
  }

  lemma AllLeaveOneMore(c: Config, p: string, first: IngestTime, calls: seq<Call>, call: Call)
    ensures AllLeaveOpen(c, p, first, calls + [call]) <==> AllLeaveOpen(c, p, first, calls) && LeavesOpen(c, p, first, call)
  {
    var all := calls + [call];
    assert all[|calls|] == call && forall k | 0 <= k < |calls| :: all[k] == calls[k];
  }

  /** The open file has begun, and no other partition has it open. */
  lemma OpenHasBegun(c: Setup, v: Progress, p: string, key: string)
    requires InOrder(v.books) && Placed(c, v) && IsOpen(v, p, key)
    ensures Begins(c, v, p) && forall q | q in v.books.open && v.books.open[q].key == key :: q == p
  {
    GivenIsIssued(v);
  }

  lemma OpenOneMore(c: Setup, v: Progress, w: Progress, p: string, key: string, call: Call)
    requires InOrder(v.books) && Placed(c, v) && IsOpen(v, p, key) && Follows(c, v, w, call, key)
    ensures FileOf(v.entries, key) != []
    ensures IsOpen(w, p, key) <==> LeavesOpen(c.config, p, FileOf(v.entries, key)[0].event.ingest, call)
    ensures !IsOpen(w, p, key) ==> IsClosed(w, key)
  {
    OpenHasBegun(c, v, p, key);
    OneCallAndKey(c, v, w, call, p, key);
  }

  lemma ClosedIsNotOpen(v: Progress, p: string, key: string)
    requires IsClosed(v, key)
    ensures !IsOpen(v, p, key)
  {
  }

  lemma OpenWhileOneMore(c: Setup, v: Progress, w: Progress, p: string, key: string, first: Numbered, calls: seq<Call>, call: Call)
    requires InOrder(v.books) && Placed(c, v) && OpenWhile(c, v, p, key, first, calls) && Follows(c, v, w, call, key)
    ensures OpenWhile(c, w, p, key, first, calls + [call])
  {
    FirstStays(v.entries, w.entries, key);
    AllLeaveOneMore(c.config, p, first.event.ingest, calls, call);
    if IsOpen(v, p, key) {
      OpenOneMore(c, v, w, p, key, call);
    } else {
      ClosedStaysClosed(c, v, w, call, key);
      ClosedIsNotOpen(w, p, key);
    }
  }

  lemma KnownWhile(c: Setup, v: Progress, p: string, key: string, first: Numbered, calls: seq<Call>)
    requires InOrder(v.books) && OpenWhile(c, v, p, key, first, calls)
    ensures key in v.books.record.given
  {
    GivenIsIssued(v);
  }

  lemma OpenAtFirst(c: Setup, v: Progress, p: string, key: string)
    requires Begins(c, v, p) && IsOpen(v, p, key)
    ensures FileOf(v.entries, key) != [] && OpenWhile(c, v, p, key, FileOf(v.entries, key)[0], [])
  {
  }

  /**
   However many calls follow, a file is still open exactly if all of them are appends, and each
   of its own partition may join it. An event of its partition that may not closes it; nothing
   else but closing the writer does, and a closed file is never open again.
   */
  lemma {:induction false} StaysOpenExactlyWhile(
    c: Setup, objects: map<string, File>, calls: seq<Call>, more: seq<Call>, p: string, key: string)
    requires IsOpen(Ran(c, objects, calls), p, key)
    ensures var v := Ran(c, objects, calls);
            FileOf(v.entries, key) != [] && OpenWhile(c, Ran(c, objects, calls + more), p, key, FileOf(v.entries, key)[0], more)
  {
    if more == [] {
      RanIsPlaced(c, objects, calls);
      OpenAtFirst(c, Ran(c, objects, calls), p, key);
      assert calls + more == calls;
    } else {
      var n := |more| - 1;
      StaysOpenExactlyWhile(c, objects, calls, more[..n], p, key);
      StaysOpenOneMore(c, objects, calls + more[..n], p, key, FileOf(Ran(c, objects, calls).entries, key)[0], more[..n], more[n]);
      Appending(calls, more);
    }
  }

  lemma Appending<T>(calls: seq<T>, more: seq<T>)
    requires more != []
    ensures calls + more[..|more| - 1] + [more[|more| - 1]] == calls + more && more[..|more| - 1] + [more[|more| - 1]] == more
  {
  }

  lemma StaysOpenOneMore(c: Setup, objects: map<string, File>, before: seq<Call>, p: string, key: string, first: Numbered,
                         calls: seq<Call>, call: Call)
    requires OpenWhile(c, Ran(c, objects, before), p, key, first, calls)
    ensures OpenWhile(c, Ran(c, objects, before + [call]), p, key, first, calls + [call])
  {
    var u := Ran(c, objects, before);
    RanIsPlaced(c, objects, before);
    RanInOrder(c, objects, before);
    KnownWhile(c, u, p, key, first, calls);
    ServedFollows(c, u, call, key);
    OpenWhileOneMore(c, u, Served(c, u, call), p, key, first, calls, call);
    RanOneMore(c, objects, before, call);
  }

  lemma RanOneMore(c: Setup, objects: map<string, File>, before: seq<Call>, call: Call)
    ensures Ran(c, objects, before + [call]) == Served(c, Ran(c, objects, before), call)
  {
    var all := before + [call];
    assert all[..|all| - 1] == before && all[|all| - 1] == call;
    assert Ran(c, objects, all) == RanThen(c, objects, before, call);
  }

  lemma AppendGoesTo(c: Setup, v: Progress, e: Event, weather: Weather, key: string)
    requires InOrder(v.books) && IsOpen(v, PartitionName(e.symbol), key)
    ensures FileOf(Appended(c, v, e, weather).entries, key) ==
            FileOf(v.entries, key) + if Current(c, v, PartitionName(e.symbol), e.ingest) then [Numbered(v.no + 1, e)] else []
  {
    var p := PartitionName(e.symbol);
    GivenIsIssued(v);
    if Current(c, v, p, e.ingest) {
      CurrentFileTakes(c, v, e, weather);
      FileOfOneMore(v.entries, Entry(key, Numbered(v.no + 1, e)), key);
    } else {
      assert FileOf(v.entries, key) + [] == FileOf(v.entries, key);
      if Takes(c, v, CallAppend(e, weather)) {
        OthersBegin(c, v, e, weather);
        FileOfOneMore(v.entries, Entry(Appended(c, v, e, weather).books.open[p].key, Numbered(v.no + 1, e)), key);
      } else {
        OthersEnd(c, v, e, weather);
      }
    }
  }

  /** The file has events, and gets this one too exactly if it may join them. */
  ghost predicate Grows(c: Setup, v: Progress, w: Progress, key: string, e: Event) {
    var es := FileOf(v.entries, key);
    && es != []
    && FileOf(w.entries, key) == es + if Joins(c.config, es[0].event.ingest, e.ingest) then [Numbered(v.no + 1, e)] else []
  }

  lemma OpenTakesExactlyWhen(c: Setup, v: Progress, e: Event, weather: Weather, key: string)
    requires InOrder(v.books) && Placed(c, v) && IsOpen(v, PartitionName(e.symbol), key)
    ensures Grows(c, v, Served(c, v, CallAppend(e, weather)), key, e)
  {
    OpenHasBegun(c, v, PartitionName(e.symbol), key);
    DueExactlyWhen(c, v, PartitionName(e.symbol), e.ingest);
    AppendGoesTo(c, v, e, weather, key);
  }

  /** An event of its partition goes to the open file exactly if it may join it. */
  lemma OpenFileTakesExactlyWhen(c: Setup, objects: map<string, File>, calls: seq<Call>, key: string, e: Event, weather: Weather)
    requires IsOpen(Ran(c, objects, calls), PartitionName(e.symbol), key)
    ensures Grows(c, Ran(c, objects, calls), Ran(c, objects, calls + [CallAppend(e, weather)]), key, e)
  {
    RanIsPlaced(c, objects, calls);
    RanInOrder(c, objects, calls);
    RanOneMore(c, objects, calls, CallAppend(e, weather));
    OpenTakesExactlyWhen(c, Ran(c, objects, calls), e, weather, key);
  }

  /** So the limit does not bound a quiet file's age: events of other symbols never close it. */
  lemma QuietFilesOutliveTheLimit(c: Setup, objects: map<string, File>, quiet: Event, other: Event, weather: Weather)
    requires PartitionName(quiet.symbol) != PartitionName(other.symbol) && weather.lists
    requires other.ingest.mono - quiet.ingest.mono >= c.config.maxOpen
    ensures var v := Ran(c, objects, [CallAppend(quiet, weather), CallAppend(other, weather)]);
            var p := PartitionName(quiet.symbol);
            p in v.books.open && v.books.open[p].openedAt == quiet.ingest
  {
    var one := [CallAppend(quiet, weather)];
    assert [] + one == one && one + [CallAppend(other, weather)] == [CallAppend(quiet, weather), CallAppend(other, weather)];
    NewWriterInOrder(objects);
    RanOneMore(c, objects, [], CallAppend(quiet, weather));
    RanOneMore(c, objects, one, CallAppend(other, weather));
    OthersBegin(c, NewWriter(objects), quiet, weather);
    AppendTouchesOnePartition(c, Ran(c, objects, one), other, weather);
  }

  ////////// Which events are taken

  /** The directories this writer knows are those it has begun a file in. */
  ghost predicate KnowsItsDirs(l: Ledger) {
    forall dir :: dir in l.parts ==> exists n: nat :: Keys.KeyFor(dir, n) in l.record.given
  }

  lemma HandedOverKnows(l: Ledger, p: string, outcome: PutOutcome)
    requires KnowsItsDirs(l)
    ensures KnowsItsDirs(HandedOver(l, p, outcome))
  {
  }

  lemma {:induction false} ShutKnows(l: Ledger, done: set<string>, puts: string -> PutOutcome)
    requires KnowsItsDirs(l)
    ensures KnowsItsDirs(Shut(l, done, puts))
  {
    if done != {} {
      var p :| p in done && Shut(l, done, puts) == HandedOver(Shut(l, done - {p}, puts), p, puts(p));
      ShutKnows(l, done - {p}, puts);
      HandedOverKnows(Shut(l, done - {p}, puts), p, puts(p));
    }
  }

  lemma BegunKnows(c: Setup, l: Ledger, p: string, at: IngestTime)
    requires KnowsItsDirs(l)
    ensures KnowsItsDirs(Begun(c, l, p, at))
  {
    var dir := DirAt(c, p, at);
    var after := Begun(c, l, p, at);
    forall d | d in after.parts ensures exists n: nat :: Keys.KeyFor(d, n) in after.record.given {
      if d == dir {
        assert Keys.KeyFor(dir, PartAt(l, dir)) in after.record.given;
      } else {
        var n: nat :| Keys.KeyFor(d, n) in l.record.given;
        assert Keys.KeyFor(d, n) in after.record.given;
      }
    }
  }

  lemma GivenKnows(c: Config, l: Ledger, p: string, rows: seq<Row>)
    requires KnowsItsDirs(l) && p in l.open
    ensures KnowsItsDirs(Given(c, l, p, rows))
  {
    forall d | d in l.parts ensures exists n: nat :: Keys.KeyFor(d, n) in Given(c, l, p, rows).record.given {
      var n: nat :| Keys.KeyFor(d, n) in l.record.given;
      assert Keys.KeyFor(d, n) in Given(c, l, p, rows).record.given;
    }
  }

  lemma MadeReadyKnows(c: Setup, l: Ledger, p: string, at: IngestTime, weather: Weather)
    requires KnowsItsDirs(l)
    ensures KnowsItsDirs(MadeReady(c, l, p, at, weather))
  {
    HandedOverKnows(l, p, weather.put);
    BegunKnows(c, RolledIfDue(c, l, p, at, weather.put), p, at);
  }

  lemma AppendedKnows(c: Setup, v: Progress, e: Event, weather: Weather)
    requires KnowsItsDirs(v.books)
    ensures KnowsItsDirs(Appended(c, v, e, weather).books)
  {
    var p := PartitionName(e.symbol);
    MadeReadyKnows(c, v.books, p, e.ingest, weather);
    ReadyTouchesOnePartition(c, v.books, p, e.ingest, weather);
    if Accepts(c, v.books, p, e.ingest, weather) {
      GivenKnows(c.config, MadeReady(c, v.books, p, e.ingest, weather), p, c.flat(e, v.no + 1, Anchored(v.base, e.ingest)));
    }
  }

  lemma {:induction false} RanKnows(c: Setup, objects: map<string, File>, calls: seq<Call>)
    ensures KnowsItsDirs(Ran(c, objects, calls).books)
  {
    if calls != [] {
      var front, last := calls[..|calls| - 1], calls[|calls| - 1];
      RanKnows(c, objects, front);
      match last {
        case CallAppend(e, weather) => AppendedKnows(c, Ran(c, objects, front), e, weather);
        case CallClose(puts) => ShutKnows(Ran(c, objects, front).books, Ran(c, objects, front).books.open.Keys, puts);
      }
    }
  }

  lemma IssuedDirsAreKnown(l: Ledger, dir: string, n: nat)
    requires InOrder(l) && IsDir(dir) && Keys.KeyFor(dir, n) in l.record.given
    ensures dir in l.parts
  {
    assert Consistent(l.record, l.objects, l.parts, l.open);
    assert Keys.KeyFor(dir, n) in l.record.issued;
  }

  /**
   When an append succeeds, after any calls: its partition's open file may take the event; or there
   is none, or its upload succeeds, and the new file's directory can be listed or had a file of
   this writer's before.
   */
  lemma TakenExactlyWhen(c: Setup, objects: map<string, File>, calls: seq<Call>, e: Event, weather: Weather)
    ensures var v, p := Ran(c, objects, calls), PartitionName(e.symbol);
            Takes(c, v, CallAppend(e, weather)) <==>
              || Current(c, v, p, e.ingest)
              || ((p in v.books.open ==> weather.put.Stored?)
                  && (weather.lists || exists n: nat :: Keys.KeyFor(Keys.DirFor(c.prefix, p, Seconds(e.ingest)), n) in v.books.record.given))
  {
    var v, p := Ran(c, objects, calls), PartitionName(e.symbol);
    var dir := DirAt(c, p, e.ingest);
    RanKnows(c, objects, calls);
    RanInOrder(c, objects, calls);
    DirsAreDirs(c, p, e.ingest);
    if n: nat :| Keys.KeyFor(dir, n) in v.books.record.given {
      IssuedDirsAreKnown(v.books, dir, n);
    }
  }

  ////////// Names

  predicate IsSafe(ch: char) {
    'a' <= ch <= 'z' || 'A' <= ch <= 'Z' || '0' <= ch <= '9' || ch in ['-', '_', '.']
  }

  /**
   A partition's name has only characters that are safe in a path, is not empty and not made of
   dots; a symbol that is all this already is its own name, and otherwise only what is unsafe
   in it is replaced.
   */
  lemma PartitionNamesAreSafe(symbol: string)
    ensures var name := PartitionName(symbol);
            && (forall i | 0 <= i < |name| :: IsSafe(name[i])) && (exists i :: 0 <= i < |name| && name[i] != '.')
            && ((forall i | 0 <= i < |symbol| :: IsSafe(symbol[i])) && (exists i :: 0 <= i < |symbol| && symbol[i] != '.') ==> name == symbol)
            && (name != "unknown" ==> |name| == |symbol| && forall i | 0 <= i < |symbol| :: name[i] == if IsSafe(symbol[i]) then symbol[i] else '_')
  {
    var name := PartitionName(symbol);
    if name == "unknown" {
      assert name[0] == 'u';
    }
    if forall i | 0 <= i < |symbol| :: IsSafe(symbol[i]) {
      var safe := seq(|symbol|, i requires 0 <= i < |symbol| => SafeChar(symbol[i]));
      assert safe == symbol;
    }
  }
}
