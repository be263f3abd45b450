/**
 What one archive writer does over all its calls (crates/ma-persist/src/writer.rs): which events
 it takes, which file each is in, and what becomes of every file.
 */
module WriterRuns {
  import opened Types
  import opened Codec
  import opened CodecRoundTrip
  import opened ArchiveLedger
  import opened WriterSteps

  ////////// One process

  datatype Call = CallAppend(e: Event, weather: Weather) | CallClose(puts: string -> PutOutcome)

  ghost function Served(c: Setup, v: Progress, call: Call): Progress {
    match call
    case CallAppend(e, weather) => Appended(c, v, e, weather)
    case CallClose(puts) => AllClosed(v, puts)
  }

  /** A new writer over a store, after these calls. */
  ghost function Ran(c: Setup, objects: map<string, File>, calls: seq<Call>): Progress
    decreases |calls|, 0
  {
    if calls == [] then NewWriter(objects) else RanThen(c, objects, calls[..|calls| - 1], calls[|calls| - 1])
  }

  /** And after one more. */
  ghost function RanThen(c: Setup, objects: map<string, File>, calls: seq<Call>, call: Call): Progress
    decreases |calls|, 1
  {
    Served(c, Ran(c, objects, calls), call)
  }

  lemma PrefixOneMore<T>(s: seq<T>, i: nat)
    requires i < |s|
    ensures s[..i + 1] == s[..i] + [s[i]]
  {
  }

  lemma WholePrefix<T>(s: seq<T>)
    ensures s[..0] == [] && s[..|s|] == s
  {
  }

  lemma ServedInOrder(c: Setup, v: Progress, call: Call)
    requires InOrder(v.books)
    ensures InOrder(Served(c, v, call).books)
  {
    match call {
      case CallAppend(e, weather) => AppendedInOrder(c, v, e, weather);
      case CallClose(puts) => ShutInOrder(v.books, v.books.open.Keys, puts);
    }
  }

  lemma ServedKeepsInitial(c: Setup, v: Progress, call: Call)
    ensures Served(c, v, call).books.initial == v.books.initial
  {
    match call {
      case CallAppend(e, weather) => AppendTouchesOnePartition(c, v, e, weather);
      case CallClose(puts) => ShutOnlyCloses(v.books, v.books.open.Keys, puts);
    }
  }

  lemma {:induction false} RanInOrder(c: Setup, objects: map<string, File>, calls: seq<Call>)
    ensures InOrder(Ran(c, objects, calls).books) && Ran(c, objects, calls).books.initial == objects
  {
    if calls == [] {
      NewWriterInOrder(objects);
    } else {
      var front, last := calls[..|calls| - 1], calls[|calls| - 1];
      RanInOrder(c, objects, front);
      ServedInOrder(c, Ran(c, objects, front), last);
      ServedKeepsInitial(c, Ran(c, objects, front), last);
    }
  }

  ////////// Which events are taken

  ghost predicate Takes(c: Setup, v: Progress, call: Call) {
    call.CallAppend? && Accepts(c, v.books, PartitionName(call.e.symbol), call.e.ingest, call.weather)
  }

  /** The events of the appends that succeed, in order. */
  ghost function EventsTaken(c: Setup, objects: map<string, File>, calls: seq<Call>): seq<Event> {
    if calls == [] then []
    else
      var front, last := calls[..|calls| - 1], calls[|calls| - 1];
      EventsTaken(c, objects, front) + if Takes(c, Ran(c, objects, front), last) then [last.e] else []
  }

  lemma ServedTakes(c: Setup, v: Progress, call: Call)
    requires InOrder(v.books)
    ensures var w := Served(c, v, call);
            if Takes(c, v, call) then
              && w.no == v.no + 1 && |w.entries| > 0 && w.entries == v.entries + [w.entries[|w.entries| - 1]]
              && w.entries[|w.entries| - 1].event == Numbered(v.no + 1, call.e)
            else w.no == v.no && w.entries == v.entries
  {
    if call.CallAppend? {
      AppendTakesOrNot(c, v, call.e, call.weather);
    }
  }

  /** The entries are these events, in order and numbered from one. */
  predicate Records(entries: seq<Entry>, taken: seq<Event>) {
    |entries| == |taken| && forall i | 0 <= i < |taken| :: entries[i].event == Numbered(i + 1, taken[i])
  }

  lemma RecordsOneMore(entries: seq<Entry>, taken: seq<Event>, entry: Entry, e: Event)
    requires Records(entries, taken) && entry.event == Numbered(|taken| + 1, e)
    ensures Records(entries + [entry], taken + [e])
  {
  }

  /** The entries are exactly the events taken. */
  lemma {:induction false} EntriesAreTheEventsTaken(c: Setup, objects: map<string, File>, calls: seq<Call>)
    ensures var v := Ran(c, objects, calls);
            v.no == |v.entries| && Records(v.entries, EventsTaken(c, objects, calls))
  {
    if calls != [] {
      var front, last := calls[..|calls| - 1], calls[|calls| - 1];
      EntriesAreTheEventsTaken(c, objects, front);
      RanInOrder(c, objects, front);
      ServedTakes(c, Ran(c, objects, front), last);
      var v, w := Ran(c, objects, front), RanThen(c, objects, front, last);
      if Takes(c, v, last) {
        RecordsOneMore(v.entries, EventsTaken(c, objects, front), w.entries[|w.entries| - 1], last.e);
      } else {
        assert EventsTaken(c, objects, front) + [] == EventsTaken(c, objects, front);
      }
    }
  }

  /** The time of the first event offered, taken or not. */
  function FirstOffered(calls: seq<Call>): Option<IngestTime> {
    if calls == [] then None
    else if calls[0].CallAppend? then Some(calls[0].e.ingest)
    else FirstOffered(calls[1..])
  }

  lemma {:induction false} FirstOfferedOneMore(calls: seq<Call>, call: Call)
    ensures FirstOffered(calls + [call]) ==
            if FirstOffered(calls).Some? then FirstOffered(calls) else if call.CallAppend? then Some(call.e.ingest) else None
  {
    if calls == [] {
      assert [] + [call] == [call] && [call][1..] == [];
    } else {
      FirstOfferedOneMore(calls[1..], call);
      assert (calls + [call])[1..] == calls[1..] + [call];
    }
  }

  /** Elapsed times count from the first event offered, and never from a later one. */
  lemma {:induction false} BaseIsTheFirstOffered(c: Setup, objects: map<string, File>, calls: seq<Call>)
    ensures Ran(c, objects, calls).base == FirstOffered(calls)
  {
    if calls != [] {
      var front, last := calls[..|calls| - 1], calls[|calls| - 1];
      BaseIsTheFirstOffered(c, objects, front);
      FirstOfferedOneMore(front, last);
      assert calls == front + [last];
    }
  }

  ////////// Which file each is in

  /** The events that went to this file, in order. */
  ghost function FileOf(entries: seq<Entry>, key: string): seq<Numbered> {
    if entries == [] then []
    else
      var front, last := entries[..|entries| - 1], entries[|entries| - 1];
      FileOf(front, key) + if last.key == key then [last.event] else []
  }

  /** All of them. */
  ghost function Events(entries: seq<Entry>): seq<Numbered> {
    if entries == [] then [] else Events(entries[..|entries| - 1]) + [entries[|entries| - 1].event]
  }

  ghost function RowsBy(flat: Flattening, es: seq<Numbered>, base: IngestTime): seq<Row> {
    if es == [] then []
    else RowsBy(flat, es[..|es| - 1], base) + flat(es[|es| - 1].event, es[|es| - 1].no, base)
  }

  function BaseOf(base: Option<IngestTime>): IngestTime {
    if base.Some? then base.value else IngestTime(0, 0)
  }

  /** This file was given the rows of its events, in order. */
  ghost predicate Fits(c: Setup, v: Progress, key: string) {
    key in v.books.record.given &&
    v.books.record.given[key] == RowsBy(c.flat, FileOf(v.entries, key), BaseOf(v.base))
  }

  /** And so was every file. */
  ghost predicate AllFit(c: Setup, v: Progress) {
    forall k | k in v.books.record.given :: Fits(c, v, k)
  }

  /** There is a file for each event, and none without. */
  ghost predicate Filed(v: Progress) {
    && (forall i | 0 <= i < |v.entries| :: v.entries[i].key in v.books.record.given)
    && (v.entries == [] ==> v.books.record.given == map[]) && (v.base.None? ==> v.entries == [])
  }

  /** The rows appended are those of all events. */
  ghost predicate Counted(c: Setup, v: Progress) {
    v.books.appended == |RowsBy(c.flat, Events(v.entries), BaseOf(v.base))|
  }

  ghost predicate Journaled(c: Setup, v: Progress) {
    AllFit(c, v) && Filed(v) && Counted(c, v)
  }

  lemma FileOfOneMore(entries: seq<Entry>, e: Entry, key: string)
    ensures FileOf(entries + [e], key) == FileOf(entries, key) + if e.key == key then [e.event] else []
    ensures Events(entries + [e]) == Events(entries) + [e.event]
  {
    assert (entries + [e])[..|entries|] == entries;
  }

  lemma RowsByOneMore(flat: Flattening, es: seq<Numbered>, e: Numbered, base: IngestTime)
    ensures RowsBy(flat, es + [e], base) == RowsBy(flat, es, base) + flat(e.event, e.no, base)
  {
    assert (es + [e])[..|es|] == es;
  }

  lemma {:induction false} NoFileWithoutEntry(entries: seq<Entry>, key: string)
    requires forall i | 0 <= i < |entries| :: entries[i].key != key
    ensures FileOf(entries, key) == []
  {
    if entries != [] {
      NoFileWithoutEntry(entries[..|entries| - 1], key);
    }
  }

  lemma FitsOneMore(c: Setup, v: Progress, w: Progress, key: string, e: Numbered, k: string)
    requires w.base.Some? && w.entries == v.entries + [Entry(key, e)] && k in w.books.record.given
    requires w.books.record.given == Grown(v.books.record.given, key, c.flat(e.event, e.no, w.base.value))
    requires if k in v.books.record.given then Fits(c, v, k) && w.base == v.base else FileOf(v.entries, k) == []
    ensures Fits(c, w, k)
  {
    FileOfOneMore(v.entries, Entry(key, e), k);
    var es := FileOf(v.entries, k);
    if k == key {
      RowsByOneMore(c.flat, es, e, w.base.value);
    } else {
      assert es + [] == es;
    }
  }

  /** This entry and its rows come after what there was; before any entry the base is free. */
  ghost predicate OneMore(c: Setup, v: Progress, w: Progress, entry: Entry) {
    && w.base.Some? && (v.entries != [] ==> w.base == v.base) && w.entries == v.entries + [entry]
    && var rows := c.flat(entry.event.event, entry.event.no, w.base.value);
       && w.books.record.given == Grown(v.books.record.given, entry.key, rows)
       && w.books.appended == v.books.appended + |rows|
  }

  lemma AllFitOneMore(c: Setup, v: Progress, w: Progress, entry: Entry)
    requires AllFit(c, v) && Filed(v) && OneMore(c, v, w, entry)
    ensures AllFit(c, w)
  {
    forall k | k in w.books.record.given
      ensures Fits(c, w, k)
    {
      if k in v.books.record.given {
        assert Fits(c, v, k);
      } else {
        NoFileWithoutEntry(v.entries, k);
      }
      FitsOneMore(c, v, w, entry.key, entry.event, k);
    }
  }

  lemma CountedOneMore(c: Setup, v: Progress, w: Progress, entry: Entry)
    requires Counted(c, v) && OneMore(c, v, w, entry)
    ensures Counted(c, w)
  {
    FileOfOneMore(v.entries, entry, entry.key);
    RowsByOneMore(c.flat, Events(v.entries), entry.event, w.base.value);
    if v.entries == [] {
      assert Events(v.entries) == [];
    }
  }

  /** One more event and its rows keep files and events together. */
  lemma JournaledOneMore(c: Setup, v: Progress, w: Progress, entry: Entry)
    requires Journaled(c, v) && OneMore(c, v, w, entry)
    ensures Journaled(c, w)
  {
    AllFitOneMore(c, v, w, entry);
    CountedOneMore(c, v, w, entry);
  }

  lemma JournaledWithBase(c: Setup, v: Progress, w: Progress)
    requires Journaled(c, v) && w.entries == v.entries && (v.entries != [] ==> w.base == v.base)
    requires w.books.record.given == v.books.record.given && w.books.appended == v.books.appended
    ensures Journaled(c, w)
  {
    forall k | k in w.books.record.given
      ensures Fits(c, w, k)
    {
      assert Fits(c, v, k);
    }
  }

  lemma ServedIsJournaled(c: Setup, v: Progress, call: Call)
    requires Journaled(c, v) && InOrder(v.books)
    ensures Journaled(c, Served(c, v, call))
  {
    var w := Served(c, v, call);
    if call.CallAppend? {
      AppendTakesOrNot(c, v, call.e, call.weather);
      if Takes(c, v, call) {
        JournaledOneMore(c, v, w, Entry(w.books.open[PartitionName(call.e.symbol)].key, Numbered(v.no + 1, call.e)));
      } else {
        JournaledWithBase(c, v, w);
      }
    } else {
      ShutOnlyCloses(v.books, v.books.open.Keys, call.puts);
      JournaledWithBase(c, v, w);
    }
  }

  lemma {:induction false} RanIsJournaled(c: Setup, objects: map<string, File>, calls: seq<Call>)
    ensures Journaled(c, Ran(c, objects, calls))
  {
    if calls != [] {
      var front := calls[..|calls| - 1];
      RanIsJournaled(c, objects, front);
      RanInOrder(c, objects, front);
      ServedIsJournaled(c, Ran(c, objects, front), calls[|calls| - 1]);
    }
  }

  ////////// Each event is in exactly one file

  /** Numbered upwards, no higher than `no`. */
  ghost predicate Ascending(es: seq<Numbered>, no: int) {
    es == [] || (es[|es| - 1].no <= no && Ascending(es[..|es| - 1], es[|es| - 1].no - 1))
  }

  lemma {:induction false} AscendingIsDistinct(es: seq<Numbered>, no: int)
    requires Ascending(es, no)
    ensures Distinct(es)
  {
    if es != [] {
      var n := |es| - 1;
      AscendingIsDistinct(es[..n], es[n].no - 1);
      assert n > 0 ==> es[..n][n - 1] == es[n - 1];
      forall i | 0 < i < |es|
        ensures es[i - 1].no != es[i].no
      {
        assert i < n ==> es[..n][i - 1] == es[i - 1] && es[..n][i] == es[i];
      }
    }
  }

  lemma AscendingRises(es: seq<Numbered>, no: int, more: int)
    requires Ascending(es, no) && no <= more
    ensures Ascending(es, more)
  {
  }

  predicate NumberedFromOne(entries: seq<Entry>) {
    forall i | 0 <= i < |entries| :: entries[i].event.no == i + 1
  }

  lemma {:induction false} FilesAscend(entries: seq<Entry>, key: string)
    requires NumberedFromOne(entries)
    ensures Ascending(FileOf(entries, key), |entries|)
  {
    if entries != [] {
      var front, last := entries[..|entries| - 1], entries[|entries| - 1];
      FilesAscend(front, key);
      var es := FileOf(front, key);
      assert (es + [last.event])[..|es|] == es && es + [] == es;
      AscendingRises(es, |front|, |entries|);
    }
  }

  /** An entry's event is in its own file and no other. */
  lemma {:induction false} EachEventIsInOneFile(entries: seq<Entry>, i: nat, key: string)
    requires NumberedFromOne(entries) && i < |entries|
    ensures entries[i].event in FileOf(entries, key) <==> key == entries[i].key
  {
    var front := entries[..|entries| - 1];
    FilesAscend(front, key);
    if i < |front| {
      EachEventIsInOneFile(front, i, key);
    } else if entries[i].event in FileOf(front, key) {
      AscendingIsBelow(FileOf(front, key), |front|, entries[i].event);
    }
  }

  lemma {:induction false} AscendingIsBelow(es: seq<Numbered>, no: int, e: Numbered)
    requires Ascending(es, no) && e in es
    ensures e.no <= no
  {
    if e != es[|es| - 1] {
      AscendingIsBelow(es[..|es| - 1], es[|es| - 1].no - 1, e);
    }
  }

  ////////// What becomes of each file

  ghost function OpenKeys(open: map<string, OpenFile>): set<string> {
    set p | p in open :: open[p].key
  }

  /** The rows each of these files was given. */
  ghost function RowsGiven(given: map<string, seq<Row>>, keys: set<string>): map<string, nat> {
    map k | k in keys && k in given :: |given[k]|
  }

  /** Every file is stored, refused or still open, and not two of these; the rows lost are those of the refused ones. */
  ghost predicate Settled(l: Ledger) {
    l in AccountedFor()
  }

  ghost function AccountedFor(): iset<Ledger> {
    iset l: Ledger | Sorted(l.record.issued.Keys, l.record.stored, l.record.refused, OpenKeys(l.open)) &&
                     l.lost == Sum(RowsGiven(l.record.given, l.record.refused))
  }

  predicate Sorted(issued: set<string>, stored: set<string>, refused: set<string>, open: set<string>) {
    issued == stored + refused + open && stored !! refused !! open
  }

  lemma OpenKeysWithout(open: map<string, OpenFile>, p: string)
    requires p in open
    ensures OpenKeys(open) == OpenKeys(open - {p}) + {open[p].key}
  {
    assert forall q | q in open :: q == p || q in open - {p};
  }

  lemma OpenKeysWith(open: map<string, OpenFile>, p: string, f: OpenFile)
    ensures OpenKeys(open[p := f]) == OpenKeys(open - {p}) + {f.key}
  {
    OpenKeysWithout(open[p := f], p);
    assert open[p := f] - {p} == open - {p};
  }

  lemma KeyGone(l: Ledger, p: string)
    requires InOrder(l) && p in l.open
    ensures OpenKeys(l.open) == OpenKeys(l.open - {p}) + {l.open[p].key} && l.open[p].key !in OpenKeys(l.open - {p})
  {
    OpenKeysWithout(l.open, p);
    assert KeysFree(l.objects, l.record.issued, l.open);
    forall q | q in l.open - {p}
      ensures l.open[q].key != l.open[p].key
    {
      assert l.record.issued[l.open[q].key] == q;
    }
  }

  /** A key that is no longer open is stored, or refused. */
  lemma StillSorted(issued: set<string>, stored: set<string>, refused: set<string>, open: set<string>, left: set<string>, key: string)
    requires Sorted(issued, stored, refused, open) && open == left + {key} && key !in left
    ensures Sorted(issued, stored + {key}, refused, left) && Sorted(issued, stored, refused + {key}, left)
    ensures key !in refused
  {
  }

  lemma RolledIsSettled(l: Ledger, p: string)
    requires InOrder(l) && Settled(l) && p in l.open
    ensures Settled(Rolled(l, p))
  {
    KeyGone(l, p);
    StillSorted(l.record.issued.Keys, l.record.stored, l.record.refused, OpenKeys(l.open), OpenKeys(l.open - {p}), l.open[p].key);
  }

  lemma RefusedOneMore(given: map<string, seq<Row>>, refused: set<string>, key: string)
    requires key in given && key !in refused
    ensures Sum(RowsGiven(given, refused + {key})) == Sum(RowsGiven(given, refused)) + |given[key]|
  {
    var before := RowsGiven(given, refused);
    assert RowsGiven(given, refused + {key}) == before[key := |given[key]|];
    SumWith(before, key, |given[key]|);
    assert before - {key} == before;
  }

  /** A file's total is the number of rows it was given. */
  lemma TotalIsRowsGiven(l: Ledger, p: string)
    requires InOrder(l) && p in l.open
    ensures l.open[p].key in l.record.given && l.open[p].total == |l.record.given[l.open[p].key]|
  {
    assert Consistent(l.record, l.objects, l.parts, l.open);
    assert Holds(l.record, l.open[p].key, RowsOpen(l.open[p]));
  }

  lemma DroppedIsSettled(l: Ledger, p: string)
    requires InOrder(l) && Settled(l) && p in l.open
    ensures Settled(Dropped(l, p))
  {
    KeyGone(l, p);
    StillSorted(l.record.issued.Keys, l.record.stored, l.record.refused, OpenKeys(l.open), OpenKeys(l.open - {p}), l.open[p].key);
    TotalIsRowsGiven(l, p);
    RefusedOneMore(l.record.given, l.record.refused, l.open[p].key);
  }

  lemma HandedOverIsSettled(l: Ledger, p: string, outcome: PutOutcome)
    requires InOrder(l) && Settled(l)
    ensures Settled(HandedOver(l, p, outcome))
  {
    if p in l.open {
      if outcome.Refused? {
        DroppedIsSettled(l, p);
      } else {
        RolledIsSettled(l, p);
      }
    }
  }

  lemma BegunIsSettled(c: Setup, l: Ledger, p: string, at: IngestTime)
    requires InOrder(l) && Settled(l) && p !in l.open
    ensures Settled(Begun(c, l, p, at))
  {
    BegunKeyIsNew(c, l, p, at);
    var dir := DirAt(c, p, at);
    var part := PartAt(l, dir);
    StartedIsSettled(l, p, dir, part, NewFile(c.config, at, dir, part));
  }

  lemma StartedIsSettled(l: Ledger, p: string, dir: string, part: nat, f: OpenFile)
    requires Settled(l) && p !in l.open && f.key !in l.record.issued
    ensures Settled(Started(l, p, dir, part, f))
  {
    var after := Started(l, p, dir, part, f);
    OpenKeysWith(l.open, p, f);
    assert l.open - {p} == l.open;
    assert after.record.issued.Keys == l.record.issued.Keys + {f.key};
    assert RowsGiven(after.record.given, l.record.refused) == RowsGiven(l.record.given, l.record.refused);
  }

  lemma AddedIsSettled(l: Ledger, p: string, rows: seq<Row>, g: OpenFile)
    requires Settled(l) && p in l.open && g.key == l.open[p].key
    ensures Settled(Added(l, p, rows, g))
  {
    var after := Added(l, p, rows, g);
    OpenKeysWithout(l.open, p);
    OpenKeysWith(l.open, p, g);
    assert RowsGiven(after.record.given, l.record.refused) == RowsGiven(l.record.given, l.record.refused);
  }

  lemma TakenIsSettled(c: Setup, v: Progress, p: string, e: Event)
    requires v.base.Some? && p in v.books.open && Settled(v.books)
    ensures Settled(Taken(c, v, p, e).books)
  {
    var rows := c.flat(e, v.no + 1, v.base.value);
    AddedIsSettled(v.books, p, rows, Filled(c.config, v.books.open[p], rows));
  }

  lemma RolledIfDueIsSettled(c: Setup, l: Ledger, p: string, at: IngestTime, put: PutOutcome)
    requires InOrder(l) && Settled(l)
    ensures Settled(RolledIfDue(c, l, p, at, put))
  {
    HandedOverIsSettled(l, p, put);
  }

  lemma MadeReadyIsSettled(c: Setup, l: Ledger, p: string, at: IngestTime, weather: Weather)
    requires InOrder(l) && Settled(l)
    ensures Settled(MadeReady(c, l, p, at, weather))
  {
    var rolled := RolledIfDue(c, l, p, at, weather.put);
    RolledIfDueIsSettled(c, l, p, at, weather.put);
    RolledIfDueInOrder(c, l, p, at, weather.put);
    if p !in rolled.open {
      BegunIsSettled(c, rolled, p, at);
    }
  }

  lemma {:induction false} ShutIsSettled(l: Ledger, done: set<string>, puts: string -> PutOutcome)
    requires InOrder(l) && Settled(l)
    ensures Settled(Shut(l, done, puts))
  {
    if done != {} {
      var p :| p in done && Shut(l, done, puts) == HandedOver(Shut(l, done - {p}, puts), p, puts(p));
      ShutIsSettled(l, done - {p}, puts);
      ShutInOrder(l, done - {p}, puts);
      HandedOverIsSettled(Shut(l, done - {p}, puts), p, puts(p));
    }
  }

  lemma ServedIsSettled(c: Setup, v: Progress, call: Call)
    requires InOrder(v.books) && Settled(v.books)
    ensures Settled(Served(c, v, call).books)
  {
    match call {
      case CallAppend(e, weather) =>
        var p := PartitionName(e.symbol);
        MadeReadyIsSettled(c, v.books, p, e.ingest, weather);
        if Accepts(c, v.books, p, e.ingest, weather) {
          var ready := v.(base := Some(Anchored(v.base, e.ingest)), books := MadeReady(c, v.books, p, e.ingest, weather));
          TakenIsSettled(c, ready, p, e);
        }
      case CallClose(puts) => ShutIsSettled(v.books, v.books.open.Keys, puts);
    }
  }

  /** After any calls of one process each file is stored, refused or open, and only refused files' rows are lost. */
  lemma {:induction false} RanIsSettled(c: Setup, objects: map<string, File>, calls: seq<Call>)
    ensures Settled(Ran(c, objects, calls).books)
  {
    if calls == [] {
      assert Places(RowsGiven(map[], {})) == {};
    } else {
      var front := calls[..|calls| - 1];
      RanIsSettled(c, objects, front);
      RanInOrder(c, objects, front);
      ServedIsSettled(c, Ran(c, objects, front), calls[|calls| - 1]);
    }
  }

  /** No upload of this call is refused. */
  predicate Calm(call: Call, partitions: set<string>) {
    match call
    case CallAppend(_, weather) => !weather.put.Refused?
    case CallClose(puts) => forall p | p in partitions :: !puts(p).Refused?
  }

  ghost predicate CalmThroughout(c: Setup, objects: map<string, File>, calls: seq<Call>) {
    forall k | 0 <= k < |calls| :: Calm(calls[k], Ran(c, objects, calls[..k]).books.open.Keys)
  }

  lemma CalmServed(c: Setup, v: Progress, call: Call)
    requires Calm(call, v.books.open.Keys)
    ensures Served(c, v, call).books.record.refused == v.books.record.refused
  {
    match call {
      case CallAppend(e, weather) => CalmAppended(c, v, e, weather);
      case CallClose(puts) => CalmShut(v.books, v.books.open.Keys, puts);
    }
  }

  lemma CalmHandedOver(l: Ledger, p: string, outcome: PutOutcome)
    requires !outcome.Refused?
    ensures HandedOver(l, p, outcome).record.refused == l.record.refused
  {
  }

  lemma {:induction false} CalmShut(l: Ledger, done: set<string>, puts: string -> PutOutcome)
    requires forall p | p in done :: !puts(p).Refused?
    ensures Shut(l, done, puts).record.refused == l.record.refused
  {
    if done != {} {
      var p :| p in done && Shut(l, done, puts) == HandedOver(Shut(l, done - {p}, puts), p, puts(p));
      CalmShut(l, done - {p}, puts);
      CalmHandedOver(Shut(l, done - {p}, puts), p, puts(p));
    }
  }

  lemma CalmAppended(c: Setup, v: Progress, e: Event, weather: Weather)
    requires !weather.put.Refused?
    ensures Appended(c, v, e, weather).books.record.refused == v.books.record.refused
  {
    var p := PartitionName(e.symbol);
    assert RolledIfDue(c, v.books, p, e.ingest, weather.put).record.refused == v.books.record.refused;
    assert MadeReady(c, v.books, p, e.ingest, weather).record.refused == v.books.record.refused;
  }

  lemma CalmThen(c: Setup, objects: map<string, File>, calls: seq<Call>, call: Call)
    requires Calm(call, Ran(c, objects, calls).books.open.Keys)
    ensures RanThen(c, objects, calls, call).books.record.refused == Ran(c, objects, calls).books.record.refused
  {
    CalmServed(c, Ran(c, objects, calls), call);
  }

  lemma {:induction false} CalmRefusesNothing(c: Setup, objects: map<string, File>, calls: seq<Call>)
    requires CalmThroughout(c, objects, calls)
    ensures Ran(c, objects, calls).books.record.refused == {}
  {
    if calls != [] {
      var n := |calls| - 1;
      assert forall k | 0 <= k < n :: calls[..n][..k] == calls[..k] && calls[..n][k] == calls[k];
      CalmRefusesNothing(c, objects, calls[..n]);
      CalmThen(c, objects, calls[..n], calls[n]);
    }
  }

  /** Without a refusal no row is lost. */
  lemma CalmLosesNothing(c: Setup, objects: map<string, File>, calls: seq<Call>)
    requires CalmThroughout(c, objects, calls)
    ensures Ran(c, objects, calls).books.lost == 0
  {
    CalmRefusesNothing(c, objects, calls);
    RanIsSettled(c, objects, calls);
    NothingRefusedNothingLost(Ran(c, objects, calls).books);
  }

  lemma NothingRefusedNothingLost(l: Ledger)
    requires Settled(l) && l.record.refused == {}
    ensures l.lost == 0
  {
    assert Places(RowsGiven(l.record.given, {})) == {};
  }

  lemma EntryIsAccountedFor(c: Setup, v: Progress, i: nat)
    requires InOrder(v.books) && Journaled(c, v) && Settled(v.books) && i < |v.entries|
    ensures v.entries[i].key in v.books.record.stored + v.books.record.refused + OpenKeys(v.books.open)
  {
    assert Consistent(v.books.record, v.books.objects, v.books.parts, v.books.open);
    assert v.books.record.given.Keys == v.books.record.issued.Keys;
  }

  lemma ClosingLeavesNothingOpen(c: Setup, objects: map<string, File>, calls: seq<Call>)
    requires calls != [] && calls[|calls| - 1].CallClose?
    ensures Ran(c, objects, calls).books.open == map[] && OpenKeys(Ran(c, objects, calls).books.open) == {}
  {
    var v := Ran(c, objects, calls[..|calls| - 1]);
    ShutOnlyCloses(v.books, v.books.open.Keys, calls[|calls| - 1].puts);
  }

  /**
   Where every event is: the event of the i-th successful append is in exactly one file, whose
   upload succeeded, was refused, or is still to come; and if no upload was refused and the last
   call closed the writer, it is stored.
   */
  lemma EveryEventTakenIsInOneFile(c: Setup, objects: map<string, File>, calls: seq<Call>, i: nat)
    requires i < |EventsTaken(c, objects, calls)|
    ensures var v := Ran(c, objects, calls);
            var e := Numbered(i + 1, EventsTaken(c, objects, calls)[i]);
            && i < |v.entries| && v.entries[i].event == e
            && (forall k :: e in FileOf(v.entries, k) <==> k == v.entries[i].key)
            && v.entries[i].key in v.books.record.stored + v.books.record.refused + OpenKeys(v.books.open)
            && (CalmThroughout(c, objects, calls) && calls[|calls| - 1].CallClose? ==>
                  v.entries[i].key in v.books.record.stored)
  {
    EntriesAreTheEventsTaken(c, objects, calls);
    RanIsJournaled(c, objects, calls);
    RanInOrder(c, objects, calls);
    RanIsSettled(c, objects, calls);
    var v := Ran(c, objects, calls);
    EntryIsAccountedFor(c, v, i);
    forall k ensures v.entries[i].event in FileOf(v.entries, k) <==> k == v.entries[i].key {
      EachEventIsInOneFile(v.entries, i, k);
    }
    if CalmThroughout(c, objects, calls) && calls[|calls| - 1].CallClose? {
      CalmRefusesNothing(c, objects, calls);
      ClosingLeavesNothingOpen(c, objects, calls);
    }
  }
}
