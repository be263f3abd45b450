/**
 What the archive writer and its store keep true between them (crates/ma-persist/src/writer.rs):
 which keys are free, what each file holds, and where every row went.
 */
module ArchiveLedger {
  import opened Types
  import opened Codec
  import opened CodecRoundTrip
  import Keys

  /** A file as row groups. */
  type File = seq<seq<Row>>

  datatype PutOutcome = Stored | Refused | StoredYetFailed

  ////////// Sums over maps

  /** One place for each unit of each key. */
  ghost function Places(m: map<string, nat>): set<(string, int)> {
    set k, i | k in m && 0 <= i < m[k] :: (k, i)
  }

  ghost function Column(k: string, n: nat): set<(string, int)> {
    set i | 0 <= i < n :: (k, i)
  }

  ghost function Sum(m: map<string, nat>): nat {
    |Places(m)|
  }

  lemma {:induction false} ColumnSize(k: string, n: nat)
    ensures |Column(k, n)| == n
  {
    if n > 0 {
      ColumnSize(k, n - 1);
      assert Column(k, n) == Column(k, n - 1) + {(k, n - 1)};
    }
  }

  lemma SumWithout(m: map<string, nat>, k: string)
    requires k in m
    ensures Sum(m) == m[k] + Sum(m - {k})
  {
    ColumnSize(k, m[k]);
    assert Places(m) == Places(m - {k}) + Column(k, m[k]);
  }

  lemma SumWith(m: map<string, nat>, k: string, v: nat)
    ensures Sum(m[k := v]) == v + Sum(m - {k})
  {
    SumWithout(m[k := v], k);
    assert m[k := v] - {k} == m - {k};
  }

  ghost function Sizes(objects: map<string, File>): map<string, nat> {
    map k | k in objects :: |Joined(objects[k])|
  }

  ghost function RowsIn(objects: map<string, File>): nat {
    Sum(Sizes(objects))
  }

  lemma RowsInGrows(objects: map<string, File>, key: string, file: File)
    requires key !in objects
    ensures RowsIn(objects[key := file]) == RowsIn(objects) + |Joined(file)|
  {
    SumWith(Sizes(objects), key, |Joined(file)|);
    assert Sizes(objects) - {key} == Sizes(objects);
    SizesWith(objects, key, file);
  }

  lemma SizesWith(objects: map<string, File>, key: string, file: File)
    ensures Sizes(objects[key := file]) == Sizes(objects)[key := |Joined(file)|]
  {
  }

  ////////// Open files

  /** A file being written: its roll window, when and under what key it was opened, and its rows so far. */
  datatype OpenFile = OpenFile(window: int, openedAt: IngestTime, key: string, groups: File, rows: seq<Row>, total: nat)

  function RowsOpen(f: OpenFile): seq<Row> {
    Joined(f.groups) + f.rows
  }

  ghost function Totals(open: map<string, OpenFile>): map<string, nat> {
    map p | p in open :: open[p].total
  }

  ghost function RowsOpenIn(open: map<string, OpenFile>): nat {
    Sum(Totals(open))
  }

  lemma RowsOpenWithout(open: map<string, OpenFile>, p: string)
    requires p in open
    ensures RowsOpenIn(open) == RowsOpenIn(open - {p}) + open[p].total
  {
    SumWithout(Totals(open), p);
    assert Totals(open) - {p} == Totals(open - {p});
  }

  lemma RowsOpenWith(open: map<string, OpenFile>, p: string, f: OpenFile)
    ensures RowsOpenIn(open[p := f]) == RowsOpenIn(open - {p}) + f.total
  {
    SumWith(Totals(open), p, f.total);
    assert Totals(open) - {p} == Totals(open - {p});
    assert Totals(open[p := f]) == Totals(open)[p := f.total];
  }

  predicate IsDir(dir: string) {
    dir != [] && dir[|dir| - 1] == '/'
  }

  /** The keys issued are those of the numbers below each directory's next, and no number from there on is taken. */
  ghost predicate NumbersFree(objects: map<string, File>, parts: map<string, nat>, issued: map<string, string>) {
    && (forall dir, n: nat | IsDir(dir) && Keys.KeyFor(dir, n) in issued :: dir in parts && n < parts[dir])
    && (forall dir, n: nat | IsDir(dir) && dir in parts && n >= parts[dir] :: Keys.KeyFor(dir, n) !in objects)
  }

  /** An open file's key was issued to its partition, so no two share one, and the store does not have it. */
  ghost predicate KeysFree(objects: map<string, File>, issued: map<string, string>, open: map<string, OpenFile>) {
    forall p | p in open :: open[p].key in issued && issued[open[p].key] == p && open[p].key !in objects
  }

  lemma DirAndPartOfKey(dir: string, n: nat, dir': string, n': nat)
    requires IsDir(dir) && IsDir(dir') && Keys.KeyFor(dir, n) == Keys.KeyFor(dir', n')
    ensures dir == dir' && n == n'
  {
    Keys.KeysCarryTheirPart(dir, n);
    Keys.KeysCarryTheirPart(dir', n');
    var key := Keys.KeyFor(dir, n);
    assert dir == key[..|key| - |Keys.FileName(n)|] && dir' == key[..|key| - |Keys.FileName(n)|];
  }

  lemma JoinedExtends(groups: File, g: seq<Row>)
    ensures Joined(groups + [g]) == Joined(groups) + g
  {
    assert (groups + [g])[..|groups|] == groups;
  }

  ////////// What each open and stored file holds

  /** A record of a run: the partition each key was issued to, the rows its file was given, and which keys were stored or refused. */
  datatype Record = Record(
    issued: map<string, string>, given: map<string, seq<Row>>, stored: set<string>, refused: set<string>)

  /** These rows are exactly those given to the key's file, in order. */
  ghost predicate Holds(r: Record, key: string, rows: seq<Row>) {
    key in r.given && rows == r.given[key]
  }

  ghost predicate OpenFilesHold(r: Record, open: map<string, OpenFile>) {
    forall p | p in open :: Holds(r, open[p].key, RowsOpen(open[p])) && open[p].total == |RowsOpen(open[p])|
  }

  ghost predicate StoredFilesHold(r: Record, objects: map<string, File>) {
    forall k | k in r.stored :: k in objects && Holds(r, k, Joined(objects[k]))
  }

  ghost predicate Consistent(r: Record, objects: map<string, File>, parts: map<string, nat>, open: map<string, OpenFile>) {
    && r.given.Keys == r.issued.Keys
    && NumbersFree(objects, parts, r.issued) && KeysFree(objects, r.issued, open)
    && OpenFilesHold(r, open) && StoredFilesHold(r, objects)
  }

  /** The groups a file is closed with. */
  function Closing(f: OpenFile): File {
    if f.rows == [] then f.groups else f.groups + [f.rows]
  }

  lemma ClosingHasAllRows(f: OpenFile)
    ensures Joined(Closing(f)) == RowsOpen(f)
  {
    if f.rows != [] {
      JoinedExtends(f.groups, f.rows);
    }
  }

  lemma PutKeepsNumbersFree(objects: map<string, File>, parts: map<string, nat>, issued: map<string, string>, key: string, file: File)
    requires NumbersFree(objects, parts, issued) && key in issued
    ensures NumbersFree(objects[key := file], parts, issued)
  {
  }

  lemma RollKeepsHolding(r: Record, objects: map<string, File>, parts: map<string, nat>, open: map<string, OpenFile>, p: string)
    requires Consistent(r, objects, parts, open) && p in open
    ensures var key := open[p].key;
            && OpenFilesHold(r.(stored := r.stored + {key}), open - {p})
            && StoredFilesHold(r.(stored := r.stored + {key}), objects[key := Closing(open[p])])
  {
    var key := open[p].key;
    var r' := r.(stored := r.stored + {key});
    ClosingHasAllRows(open[p]);
    assert Holds(r, key, RowsOpen(open[p]));
    forall q | q in open - {p}
      ensures Holds(r', open[q].key, RowsOpen(open[q])) && open[q].total == |RowsOpen(open[q])|
    {
      assert Holds(r, open[q].key, RowsOpen(open[q]));
    }
    forall k | k in r.stored && k != key
      ensures Holds(r', k, Joined(objects[k]))
    {
      assert Holds(r, k, Joined(objects[k]));
    }
  }

  /** Closing a file that is stored keeps the record, and its rows move from the open files to the store. */
  lemma RollIsConsistent(r: Record, objects: map<string, File>, parts: map<string, nat>, open: map<string, OpenFile>, p: string)
    requires Consistent(r, objects, parts, open) && p in open
    ensures open[p].key !in objects
    ensures var f := open[p];
            Consistent(r.(stored := r.stored + {f.key}), objects[f.key := Closing(f)], parts, open - {p})
    ensures RowsIn(objects[open[p].key := Closing(open[p])]) == RowsIn(objects) + open[p].total
  {
    var f := open[p];
    ClosingHasAllRows(f);
    PutKeepsNumbersFree(objects, parts, r.issued, f.key, Closing(f));
    RollKeepsHolding(r, objects, parts, open, p);
    RowsInGrows(objects, f.key, Closing(f));
  }

  /** Closing one that is refused only forgets it. */
  lemma LosingIsConsistent(r: Record, objects: map<string, File>, parts: map<string, nat>, open: map<string, OpenFile>, p: string)
    requires Consistent(r, objects, parts, open) && p in open
    ensures Consistent(r.(refused := r.refused + {open[p].key}), objects, parts, open - {p})
  {
  }

  lemma StartKeepsNumbersFree(objects: map<string, File>, parts: map<string, nat>, issued: map<string, string>,
                              p: string, dir: string, part: nat)
    requires NumbersFree(objects, parts, issued) && IsDir(dir)
    requires dir in parts ==> part == parts[dir]
    requires forall n: nat | n >= part :: Keys.KeyFor(dir, n) !in objects
    ensures Keys.KeyFor(dir, part) !in issued
    ensures NumbersFree(objects, parts[dir := part + 1], issued[Keys.KeyFor(dir, part) := p])
  {
    var parts' := parts[dir := part + 1];
    forall d, n: nat | IsDir(d) && Keys.KeyFor(d, n) in issued[Keys.KeyFor(dir, part) := p]
      ensures d in parts' && n < parts'[d]
    {
      if Keys.KeyFor(d, n) !in issued {
        DirAndPartOfKey(d, n, dir, part);
      }
    }
    forall d, n: nat | IsDir(d) && d in parts' && n >= parts'[d]
      ensures Keys.KeyFor(d, n) !in objects
    {
    }
  }

  lemma StartKeepsHolding(r: Record, objects: map<string, File>, open: map<string, OpenFile>, p: string, f: OpenFile)
    requires OpenFilesHold(r, open) && StoredFilesHold(r, objects) && p !in open && f.key !in objects
    requires (forall q | q in open :: open[q].key != f.key) && f.groups == [] && f.rows == [] && f.total == 0
    ensures var r' := r.(issued := r.issued[f.key := p], given := r.given[f.key := []]);
            OpenFilesHold(r', open[p := f]) && StoredFilesHold(r', objects)
  {
    var r' := r.(issued := r.issued[f.key := p], given := r.given[f.key := []]);
    forall q | q in open
      ensures Holds(r', open[q].key, RowsOpen(open[q]))
    {
      assert Holds(r, open[q].key, RowsOpen(open[q]));
    }
    forall k | k in r.stored
      ensures k in objects && Holds(r', k, Joined(objects[k]))
    {
      assert k in objects && Holds(r, k, Joined(objects[k]));
    }
  }

  /** A number no listing shows and this writer has not issued opens a file of its own. */
  lemma StartIsConsistent(r: Record, objects: map<string, File>, parts: map<string, nat>, open: map<string, OpenFile>,
                          p: string, dir: string, part: nat, f: OpenFile)
    requires Consistent(r, objects, parts, open) && p !in open && IsDir(dir)
    requires dir in parts ==> part == parts[dir]
    requires forall n: nat | n >= part :: Keys.KeyFor(dir, n) !in objects
    requires f.key == Keys.KeyFor(dir, part) && f.groups == [] && f.rows == [] && f.total == 0
    ensures Consistent(r.(issued := r.issued[f.key := p], given := r.given[f.key := []]), objects,
                       parts[dir := part + 1], open[p := f])
  {
    StartKeepsNumbersFree(objects, parts, r.issued, p, dir, part);
    assert KeysFree(objects, r.issued[f.key := p], open[p := f]);
    StartKeepsHolding(r, objects, open, p, f);
  }

  lemma RowsOpenStays(open: map<string, OpenFile>, p: string, f: OpenFile)
    requires p !in open && f.total == 0
    ensures RowsOpenIn(open[p := f]) == RowsOpenIn(open)
  {
    RowsOpenWith(open, p, f);
    assert open - {p} == open;
  }

  lemma RowsOpenGrows(open: map<string, OpenFile>, p: string, g: OpenFile, n: nat)
    requires p in open && g.total == open[p].total + n
    ensures RowsOpenIn(open[p := g]) == RowsOpenIn(open) + n
  {
    RowsOpenWithout(open, p);
    RowsOpenWith(open, p, g);
  }

  /** A file with more rows. */
  ghost predicate Extends(f: OpenFile, g: OpenFile, rows: seq<Row>) {
    g.key == f.key && RowsOpen(g) == RowsOpen(f) + rows && g.total == f.total + |rows|
  }

  /** What each file has been given, with more rows for one. */
  ghost function Grown(given: map<string, seq<Row>>, key: string, rows: seq<Row>): map<string, seq<Row>> {
    given[key := (if key in given then given[key] else []) + rows]
  }

  /** The record after more rows for a key. */
  ghost function Noted(r: Record, key: string, rows: seq<Row>): Record {
    r.(given := Grown(r.given, key, rows))
  }

  lemma AddKeepsHolding(r: Record, objects: map<string, File>, parts: map<string, nat>, open: map<string, OpenFile>,
                        p: string, rows: seq<Row>, g: OpenFile)
    requires Consistent(r, objects, parts, open) && p in open && open[p].key in r.given && Extends(open[p], g, rows)
    ensures OpenFilesHold(Noted(r, open[p].key, rows), open[p := g])
    ensures StoredFilesHold(Noted(r, open[p].key, rows), objects)
  {
    var key := open[p].key;
    forall q | q in open
      ensures var f := open[p := g][q]; Holds(Noted(r, key, rows), f.key, RowsOpen(f)) && f.total == |RowsOpen(f)|
    {
      assert Holds(r, open[q].key, RowsOpen(open[q])) && open[q].total == |RowsOpen(open[q])|;
    }
    forall k | k in r.stored
      ensures k in objects && Holds(Noted(r, key, rows), k, Joined(objects[k]))
    {
      assert k in objects && Holds(r, k, Joined(objects[k]));
    }
  }

  lemma AddKeepsKeys(objects: map<string, File>, issued: map<string, string>, open: map<string, OpenFile>, p: string, g: OpenFile)
    requires KeysFree(objects, issued, open) && p in open && g.key == open[p].key
    ensures KeysFree(objects, issued, open[p := g])
  {
  }

  lemma AddIsConsistent(r: Record, objects: map<string, File>, parts: map<string, nat>, open: map<string, OpenFile>,
                        p: string, rows: seq<Row>, g: OpenFile)
    requires Consistent(r, objects, parts, open) && p in open && open[p].key in r.given && Extends(open[p], g, rows)
    ensures Consistent(Noted(r, open[p].key, rows), objects, parts, open[p := g])
  {
    AddKeepsHolding(r, objects, parts, open, p, rows, g);
    AddKeepsKeys(objects, r.issued, open, p, g);
  }

  ////////// A writer's books

  /** A writer and its store as a value: what the store held at first, what has been appended, what is lost. */
  datatype Ledger = Ledger(
    record: Record, objects: map<string, File>, parts: map<string, nat>, open: map<string, OpenFile>,
    initial: map<string, File>, appended: nat, lost: nat)

  /** The store holds what it did at first, untouched, and this writer's files. */
  ghost predicate OnlyAdds(l: Ledger) {
    && l.objects.Keys == l.initial.Keys + l.record.stored && l.record.stored !! l.initial.Keys
    && forall k | k in l.initial :: l.objects[k] == l.initial[k]
  }

  /** Every row given to a file is stored, still open, or lost with its file. */
  ghost predicate Balanced(l: Ledger) {
    RowsIn(l.objects) + RowsOpenIn(l.open) + l.lost == RowsIn(l.initial) + l.appended
  }

  /** The ledgers that agree with themselves in all of this. */
  ghost function Sound(): iset<Ledger> {
    iset l: Ledger | Consistent(l.record, l.objects, l.parts, l.open) && OnlyAdds(l) && Balanced(l)
  }

  ghost predicate InOrder(l: Ledger) {
    l in Sound()
  }

  ghost function Rolled(l: Ledger, p: string): Ledger
    requires p in l.open
  {
    var f := l.open[p];
    l.(objects := l.objects[f.key := Closing(f)], open := l.open - {p},
       record := l.record.(stored := l.record.stored + {f.key}))
  }

  lemma OpenKeyIsFree(l: Ledger, p: string)
    requires InOrder(l) && p in l.open
    ensures l.open[p].key !in l.objects
  {
  }

  lemma RolledInOrder(l: Ledger, p: string)
    requires InOrder(l) && p in l.open
    ensures InOrder(Rolled(l, p))
    ensures l.open[p].key !in l.objects && Joined(Closing(l.open[p])) == RowsOpen(l.open[p])
  {
    RollIsConsistent(l.record, l.objects, l.parts, l.open, p);
    ClosingHasAllRows(l.open[p]);
    RolledBalances(l, p);
    RolledOnlyAdds(l, p);
    var after := Rolled(l, p);
    assert Consistent(after.record, after.objects, after.parts, after.open);
  }

  lemma RolledOnlyAdds(l: Ledger, p: string)
    requires OnlyAdds(l) && p in l.open && l.open[p].key !in l.objects
    ensures OnlyAdds(Rolled(l, p))
  {
    var key, after := l.open[p].key, Rolled(l, p);
    assert after.objects.Keys == l.objects.Keys + {key};
  }

  lemma RolledBalances(l: Ledger, p: string)
    requires Balanced(l) && p in l.open
    requires RowsIn(l.objects[l.open[p].key := Closing(l.open[p])]) == RowsIn(l.objects) + l.open[p].total
    ensures Balanced(Rolled(l, p))
  {
    RowsOpenWithout(l.open, p);
  }

  ghost function Dropped(l: Ledger, p: string): Ledger
    requires p in l.open
  {
    l.(open := l.open - {p}, lost := l.lost + l.open[p].total,
       record := l.record.(refused := l.record.refused + {l.open[p].key}))
  }

  lemma DroppedInOrder(l: Ledger, p: string)
    requires InOrder(l) && p in l.open
    ensures InOrder(Dropped(l, p)) && l.open[p].total == |RowsOpen(l.open[p])|
  {
    LosingIsConsistent(l.record, l.objects, l.parts, l.open, p);
    RowsOpenWithout(l.open, p);
  }

  /** Closing a partition's file, if it has one. */
  ghost function HandedOver(l: Ledger, p: string, outcome: PutOutcome): Ledger {
    if p !in l.open then l else if outcome.Refused? then Dropped(l, p) else Rolled(l, p)
  }

  lemma HandedOverInOrder(l: Ledger, p: string, outcome: PutOutcome)
    requires InOrder(l)
    ensures InOrder(HandedOver(l, p, outcome))
  {
    if p in l.open {
      if outcome.Refused? {
        DroppedInOrder(l, p);
      } else {
        RolledInOrder(l, p);
      }
    }
  }

  ghost function Started(l: Ledger, p: string, dir: string, part: nat, f: OpenFile): Ledger {
    l.(parts := l.parts[dir := part + 1], open := l.open[p := f],
       record := l.record.(issued := l.record.issued[f.key := p], given := l.record.given[f.key := []]))
  }

  lemma StartedInOrder(l: Ledger, p: string, dir: string, part: nat, f: OpenFile)
    requires InOrder(l) && p !in l.open && IsDir(dir)
    requires dir in l.parts ==> part == l.parts[dir]
    requires forall n: nat | n >= part :: Keys.KeyFor(dir, n) !in l.objects
    requires f.key == Keys.KeyFor(dir, part) && f.groups == [] && f.rows == [] && f.total == 0
    ensures InOrder(Started(l, p, dir, part, f))
  {
    StartIsConsistent(l.record, l.objects, l.parts, l.open, p, dir, part, f);
    RowsOpenStays(l.open, p, f);
  }

  ghost function Added(l: Ledger, p: string, rows: seq<Row>, g: OpenFile): Ledger {
    l.(open := l.open[p := g], record := Noted(l.record, g.key, rows), appended := l.appended + |rows|)
  }

  lemma AddedInOrder(l: Ledger, p: string, rows: seq<Row>, g: OpenFile)
    requires InOrder(l) && p in l.open && l.open[p].key in l.record.given && Extends(l.open[p], g, rows)
    ensures InOrder(Added(l, p, rows, g))
  {
    AddIsConsistent(l.record, l.objects, l.parts, l.open, p, rows, g);
    RowsOpenGrows(l.open, p, g, |rows|);
    var after := Added(l, p, rows, g);
    assert Consistent(after.record, after.objects, after.parts, after.open);
  }

  ghost predicate Preserves(before: map<string, File>, after: map<string, File>) {
    forall k | k in before :: k in after && after[k] == before[k]
  }

  lemma HandingOverPreserves(l: Ledger, p: string, outcome: PutOutcome)
    requires InOrder(l)
    ensures Preserves(l.objects, HandedOver(l, p, outcome).objects)
  {
    if p in l.open {
      OpenKeyIsFree(l, p);
    }
  }

  lemma OpenKeyIsRecorded(l: Ledger, p: string)
    requires InOrder(l) && p in l.open
    ensures l.open[p].key in l.record.given
  {
    assert Holds(l.record, l.open[p].key, RowsOpen(l.open[p]));
  }

  /** Buffered rows become a row group. */
  function Flushed(f: OpenFile): OpenFile {
    if f.rows == [] then f else f.(groups := f.groups + [f.rows], rows := [])
  }

  /** Grouping rows does not change what they are. */
  lemma FlushedExtends(f: OpenFile, rows: seq<Row>)
    ensures var g := f.(rows := f.rows + rows, total := f.total + |rows|);
            Extends(f, g, rows) && Extends(f, Flushed(g), rows)
  {
    JoinedExtends(f.groups, f.rows + rows);
    assert Joined(f.groups) + (f.rows + rows) == RowsOpen(f) + rows;
    assert Joined(f.groups) + (f.rows + rows) == (Joined(f.groups) + (f.rows + rows)) + [];
  }

  ////////// Closing everything

  /** Closing the files of these partitions; the order does not matter, see `ShutOneMore`. */
  ghost function Shut(l: Ledger, done: set<string>, puts: string -> PutOutcome): Ledger {
    if done == {} then l else var p :| p in done; HandedOver(Shut(l, done - {p}, puts), p, puts(p))
  }

  predicate OneKeyEach(open: map<string, OpenFile>) {
    forall p, q | p in open && q in open && p != q :: open[p].key != open[q].key
  }

  lemma HandingOverOnlyCloses(l: Ledger, p: string, outcome: PutOutcome)
    ensures var after := HandedOver(l, p, outcome);
            && after.initial == l.initial && after.record.given == l.record.given && after.appended == l.appended
            && after.open == l.open - {p}
  {
  }

  /** Closing gives no file rows and takes no event. */
  lemma {:induction false} ShutOnlyCloses(l: Ledger, done: set<string>, puts: string -> PutOutcome)
    ensures var after := Shut(l, done, puts);
            && after.initial == l.initial && after.record.given == l.record.given && after.appended == l.appended
            && after.open == l.open - done
  {
    if done != {} {
      var p :| p in done && Shut(l, done, puts) == HandedOver(Shut(l, done - {p}, puts), p, puts(p));
      ShutOnlyCloses(l, done - {p}, puts);
      HandingOverOnlyCloses(Shut(l, done - {p}, puts), p, puts(p));
      assert l.open - (done - {p}) - {p} == l.open - done;
    }
  }

  lemma HandingOverCommutes(l: Ledger, p: string, x: PutOutcome, q: string, y: PutOutcome)
    requires p != q && OneKeyEach(l.open)
    ensures HandedOver(HandedOver(l, p, x), q, y) == HandedOver(HandedOver(l, q, y), p, x)
  {
    if p in l.open && q in l.open {
      BothCommute(l, p, x, q, y);
    }
  }

  lemma BothCommute(l: Ledger, p: string, x: PutOutcome, q: string, y: PutOutcome)
    requires p in l.open && q in l.open && p != q && l.open[p].key != l.open[q].key
    ensures HandedOver(HandedOver(l, p, x), q, y) == HandedOver(HandedOver(l, q, y), p, x)
  {
    BothHandedOver(l, p, x, q, y);
    BothHandedOver(l, q, y, p, x);
    var k, m := l.open[p].key, l.open[q].key;
    FilesCommute(l.objects, k, Closing(l.open[p]), m, Closing(l.open[q]));
    KeysCommute(l.record.stored, if x.Refused? then {} else {k}, if y.Refused? then {} else {m});
    KeysCommute(l.record.refused, if x.Refused? then {k} else {}, if y.Refused? then {m} else {});
    assert {p, q} == {q, p};
  }

  lemma FilesCommute(objects: map<string, File>, k: string, f: File, m: string, g: File)
    requires k != m
    ensures objects[k := f][m := g] == objects[m := g][k := f]
  {
  }

  lemma KeysCommute(keys: set<string>, a: set<string>, b: set<string>)
    ensures keys + a + b == keys + b + a
  {
  }

  lemma BothHandedOver(l: Ledger, p: string, x: PutOutcome, q: string, y: PutOutcome)
    requires p != q && p in l.open && q in l.open
    ensures var f, g, both := l.open[p], l.open[q], HandedOver(HandedOver(l, p, x), q, y);
            var first := if x.Refused? then l.objects else l.objects[f.key := Closing(f)];
            && both.objects == (if y.Refused? then first else first[g.key := Closing(g)])
            && both.record == Record(l.record.issued, l.record.given,
                 l.record.stored + (if x.Refused? then {} else {f.key}) + (if y.Refused? then {} else {g.key}),
                 l.record.refused + (if x.Refused? then {f.key} else {}) + (if y.Refused? then {g.key} else {}))
            && both.open == l.open - {p, q} && both.parts == l.parts && both.initial == l.initial && both.appended == l.appended
            && both.lost == l.lost + (if x.Refused? then f.total else 0) + (if y.Refused? then g.total else 0)
  {
    assert l.open - {p} - {q} == l.open - {p, q};
  }

  lemma ShutKeepsKeys(l: Ledger, done: set<string>, puts: string -> PutOutcome)
    requires OneKeyEach(l.open)
    ensures Shut(l, done, puts).open == l.open - done && OneKeyEach(Shut(l, done, puts).open)
  {
    ShutOnlyCloses(l, done, puts);
  }

  lemma ShutNone(l: Ledger, puts: string -> PutOutcome)
    ensures Shut(l, {}, puts) == l
  {
  }

  /** Whichever file is closed last, the outcome is the same. */
  lemma {:induction false} ShutOneMore(l: Ledger, done: set<string>, p: string, puts: string -> PutOutcome)
    requires OneKeyEach(l.open) && p !in done
    ensures HandedOver(Shut(l, done, puts), p, puts(p)) == Shut(l, done + {p}, puts)
    decreases |done|
  {
    var all := done + {p};
    var q :| q in all && Shut(l, all, puts) == HandedOver(Shut(l, all - {q}, puts), q, puts(q));
    if q == p {
      assert all - {q} == done;
    } else {
      var rest := done - {q};
      assert all - {q} == rest + {p} && rest + {q} == done;
      ShutOneMore(l, rest, p, puts);
      ShutOneMore(l, rest, q, puts);
      ShutKeepsKeys(l, rest, puts);
      HandingOverCommutes(Shut(l, rest, puts), p, puts(p), q, puts(q));
    }
  }

  lemma InOrderHasOneKeyEach(l: Ledger)
    requires InOrder(l)
    ensures OneKeyEach(l.open)
  {
    assert KeysFree(l.objects, l.record.issued, l.open);
  }

  lemma {:induction false} ShutInOrder(l: Ledger, done: set<string>, puts: string -> PutOutcome)
    requires InOrder(l)
    ensures InOrder(Shut(l, done, puts))
  {
    if done != {} {
      var p :| p in done && Shut(l, done, puts) == HandedOver(Shut(l, done - {p}, puts), p, puts(p));
      ShutInOrder(l, done - {p}, puts);
      HandedOverInOrder(Shut(l, done - {p}, puts), p, puts(p));
    }
  }

  /** The rows of each file refused. */
  ghost function Losses(open: map<string, OpenFile>, done: set<string>, puts: string -> PutOutcome): map<string, nat> {
    map p | p in done && p in open && puts(p).Refused? :: open[p].total
  }

  lemma LossesOneMore(open: map<string, OpenFile>, done: set<string>, p: string, puts: string -> PutOutcome)
    requires p !in done
    ensures Sum(Losses(open, done + {p}, puts)) ==
            Sum(Losses(open, done, puts)) + if p in open && puts(p).Refused? then open[p].total else 0
  {
    var before, after := Losses(open, done, puts), Losses(open, done + {p}, puts);
    if p in open && puts(p).Refused? {
      assert after == before[p := open[p].total];
      SumWith(before, p, open[p].total);
      assert before - {p} == before;
    } else {
      assert after == before;
    }
  }

  lemma HandingOverLoses(l: Ledger, p: string, outcome: PutOutcome)
    ensures HandedOver(l, p, outcome).lost == l.lost + if p in l.open && outcome.Refused? then l.open[p].total else 0
  {
  }

  /** Exactly the rows of the files refused are lost. */
  lemma {:induction false} ShutLosesTheRefused(l: Ledger, done: set<string>, puts: string -> PutOutcome)
    requires OneKeyEach(l.open)
    ensures Shut(l, done, puts).lost == l.lost + Sum(Losses(l.open, done, puts))
  {
    if done == {} {
      assert Places(Losses(l.open, {}, puts)) == {};
    } else {
      var p :| p in done && Shut(l, done, puts) == HandedOver(Shut(l, done - {p}, puts), p, puts(p));
      ShutLosesTheRefused(l, done - {p}, puts);
      ShutKeepsKeys(l, done - {p}, puts);
      HandingOverLoses(Shut(l, done - {p}, puts), p, puts(p));
      LossesOneMore(l.open, done - {p}, p, puts);
      assert done - {p} + {p} == done;
    }
  }

  /** What a store holds under a key. */
  function Under(objects: map<string, File>, key: string): Option<File> {
    if key in objects then Some(objects[key]) else None
  }

  lemma HandingOverElsewhere(l: Ledger, p: string, outcome: PutOutcome, key: string)
    requires p in l.open ==> l.open[p].key != key
    ensures Under(HandedOver(l, p, outcome).objects, key) == Under(l.objects, key)
  {
  }

  lemma {:induction false} ShuttingElsewhere(l: Ledger, done: set<string>, puts: string -> PutOutcome, key: string)
    requires forall p | p in done && p in l.open :: l.open[p].key != key
    ensures Under(Shut(l, done, puts).objects, key) == Under(l.objects, key)
  {
    if done != {} {
      var p :| p in done && Shut(l, done, puts) == HandedOver(Shut(l, done - {p}, puts), p, puts(p));
      ShuttingElsewhere(l, done - {p}, puts, key);
      ShutOnlyCloses(l, done - {p}, puts);
      HandingOverElsewhere(Shut(l, done - {p}, puts), p, puts(p), key);
    }
  }

  /** A file that is not refused is stored as it stood; under the key of one that is, nothing changes. */
  lemma ShutStoresTheRest(l: Ledger, done: set<string>, puts: string -> PutOutcome, p: string)
    requires OneKeyEach(l.open) && p in done && p in l.open
    ensures Under(Shut(l, done, puts).objects, l.open[p].key) ==
            if puts(p).Refused? then Under(l.objects, l.open[p].key) else Some(Closing(l.open[p]))
  {
    var rest := done - {p};
    ShutOneMore(l, rest, p, puts);
    assert rest + {p} == done;
    ShutOnlyCloses(l, rest, puts);
    ShuttingElsewhere(l, rest, puts, l.open[p].key);
  }

  lemma {:induction false} ShutPreserves(l: Ledger, done: set<string>, puts: string -> PutOutcome)
    requires InOrder(l)
    ensures Preserves(l.objects, Shut(l, done, puts).objects)
  {
    if done != {} {
      var p :| p in done && Shut(l, done, puts) == HandedOver(Shut(l, done - {p}, puts), p, puts(p));
      ShutPreserves(l, done - {p}, puts);
      ShutInOrder(l, done - {p}, puts);
      HandingOverPreserves(Shut(l, done - {p}, puts), p, puts(p));
    }
  }

  /** Closing every file: none is left open, the refused ones' rows are lost, and no stored file changes. */
  lemma ShutAll(l: Ledger, puts: string -> PutOutcome)
    requires InOrder(l)
    ensures var after := Shut(l, l.open.Keys, puts);
            && InOrder(after) && after.open == map[] && after.lost == l.lost + Sum(Losses(l.open, l.open.Keys, puts))
            && Preserves(l.objects, after.objects)
  {
    ShutPreserves(l, l.open.Keys, puts);
    ShutInOrder(l, l.open.Keys, puts);
    InOrderHasOneKeyEach(l);
    ShutKeepsKeys(l, l.open.Keys, puts);
    ShutLosesTheRefused(l, l.open.Keys, puts);
  }
}
