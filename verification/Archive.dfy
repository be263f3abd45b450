/**
 The archive over any number of writers, one after another (crates/ma-persist/src/writer.rs):
 nothing stored is ever overwritten, every row is accounted for, and what is stored reads back.
 */
module Archive {
  import opened Types
  import opened Codec
  import opened CodecRoundTrip
  import opened ArchiveLedger
  import opened WriterSteps
  import opened WriterRuns
  import opened Writer

  ////////// Any number of processes

  type Lives = seq<(Config, seq<Call>)>

  /** What the store holds after these processes, one after another, each up to its end or its crash. */
  ghost function After(flat: Flattening, prefix: string, objects: map<string, File>, lives: Lives): map<string, File> {
    if lives == [] then objects
    else
      var n := |lives| - 1;
      Ran(Setup(flat, prefix, lives[n].0), After(flat, prefix, objects, lives[..n]), lives[n].1).books.objects
  }

  /** What the k-th of them did. */
  ghost function LifeOf(flat: Flattening, prefix: string, objects: map<string, File>, lives: Lives, k: nat): Progress
    requires k < |lives|
  {
    Ran(Setup(flat, prefix, lives[k].0), After(flat, prefix, objects, lives[..k]), lives[k].1)
  }

  /** The rows of the events it took. */
  ghost function RowsTaken(flat: Flattening, v: Progress): nat {
    |RowsBy(flat, Events(v.entries), BaseOf(v.base))|
  }

  /** The rows of its files that were refused, or open at its end. */
  ghost function RowsForgone(v: Progress): nat {
    Sum(RowsGiven(v.books.record.given, v.books.record.refused)) + RowsOpenIn(v.books.open)
  }

  ghost function AllRowsTaken(flat: Flattening, prefix: string, objects: map<string, File>, lives: Lives): nat {
    if lives == [] then 0
    else
      var n := |lives| - 1;
      AllRowsTaken(flat, prefix, objects, lives[..n]) + RowsTaken(flat, LifeOf(flat, prefix, objects, lives, n))
  }

  ghost function AllRowsForgone(flat: Flattening, prefix: string, objects: map<string, File>, lives: Lives): nat {
    if lives == [] then 0
    else
      var n := |lives| - 1;
      AllRowsForgone(flat, prefix, objects, lives[..n]) + RowsForgone(LifeOf(flat, prefix, objects, lives, n))
  }

  /** One process accounts for every row it took. */
  lemma LifeBalances(c: Setup, objects: map<string, File>, calls: seq<Call>)
    ensures var v := Ran(c, objects, calls);
            && RowsIn(v.books.objects) + RowsForgone(v) == RowsIn(objects) + RowsTaken(c.flat, v)
            && Preserves(objects, v.books.objects)
  {
    RanInOrder(c, objects, calls);
    RanIsJournaled(c, objects, calls);
    RanIsSettled(c, objects, calls);
    assert Balanced(Ran(c, objects, calls).books) && OnlyAdds(Ran(c, objects, calls).books);
  }

  /** Conservation: over any sequence of processes, rows taken are stored, or were in a file refused or open at a crash. */
  lemma {:induction false} ArchiveBalances(flat: Flattening, prefix: string, objects: map<string, File>, lives: Lives)
    ensures RowsIn(After(flat, prefix, objects, lives)) + AllRowsForgone(flat, prefix, objects, lives) ==
            RowsIn(objects) + AllRowsTaken(flat, prefix, objects, lives)
  {
    if lives != [] {
      var n := |lives| - 1;
      ArchiveBalances(flat, prefix, objects, lives[..n]);
      LifeBalances(Setup(flat, prefix, lives[n].0), After(flat, prefix, objects, lives[..n]), lives[n].1);
    }
  }

  /** Every process closes its writer at the end, and no upload is ever refused. */
  ghost predicate Orderly(flat: Flattening, prefix: string, objects: map<string, File>, lives: Lives) {
    lives == [] ||
    var n := |lives| - 1;
    && Orderly(flat, prefix, objects, lives[..n])
    && OrderlyLife(Setup(flat, prefix, lives[n].0), After(flat, prefix, objects, lives[..n]), lives[n].1)
  }

  ghost predicate OrderlyLife(c: Setup, objects: map<string, File>, calls: seq<Call>) {
    CalmThroughout(c, objects, calls) && (calls != [] ==> calls[|calls| - 1].CallClose?)
  }

  lemma OrderlyLifeForgoesNothing(c: Setup, objects: map<string, File>, calls: seq<Call>)
    requires OrderlyLife(c, objects, calls)
    ensures RowsForgone(Ran(c, objects, calls)) == 0
  {
    CalmRefusesNothing(c, objects, calls);
    if calls != [] {
      ClosingLeavesNothingOpen(c, objects, calls);
    }
    var books := Ran(c, objects, calls).books;
    assert Places(RowsGiven(books.record.given, {})) == {} && Places(Totals(map[])) == {};
  }

  lemma {:induction false} OrderlyForgoNothing(flat: Flattening, prefix: string, objects: map<string, File>, lives: Lives)
    requires Orderly(flat, prefix, objects, lives)
    ensures AllRowsForgone(flat, prefix, objects, lives) == 0
  {
    if lives != [] {
      var n := |lives| - 1;
      OrderlyForgoNothing(flat, prefix, objects, lives[..n]);
      OrderlyLifeForgoesNothing(Setup(flat, prefix, lives[n].0), After(flat, prefix, objects, lives[..n]), lives[n].1);
    }
  }

  /** If every process is orderly, every row taken is stored. */
  lemma OrderlyArchiveKeepsEverything(flat: Flattening, prefix: string, objects: map<string, File>, lives: Lives)
    requires Orderly(flat, prefix, objects, lives)
    ensures RowsIn(After(flat, prefix, objects, lives)) == RowsIn(objects) + AllRowsTaken(flat, prefix, objects, lives)
  {
    ArchiveBalances(flat, prefix, objects, lives);
    OrderlyForgoNothing(flat, prefix, objects, lives);
  }

  /** What was stored once stays as it was. */
  lemma {:induction false} ArchivePreserves(flat: Flattening, prefix: string, objects: map<string, File>, lives: Lives, k: nat)
    requires k <= |lives|
    ensures Preserves(After(flat, prefix, objects, lives[..k]), After(flat, prefix, objects, lives))
    decreases |lives|
  {
    if k == |lives| {
      assert lives[..k] == lives;
    } else {
      var n := |lives| - 1;
      assert lives[..n][..k] == lives[..k];
      ArchivePreserves(flat, prefix, objects, lives[..n], k);
      LifeBalances(Setup(flat, prefix, lives[n].0), After(flat, prefix, objects, lives[..n]), lives[n].1);
    }
  }

  /**
   Whatever came later, a file that some process stored is still there and decodes to exactly the
   events of the successful appends that went to it, in the order they were made.
   */
  lemma StoredFilesReadBack(flat: Flattening, text: Text, prefix: string, objects: map<string, File>, lives: Lives,
                            k: nat, key: string)
    requires forall e, n, b :: flat(e, n, b) == Flattened(text, e, n, b)
    requires k < |lives| && key in LifeOf(flat, prefix, objects, lives, k).books.record.stored
    ensures var v, store := LifeOf(flat, prefix, objects, lives, k), After(flat, prefix, objects, lives);
            && key in store
            && (AllExact(text, FileOf(v.entries, key)) ==>
                  Decoded(text, store[key]) == Ok(StoredAll(FileOf(v.entries, key), BaseOf(v.base))))
  {
    RanFilesDecode(Setup(flat, prefix, lives[k].0), After(flat, prefix, objects, lives[..k]), lives[k].1, text, key);
    StoredStays(flat, prefix, objects, lives, k, key);
  }

  lemma StoredStays(flat: Flattening, prefix: string, objects: map<string, File>, lives: Lives, k: nat, key: string)
    requires k < |lives| && key in LifeOf(flat, prefix, objects, lives, k).books.objects
    ensures var store := After(flat, prefix, objects, lives);
            key in store && store[key] == LifeOf(flat, prefix, objects, lives, k).books.objects[key]
  {
    PrefixOneMore(lives, k);
    AfterOneMore(flat, prefix, objects, lives[..k], lives[k]);
    ArchivePreserves(flat, prefix, objects, lives, k + 1);
  }

  lemma RanFilesDecode(c: Setup, objects: map<string, File>, calls: seq<Call>, text: Text, key: string)
    requires forall e, n, b :: c.flat(e, n, b) == Flattened(text, e, n, b)
    requires key in Ran(c, objects, calls).books.record.stored
    ensures var v := Ran(c, objects, calls);
            && key in v.books.objects
            && (AllExact(text, FileOf(v.entries, key)) ==>
                  Decoded(text, v.books.objects[key]) == Ok(StoredAll(FileOf(v.entries, key), BaseOf(v.base))))
  {
    RanIsKept(c, objects, calls);
    StoredFileDecodes(c, Ran(c, objects, calls), text, key);
  }

  lemma RanIsKept(c: Setup, objects: map<string, File>, calls: seq<Call>)
    ensures var v := Ran(c, objects, calls); InOrder(v.books) && Journaled(c, v) && NumberedFromOne(v.entries)
  {
    RanInOrder(c, objects, calls);
    RanIsJournaled(c, objects, calls);
    EntriesAreTheEventsTaken(c, objects, calls);
  }

  lemma StoredFileDecodes(c: Setup, v: Progress, text: Text, key: string)
    requires forall e, n, b :: c.flat(e, n, b) == Flattened(text, e, n, b)
    requires InOrder(v.books) && Journaled(c, v) && NumberedFromOne(v.entries) && key in v.books.record.stored
    ensures key in v.books.objects
    ensures AllExact(text, FileOf(v.entries, key)) ==>
              Decoded(text, v.books.objects[key]) == Ok(StoredAll(FileOf(v.entries, key), BaseOf(v.base)))
  {
    var es := FileOf(v.entries, key);
    assert Holds(v.books.record, key, Joined(v.books.objects[key]));
    assert WriterRuns.Fits(c, v, key);
    FilesAscend(v.entries, key);
    AscendingIsDistinct(es, |v.entries|);
    RowsByFlattening(c.flat, text, es, BaseOf(v.base));
    if AllExact(text, es) {
      RoundTrip(text, es, BaseOf(v.base), v.books.objects[key]);
    }
  }

  lemma {:induction false} RowsByFlattening(flat: Flattening, text: Text, es: seq<Numbered>, base: IngestTime)
    requires forall e, n, b :: flat(e, n, b) == Flattened(text, e, n, b)
    ensures RowsBy(flat, es, base) == RowsOf(text, es, base)
  {
    if es != [] {
      RowsByFlattening(flat, text, es[..|es| - 1], base);
    }
  }

  ////////// The loops themselves

  method ServeAppend(writer: EventWriter, e: Event, weather: Weather, ghost objects: map<string, File>, ghost calls: seq<Call>)
    requires writer.Valid() && writer.Value() == Ran(writer.Settings(), objects, calls)
    modifies writer, writer.store
    ensures writer.Value() == Ran(writer.Settings(), objects, calls + [CallAppend(e, weather)])
    ensures writer.store.clashes == old(writer.store.clashes)
  {
    RanAppend(writer.Settings(), objects, calls, e, weather);
    var _ := writer.Append(e, weather);
  }

  method ServeClose(writer: EventWriter, puts: string -> PutOutcome, ghost objects: map<string, File>, ghost calls: seq<Call>)
    requires writer.Valid() && writer.Value() == Ran(writer.Settings(), objects, calls)
    modifies writer, writer.store
    ensures writer.Value() == Ran(writer.Settings(), objects, calls + [CallClose(puts)])
    ensures writer.store.clashes == old(writer.store.clashes)
  {
    RanClose(writer.Settings(), objects, calls, puts);
    ghost var v := writer.Value();
    var _ := writer.Close(puts);
    assert writer.Value() == v.(books := writer.Books());
  }

  lemma RanAppend(c: Setup, objects: map<string, File>, calls: seq<Call>, e: Event, weather: Weather)
    ensures Ran(c, objects, calls + [CallAppend(e, weather)]) == Appended(c, Ran(c, objects, calls), e, weather)
  {
    assert (calls + [CallAppend(e, weather)])[..|calls|] == calls;
  }

  lemma RanClose(c: Setup, objects: map<string, File>, calls: seq<Call>, puts: string -> PutOutcome)
    ensures var v := Ran(c, objects, calls);
            Ran(c, objects, calls + [CallClose(puts)]) == v.(books := Shut(v.books, v.books.open.Keys, puts))
  {
    assert (calls + [CallClose(puts)])[..|calls|] == calls;
  }

  /** One more call. */
  method Serve(writer: EventWriter, call: Call, ghost objects: map<string, File>, ghost calls: seq<Call>)
    requires writer.Value() == Ran(writer.Settings(), objects, calls)
    modifies writer, writer.store
    ensures writer.Value() == Ran(writer.Settings(), objects, calls + [call])
    ensures writer.store.clashes == old(writer.store.clashes)
  {
    RanInOrder(writer.Settings(), objects, calls);
    match call {
      case CallAppend(e, weather) => ServeAppend(writer, e, weather, objects, calls);
      case CallClose(puts) => ServeClose(writer, puts, objects, calls);
    }
  }

  /** One process's use of the archive, up to its end or its crash: whatever is then open is lost. */
  method Lifetime(store: Store, flat: Flattening, prefix: string, config: Config, calls: seq<Call>)
    returns (writer: EventWriter)
    modifies store
    ensures fresh(writer) && writer.store == store && store.clashes == old(store.clashes)
    ensures writer.Value() == Ran(Setup(flat, prefix, config), old(store.objects), calls)
    ensures store.objects == Ran(Setup(flat, prefix, config), old(store.objects), calls).books.objects
  {
    ghost var c, objects := Setup(flat, prefix, config), store.objects;
    writer := new EventWriter(store, flat, prefix, config);
    WholePrefix(calls);
    for i := 0 to |calls|
      modifies writer, store
      invariant fresh(writer) && writer.store == store && store.clashes == old(store.clashes)
      invariant writer.Settings() == c && writer.Value() == Ran(c, objects, calls[..i])
    {
      Serve(writer, calls[i], objects, calls[..i]);
      PrefixOneMore(calls, i);
    }
  }

  /** One more process. */
  method Live(store: Store, flat: Flattening, prefix: string, life: (Config, seq<Call>),
              ghost objects: map<string, File>, ghost lives: Lives)
    requires store.objects == After(flat, prefix, objects, lives)
    modifies store
    ensures store.objects == After(flat, prefix, objects, lives + [life]) && store.clashes == old(store.clashes)
  {
    AfterOneMore(flat, prefix, objects, lives, life);
    var writer := Lifetime(store, flat, prefix, life.0, life.1);
  }

  lemma AfterOneMore(flat: Flattening, prefix: string, objects: map<string, File>, lives: Lives, life: (Config, seq<Call>))
    ensures After(flat, prefix, objects, lives + [life]) ==
            Ran(Setup(flat, prefix, life.0), After(flat, prefix, objects, lives), life.1).books.objects
  {
    assert (lives + [life])[..|lives|] == lives;
  }

  /** Any sequence of processes over one store: no upload ever meets a key already there, and no stored file changes. */
  method Archive(store: Store, flat: Flattening, prefix: string, lives: Lives)
    modifies store
    ensures store.objects == After(flat, prefix, old(store.objects), lives)
    ensures store.clashes == old(store.clashes) && Preserves(old(store.objects), store.objects)
  {
    WholePrefix(lives);
    for i := 0 to |lives|
      invariant store.clashes == old(store.clashes)
      invariant store.objects == After(flat, prefix, old(store.objects), lives[..i])
    {
      Live(store, flat, prefix, lives[i], old(store.objects), lives[..i]);
      PrefixOneMore(lives, i);
    }
    ArchivePreserves(flat, prefix, old(store.objects), lives, 0);
  }
}
