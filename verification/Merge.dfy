/**
 Reading an archive back as one stream (crates/ma-persist/src/reader.rs): one cursor for each
 partition, its files in key order, merged by wall clock. A store is a map from keys to what
 their files decode to; a key it lacks, or whose file does not decode, fails.
 */
module Merge {
  import opened Types
  import opened Codec

  type Files = map<string, Option<seq<StoredEvent>>>

  function Contents(files: Files, key: string): Option<seq<StoredEvent>> {
    if key in files then files[key] else None
  }

  /** One partition's files, read in key order. */
  datatype Cursor = Cursor(keys: seq<string>, pending: seq<StoredEvent>)

  ////////// The merge as a function

  /** The queue with the earliest head; of equal ones, the first. */
  function Least(queues: seq<seq<StoredEvent>>): (least: Option<nat>)
    ensures least.Some? ==> least.value < |queues| && queues[least.value] != []
    ensures least.None? ==> forall i | 0 <= i < |queues| :: queues[i] == []
  {
    if queues == [] then None
    else
      var n := |queues| - 1;
      var best := Least(queues[..n]);
      if queues[n] == [] then best
      else if best.None? || queues[n][0].wall < queues[best.value][0].wall then Some(n)
      else best
  }

  function Total(queues: seq<seq<StoredEvent>>): nat {
    if queues == [] then 0 else Total(queues[..|queues| - 1]) + |queues[|queues| - 1]|
  }

  lemma {:induction false} TotalDrops(queues: seq<seq<StoredEvent>>, i: nat)
    requires i < |queues| && queues[i] != []
    ensures Total(queues[i := queues[i][1..]]) == Total(queues) - 1
  {
    var n := |queues| - 1;
    var fewer := queues[i := queues[i][1..]];
    if i == n {
      assert fewer[..n] == queues[..n];
    } else {
      assert fewer[..n] == queues[..n][i := queues[i][1..]];
      TotalDrops(queues[..n], i);
    }
  }

  /** An emitted event and the partition it came from. */
  datatype Emission = Emission(from: nat, event: StoredEvent)

  function Merged(queues: seq<seq<StoredEvent>>): seq<Emission>
    decreases Total(queues)
  {
    var i := Least(queues);
    if i.None? then []
    else
      TotalDrops(queues, i.value);
      [Emission(i.value, queues[i.value][0])] + Merged(queues[i.value := queues[i.value][1..]])
  }

  function Events(emissions: seq<Emission>): seq<StoredEvent> {
    seq(|emissions|, i requires 0 <= i < |emissions| => emissions[i].event)
  }

  ////////// Reading files on demand

  datatype Filling = Filling(cursor: Cursor, ok: bool)

  /** Read files until the cursor has an event or no file is left. A key that fails is used up. */
  function Filled(files: Files, c: Cursor): Filling
    decreases |c.keys|
  {
    if c.pending != [] || c.keys == [] then Filling(c, true)
    else match Contents(files, c.keys[0])
      case None => Filling(Cursor(c.keys[1..], []), false)
      case Some(es) => Filled(files, Cursor(c.keys[1..], es))
  }

  datatype Fillings = Fillings(cursors: seq<Cursor>, ok: bool)

  /** Fill the cursors in order, stopping at the first that fails. */
  function FilledAll(files: Files, cs: seq<Cursor>): (all: Fillings)
    ensures |all.cursors| == |cs|
  {
    if cs == [] then Fillings([], true)
    else
      var n := |cs| - 1;
      var front := FilledAll(files, cs[..n]);
      if !front.ok then Fillings(front.cursors + [cs[n]], false)
      else
        var last := Filled(files, cs[n]);
        Fillings(front.cursors + [last.cursor], last.ok)
  }

  /** The cursors before the n-th are filled, that one fails, and those after it are left alone. */
  ghost predicate StopsAt(files: Files, cs: seq<Cursor>, after: seq<Cursor>, n: nat) {
    && n < |cs| == |after| && !Filled(files, cs[n]).ok && after[n] == Filled(files, cs[n]).cursor
    && (forall k | 0 <= k < n :: Filled(files, cs[k]).ok && after[k] == Filled(files, cs[k]).cursor)
    && (forall k | n < k < |cs| :: after[k] == cs[k])
  }

  ghost predicate AllFilled(files: Files, cs: seq<Cursor>, after: seq<Cursor>) {
    |after| == |cs| && forall k | 0 <= k < |cs| :: Filled(files, cs[k]).ok && after[k] == Filled(files, cs[k]).cursor
  }

  lemma StillStopsAt(files: Files, cs: seq<Cursor>, after: seq<Cursor>, n: nat, c: Cursor)
    requires StopsAt(files, cs, after, n)
    ensures StopsAt(files, cs + [c], after + [c], n)
  {
  }

  lemma StopsAtTheLast(files: Files, cs: seq<Cursor>, after: seq<Cursor>, c: Cursor)
    requires AllFilled(files, cs, after) && !Filled(files, c).ok
    ensures StopsAt(files, cs + [c], after + [Filled(files, c).cursor], |cs|)
  {
  }

  lemma OneMoreFilled(files: Files, cs: seq<Cursor>, after: seq<Cursor>, c: Cursor)
    requires AllFilled(files, cs, after) && Filled(files, c).ok
    ensures AllFilled(files, cs + [c], after + [Filled(files, c).cursor])
  {
  }

  /** Filling all stops at the first that fails; if none does every one is filled. */
  lemma {:induction false} FillingStopsAtTheFirst(files: Files, cs: seq<Cursor>)
    ensures var all := FilledAll(files, cs);
            if all.ok then AllFilled(files, cs, all.cursors) else exists n: nat :: StopsAt(files, cs, all.cursors, n)
  {
    if cs != [] {
      var front, last := cs[..|cs| - 1], cs[|cs| - 1];
      var before := FilledAll(files, front);
      FillingStopsAtTheFirst(files, front);
      assert cs == front + [last];
      if !before.ok {
        var n: nat :| StopsAt(files, front, before.cursors, n);
        StillStopsAt(files, front, before.cursors, n, last);
      } else if Filled(files, last).ok {
        OneMoreFilled(files, front, before.cursors, last);
      } else {
        StopsAtTheLast(files, front, before.cursors, last);
      }
    }
  }

  predicate Readable(files: Files, c: Cursor) {
    forall k | k in c.keys :: Contents(files, k).Some?
  }

  predicate AllReadable(files: Files, cs: seq<Cursor>) {
    forall i | 0 <= i < |cs| :: Readable(files, cs[i])
  }

  /** Every event a cursor has left; a file that fails has none. */
  function Queue(files: Files, c: Cursor): seq<StoredEvent>
    decreases |c.keys|
  {
    if c.keys == [] then c.pending
    else
      var es := Contents(files, c.keys[0]);
      c.pending + Queue(files, Cursor(c.keys[1..], if es.Some? then es.value else []))
  }

  function Queues(files: Files, cs: seq<Cursor>): seq<seq<StoredEvent>> {
    seq(|cs|, i requires 0 <= i < |cs| => Queue(files, cs[i]))
  }

  function Pendings(cs: seq<Cursor>): seq<seq<StoredEvent>> {
    seq(|cs|, i requires 0 <= i < |cs| => cs[i].pending)
  }

  /** A failure uses up the first key whose file cannot be read, and the empty files before it, and nothing else. */
  lemma {:induction false} FailureUsesUpOneKey(files: Files, c: Cursor)
    requires !Filled(files, c).ok
    ensures exists n: nat ::
              && n < |c.keys| && Contents(files, c.keys[n]).None?
              && (forall k | 0 <= k < n :: Contents(files, c.keys[k]) == Some([]))
              && Filled(files, c).cursor == Cursor(c.keys[n + 1..], [])
    decreases |c.keys|
  {
    if Contents(files, c.keys[0]).Some? {
      var next := Cursor(c.keys[1..], Contents(files, c.keys[0]).value);
      FailureUsesUpOneKey(files, next);
      var n: nat :| n < |next.keys| && Contents(files, next.keys[n]).None?
        && (forall k | 0 <= k < n :: Contents(files, next.keys[k]) == Some([]))
        && Filled(files, next).cursor == Cursor(next.keys[n + 1..], []);
      assert next.keys[n + 1..] == c.keys[n + 2..];
      forall k | 0 <= k < n + 1 ensures Contents(files, c.keys[k]) == Some([]) {
        assert k > 0 ==> next.keys[k - 1] == c.keys[k];
      }
      assert Contents(files, c.keys[n + 1]).None?;
    } else {
      assert Contents(files, c.keys[0]).None?;
    }
  }

  /** Filling reads files without losing or reordering an event, and fails only on a file that cannot be read. */
  lemma {:induction false} FilledKeepsQueue(files: Files, c: Cursor)
    ensures var f := Filled(files, c);
            && (f.ok ==> Queue(files, f.cursor) == Queue(files, c) && (Readable(files, f.cursor) <==> Readable(files, c))
                         && (f.cursor.pending == [] ==> f.cursor.keys == []))
            && (!f.ok ==> !Readable(files, c))
    decreases |c.keys|
  {
    if c.pending == [] && c.keys != [] {
      var es := Contents(files, c.keys[0]);
      var next := Cursor(c.keys[1..], if es.Some? then es.value else []);
      assert Queue(files, c) == Queue(files, next);
      assert c.keys == [c.keys[0]] + next.keys;
      if es.Some? {
        FilledKeepsQueue(files, next);
      }
    }
  }

  lemma {:induction false} FilledAllIsEach(files: Files, cs: seq<Cursor>)
    ensures var f := FilledAll(files, cs);
            && (f.ok ==> forall i | 0 <= i < |cs| :: Filled(files, cs[i]) == Filling(f.cursors[i], true))
            && (!f.ok ==> exists i | 0 <= i < |cs| :: !Filled(files, cs[i]).ok)
  {
    if cs != [] {
      var n := |cs| - 1;
      FilledAllIsEach(files, cs[..n]);
      if !FilledAll(files, cs[..n]).ok {
        var i :| 0 <= i < n && !Filled(files, cs[..n][i]).ok;
        assert !Filled(files, cs[i]).ok;
      } else if !Filled(files, cs[n]).ok {
        assert !FilledAll(files, cs).ok;
      } else {
        assert forall i | 0 <= i < n :: cs[..n][i] == cs[i];
      }
    }
  }

  /** The same for all cursors at once. */
  lemma FilledAllKeepsQueues(files: Files, cs: seq<Cursor>)
    ensures var f := FilledAll(files, cs);
            && (!f.ok ==> !AllReadable(files, cs))
            && (f.ok ==> Queues(files, f.cursors) == Queues(files, cs)
                         && (AllReadable(files, f.cursors) <==> AllReadable(files, cs))
                         && Primed(f.cursors))
  {
    FilledAllIsEach(files, cs);
    forall i | 0 <= i < |cs|
      ensures !Filled(files, cs[i]).ok ==> !Readable(files, cs[i])
      ensures var f := Filled(files, cs[i]);
              f.ok ==> Queue(files, f.cursor) == Queue(files, cs[i]) && (Readable(files, f.cursor) <==> Readable(files, cs[i]))
                       && (f.cursor.pending == [] ==> f.cursor.keys == [])
    {
      FilledKeepsQueue(files, cs[i]);
    }
    var f := FilledAll(files, cs);
    if f.ok {
      assert forall i | 0 <= i < |cs| :: Filled(files, cs[i]).cursor == f.cursors[i];
    }
  }

  lemma {:induction false} HeadsAreHeads(files: Files, c: Cursor)
    requires c.pending == [] ==> c.keys == []
    ensures Queue(files, c) == [] <==> c.pending == []
    ensures c.pending != [] ==>
              && Queue(files, c) != [] && Queue(files, c)[0] == c.pending[0]
              && Queue(files, c.(pending := c.pending[1..])) == Queue(files, c)[1..]
  {
    if c.pending != [] && c.keys != [] {
      var es := Contents(files, c.keys[0]);
      var rest := Queue(files, Cursor(c.keys[1..], if es.Some? then es.value else []));
      assert c.pending[1..] + rest == (c.pending + rest)[1..];
    }
  }

  lemma {:induction false} SameHeadsSameLeast(xs: seq<seq<StoredEvent>>, ys: seq<seq<StoredEvent>>)
    requires |xs| == |ys|
    requires forall i | 0 <= i < |xs| :: (xs[i] == [] <==> ys[i] == []) && (xs[i] != [] ==> xs[i][0] == ys[i][0])
    ensures Least(xs) == Least(ys)
  {
    if xs != [] {
      var n := |xs| - 1;
      SameHeadsSameLeast(xs[..n], ys[..n]);
    }
  }

  /** What `FillAll` leaves: an empty cursor has no file left. */
  predicate Primed(cs: seq<Cursor>) {
    forall i | 0 <= i < |cs| :: cs[i].pending == [] ==> cs[i].keys == []
  }

  lemma LeastPendingIsLeast(files: Files, cs: seq<Cursor>)
    requires Primed(cs)
    ensures Least(Pendings(cs)) == Least(Queues(files, cs))
  {
    forall i | 0 <= i < |cs|
      ensures Queue(files, cs[i]) == [] <==> cs[i].pending == []
      ensures cs[i].pending != [] ==> Queue(files, cs[i])[0] == cs[i].pending[0]
    {
      HeadsAreHeads(files, cs[i]);
    }
    SameHeadsSameLeast(Pendings(cs), Queues(files, cs));
  }

  lemma NothingLeft(files: Files, cs: seq<Cursor>)
    requires Primed(cs) && Least(Pendings(cs)).None?
    ensures AllReadable(files, cs)
  {
    forall i | 0 <= i < |cs|
      ensures Readable(files, cs[i])
    {
      assert Pendings(cs)[i] == [];
    }
  }

  lemma TakingTheHead(files: Files, cs: seq<Cursor>, i: nat)
    requires i < |cs| && cs[i].pending != []
    ensures var taken := cs[i := cs[i].(pending := cs[i].pending[1..])];
            && Queue(files, cs[i]) != [] && Queue(files, cs[i])[0] == cs[i].pending[0]
            && Queues(files, taken) == Queues(files, cs)[i := Queue(files, cs[i])[1..]]
            && (AllReadable(files, taken) <==> AllReadable(files, cs))
  {
    HeadsAreHeads(files, cs[i]);
    var taken := cs[i := cs[i].(pending := cs[i].pending[1..])];
    assert forall j | 0 <= j < |cs| :: taken[j].keys == cs[j].keys;
  }

  class EventReader {
    const files: Files
    var cursors: seq<Cursor>

    constructor (files: Files, cursors: seq<Cursor>)
      ensures this.files == files && this.cursors == cursors
    {
      this.files, this.cursors := files, cursors;
    }

    /** Read files for cursor `i` until it has an event. */
    method FillCursor(i: nat) returns (ok: bool)
      requires i < |cursors|
      modifies this
      ensures var f := Filled(files, old(cursors[i]));
              ok == f.ok && cursors == old(cursors)[i := f.cursor]
    {
      ok := true;
      while cursors[i].pending == [] && cursors[i].keys != []
        invariant |cursors| == |old(cursors)|
        invariant Filled(files, cursors[i]) == Filled(files, old(cursors[i]))
        invariant cursors == old(cursors)[i := cursors[i]]
        decreases |cursors[i].keys|
      {
        var key := cursors[i].keys[0];
        var read := Contents(files, key);
        if read.None? {
          cursors := cursors[i := Cursor(cursors[i].keys[1..], [])];
          return false;
        }
        cursors := cursors[i := Cursor(cursors[i].keys[1..], read.value)];
      }
    }

    method FillAll() returns (ok: bool)
      modifies this
      ensures Fillings(cursors, ok) == FilledAll(files, old(cursors))
    {
      ghost var cs := cursors;
      for i := 0 to |cursors|
        invariant |cursors| == |cs|
        invariant FilledAll(files, cs[..i]) == Fillings(cursors[..i], true)
        invariant cursors[i..] == cs[i..]
      {
        ghost var before := cursors;
        assert before[i] == cs[i..][0] == cs[i];
        ok := FillCursor(i);
        assert cs[..i + 1][..i] == cs[..i];
        assert cursors[..i + 1] == before[..i] + [cursors[i]];
        assert cursors[i + 1..] == before[i..][1..] == cs[i + 1..];
        if !ok {
          FillingStops(files, cs, i + 1);
          assert cursors == cursors[..i + 1] + cs[i + 1..];
          return;
        }
      }
      assert cs[..|cs|] == cs && cursors[..|cursors|] == cursors;
      ok := true;
    }

    /** The head with the least wall clock; a linear scan. */
    method Pick() returns (pick: Option<nat>)
      ensures pick == Least(Pendings(cursors))
    {
      pick := None;
      for i := 0 to |cursors|
        invariant pick == Least(Pendings(cursors)[..i])
      {
        assert Pendings(cursors)[..i + 1][..i] == Pendings(cursors)[..i];
        if cursors[i].pending != [] {
          if pick.None? || cursors[i].pending[0].wall < cursors[pick.value].pending[0].wall {
            pick := Some(i);
          }
        }
      }
      assert Pendings(cursors)[..|cursors|] == Pendings(cursors);
    }

    /** The next event in merge order. An error uses up the key that failed and nothing else. */
    method NextEvent() returns (ok: bool, event: Option<StoredEvent>)
      modifies this
      ensures ok == FilledAll(files, old(cursors)).ok
      ensures !ok ==> cursors == FilledAll(files, old(cursors)).cursors
      ensures ok ==>
                var queues, i := Queues(files, old(cursors)), Least(Queues(files, old(cursors)));
                && event == (if i.Some? then Some(queues[i.value][0]) else None)
                && Queues(files, cursors) == (if i.Some? then queues[i.value := queues[i.value][1..]] else queues)
                && (AllReadable(files, cursors) <==> AllReadable(files, old(cursors)))
                && (event.None? ==> AllReadable(files, cursors))
    {
      event := None;
      FilledAllKeepsQueues(files, cursors);
      ok := FillAll();
      if !ok {
        return;
      }
      LeastPendingIsLeast(files, cursors);
      var pick := Pick();
      if pick.Some? {
        var c := cursors[pick.value];
        TakingTheHead(files, cursors, pick.value);
        event := Some(c.pending[0]);
        cursors := cursors[pick.value := c.(pending := c.pending[1..])];
      } else {
        NothingLeft(files, cursors);
      }
    }

    /** Everything, in merge order, or an error exactly if some file cannot be read. */
    method Collect() returns (ok: bool, events: seq<StoredEvent>)
      modifies this
      ensures ok <==> AllReadable(files, old(cursors))
      ensures ok ==> events == Events(Merged(Queues(files, old(cursors))))
    {
      events := [];
      ghost var queues := Queues(files, cursors);
      while true
        invariant AllReadable(files, cursors) <==> AllReadable(files, old(cursors))
        invariant events + Events(Merged(Queues(files, cursors))) == Events(Merged(queues))
        decreases Total(Queues(files, cursors))
      {
        ghost var before := Queues(files, cursors);
        FilledAllKeepsQueues(files, cursors);
        var event;
        ok, event := NextEvent();
        if !ok {
          return false, [];
        }
        if event.None? {
          assert events + [] == events;
          return true, events;
        }
        ghost var i := Least(before).value;
        TotalDrops(before, i);
        MergedStep(before);
        ghost var done := events;
        events := events + [event.value];
        Shift(done, event.value, Events(Merged(Queues(files, cursors))));
      }
    }
  }

  lemma Shift(xs: seq<StoredEvent>, x: StoredEvent, ys: seq<StoredEvent>)
    ensures (xs + [x]) + ys == xs + ([x] + ys)
  {
  }

  lemma MergedStep(queues: seq<seq<StoredEvent>>)
    requires Least(queues).Some?
    ensures var i := Least(queues).value;
            Events(Merged(queues)) == [queues[i][0]] + Events(Merged(queues[i := queues[i][1..]]))
  {
  }

  /** A failure among the first cursors leaves the later ones alone. */
  lemma {:induction false} FillingStops(files: Files, cs: seq<Cursor>, k: nat)
    requires k <= |cs| && !FilledAll(files, cs[..k]).ok
    ensures FilledAll(files, cs) == Fillings(FilledAll(files, cs[..k]).cursors + cs[k..], false)
  {
    if k == |cs| {
      assert cs[..k] == cs;
    } else {
      var n := |cs| - 1;
      assert cs[..n][..k] == cs[..k];
      FillingStops(files, cs[..n], k);
      assert cs[..n][k..] + [cs[n]] == cs[k..];
    }
  }
}
