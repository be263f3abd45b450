/**
 How much of a pruned book can be believed (crates/ma-core/src/book.rs, the caveat on the
 depth cap). A capped book and an uncapped one are run on the same snapshot and deltas; the
 capped one is right near the top by a margin that shrinks by one with every delete of a
 level it held.
 */
module BookDepth {
  import opened Types
  import opened Book

  function BetterThan(side: Side, m: Levels, p: Price): set<Price> {
    set q | q in m.Keys && Better(side, q, p)
  }

  /** `kept` is part of `full`, and every level it lacks has at least `n` better levels in `kept`. */
  ghost predicate Margin(side: Side, full: Levels, kept: Levels, n: int) {
    && kept.Keys <= full.Keys && (forall p | p in kept :: kept[p] == full[p])
    && (forall p | p in full && p !in kept :: |BetterThan(side, kept, p)| >= n)
  }

  /** Deletes of a level that was there, counted as the updates are applied. */
  function HeldDeletes(m: Levels, updates: seq<Level>): nat {
    if updates == [] then 0
    else
      var front, last := updates[..|updates| - 1], updates[|updates| - 1];
      HeldDeletes(m, front) + if last.IsDelete() && last.price in Applied(m, front) then 1 else 0
  }

  lemma {:induction false} SubsetIsSmaller<T>(a: set<T>, b: set<T>)
    requires a <= b
    ensures |a| <= |b|
  {
    if a != {} {
      var x := SomeMember(a);
      SubsetIsSmaller(a - {x}, b - {x});
    }
  }

  lemma ChangedKeepsMargin(side: Side, full: Levels, kept: Levels, n: int, level: Level)
    requires Margin(side, full, kept, n)
    ensures Margin(side, Changed(full, level), Changed(kept, level),
                   n - if level.IsDelete() && level.price in kept then 1 else 0)
  {
    var full', kept' := Changed(full, level), Changed(kept, level);
    forall p | p in full' && p !in kept'
      ensures |BetterThan(side, kept', p)| >= n - if level.IsDelete() && level.price in kept then 1 else 0
    {
      assert p in full && p !in kept;
      var before, after := BetterThan(side, kept, p), BetterThan(side, kept', p);
      if level.IsDelete() {
        assert after == before - {level.price};
      } else {
        SubsetIsSmaller(before, after);
      }
    }
  }

  lemma {:induction false} AppliedKeepsMargin(side: Side, full: Levels, kept: Levels, n: int, updates: seq<Level>)
    requires Margin(side, full, kept, n)
    ensures Margin(side, Applied(full, updates), Applied(kept, updates), n - HeldDeletes(kept, updates))
  {
    if updates != [] {
      var front, last := updates[..|updates| - 1], updates[|updates| - 1];
      AppliedKeepsMargin(side, full, kept, n, front);
      ChangedKeepsMargin(side, Applied(full, front), Applied(kept, front), n - HeldDeletes(kept, front), last);
    }
  }

  /** Pruning to a depth no smaller than the margin costs nothing. */
  lemma PrunedKeepsMargin(side: Side, full: Levels, kept: Levels, n: int, depth: nat)
    requires Margin(side, full, kept, n) && n <= depth
    ensures Margin(side, full, Pruned(side, kept, depth), n)
  {
    var pruned := Pruned(side, kept, depth);
    PrunedKeepsTheBest(side, kept, depth);
    forall p | p in full && p !in pruned ensures |BetterThan(side, pruned, p)| >= n {
      if p in kept {
        assert BetterThan(side, pruned, p) == pruned.Keys;
      } else if exists q :: q in kept && q !in pruned && Better(side, q, p) {
        var q :| q in kept && q !in pruned && Better(side, q, p);
        forall r | r in pruned ensures Better(side, r, p) {
          assert Better(side, r, q);
        }
        assert BetterThan(side, pruned, p) == pruned.Keys;
      } else {
        assert BetterThan(side, pruned, p) == BetterThan(side, kept, p);
      }
    }
  }

  /** The `n` best levels of a side, best first. */
  ghost function Top(side: Side, m: Levels, n: nat): seq<Level> {
    var best := Best(side, m);
    if n == 0 || best.None? then [] else [best.value] + Top(side, m - {best.value.price}, n - 1)
  }

  lemma BestAgrees(side: Side, full: Levels, kept: Levels, n: int)
    requires Margin(side, full, kept, n) && n > 0
    ensures Best(side, full) == Best(side, kept)
  {
    var best := Best(side, full);
    if best.Some? {
      var p := best.value.price;
      assert BetterThan(side, kept, p) == {};
      var q := Best(side, kept).value.price;
      assert IsBest(side, p, full.Keys) && IsBest(side, q, kept.Keys);
    } else {
      assert full.Keys == {};
    }
  }

  /** Within the margin, the capped book shows what the uncapped one would. */
  lemma {:induction false} TopAgrees(side: Side, full: Levels, kept: Levels, n: nat)
    requires Margin(side, full, kept, n)
    ensures Top(side, full, n) == Top(side, kept, n)
  {
    if n > 0 {
      BestAgrees(side, full, kept, n);
      var best := Best(side, full);
      if best.Some? {
        var p := best.value.price;
        var full', kept' := full - {p}, kept - {p};
        forall q | q in full' && q !in kept' ensures |BetterThan(side, kept', q)| >= n - 1 {
          assert BetterThan(side, kept', q) == BetterThan(side, kept, q) - {p};
        }
        TopAgrees(side, full', kept', n - 1);
      }
    }
  }

  ////////// Runs since a snapshot

  datatype Delta = Delta(bids: seq<Level>, asks: seq<Level>, at: IngestTime)

  ghost function Run(b: BookValue, deltas: seq<Delta>): BookValue {
    if deltas == [] then b
    else
      var d := deltas[|deltas| - 1];
      AfterDelta(Run(b, deltas[..|deltas| - 1]), d.bids, d.asks, d.at)
  }

  function UpdatesOf(side: Side, d: Delta): seq<Level> {
    if side.Bid? then d.bids else d.asks
  }

  /** Deletes of held levels on one side, over the deltas the book accepted. */
  ghost function Deletes(side: Side, b: BookValue, deltas: seq<Delta>): nat {
    if deltas == [] then 0
    else
      var front := deltas[..|deltas| - 1];
      var before := Run(b, front);
      Deletes(side, b, front) +
      if before.state.Live? then HeldDeletes(before.Of(side), UpdatesOf(side, deltas[|deltas| - 1])) else 0
  }

  /** The capped and the uncapped book agree on everything but what the margins allow. */
  ghost predicate Tracks(full: BookValue, kept: BookValue, bidMargin: int, askMargin: int) {
    && full.state == kept.state && full.lastUpdate == kept.lastUpdate
    && full.maxDepth.None? && kept.maxDepth.Some?
    && Margin(Bid, full.bids, kept.bids, bidMargin) && Margin(Ask, full.asks, kept.asks, askMargin)
  }

  lemma GuardTracks(full: BookValue, kept: BookValue, bidMargin: int, askMargin: int, at: IngestTime)
    requires Tracks(full, kept, bidMargin, askMargin) && bidMargin > 0 && askMargin > 0
    ensures Tracks(Guarded(full, at), Guarded(kept, at), bidMargin, askMargin)
  {
    BestAgrees(Bid, full.bids, kept.bids, bidMargin);
    BestAgrees(Ask, full.asks, kept.asks, askMargin);
  }

  lemma SnapshotTracks(b: BookValue, depth: nat, bids: seq<Level>, asks: seq<Level>, integrity: Integrity, at: IngestTime)
    requires depth > 0
    ensures Tracks(AfterSnapshot(b.(maxDepth := None), bids, asks, integrity, at),
                   AfterSnapshot(b.(maxDepth := Some(depth)), bids, asks, integrity, at), depth, depth)
  {
    var x, y := Snapped(bids), Snapped(asks);
    PrunedKeepsMargin(Bid, x, x, depth, depth);
    PrunedKeepsMargin(Ask, y, y, depth, depth);
    var state := Live(integrity, at, None);
    GuardTracks(BookValue(x, y, state, Some(at), None),
                BookValue(Pruned(Bid, x, depth), Pruned(Ask, y, depth), state, Some(at), Some(depth)),
                depth, depth, at);
  }

  lemma DeltaTracks(full: BookValue, kept: BookValue, x: int, y: int, d: Delta)
    requires Tracks(full, kept, x, y) && kept.state.Live? && x <= kept.maxDepth.value && y <= kept.maxDepth.value
    requires HeldDeletes(kept.bids, d.bids) < x && HeldDeletes(kept.asks, d.asks) < y
    ensures Tracks(AfterDelta(full, d.bids, d.asks, d.at), AfterDelta(kept, d.bids, d.asks, d.at),
                   x - HeldDeletes(kept.bids, d.bids), y - HeldDeletes(kept.asks, d.asks))
  {
    var depth := kept.maxDepth.value;
    var x', y' := x - HeldDeletes(kept.bids, d.bids), y - HeldDeletes(kept.asks, d.asks);
    AppliedKeepsMargin(Bid, full.bids, kept.bids, x, d.bids);
    AppliedKeepsMargin(Ask, full.asks, kept.asks, y, d.asks);
    PrunedKeepsMargin(Bid, Applied(full.bids, d.bids), Applied(kept.bids, d.bids), x', depth);
    PrunedKeepsMargin(Ask, Applied(full.asks, d.asks), Applied(kept.asks, d.asks), y', depth);
    GuardTracks(BookValue(Applied(full.bids, d.bids), Applied(full.asks, d.asks), full.state, Some(d.at), None),
                BookValue(Pruned(Bid, Applied(kept.bids, d.bids), depth), Pruned(Ask, Applied(kept.asks, d.asks), depth),
                          kept.state, Some(d.at), Some(depth)),
                x', y', d.at);
  }

  lemma {:induction false} RunTracks(full: BookValue, kept: BookValue, depth: nat, deltas: seq<Delta>)
    requires Tracks(full, kept, depth, depth) && kept.maxDepth == Some(depth)
    requires Deletes(Bid, kept, deltas) < depth && Deletes(Ask, kept, deltas) < depth
    ensures Run(kept, deltas).maxDepth == Some(depth)
    ensures Tracks(Run(full, deltas), Run(kept, deltas),
                   depth - Deletes(Bid, kept, deltas), depth - Deletes(Ask, kept, deltas))
  {
    if deltas != [] {
      var front, d := deltas[..|deltas| - 1], deltas[|deltas| - 1];
      RunTracks(full, kept, depth, front);
      if Run(kept, front).state.Live? {
        DeltaTracks(Run(full, front), Run(kept, front),
                    depth - Deletes(Bid, kept, front), depth - Deletes(Ask, kept, front), d);
      }
    }
  }

  /** What a venue sends from one snapshot on. */
  datatype Feed = Feed(bids: seq<Level>, asks: seq<Level>, integrity: Integrity, at: IngestTime, deltas: seq<Delta>)

  ghost function First(b: BookValue, depth: Option<nat>, feed: Feed): BookValue {
    AfterSnapshot(b.(maxDepth := depth), feed.bids, feed.asks, feed.integrity, feed.at)
  }

  ghost function Fed(b: BookValue, depth: Option<nat>, feed: Feed): BookValue {
    Run(First(b, depth, feed), feed.deltas)
  }

  /** What is left of the margin after the feed's deletes. */
  ghost function Left(side: Side, b: BookValue, depth: nat, feed: Feed): int {
    depth - Deletes(side, First(b, Some(depth), feed), feed.deltas)
  }

  lemma FedTracks(b: BookValue, depth: nat, feed: Feed)
    requires Left(Bid, b, depth, feed) > 0 && Left(Ask, b, depth, feed) > 0
    ensures Tracks(Fed(b, None, feed), Fed(b, Some(depth), feed), Left(Bid, b, depth, feed), Left(Ask, b, depth, feed))
  {
    SnapshotTracks(b, depth, feed.bids, feed.asks, feed.integrity, feed.at);
    RunTracks(First(b, None, feed), First(b, Some(depth), feed), depth, feed.deltas);
  }

  /** Both books serve the same best levels, `x` bids and `y` asks deep. */
  ghost predicate ServeAlike(full: BookValue, kept: BookValue, x: nat, y: nat) {
    && full.state == kept.state
    && Top(Bid, full.bids, x) == Top(Bid, kept.bids, x)
    && Top(Ask, full.asks, y) == Top(Ask, kept.asks, y)
  }

  lemma TrackingBooksServeAlike(full: BookValue, kept: BookValue, x: nat, y: nat)
    requires Tracks(full, kept, x, y)
    ensures ServeAlike(full, kept, x, y)
  {
    TopAgrees(Bid, full.bids, kept.bids, x);
    TopAgrees(Ask, full.asks, kept.asks, y);
  }

  /**
   The depth hazard, quantified: after a snapshot and any deltas, as long as fewer held
   levels than the cap have been deleted on each side, the capped book has the same state
   as the uncapped one, is part of it with every level it lacks at least `cap - deletes`
   deep, and so agrees with it on the best `cap - deletes` levels of each side.
   */
  lemma CappedBookIsRightNearTheTop(b: BookValue, depth: nat, feed: Feed)
    requires Left(Bid, b, depth, feed) > 0 && Left(Ask, b, depth, feed) > 0
    ensures Tracks(Fed(b, None, feed), Fed(b, Some(depth), feed), Left(Bid, b, depth, feed), Left(Ask, b, depth, feed))
    ensures ServeAlike(Fed(b, None, feed), Fed(b, Some(depth), feed), Left(Bid, b, depth, feed), Left(Ask, b, depth, feed))
  {
    FedTracks(b, depth, feed);
    TrackingBooksServeAlike(Fed(b, None, feed), Fed(b, Some(depth), feed),
                            Left(Bid, b, depth, feed), Left(Ask, b, depth, feed));
  }
}
