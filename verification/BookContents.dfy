/**
 What a snapshot and a delta leave in a book (crates/ma-core/src/book.rs), said of the levels
 that were served and of nothing else: which prices are held, with which quantities, which are
 cut by the cap, and what becomes of the state.
 */
module BookContents {
  import opened Types
  import opened Book

  /** The last level of the list at this price that is no delete. */
  ghost predicate Names(levels: seq<Level>, p: Price, i: int) {
    && 0 <= i < |levels| && levels[i].price == p && levels[i].qty != 0.0
    && forall j | i < j < |levels| && levels[j].price == p :: levels[j].qty == 0.0
  }

  /** The last level of the list at this price. */
  ghost predicate Speaks(levels: seq<Level>, p: Price, i: int) {
    && 0 <= i < |levels| && levels[i].price == p
    && forall j | i < j < |levels| :: levels[j].price != p
  }

  /** If any level at a price is no delete, there is a last one. */
  lemma {:induction false} LastNamed(levels: seq<Level>, p: Price, i: nat) returns (k: nat)
    requires i < |levels| && levels[i].price == p && levels[i].qty != 0.0
    ensures Names(levels, p, k)
  {
    var n := |levels| - 1;
    if i == n || (levels[n].price == p && levels[n].qty != 0.0) {
      k := n;
    } else {
      k := LastNamed(levels[..n], p, i);
    }
  }

  /** A level at another price, or a delete, names nothing. */
  lemma NamesAsBefore(levels: seq<Level>, p: Price, i: int)
    requires levels != [] && (levels[|levels| - 1].price != p || levels[|levels| - 1].qty == 0.0)
    ensures Names(levels, p, i) <==> Names(levels[..|levels| - 1], p, i)
  {
    var front := levels[..|levels| - 1];
    if Names(front, p, i) {
      assert front[i] == levels[i];
    }
  }

  /**
   A price is in a snapshot's side exactly if some level of the list at it is no delete, and it
   holds the quantity of the last such level.
   */
  lemma {:induction false} SnapshotHoldsTheLastNamed(levels: seq<Level>, p: Price)
    ensures p in Snapped(levels) <==> exists i :: 0 <= i < |levels| && levels[i].price == p && levels[i].qty != 0.0
    ensures p in Snapped(levels) <==> exists i :: Names(levels, p, i)
    ensures forall i | Names(levels, p, i) :: p in Snapped(levels) && Snapped(levels)[p] == levels[i].qty
  {
    SnapshotNames(levels, p);
    if i :| 0 <= i < |levels| && levels[i].price == p && levels[i].qty != 0.0 {
      var k := LastNamed(levels, p, i);
    }
  }

  lemma {:induction false} SnapshotNames(levels: seq<Level>, p: Price)
    ensures p in Snapped(levels) <==> exists i :: Names(levels, p, i)
    ensures forall i | Names(levels, p, i) :: p in Snapped(levels) && Snapped(levels)[p] == levels[i].qty
  {
    if levels != [] {
      var n := |levels| - 1;
      SnapshotNames(levels[..n], p);
      if levels[n].price == p && levels[n].qty != 0.0 {
        assert Names(levels, p, n);
      } else {
        forall i ensures Names(levels, p, i) <==> Names(levels[..n], p, i) {
          NamesAsBefore(levels, p, i);
        }
      }
    }
  }

  /** A price the list speaks of holds what it says last; one it does not keeps what it had. */
  lemma {:induction false} DeltaHoldsTheLastSaid(m: Levels, updates: seq<Level>, p: Price)
    ensures forall i | Speaks(updates, p, i) ::
              && (p in Applied(m, updates) <==> updates[i].qty != 0.0)
              && (p in Applied(m, updates) ==> Applied(m, updates)[p] == updates[i].qty)
    ensures (forall i | 0 <= i < |updates| :: updates[i].price != p) ==>
              && (p in Applied(m, updates) <==> p in m)
              && (p in m ==> Applied(m, updates)[p] == m[p])
  {
    if updates != [] {
      var n := |updates| - 1;
      DeltaHoldsTheLastSaid(m, updates[..n], p);
      if updates[n].price != p {
        forall i | Speaks(updates, p, i) ensures Speaks(updates[..n], p, i) {
        }
      }
    }
  }

  /** These are all the levels there are, or with a cap the best of them, as many as it allows. */
  ghost predicate BestOf(side: Side, m: Levels, depth: Option<nat>, all: Levels) {
    && (forall p | p in m :: p in all && all[p] == m[p])
    && (depth.None? ==> m == all)
    && (depth.Some? ==>
          && |m| <= depth.value && (m != all ==> |m| == depth.value)
          && forall p, q | p in m && q in all && q !in m :: Better(side, p, q))
  }

  lemma CappedIsTheBest(side: Side, all: Levels, depth: Option<nat>)
    ensures BestOf(side, Capped(side, all, depth), depth, all)
  {
    if depth.Some? {
      PrunedKeepsTheBest(side, all, depth.value);
      var kept := Pruned(side, all, depth.value);
      if |all| <= depth.value {
        assert kept == all;
      }
    }
  }

  /** A map that holds exactly what a snapshot's list names. */
  ghost predicate Served(all: Levels, levels: seq<Level>) {
    forall p ::
      && (p in all <==> exists i :: Names(levels, p, i))
      && forall i | Names(levels, p, i) :: p in all && all[p] == levels[i].qty
  }

  /** A map that holds what a delta's list says last of each price, and otherwise what was there. */
  ghost predicate Updated(all: Levels, before: Levels, updates: seq<Level>) {
    && (forall p, i | Speaks(updates, p, i) :: (p in all <==> updates[i].qty != 0.0) && (p in all ==> all[p] == updates[i].qty))
    && (forall p | forall i | 0 <= i < |updates| :: updates[i].price != p ::
          (p in all <==> p in before) && (p in all ==> all[p] == before[p]))
  }

  /** What the touch says of a book that was `state` otherwise: crossed, and then by which prices. */
  ghost predicate Judged(b: BookValue, otherwise: BookState, at: IngestTime) {
    if Crossed(b.bids, b.asks) then
      exists bid, ask :: IsBest(Bid, bid, b.bids.Keys) && IsBest(Ask, ask, b.asks.Keys) && bid >= ask &&
                         b.state == Desynced(at, CrossedBook(bid, ask))
    else b.state == otherwise
  }

  lemma GuardJudges(b: BookValue, at: IngestTime)
    requires b.state.Live?
    ensures Judged(Guarded(b, at), b.state, at)
    ensures Guarded(b, at) == b.(state := Guarded(b, at).state)
  {
    GuardDetectsCrossing(b, at);
    var bid, ask := Best(Bid, b.bids), Best(Ask, b.asks);
    if Crossed(b.bids, b.asks) {
      assert IsBest(Bid, bid.value.price, b.bids.Keys) && IsBest(Ask, ask.value.price, b.asks.Keys);
    }
  }

  /**
   After a snapshot each side is the levels its own list names, or the best of them the cap
   allows; the book is live since now and unverified, unless its own touch is crossed.
   */
  lemma SnapshotIsWhatWasServed(b: BookValue, bids: seq<Level>, asks: seq<Level>, integrity: Integrity, at: IngestTime)
    ensures var after := AfterSnapshot(b, bids, asks, integrity, at);
            && (exists all :: Served(all, bids) && BestOf(Bid, after.bids, b.maxDepth, all))
            && (exists all :: Served(all, asks) && BestOf(Ask, after.asks, b.maxDepth, all))
            && Judged(after, Live(integrity, at, None), at)
            && after.lastUpdate == Some(at) && after.maxDepth == b.maxDepth
  {
    SnappedIsServed(bids);
    SnappedIsServed(asks);
    CappedIsTheBest(Bid, Snapped(bids), b.maxDepth);
    CappedIsTheBest(Ask, Snapped(asks), b.maxDepth);
    GuardJudges(BookValue(Capped(Bid, Snapped(bids), b.maxDepth), Capped(Ask, Snapped(asks), b.maxDepth),
                          Live(integrity, at, None), Some(at), b.maxDepth), at);
  }

  lemma SnappedIsServed(levels: seq<Level>)
    ensures Served(Snapped(levels), levels)
  {
    forall p
      ensures p in Snapped(levels) <==> exists i :: Names(levels, p, i)
      ensures forall i | Names(levels, p, i) :: p in Snapped(levels) && Snapped(levels)[p] == levels[i].qty
    {
      SnapshotHoldsTheLastNamed(levels, p);
    }
  }

  /** What a list serves is determined by it. */
  lemma OnlyOneServed(x: Levels, y: Levels, levels: seq<Level>)
    requires Served(x, levels) && Served(y, levels)
    ensures x == y
  {
    forall p ensures (p in x <==> p in y) && (p in x ==> x[p] == y[p]) {
      if p in x {
        var i :| Names(levels, p, i);
      }
    }
  }

  /**
   A live book's delta changes each side by its own list, keeps the best levels the cap allows,
   and leaves the rest of the state as it was, unless the touch is now crossed. Any other book
   stays as it is.
   */
  lemma DeltaIsWhatWasSaid(b: BookValue, bids: seq<Level>, asks: seq<Level>, at: IngestTime)
    ensures var after := AfterDelta(b, bids, asks, at);
            if !b.state.Live? then after == b else
            && (exists all :: Updated(all, b.bids, bids) && BestOf(Bid, after.bids, b.maxDepth, all))
            && (exists all :: Updated(all, b.asks, asks) && BestOf(Ask, after.asks, b.maxDepth, all))
            && Judged(after, b.state, at) && after.lastUpdate == Some(at) && after.maxDepth == b.maxDepth
  {
    if !b.state.Live? {
      return;
    }
    AppliedIsUpdated(b.bids, bids);
    AppliedIsUpdated(b.asks, asks);
    CappedIsTheBest(Bid, Applied(b.bids, bids), b.maxDepth);
    CappedIsTheBest(Ask, Applied(b.asks, asks), b.maxDepth);
    GuardJudges(BookValue(Capped(Bid, Applied(b.bids, bids), b.maxDepth), Capped(Ask, Applied(b.asks, asks), b.maxDepth),
                          b.state, Some(at), b.maxDepth), at);
  }

  lemma AppliedIsUpdated(before: Levels, updates: seq<Level>)
    ensures Updated(Applied(before, updates), before, updates)
  {
    var all := Applied(before, updates);
    forall p, i | Speaks(updates, p, i)
      ensures (p in all <==> updates[i].qty != 0.0) && (p in all ==> all[p] == updates[i].qty)
    {
      DeltaHoldsTheLastSaid(before, updates, p);
    }
    forall p | forall i | 0 <= i < |updates| :: updates[i].price != p
      ensures (p in all <==> p in before) && (p in all ==> all[p] == before[p])
    {
      DeltaHoldsTheLastSaid(before, updates, p);
    }
  }

  /** Every price is spoken of or not, so an update leaves nothing open. */
  lemma {:induction false} SpokenOfOrNot(updates: seq<Level>, p: Price)
    ensures (exists i :: Speaks(updates, p, i)) || forall i | 0 <= i < |updates| :: updates[i].price != p
  {
    if updates != [] {
      var n := |updates| - 1;
      SpokenOfOrNot(updates[..n], p);
      if updates[n].price == p {
        assert Speaks(updates, p, n);
      } else if i :| Speaks(updates[..n], p, i) {
        assert Speaks(updates, p, i);
      }
    }
  }

  lemma OnlyOneUpdated(x: Levels, y: Levels, before: Levels, updates: seq<Level>)
    requires Updated(x, before, updates) && Updated(y, before, updates)
    ensures x == y
  {
    forall p ensures (p in x <==> p in y) && (p in x ==> x[p] == y[p]) {
      SpokenOfOrNot(updates, p);
    }
  }
}
