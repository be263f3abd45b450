/**
 The order book of one venue and symbol, and the trust attached to it
 (crates/ma-core/src/book.rs). Prices and quantities are exact decimals, here reals.
 Contents are values of `BookValue`; the class is proved against functions on them.
 */
module Book {
  import opened Types

  type Price = real

  /** Never negative; zero deletes the level. */
  type Qty = q: real | q >= 0.0 witness 0.0

  datatype Side = Bid | Ask

  datatype Level = Level(price: Price, qty: Qty)
  {
    predicate IsDelete() {
      qty == 0.0
    }
  }

  type Levels = map<Price, Qty>

  datatype DesyncReason =
    | SequenceGap(expected: int, got: int)
    | ChecksumMismatch(wanted: int, computed: int)
    | TimestampRegression(last: int, gotStamp: int)
    | CrossedBook(bestBid: Price, bestAsk: Price)
    | ConnectionLost
    | AwaitingSnapshot
    | AuditMismatch(price: Price, consecutive: nat)
    | SnapshotGap

  datatype BookState =
    | Uninitialized
    | Live(integrity: Integrity, since: IngestTime, lastVerified: Option<IngestTime>)
    | Desynced(since: IngestTime, reason: DesyncReason)

  datatype BookValue = BookValue(
    bids: Levels, asks: Levels, state: BookState, lastUpdate: Option<IngestTime>, maxDepth: Option<nat>)
  {
    function Of(side: Side): Levels {
      if side.Bid? then bids else asks
    }
  }

  function NewBook(maxDepth: Option<nat>): BookValue {
    BookValue(map[], map[], Uninitialized, None, maxDepth)
  }

  /** `a` is nearer the touch than `b`. */
  predicate Better(side: Side, a: Price, b: Price) {
    if side.Bid? then a > b else a < b
  }

  ghost predicate IsBest(side: Side, p: Price, prices: set<Price>) {
    p in prices && forall q | q in prices && q != p :: Better(side, p, q)
  }

  ghost predicate IsWorst(side: Side, p: Price, prices: set<Price>) {
    p in prices && forall q | q in prices && q != p :: Better(side, q, p)
  }

  lemma {:induction false} BestExists(side: Side, prices: set<Price>) returns (p: Price)
    requires prices != {}
    ensures IsBest(side, p, prices)
  {
    var q := SomeMember(prices);
    var rest := prices - {q};
    if rest == {} {
      assert prices == {q};
      p := q;
    } else {
      var r := BestExists(side, rest);
      p := if Better(side, r, q) then r else q;
      assert prices == rest + {q};
    }
  }

  lemma WorstExists(side: Side, prices: set<Price>) returns (p: Price)
    requires prices != {}
    ensures IsWorst(side, p, prices)
  {
    p := BestExists(if side.Bid? then Ask else Bid, prices);
  }

  lemma OnlyOneWorst(side: Side, prices: set<Price>, w: Price)
    requires IsWorst(side, w, prices)
    ensures forall p | IsWorst(side, p, prices) :: p == w
  {
  }

  /** The best level of a side. */
  ghost function Best(side: Side, m: Levels): (best: Option<Level>)
    ensures best.None? <==> |m| == 0
    ensures best.Some? ==> IsBest(side, best.value.price, m.Keys) && m[best.value.price] == best.value.qty
  {
    if |m| == 0 then None
    else
      assert exists p :: IsBest(side, p, m.Keys) by { var p := BestExists(side, m.Keys); }
      var p :| IsBest(side, p, m.Keys);
      Some(Level(p, m[p]))
  }

  /** Keep the `depth` best levels by dropping the worst one at a time. */
  ghost function Pruned(side: Side, m: Levels, depth: nat): Levels
    decreases |m|
  {
    if |m| <= depth then m
    else
      assert exists p :: IsWorst(side, p, m.Keys) by { var p := WorstExists(side, m.Keys); }
      var p :| IsWorst(side, p, m.Keys);
      Pruned(side, m - {p}, depth)
  }

  ghost function Capped(side: Side, m: Levels, depth: Option<nat>): Levels {
    if depth.Some? then Pruned(side, m, depth.value) else m
  }

  function Changed(m: Levels, level: Level): Levels {
    if level.IsDelete() then m - {level.price} else m[level.price := level.qty]
  }

  /** A delta's levels, applied in order. */
  function Applied(m: Levels, updates: seq<Level>): Levels {
    if updates == [] then m
    else Changed(Applied(m, updates[..|updates| - 1]), updates[|updates| - 1])
  }

  /** A snapshot's levels; one with zero quantity is skipped. */
  function Snapped(levels: seq<Level>): Levels {
    if levels == [] then map[]
    else
      var m := Snapped(levels[..|levels| - 1]);
      var last := levels[|levels| - 1];
      if last.IsDelete() then m else m[last.price := last.qty]
  }

  /** The best bid has met or passed the best ask. */
  ghost predicate Crossed(bids: Levels, asks: Levels) {
    exists b, a | b in bids && a in asks :: b >= a
  }

  ghost function Guarded(b: BookValue, at: IngestTime): BookValue {
    var bid, ask := Best(Bid, b.bids), Best(Ask, b.asks);
    if bid.Some? && ask.Some? && bid.value.price >= ask.value.price then
      b.(state := Desynced(at, CrossedBook(bid.value.price, ask.value.price)))
    else b
  }

  ghost function AfterSnapshot(b: BookValue, bids: seq<Level>, asks: seq<Level>, integrity: Integrity, at: IngestTime): BookValue {
    Guarded(BookValue(Capped(Bid, Snapped(bids), b.maxDepth), Capped(Ask, Snapped(asks), b.maxDepth),
                      Live(integrity, at, None), Some(at), b.maxDepth), at)
  }

  /** A delta changes a live book only. */
  ghost function AfterDelta(b: BookValue, bids: seq<Level>, asks: seq<Level>, at: IngestTime): BookValue {
    if !b.state.Live? then b
    else
      Guarded(BookValue(Capped(Bid, Applied(b.bids, bids), b.maxDepth), Capped(Ask, Applied(b.asks, asks), b.maxDepth),
                        b.state, Some(at), b.maxDepth), at)
  }

  function MarkedVerified(b: BookValue, at: IngestTime): BookValue {
    if b.state.Live? && b.state.integrity.Verified? then b.(state := b.state.(lastVerified := Some(at))) else b
  }

  function MarkedDesynced(b: BookValue, reason: DesyncReason, at: IngestTime): BookValue {
    b.(state := Desynced(at, reason))
  }

  ////////// What those mean

  /** The last word a list of updates says about a price, if any. */
  function LastWord(updates: seq<Level>, p: Price): Option<Qty> {
    if updates == [] then None
    else if updates[|updates| - 1].price == p then Some(updates[|updates| - 1].qty)
    else LastWord(updates[..|updates| - 1], p)
  }

  /** After a delta, a price holds what the last update to it said, and otherwise what it held before. */
  lemma {:induction false} AppliedIsLastWord(m: Levels, updates: seq<Level>, p: Price)
    ensures var said := LastWord(updates, p);
            && (said.None? ==> (p in Applied(m, updates) <==> p in m) && (p in m ==> Applied(m, updates)[p] == m[p]))
            && (said.Some? ==>
                  && (p in Applied(m, updates) <==> said.value != 0.0)
                  && (said.value != 0.0 ==> Applied(m, updates)[p] == said.value))
  {
    if updates != [] {
      AppliedIsLastWord(m, updates[..|updates| - 1], p);
    }
  }

  /** Pruning keeps a submap of the right size whose levels are all better than those dropped. */
  lemma {:induction false} PrunedKeepsTheBest(side: Side, m: Levels, depth: nat)
    ensures var kept := Pruned(side, m, depth);
            && kept.Keys <= m.Keys && (forall p | p in kept :: kept[p] == m[p])
            && |kept| == (if |m| <= depth then |m| else depth)
            && (forall p, q | p in kept && q in m && q !in kept :: Better(side, p, q))
    decreases |m|
  {
    if |m| > depth {
      var w := WorstExists(side, m.Keys);
      OnlyOneWorst(side, m.Keys, w);
      var rest := m - {w};
      assert rest.Keys == m.Keys - {w};
      assert |rest| == |rest.Keys| == |m| - 1;
      PrunedKeepsTheBest(side, rest, depth);
    }
  }

  /** Comparing the two best levels detects exactly the crossed books. */
  lemma GuardDetectsCrossing(b: BookValue, at: IngestTime)
    requires b.state.Live?
    ensures Guarded(b, at).state.Live? <==> !Crossed(b.bids, b.asks)
    ensures Guarded(b, at).bids == b.bids && Guarded(b, at).asks == b.asks
  {
    var bid, ask := Best(Bid, b.bids), Best(Ask, b.asks);
    if Crossed(b.bids, b.asks) {
      var p, q :| p in b.bids && q in b.asks && p >= q;
      assert bid.value.price >= p && ask.value.price <= q;
    }
  }

  /** A live book is never crossed and never deeper than its cap. */
  ghost predicate Sound(b: BookValue) {
    b.state.Live? ==>
      && !Crossed(b.bids, b.asks)
      && (b.maxDepth.Some? ==> |b.bids| <= b.maxDepth.value && |b.asks| <= b.maxDepth.value)
  }

  lemma SnapshotIsSound(b: BookValue, bids: seq<Level>, asks: seq<Level>, integrity: Integrity, at: IngestTime)
    ensures Sound(AfterSnapshot(b, bids, asks, integrity, at))
  {
    var x, y := Capped(Bid, Snapped(bids), b.maxDepth), Capped(Ask, Snapped(asks), b.maxDepth);
    GuardDetectsCrossing(BookValue(x, y, Live(integrity, at, None), Some(at), b.maxDepth), at);
    if b.maxDepth.Some? {
      PrunedKeepsTheBest(Bid, Snapped(bids), b.maxDepth.value);
      PrunedKeepsTheBest(Ask, Snapped(asks), b.maxDepth.value);
    }
  }

  lemma DeltaKeepsSound(b: BookValue, bids: seq<Level>, asks: seq<Level>, at: IngestTime)
    requires Sound(b)
    ensures Sound(AfterDelta(b, bids, asks, at))
  {
    if b.state.Live? {
      var x, y := Capped(Bid, Applied(b.bids, bids), b.maxDepth), Capped(Ask, Applied(b.asks, asks), b.maxDepth);
      GuardDetectsCrossing(BookValue(x, y, b.state, Some(at), b.maxDepth), at);
      if b.maxDepth.Some? {
        PrunedKeepsTheBest(Bid, Applied(b.bids, bids), b.maxDepth.value);
        PrunedKeepsTheBest(Ask, Applied(b.asks, asks), b.maxDepth.value);
      }
    }
  }

  ////////// The book itself

  class Book {
    var bids: Levels
    var asks: Levels
    var state: BookState
    var lastUpdate: Option<IngestTime>
    const maxDepth: Option<nat>

    ghost function Value(): BookValue
      reads this
    {
      BookValue(bids, asks, state, lastUpdate, maxDepth)
    }

    constructor (maxDepth: Option<nat>)
      ensures Value() == NewBook(maxDepth) && bids == map[] && asks == map[]
      ensures state.Uninitialized? && lastUpdate == None && this.maxDepth == maxDepth
    {
      bids, asks, state, lastUpdate := map[], map[], Uninitialized, None;
      this.maxDepth := maxDepth;
    }

    method ApplySnapshot(newBids: seq<Level>, newAsks: seq<Level>, integrity: Integrity, at: IngestTime)
      returns (crossed: Option<DesyncReason>)
      modifies this
      ensures Value() == AfterSnapshot(old(Value()), newBids, newAsks, integrity, at)
      ensures crossed.Some? <==> state.Desynced?
      ensures crossed.Some? ==> state == Desynced(at, crossed.value)
    {
      bids := map[];
      asks := map[];
      for i := 0 to |newBids|
        modifies this`bids
        invariant bids == Snapped(newBids[..i])
      {
        assert newBids[..i + 1][..i] == newBids[..i];
        if !newBids[i].IsDelete() {
          bids := bids[newBids[i].price := newBids[i].qty];
        }
      }
      for i := 0 to |newAsks|
        modifies this`asks
        invariant asks == Snapped(newAsks[..i])
      {
        assert newAsks[..i + 1][..i] == newAsks[..i];
        if !newAsks[i].IsDelete() {
          asks := asks[newAsks[i].price := newAsks[i].qty];
        }
      }
      assert newBids[..|newBids|] == newBids && newAsks[..|newAsks|] == newAsks;
      state := Live(integrity, at, None);
      lastUpdate := Some(at);
      Prune();
      crossed := GuardCrossed(at);
    }

    method ApplyDelta(newBids: seq<Level>, newAsks: seq<Level>, at: IngestTime) returns (ok: bool)
      modifies this
      ensures ok == old(state.Live?)
      ensures Value() == AfterDelta(old(Value()), newBids, newAsks, at)
    {
      if !state.Live? {
        return false;
      }
      bids := ApplyLevels(bids, newBids);
      asks := ApplyLevels(asks, newAsks);
      lastUpdate := Some(at);
      Prune();
      var _ := GuardCrossed(at);
      ok := true;
    }

    method MarkVerified(at: IngestTime)
      modifies this
      ensures Value() == MarkedVerified(old(Value()), at)
    {
      if state.Live? && state.integrity.Verified? {
        state := state.(lastVerified := Some(at));
      }
    }

    method MarkDesynced(reason: DesyncReason, at: IngestTime)
      modifies this
      ensures Value() == MarkedDesynced(old(Value()), reason, at)
    {
      state := Desynced(at, reason);
    }

    method GuardCrossed(at: IngestTime) returns (crossed: Option<DesyncReason>)
      modifies this
      ensures Value() == Guarded(old(Value()), at)
      ensures crossed.Some? ==> state == Desynced(at, crossed.value)
      ensures crossed.None? ==> state == old(state)
    {
      crossed := None;
      if |bids| == 0 || |asks| == 0 {
        return;
      }
      var bid := FindBest(Bid, bids.Keys);
      var ask := FindBest(Ask, asks.Keys);
      if bid >= ask {
        crossed := Some(CrossedBook(bid, ask));
        MarkDesynced(CrossedBook(bid, ask), at);
      }
    }

    method Prune()
      modifies this`bids, this`asks
      ensures bids == Capped(Bid, old(bids), maxDepth)
      ensures asks == Capped(Ask, old(asks), maxDepth)
    {
      if maxDepth.None? {
        return;
      }
      while |bids| > maxDepth.value
        modifies this`bids
        invariant Pruned(Bid, bids, maxDepth.value) == Pruned(Bid, old(bids), maxDepth.value)
        decreases |bids|
      {
        bids := DropWorst(Bid, bids, maxDepth.value);
      }
      while |asks| > maxDepth.value
        modifies this`asks
        invariant Pruned(Ask, asks, maxDepth.value) == Pruned(Ask, old(asks), maxDepth.value)
        decreases |asks|
      {
        asks := DropWorst(Ask, asks, maxDepth.value);
      }
    }
  }

  /** The first key in a side's own order. */
  method FindBest(side: Side, prices: set<Price>) returns (best: Price)
    requires prices != {}
    ensures IsBest(side, best, prices)
  {
    ghost var p := BestExists(side, prices);
    best :| best in prices && forall q | q in prices && q != best :: Better(side, best, q);
  }

  method DropWorst(side: Side, m: Levels, depth: nat) returns (r: Levels)
    requires |m| > depth
    ensures |r| == |m| - 1 && Pruned(side, r, depth) == Pruned(side, m, depth)
    ensures exists w :: IsWorst(side, w, m.Keys) && r == m - {w}
  {
    assert m.Keys != {};
    var worst := FindBest(if side.Bid? then Ask else Bid, m.Keys);
    assert IsWorst(side, worst, m.Keys);
    OnlyOneWorst(side, m.Keys, worst);
    r := m - {worst};
    assert r.Keys == m.Keys - {worst};
    assert |r| == |r.Keys|;
  }

  method ApplyLevels(m: Levels, updates: seq<Level>) returns (r: Levels)
    ensures r == Applied(m, updates)
  {
    r := m;
    for i := 0 to |updates|
      invariant r == Applied(m, updates[..i])
    {
      assert updates[..i + 1][..i] == updates[..i];
      if updates[i].IsDelete() {
        r := r - {updates[i].price};
      } else {
        r := r[updates[i].price := updates[i].qty];
      }
    }
    assert updates[..|updates|] == updates;
  }
}
