/**
 Checking a book against a snapshot the venue served (crates/ma-core/src/audit.rs): the
 comparison of two truncated windows, and what it proves about the untruncated books.
 */
module Audit {
  import opened Types
  import opened Book
  import opened BookDepth

  datatype Policy = Policy(guardBps: nat, maxLevels: nat, consecutive: nat)

  datatype Finding = Finding(side: Side, price: Price, ours: Option<Qty>, theirs: Option<Qty>)

  const MAX_FINDINGS: nat := 64

  datatype Outcome =
    | Inconclusive
    | Match(compared: nat)
    | Mismatch(findings: seq<Finding>, compared: nat)
  {
    /** The disagreeing prices. */
    function Prices(): set<Price> {
      if Mismatch? then set f | f in findings :: f.price else {}
    }

    function Compared(): nat {
      if Inconclusive? then 0 else compared
    }
  }

  /** Where the guard band ends on one side, from our own best price. */
  function GuardEdge(best: Price, side: Side, guardBps: nat): Price {
    var offset := best * guardBps as real / 10_000.0;
    if side.Bid? then best - offset else best + offset
  }

  predicate Beyond(side: Side, edge: Price, p: Price) {
    if side.Bid? then p <= edge else p >= edge
  }

  function Lookup(m: Levels, p: Price): Option<Qty> {
    if p in m then Some(m[p]) else None
  }

  ////////// Windows: the best levels beyond the guard

  /** Insert a level behind every level that is at least as good: a stable sort, best first. */
  function Inserted(side: Side, level: Level, sorted: seq<Level>): seq<Level> {
    if sorted == [] then [level]
    else if Better(side, level.price, sorted[|sorted| - 1].price) then
      Inserted(side, level, sorted[..|sorted| - 1]) + [sorted[|sorted| - 1]]
    else sorted + [level]
  }

  function BestFirst(side: Side, levels: seq<Level>): seq<Level> {
    if levels == [] then []
    else Inserted(side, levels[|levels| - 1], BestFirst(side, levels[..|levels| - 1]))
  }

  function Kept(levels: seq<Level>): seq<Level> {
    if levels == [] then []
    else
      var front := Kept(levels[..|levels| - 1]);
      if levels[|levels| - 1].IsDelete() then front else front + [levels[|levels| - 1]]
  }

  function BeyondOnly(side: Side, edge: Price, levels: seq<Level>): seq<Level> {
    if levels == [] then []
    else
      var front := BeyondOnly(side, edge, levels[..|levels| - 1]);
      if Beyond(side, edge, levels[|levels| - 1].price) then front + [levels[|levels| - 1]] else front
  }

  function Taken(levels: seq<Level>, n: nat): seq<Level> {
    if |levels| <= n then levels else levels[..n]
  }

  /** A list as a map; a later level of the same price replaces an earlier one. */
  function MapOf(levels: seq<Level>): Levels {
    if levels == [] then map[]
    else
      var last := levels[|levels| - 1];
      MapOf(levels[..|levels| - 1])[last.price := last.qty]
  }

  function Window(side: Side, edge: Price, sorted: seq<Level>, maxLevels: nat): Levels {
    MapOf(Taken(BeyondOnly(side, edge, sorted), maxLevels))
  }

  /** The window of the snapshot: sorted, because the venue's order is not ours. */
  function TheirWindow(side: Side, edge: Price, levels: seq<Level>, maxLevels: nat): Levels {
    Window(side, edge, BestFirst(side, Kept(levels)), maxLevels)
  }

  ghost function OurWindow(side: Side, edge: Price, book: Levels, maxLevels: nat): Levels {
    Window(side, edge, Top(side, book, |book|), maxLevels)
  }

  /** Best first, each price once. */
  ghost predicate Strict(side: Side, levels: seq<Level>) {
    forall i, j | 0 <= i < j < |levels| :: Better(side, levels[i].price, levels[j].price)
  }

  ghost predicate Distinct(levels: seq<Level>) {
    forall i, j | 0 <= i < j < |levels| :: levels[i].price != levels[j].price
  }

  /** `m` holds exactly the levels of the list. */
  ghost predicate Holds(m: Levels, levels: seq<Level>) {
    && (forall i | 0 <= i < |levels| :: levels[i].price in m && m[levels[i].price] == levels[i].qty)
    && (forall p | p in m :: exists i :: 0 <= i < |levels| && levels[i].price == p)
  }

  lemma {:induction false} MapOfHolds(levels: seq<Level>)
    requires Distinct(levels)
    ensures Holds(MapOf(levels), levels)
  {
    if levels != [] {
      var front, last := levels[..|levels| - 1], levels[|levels| - 1];
      MapOfHolds(front);
      var m := MapOf(levels);
      forall p | p in m ensures exists i :: 0 <= i < |levels| && levels[i].price == p {
        if p == last.price {
          assert levels[|levels| - 1].price == p;
        } else {
          var i :| 0 <= i < |front| && front[i].price == p;
          assert levels[i].price == p;
        }
      }
    }
  }

  lemma {:induction false} BeyondOnlyMembers(side: Side, edge: Price, levels: seq<Level>, x: Level)
    ensures x in BeyondOnly(side, edge, levels) <==> x in levels && Beyond(side, edge, x.price)
  {
    if levels != [] {
      var front, last := levels[..|levels| - 1], levels[|levels| - 1];
      BeyondOnlyMembers(side, edge, front, x);
      assert levels == front + [last];
    }
  }

  /** A strict list without what is inside the guard is strict. */
  lemma {:induction false} BeyondOnlyIsStrict(side: Side, edge: Price, levels: seq<Level>)
    requires Strict(side, levels)
    ensures Strict(side, BeyondOnly(side, edge, levels))
  {
    if levels != [] {
      var front, last := levels[..|levels| - 1], levels[|levels| - 1];
      BeyondOnlyIsStrict(side, edge, front);
      var r := BeyondOnly(side, edge, front);
      forall i | 0 <= i < |r| ensures Better(side, r[i].price, last.price) {
        BeyondOnlyMembers(side, edge, front, r[i]);
        var j :| 0 <= j < |front| && front[j] == r[i];
        assert levels[j] == front[j];
      }
    }
  }

  lemma WindowIsGenuine(side: Side, edge: Price, sorted: seq<Level>, maxLevels: nat, all: Levels, p: Price)
    requires Strict(side, sorted) && Holds(all, sorted) && p in Window(side, edge, sorted, maxLevels)
    ensures p in all && all[p] == Window(side, edge, sorted, maxLevels)[p] && Beyond(side, edge, p)
  {
    var beyond := BeyondOnly(side, edge, sorted);
    BeyondOnlyIsStrict(side, edge, sorted);
    var taken := Taken(beyond, maxLevels);
    MapOfHolds(taken);
    var i :| 0 <= i < |taken| && taken[i].price == p;
    assert taken[i] == beyond[i];
    BeyondOnlyMembers(side, edge, sorted, beyond[i]);
    var j :| 0 <= j < |sorted| && sorted[j] == beyond[i];
  }

  lemma TakenIsHeld(side: Side, beyond: seq<Level>, n: nat, k: nat)
    requires Strict(side, beyond) && k < |Taken(beyond, n)|
    ensures beyond[k].price in MapOf(Taken(beyond, n))
  {
    MapOfHolds(Taken(beyond, n));
    assert Taken(beyond, n)[k] == beyond[k];
  }

  lemma WindowLacksOnlyWorse(side: Side, edge: Price, sorted: seq<Level>, maxLevels: nat, all: Levels, p: Price, q: Price)
    requires Strict(side, sorted) && Holds(all, sorted)
    requires var w := Window(side, edge, sorted, maxLevels); p in all && Beyond(side, edge, p) && p !in w && q in w
    ensures Better(side, q, p)
  {
    var beyond := BeyondOnly(side, edge, sorted);
    BeyondOnlyIsStrict(side, edge, sorted);
    var j :| 0 <= j < |sorted| && sorted[j].price == p;
    BeyondOnlyMembers(side, edge, sorted, sorted[j]);
    var k :| 0 <= k < |beyond| && beyond[k] == sorted[j];
    var taken := Taken(beyond, maxLevels);
    if k < |taken| {
      TakenIsHeld(side, beyond, maxLevels, k);
    }
    MapOfHolds(taken);
    var i :| 0 <= i < |taken| && taken[i].price == q;
    assert taken[i] == beyond[i];
  }

  /**
   The truncation is a prefix: a window of a strict list has only levels beyond the guard,
   with the list's quantities, and lacks a level beyond the guard only if every level it
   has is better.
   */
  lemma WindowIsAPrefix(side: Side, edge: Price, sorted: seq<Level>, maxLevels: nat, all: Levels)
    requires Strict(side, sorted) && Holds(all, sorted)
    ensures IsPrefix(side, edge, Window(side, edge, sorted, maxLevels), all)
  {
    var w := Window(side, edge, sorted, maxLevels);
    forall p | p in w ensures p in all && all[p] == w[p] && Beyond(side, edge, p) {
      WindowIsGenuine(side, edge, sorted, maxLevels, all, p);
    }
    forall p, q | p in all && Beyond(side, edge, p) && p !in w && q in w ensures Better(side, q, p) {
      WindowLacksOnlyWorse(side, edge, sorted, maxLevels, all, p, q);
    }
  }

  ghost predicate IsPrefix(side: Side, edge: Price, w: Levels, all: Levels) {
    && (forall p | p in w :: p in all && all[p] == w[p] && Beyond(side, edge, p))
    && (forall p, q | p in all && Beyond(side, edge, p) && p !in w && q in w :: Better(side, q, p))
  }

  lemma {:induction false} InsertedKeepsStrict(side: Side, level: Level, sorted: seq<Level>)
    requires Strict(side, sorted) && forall x | x in sorted :: x.price != level.price
    ensures Strict(side, Inserted(side, level, sorted))
    ensures forall x :: x in Inserted(side, level, sorted) <==> x in sorted || x == level
  {
    if sorted != [] {
      var front, last := sorted[..|sorted| - 1], sorted[|sorted| - 1];
      assert sorted == front + [last];
      assert last in sorted;
      if Better(side, level.price, last.price) {
        InsertedKeepsStrict(side, level, front);
        var r := Inserted(side, level, front);
        assert forall i | 0 <= i < |r| :: r[i] in r;
        assert forall x | x in front :: Better(side, x.price, last.price);
      } else {
        assert forall i | 0 <= i < |sorted| :: sorted[i] in sorted && (i < |sorted| - 1 ==> Better(side, sorted[i].price, last.price));
      }
    }
  }

  lemma {:induction false} BestFirstIsStrict(side: Side, levels: seq<Level>)
    requires Distinct(levels)
    ensures Strict(side, BestFirst(side, levels))
    ensures forall x :: x in BestFirst(side, levels) <==> x in levels
  {
    if levels != [] {
      var front, last := levels[..|levels| - 1], levels[|levels| - 1];
      BestFirstIsStrict(side, front);
      assert levels == front + [last];
      forall x | x in BestFirst(side, front) ensures x.price != last.price {
        var i :| 0 <= i < |front| && front[i] == x;
        assert levels[i].price != levels[|levels| - 1].price;
      }
      InsertedKeepsStrict(side, last, BestFirst(side, front));
    }
  }

  lemma {:induction false} KeptIsDistinct(levels: seq<Level>)
    requires Distinct(levels)
    ensures Distinct(Kept(levels))
    ensures forall x :: x in Kept(levels) <==> x in levels && !x.IsDelete()
  {
    if levels != [] {
      var front, last := levels[..|levels| - 1], levels[|levels| - 1];
      KeptIsDistinct(front);
      assert levels == front + [last];
      var r := Kept(front);
      forall i | 0 <= i < |r| ensures r[i].price != last.price {
        assert r[i] in r && r[i] in front;
        var j :| 0 <= j < |front| && front[j] == r[i];
        assert levels[j].price != levels[|levels| - 1].price;
      }
    }
  }

  /** The full snapshot side, as a map. */
  function FullSnapshot(levels: seq<Level>): Levels {
    MapOf(Kept(levels))
  }

  lemma TheirWindowIsAPrefix(side: Side, edge: Price, levels: seq<Level>, maxLevels: nat)
    requires Distinct(levels)
    ensures IsPrefix(side, edge, TheirWindow(side, edge, levels, maxLevels), FullSnapshot(levels))
  {
    var kept := Kept(levels);
    KeptIsDistinct(levels);
    BestFirstIsStrict(side, kept);
    MapOfHolds(kept);
    var sorted, all := BestFirst(side, kept), FullSnapshot(levels);
    assert Holds(all, sorted) by {
      forall i | 0 <= i < |sorted| ensures sorted[i].price in all && all[sorted[i].price] == sorted[i].qty {
        assert sorted[i] in sorted && sorted[i] in kept;
        var j :| 0 <= j < |kept| && kept[j] == sorted[i];
      }
      forall p | p in all ensures exists i :: 0 <= i < |sorted| && sorted[i].price == p {
        var j :| 0 <= j < |kept| && kept[j].price == p;
        assert kept[j] in kept && kept[j] in sorted;
        var i :| 0 <= i < |sorted| && sorted[i] == kept[j];
        assert sorted[i].price == p;
      }
    }
    WindowIsAPrefix(side, edge, sorted, maxLevels, all);
  }

  /** Why duplicates are excluded: truncation can cut between two levels of one price and keep the wrong one. */
  lemma DuplicatesMislead(p: Price, edge: Price)
    requires p <= edge
    ensures var levels := [Level(p, 1.0), Level(p, 2.0)];
            && FullSnapshot(levels) == map[p := 2.0]
            && TheirWindow(Bid, edge, levels, 1) == map[p := 1.0]
  {
    var a, b := Level(p, 1.0), Level(p, 2.0);
    var levels := [a, b];
    assert levels[..1] == [a] && [a][..0] == [];
    assert Kept([a]) == [a];
    assert Kept(levels) == levels;
    assert BestFirst(Bid, [a]) == [a];
    assert BestFirst(Bid, levels) == levels;
    assert BeyondOnly(Bid, edge, [a]) == [a];
    assert BeyondOnly(Bid, edge, levels) == levels;
    assert Taken(levels, 1) == [a];
    assert MapOf([a]) == map[p := 1.0];
  }

  lemma {:induction false} TopIsStrict(side: Side, m: Levels, n: nat)
    ensures Strict(side, Top(side, m, n))
    ensures forall x | x in Top(side, m, n) :: x.price in m && m[x.price] == x.qty
    ensures |m| <= n ==> forall p | p in m :: Level(p, m[p]) in Top(side, m, n)
  {
    var best := Best(side, m);
    if n > 0 && best.Some? {
      var p := best.value.price;
      var rest := m - {p};
      assert rest.Keys == m.Keys - {p};
      assert |rest| == |rest.Keys|;
      TopIsStrict(side, rest, n - 1);
      var tail := Top(side, rest, n - 1);
      assert forall i | 0 <= i < |tail| :: tail[i] in tail;
      var all := Top(side, m, n);
      assert all == [best.value] + tail;
      if |m| <= n {
        forall q | q in m ensures Level(q, m[q]) in all {
          if q != p {
            assert q in rest && Level(q, rest[q]) in tail;
          } else {
            assert all[0] == Level(q, m[q]);
          }
        }
      }
    }
  }

  lemma OurWindowIsAPrefix(side: Side, edge: Price, book: Levels, maxLevels: nat)
    ensures IsPrefix(side, edge, OurWindow(side, edge, book, maxLevels), book)
  {
    var sorted := Top(side, book, |book|);
    TopIsStrict(side, book, |book|);
    assert Holds(book, sorted) by {
      assert forall i | 0 <= i < |sorted| :: sorted[i] in sorted;
      forall p | p in book ensures exists i :: 0 <= i < |sorted| && sorted[i].price == p {
        var i :| 0 <= i < |sorted| && sorted[i] == Level(p, book[p]);
        assert sorted[i].price == p;
      }
    }
    WindowIsAPrefix(side, edge, sorted, maxLevels, book);
  }

  ////////// The comparison of one side

  /** The prices both windows could have held: neither looked further than the other. */
  ghost predicate InOverlap(ours: Levels, theirs: Levels, p: Price) {
    && (exists a | a in ours :: a <= p) && (exists a | a in ours :: p <= a)
    && (exists b | b in theirs :: b <= p) && (exists b | b in theirs :: p <= b)
  }

  /** The prices compared: those either window holds inside the overlap. */
  ghost function Compared(ours: Levels, theirs: Levels): set<Price> {
    set p | p in ours.Keys + theirs.Keys && InOverlap(ours, theirs, p)
  }

  /** A set of prices, ascending. */
  ghost function Ascending(prices: set<Price>): seq<Price> {
    if prices == {} then []
    else
      assert exists p :: IsBest(Ask, p, prices) by { var p := BestExists(Ask, prices); }
      var p :| IsBest(Ask, p, prices);
      [p] + Ascending(prices - {p})
  }

  lemma {:induction false} AscendingLists(prices: set<Price>)
    ensures forall p :: p in Ascending(prices) <==> p in prices
    ensures |Ascending(prices)| == |prices|
    ensures var s := Ascending(prices); forall i, j | 0 <= i < j < |s| :: s[i] < s[j]
  {
    if prices != {} {
      var s := Ascending(prices);
      var rest := prices - {s[0]};
      AscendingLists(rest);
      assert s == [s[0]] + Ascending(rest);
      assert forall i | 1 <= i < |s| :: s[i] == Ascending(rest)[i - 1] && s[i] in Ascending(rest);
    }
  }

  /** The first findings, up to the cap, over the prices in the given order. */
  function FindingsOver(side: Side, ours: Levels, theirs: Levels, prices: seq<Price>): seq<Finding> {
    if prices == [] then []
    else
      var found := FindingsOver(side, ours, theirs, prices[..|prices| - 1]);
      var p := prices[|prices| - 1];
      if Lookup(ours, p) != Lookup(theirs, p) && |found| < MAX_FINDINGS then
        found + [Finding(side, p, Lookup(ours, p), Lookup(theirs, p))]
      else found
  }

  /** What comparing one side concludes: findings and the number of prices compared. */
  ghost function SideResult(book: BookValue, side: Side, theirs: seq<Level>, policy: Policy): (seq<Finding>, nat) {
    var best := Best(side, book.Of(side));
    if best.None? then ([], 0)
    else
      var ours := OurWindow(side, EdgeOf(book, side, policy), book.Of(side), policy.maxLevels);
      var window := TheirWindow(side, EdgeOf(book, side, policy), theirs, policy.maxLevels);
      (FindingsOver(side, ours, window, Ascending(Compared(ours, window))), |Compared(ours, window)|)
  }

  ghost function EdgeOf(book: BookValue, side: Side, policy: Policy): Price {
    var best := Best(side, book.Of(side));
    if best.None? then 0.0 else GuardEdge(best.value.price, side, policy.guardBps)
  }

  /** The price range one side's comparison covers; none if the book has nothing there. */
  ghost predicate Covered(book: BookValue, side: Side, theirs: seq<Level>, policy: Policy, p: Price) {
    && Best(side, book.Of(side)).Some?
    && InOverlap(OurWindow(side, EdgeOf(book, side, policy), book.Of(side), policy.maxLevels),
                 TheirWindow(side, EdgeOf(book, side, policy), theirs, policy.maxLevels), p)
  }

  /** Inside the overlap a truncated window answers for the whole side. */
  lemma OverlapIsExact(side: Side, edge: Price, ours: Levels, book: Levels, theirs: Levels, full: Levels, p: Price)
    requires IsPrefix(side, edge, ours, book) && IsPrefix(side, edge, theirs, full) && InOverlap(ours, theirs, p)
    ensures Lookup(ours, p) == Lookup(book, p) && Lookup(theirs, p) == Lookup(full, p)
    ensures Beyond(side, edge, p)
  {
    var a :| a in ours && a <= p;
    var b :| b in ours && p <= b;
    var c :| c in theirs && c <= p;
    var d :| d in theirs && p <= d;
    assert Beyond(side, edge, a) && Beyond(side, edge, b);
  }

  lemma {:induction false} FindingsAreDifferences(side: Side, ours: Levels, theirs: Levels, prices: seq<Price>)
    ensures var found := FindingsOver(side, ours, theirs, prices);
            && |found| <= MAX_FINDINGS
            && (forall f | f in found ::
                  f.side == side && f.price in prices && f.ours == Lookup(ours, f.price) &&
                  f.theirs == Lookup(theirs, f.price) && f.ours != f.theirs)
            && (found == [] <==> forall p | p in prices :: Lookup(ours, p) == Lookup(theirs, p))
  {
    if prices != [] {
      var front, last := prices[..|prices| - 1], prices[|prices| - 1];
      FindingsAreDifferences(side, ours, theirs, front);
      assert prices == front + [last];
      assert forall p :: p in prices <==> p in front || p == last;
    }
  }

  /** Findings come in the order of their prices, so no price is reported twice. */
  lemma {:induction false} FindingsAreOrdered(side: Side, ours: Levels, theirs: Levels, prices: seq<Price>)
    requires forall i, j | 0 <= i < j < |prices| :: prices[i] < prices[j]
    ensures var found := FindingsOver(side, ours, theirs, prices);
            forall i, j | 0 <= i < j < |found| :: found[i].price < found[j].price
  {
    if prices != [] {
      var front, last := prices[..|prices| - 1], prices[|prices| - 1];
      FindingsAreOrdered(side, ours, theirs, front);
      FindingsAreDifferences(side, ours, theirs, front);
      var found := FindingsOver(side, ours, theirs, front);
      forall i | 0 <= i < |found| ensures found[i].price < last {
        assert found[i] in found;
        var j :| 0 <= j < |front| && front[j] == found[i].price;
        assert prices[j] == front[j];
      }
    }
  }

  /**
   One side, despite truncation: every finding is a real disagreement between the whole
   book side and the whole snapshot side, at a price beyond the guard, and there is one
   exactly when the two disagree somewhere in the range the comparison covers.
   */
  lemma SideIsSound(book: BookValue, side: Side, theirs: seq<Level>, policy: Policy)
    requires Distinct(theirs)
    ensures var found := SideResult(book, side, theirs, policy).0;
            && |found| <= MAX_FINDINGS
            && (forall f | f in found ::
                  && f.side == side && Beyond(side, EdgeOf(book, side, policy), f.price)
                  && f.ours == Lookup(book.Of(side), f.price) && f.theirs == Lookup(FullSnapshot(theirs), f.price)
                  && f.ours != f.theirs)
            && (forall i, j | 0 <= i < j < |found| :: found[i].price < found[j].price)
            && (found == [] <==> forall p | Covered(book, side, theirs, policy, p) ::
                  Lookup(book.Of(side), p) == Lookup(FullSnapshot(theirs), p))
  {
    if Best(side, book.Of(side)).Some? {
      var edge := EdgeOf(book, side, policy);
      var ours := OurWindow(side, edge, book.Of(side), policy.maxLevels);
      var window := TheirWindow(side, edge, theirs, policy.maxLevels);
      OurWindowIsAPrefix(side, edge, book.Of(side), policy.maxLevels);
      TheirWindowIsAPrefix(side, edge, theirs, policy.maxLevels);
      var prices := Ascending(Compared(ours, window));
      AscendingLists(Compared(ours, window));
      FindingsAreDifferences(side, ours, window, prices);
      FindingsAreOrdered(side, ours, window, prices);
      forall p | InOverlap(ours, window, p)
        ensures Lookup(ours, p) == Lookup(book.Of(side), p) && Lookup(window, p) == Lookup(FullSnapshot(theirs), p)
        ensures Beyond(side, edge, p)
        ensures p !in prices ==> Lookup(ours, p) == Lookup(window, p)
      {
        OverlapIsExact(side, edge, ours, book.Of(side), window, FullSnapshot(theirs), p);
      }
    }
  }

  ////////// The audit

  ghost function Audited(book: BookValue, bids: seq<Level>, asks: seq<Level>, policy: Policy): Outcome {
    var b, a := SideResult(book, Bid, bids, policy), SideResult(book, Ask, asks, policy);
    var all := b.0 + a.0;
    var findings := if |all| <= MAX_FINDINGS then all else all[..MAX_FINDINGS];
    if findings != [] then Mismatch(findings, b.1 + a.1)
    else if b.1 + a.1 == 0 then Inconclusive
    else Match(b.1 + a.1)
  }

  function SnapshotSide(side: Side, bids: seq<Level>, asks: seq<Level>): seq<Level> {
    if side.Bid? then bids else asks
  }

  /** The prices at which the book and the snapshot differ on a side. */
  function Differing(book: Levels, full: Levels): set<Price> {
    set p | p in book.Keys + full.Keys && Lookup(book, p) != Lookup(full, p)
  }

  /** A finding is genuine. */
  ghost predicate Genuine(book: BookValue, bids: seq<Level>, asks: seq<Level>, policy: Policy, f: Finding) {
    var full := FullSnapshot(SnapshotSide(f.side, bids, asks));
    && Beyond(f.side, EdgeOf(book, f.side, policy), f.price)
    && f.ours == Lookup(book.Of(f.side), f.price) && f.theirs == Lookup(full, f.price)
    && f.ours != f.theirs
  }

  /** The book and the snapshot agree at every price the comparison of a side covers. */
  ghost predicate AgreesWhereCovered(book: BookValue, side: Side, bids: seq<Level>, asks: seq<Level>, policy: Policy) {
    forall p | Covered(book, side, SnapshotSide(side, bids, asks), policy, p) ::
      Lookup(book.Of(side), p) == Lookup(FullSnapshot(SnapshotSide(side, bids, asks)), p)
  }

  /**
   Audit soundness: a mismatch means the two really differ at a covered price on some side,
   and only that; every finding is genuine; a match means agreement over everything covered.
   */
  lemma AuditIsSound(book: BookValue, bids: seq<Level>, asks: seq<Level>, policy: Policy)
    requires Distinct(bids) && Distinct(asks)
    ensures var o := Audited(book, bids, asks, policy);
            && (o.Mismatch? <==> !(AgreesWhereCovered(book, Bid, bids, asks, policy) &&
                                   AgreesWhereCovered(book, Ask, bids, asks, policy)))
            && (o.Mismatch? ==> o.findings != [] && |o.findings| <= MAX_FINDINGS
                                && forall f | f in o.findings :: Genuine(book, bids, asks, policy, f))
  {
    SideIsSound(book, Bid, bids, policy);
    SideIsSound(book, Ask, asks, policy);
    var b, a := SideResult(book, Bid, bids, policy).0, SideResult(book, Ask, asks, policy).0;
    var o := Audited(book, bids, asks, policy);
    if o.Mismatch? {
      assert forall f | f in o.findings :: f in b + a;
    }
  }

  /** A side that equals the snapshot yields no finding, and findings never outnumber differences. */
  lemma FindingsNeverExceedDifferences(book: BookValue, side: Side, theirs: seq<Level>, policy: Policy)
    requires Distinct(theirs)
    ensures |SideResult(book, side, theirs, policy).0| <= |Differing(book.Of(side), FullSnapshot(theirs))|
  {
    SideIsSound(book, side, theirs, policy);
    var found := SideResult(book, side, theirs, policy).0;
    var differing := Differing(book.Of(side), FullSnapshot(theirs));
    CountFindings(found, differing);
  }

  lemma {:induction false} CountFindings(found: seq<Finding>, prices: set<Price>)
    requires forall i, j | 0 <= i < j < |found| :: found[i].price < found[j].price
    requires forall i | 0 <= i < |found| :: found[i].price in prices
    ensures |found| <= |prices|
  {
    if found != [] {
      var last := found[|found| - 1].price;
      CountFindings(found[..|found| - 1], prices - {last});
    }
  }

  lemma EqualBooksNeverMismatch(book: BookValue, bids: seq<Level>, asks: seq<Level>, policy: Policy)
    requires Distinct(bids) && Distinct(asks)
    requires FullSnapshot(bids) == book.bids && FullSnapshot(asks) == book.asks
    ensures !Audited(book, bids, asks, policy).Mismatch?
  {
    AuditIsSound(book, bids, asks, policy);
  }

  ////////// The implementation of the comparison

  lemma TopStep(side: Side, m: Levels, p: Price)
    requires IsBest(side, p, m.Keys)
    ensures var rest := m - {p};
            |rest| == |m| - 1 && Top(side, m, |m|) == [Level(p, m[p])] + Top(side, rest, |rest|)
  {
    var rest := m - {p};
    assert rest.Keys == m.Keys - {p};
    assert |rest| == |rest.Keys|;
    assert Best(side, m).value.price == p;
  }

  lemma Reassociate<T>(a: seq<T>, b: seq<T>, c: seq<T>)
    ensures a + (b + c) == a + b + c
  {
  }

  /** `Book::top_levels` over the whole side. */
  method TopLevels(side: Side, m: Levels) returns (r: seq<Level>)
    ensures r == Top(side, m, |m|)
  {
    r := [];
    var rest := m;
    while |rest| > 0
      invariant r + Top(side, rest, |rest|) == Top(side, m, |m|)
      decreases |rest|
    {
      assert rest.Keys != {};
      var best := FindBest(side, rest.Keys);
      TopStep(side, rest, best);
      var level := Level(best, rest[best]);
      rest := rest - {best};
      Reassociate(r, [level], Top(side, rest, |rest|));
      r := r + [level];
    }
  }

  method AuditSide(book: BookValue, side: Side, theirs: seq<Level>, policy: Policy)
    returns (findings: seq<Finding>, compared: nat)
    ensures findings == SideResult(book, side, theirs, policy).0
    ensures compared == SideResult(book, side, theirs, policy).1
  {
    var levels := book.Of(side);
    if |levels| == 0 {
      return [], 0;
    }
    var top := TopLevels(side, levels);
    var edge := GuardEdge(top[0].price, side, policy.guardBps);
    var ours := Window(side, edge, top, policy.maxLevels);
    var window := TheirWindow(side, edge, theirs, policy.maxLevels);
    findings, compared := Compare(side, ours, window);
  }

  lemma AscendingStep(prices: set<Price>, p: Price)
    requires IsBest(Ask, p, prices)
    ensures Ascending(prices) == [p] + Ascending(prices - {p})
  {
  }

  /** One more price compared. */
  function FindingsWith(side: Side, ours: Levels, theirs: Levels, found: seq<Finding>, p: Price): seq<Finding> {
    if Lookup(ours, p) != Lookup(theirs, p) && |found| < MAX_FINDINGS then
      found + [Finding(side, p, Lookup(ours, p), Lookup(theirs, p))]
    else found
  }

  lemma FindingsStep(side: Side, ours: Levels, theirs: Levels, done: seq<Price>, p: Price)
    ensures FindingsOver(side, ours, theirs, done + [p]) ==
            FindingsWith(side, ours, theirs, FindingsOver(side, ours, theirs, done), p)
  {
    assert (done + [p])[..|done|] == done;
  }

  method Compare(side: Side, ours: Levels, theirs: Levels) returns (findings: seq<Finding>, compared: nat)
    ensures findings == FindingsOver(side, ours, theirs, Ascending(Compared(ours, theirs)))
    ensures compared == |Compared(ours, theirs)|
  {
    var prices := set p | p in ours.Keys + theirs.Keys
                          && (exists a | a in ours :: a <= p) && (exists a | a in ours :: p <= a)
                          && (exists b | b in theirs :: b <= p) && (exists b | b in theirs :: p <= b);
    assert prices == Compared(ours, theirs);
    findings, compared := CompareEach(side, ours, theirs, prices);
  }

  method CompareEach(side: Side, ours: Levels, theirs: Levels, prices: set<Price>)
    returns (findings: seq<Finding>, compared: nat)
    ensures findings == FindingsOver(side, ours, theirs, Ascending(prices))
    ensures compared == |prices|
  {
    findings, compared := [], 0;
    ghost var done: seq<Price> := [];
    var left := prices;
    while left != {}
      invariant done + Ascending(left) == Ascending(prices)
      invariant findings == FindingsOver(side, ours, theirs, done)
      invariant compared + |left| == |prices|
      decreases left
    {
      var price := FindBest(Ask, left);
      AscendingStep(left, price);
      FindingsStep(side, ours, theirs, done, price);
      left := left - {price};
      Reassociate(done, [price], Ascending(left));
      done := done + [price];
      compared := compared + 1;
      findings := FindingsWith(side, ours, theirs, findings, price);
    }
    assert done == Ascending(prices);
  }

  method RunAudit(book: BookValue, bids: seq<Level>, asks: seq<Level>, policy: Policy) returns (outcome: Outcome)
    ensures outcome == Audited(book, bids, asks, policy)
  {
    var bidFindings, bidCount := AuditSide(book, Bid, bids, policy);
    var askFindings, askCount := AuditSide(book, Ask, asks, policy);
    var findings, compared := bidFindings + askFindings, bidCount + askCount;
    if |findings| > MAX_FINDINGS {
      findings := findings[..MAX_FINDINGS];
    }
    outcome := if findings != [] then Mismatch(findings, compared)
               else if compared == 0 then Inconclusive
               else Match(compared);
  }
}
