/**
 What an audit's outcome says (crates/ma-core/src/audit.rs): which prices it covered, how many
 it compared, and when it is a match, a mismatch or inconclusive.
 */
module AuditOutcomes {
  import opened Types
  import opened Book
  import opened BookDepth
  import opened Audit

  ////////// The windows

  /** The guard keeps out prices nearer our best one than so many ten-thousandths of it. */
  lemma GuardIsRelative(best: Price, side: Side, guardBps: nat, p: Price)
    ensures Beyond(side, GuardEdge(best, side, guardBps), p) <==>
              (if side.Bid? then best - p else p - best) * 10_000.0 >= best * guardBps as real
  {
  }

  /** All levels beyond the edge, or the best `n` of them. */
  ghost predicate BestBeyond(side: Side, edge: Price, w: Levels, all: Levels, n: nat) {
    && IsPrefix(side, edge, w, all) && |w| <= n
    && ((exists p :: p in all && Beyond(side, edge, p) && p !in w) ==> |w| == n)
  }

  /** Which is only one window. */
  lemma OnlyOneBestBeyond(side: Side, edge: Price, v: Levels, w: Levels, all: Levels, n: nat)
    requires BestBeyond(side, edge, v, all, n) && BestBeyond(side, edge, w, all, n)
    ensures v == w
  {
    NoMoreThanTheBest(side, edge, v, w, all, n);
    NoMoreThanTheBest(side, edge, w, v, all, n);
    forall p ensures (p in v <==> p in w) && (p in v ==> v[p] == w[p]) {
      assert (p in v.Keys ==> p in w.Keys) && (p in w.Keys ==> p in v.Keys);
    }
  }

  lemma NoMoreThanTheBest(side: Side, edge: Price, v: Levels, w: Levels, all: Levels, n: nat)
    requires BestBeyond(side, edge, v, all, n) && BestBeyond(side, edge, w, all, n)
    ensures v.Keys <= w.Keys && forall p | p in v :: v[p] == w[p]
  {
    forall p | p in v ensures p in w {
      if p !in w {
        FullWindowHoldsItsBetters(side, edge, v, w, all, n, p);
        SubsetIsSmaller(w.Keys + {p}, v.Keys);
      }
    }
  }

  /** A window that lacks a level is full of levels better than it. */
  lemma FullWindowHoldsItsBetters(side: Side, edge: Price, v: Levels, w: Levels, all: Levels, n: nat, p: Price)
    requires IsPrefix(side, edge, v, all) && BestBeyond(side, edge, w, all, n) && p in v && p !in w
    ensures w.Keys + {p} <= v.Keys && |w.Keys + {p}| == n + 1
  {
    forall q | q in w ensures q in v {
      assert Better(side, q, p);
    }
  }

  lemma {:induction false} MapOfSize(levels: seq<Level>)
    requires Distinct(levels)
    ensures |MapOf(levels)| == |levels|
  {
    if levels != [] {
      var n := |levels| - 1;
      var last := levels[n];
      MapOfSize(levels[..n]);
      MapOfHolds(levels[..n]);
      var front := MapOf(levels[..n]);
      assert last.price !in front;
      assert front[last.price := last.qty].Keys == front.Keys + {last.price};
      assert |front[last.price := last.qty]| == |front[last.price := last.qty].Keys|;
      assert |front| == |front.Keys|;
    }
  }

  lemma StrictIsDistinct(side: Side, levels: seq<Level>)
    requires Strict(side, levels)
    ensures Distinct(levels)
  {
    forall i, j | 0 <= i < j < |levels| ensures levels[i].price != levels[j].price {
      assert Better(side, levels[i].price, levels[j].price);
    }
  }

  /** A window of a strict list is the best `n` of it beyond the edge. */
  lemma WindowIsTheBest(side: Side, edge: Price, sorted: seq<Level>, n: nat, all: Levels)
    requires Strict(side, sorted) && Holds(all, sorted)
    ensures BestBeyond(side, edge, Window(side, edge, sorted, n), all, n)
  {
    WindowIsAPrefix(side, edge, sorted, n, all);
    var beyond := BeyondOnly(side, edge, sorted);
    BeyondOnlyIsStrict(side, edge, sorted);
    var taken := Taken(beyond, n);
    StrictIsDistinct(side, taken);
    MapOfSize(taken);
    MapOfHolds(taken);
    if |beyond| <= n {
      forall p | p in all && Beyond(side, edge, p) ensures p in MapOf(taken) {
        var j :| 0 <= j < |sorted| && sorted[j].price == p;
        BeyondOnlyMembers(side, edge, sorted, sorted[j]);
        var k :| 0 <= k < |taken| && taken[k] == sorted[j];
      }
    }
  }

  /** The book's window is the best `n` of its side beyond the edge. */
  lemma OurWindowIsTheBest(side: Side, edge: Price, book: Levels, n: nat)
    ensures BestBeyond(side, edge, OurWindow(side, edge, book, n), book, n)
  {
    TopListsAll(side, book);
    TopIsStrict(side, book, |book|);
    WindowIsTheBest(side, edge, Top(side, book, |book|), n, book);
  }

  lemma TopListsIt(side: Side, book: Levels, p: Price)
    requires p in book
    ensures exists i :: 0 <= i < |Top(side, book, |book|)| && Top(side, book, |book|)[i].price == p
  {
    TopIsStrict(side, book, |book|);
    var sorted := Top(side, book, |book|);
    var i :| 0 <= i < |sorted| && sorted[i] == Level(p, book[p]);
    assert sorted[i].price == p;
  }

  lemma TopListsOnlyIts(side: Side, book: Levels, i: nat)
    requires i < |Top(side, book, |book|)|
    ensures var level := Top(side, book, |book|)[i]; level.price in book && book[level.price] == level.qty
  {
    TopIsStrict(side, book, |book|);
    assert Top(side, book, |book|)[i] in Top(side, book, |book|);
  }

  lemma TopListsAll(side: Side, book: Levels)
    ensures Holds(book, Top(side, book, |book|))
  {
    var sorted := Top(side, book, |book|);
    forall i | 0 <= i < |sorted| ensures sorted[i].price in book && book[sorted[i].price] == sorted[i].qty {
      TopListsOnlyIts(side, book, i);
    }
    forall p | p in book ensures exists i :: 0 <= i < |sorted| && sorted[i].price == p {
      TopListsIt(side, book, p);
    }
  }

  /** And the snapshot's of its own. */
  lemma TheirWindowIsTheBest(side: Side, edge: Price, levels: seq<Level>, n: nat)
    requires Distinct(levels)
    ensures BestBeyond(side, edge, TheirWindow(side, edge, levels, n), FullSnapshot(levels), n)
  {
    SortedHoldsAll(side, levels);
    WindowIsTheBest(side, edge, BestFirst(side, Kept(levels)), n, FullSnapshot(levels));
  }

  lemma SortedHoldsAll(side: Side, levels: seq<Level>)
    requires Distinct(levels)
    ensures Strict(side, BestFirst(side, Kept(levels))) && Holds(FullSnapshot(levels), BestFirst(side, Kept(levels)))
  {
    var kept := Kept(levels);
    KeptIsDistinct(levels);
    BestFirstIsStrict(side, kept);
    MapOfHolds(kept);
    var sorted, all := BestFirst(side, kept), FullSnapshot(levels);
    forall i | 0 <= i < |sorted| ensures sorted[i].price in all && all[sorted[i].price] == sorted[i].qty {
      assert sorted[i] in sorted && sorted[i] in kept;
      var j :| 0 <= j < |kept| && kept[j] == sorted[i];
    }
    forall p | p in all ensures exists i :: 0 <= i < |sorted| && sorted[i].price == p {
      var j :| 0 <= j < |kept| && kept[j].price == p;
      assert kept[j] in kept && kept[j] in sorted;
      var i :| 0 <= i < |sorted| && sorted[i] == kept[j];
      assert sorted[i].price == p;
    }
  }

  /** The full snapshot holds exactly the served levels that are no deletes. */
  lemma FullSnapshotHolds(levels: seq<Level>, p: Price)
    requires Distinct(levels)
    ensures p in FullSnapshot(levels) <==> exists i :: 0 <= i < |levels| && levels[i].price == p && levels[i].qty != 0.0
    ensures forall i | 0 <= i < |levels| && levels[i].price == p && levels[i].qty != 0.0 ::
              p in FullSnapshot(levels) && FullSnapshot(levels)[p] == levels[i].qty
  {
    var kept := Kept(levels);
    KeptIsDistinct(levels);
    MapOfHolds(kept);
    forall i | 0 <= i < |levels| && levels[i].price == p && levels[i].qty != 0.0
      ensures p in FullSnapshot(levels) && FullSnapshot(levels)[p] == levels[i].qty
    {
      assert levels[i] in levels && levels[i] in kept;
      var j :| 0 <= j < |kept| && kept[j] == levels[i];
    }
    if p in FullSnapshot(levels) {
      var j :| 0 <= j < |kept| && kept[j].price == p;
      assert kept[j] in kept && kept[j] in levels;
      var i :| 0 <= i < |levels| && levels[i] == kept[j];
      assert levels[i].price == p && levels[i].qty != 0.0;
    }
  }

  ////////// The outcome

  /** The windows an audit of one side compares: none if the book has nothing there. */
  ghost predicate AreWindows(book: Levels, side: Side, served: seq<Level>, policy: Policy, ours: Levels, theirs: Levels) {
    if book == map[] then ours == map[] && theirs == map[]
    else
      exists best | IsBest(side, best, book.Keys) ::
        && BestBeyond(side, GuardEdge(best, side, policy.guardBps), ours, book, policy.maxLevels)
        && BestBeyond(side, GuardEdge(best, side, policy.guardBps), theirs, FullSnapshot(served), policy.maxLevels)
  }

  /** There are such windows, and only these. */
  lemma WindowsExist(book: BookValue, side: Side, served: seq<Level>, policy: Policy) returns (ours: Levels, theirs: Levels)
    requires Distinct(served)
    ensures AreWindows(book.Of(side), side, served, policy, ours, theirs)
    ensures forall v, w | AreWindows(book.Of(side), side, served, policy, v, w) :: v == ours && w == theirs
    ensures Best(side, book.Of(side)).None? ==> ours == map[] && theirs == map[]
    ensures Best(side, book.Of(side)).Some? ==>
              && ours == OurWindow(side, EdgeOf(book, side, policy), book.Of(side), policy.maxLevels)
              && theirs == TheirWindow(side, EdgeOf(book, side, policy), served, policy.maxLevels)
  {
    var levels, full, edge := book.Of(side), FullSnapshot(served), EdgeOf(book, side, policy);
    if |levels| == 0 {
      ours, theirs := map[], map[];
    } else {
      ours := OurWindow(side, edge, levels, policy.maxLevels);
      theirs := TheirWindow(side, edge, served, policy.maxLevels);
      OurWindowIsTheBest(side, edge, levels, policy.maxLevels);
      TheirWindowIsTheBest(side, edge, served, policy.maxLevels);
      assert IsBest(side, Best(side, levels).value.price, levels.Keys);
      forall v, w | AreWindows(levels, side, served, policy, v, w) ensures v == ours && w == theirs {
        OnlyOneBestBeyond(side, edge, v, ours, levels, policy.maxLevels);
        OnlyOneBestBeyond(side, edge, w, theirs, full, policy.maxLevels);
      }
    }
  }

  /** Within the range both windows span, the lowest to the highest price of each. */
  ghost predicate WithinBoth(ours: Levels, theirs: Levels, p: Price) {
    && (exists a, b | a in ours && b in ours :: a <= p <= b)
    && (exists a, b | a in theirs && b in theirs :: a <= p <= b)
  }

  /** The covered prices: held by the whole book side or the whole snapshot side, within both windows. */
  ghost function CoveredPrices(book: Levels, full: Levels, ours: Levels, theirs: Levels): set<Price> {
    set p | p in book.Keys + full.Keys && WithinBoth(ours, theirs, p)
  }

  /** The book and the snapshot agree at all of these prices. */
  ghost predicate AgreesAt(book: Levels, full: Levels, prices: set<Price>) {
    forall p | p in prices :: Lookup(book, p) == Lookup(full, p)
  }

  lemma ComparedIsCovered(side: Side, edge: Price, book: Levels, full: Levels, ours: Levels, theirs: Levels)
    requires IsPrefix(side, edge, ours, book) && IsPrefix(side, edge, theirs, full)
    ensures Compared(ours, theirs) == CoveredPrices(book, full, ours, theirs)
  {
    forall p ensures p in Compared(ours, theirs) <==> p in CoveredPrices(book, full, ours, theirs) {
      if InOverlap(ours, theirs, p) {
        OverlapIsExact(side, edge, ours, book, theirs, full, p);
      }
    }
  }

  lemma FindingsExactlyWhenWrong(side: Side, edge: Price, book: Levels, full: Levels, ours: Levels, theirs: Levels)
    requires IsPrefix(side, edge, ours, book) && IsPrefix(side, edge, theirs, full)
    ensures FindingsOver(side, ours, theirs, Ascending(Compared(ours, theirs))) == [] <==>
              AgreesAt(book, full, CoveredPrices(book, full, ours, theirs))
  {
    AscendingLists(Compared(ours, theirs));
    ComparedIsCovered(side, edge, book, full, ours, theirs);
    FindingsAreDifferences(side, ours, theirs, Ascending(Compared(ours, theirs)));
    forall p | InOverlap(ours, theirs, p)
      ensures Lookup(ours, p) == Lookup(book, p) && Lookup(theirs, p) == Lookup(full, p)
    {
      OverlapIsExact(side, edge, ours, book, theirs, full, p);
    }
  }

  /** What is compared is what is covered, and there is a finding unless all of it agrees. */
  lemma SideComparesTheCovered(book: BookValue, side: Side, served: seq<Level>, policy: Policy, ours: Levels, theirs: Levels)
    requires Distinct(served) && AreWindows(book.Of(side), side, served, policy, ours, theirs)
    ensures var result, prices := SideResult(book, side, served, policy), CoveredPrices(book.Of(side), FullSnapshot(served), ours, theirs);
            && result.1 == |prices|
            && (result.0 == [] <==> AgreesAt(book.Of(side), FullSnapshot(served), prices))
  {
    var v, w := WindowsExist(book, side, served, policy);
    var levels, full, edge := book.Of(side), FullSnapshot(served), EdgeOf(book, side, policy);
    if Best(side, levels).Some? {
      OurWindowIsAPrefix(side, edge, levels, policy.maxLevels);
      TheirWindowIsAPrefix(side, edge, served, policy.maxLevels);
      ComparedIsCovered(side, edge, levels, full, ours, theirs);
      FindingsExactlyWhenWrong(side, edge, levels, full, ours, theirs);
    } else {
      assert CoveredPrices(levels, full, ours, theirs) == {};
    }
  }

  lemma OutcomeOfTheSides(book: BookValue, bids: seq<Level>, asks: seq<Level>, policy: Policy)
    ensures var o, b, a := Audited(book, bids, asks, policy), SideResult(book, Bid, bids, policy), SideResult(book, Ask, asks, policy);
            && (o.Mismatch? <==> b.0 != [] || a.0 != [])
            && (o.Inconclusive? <==> b.0 == [] && a.0 == [] && b.1 == 0 && a.1 == 0)
            && o.Compared() == b.1 + a.1
  {
  }

  /**
   The outcome: inconclusive exactly if no price is covered on either side, a match exactly if
   some is and the two agree at all of them, a mismatch exactly if they differ at one; and it
   counts the covered prices of both sides.
   */
  lemma OutcomeSaysWhatWasCovered(
    book: BookValue, bids: seq<Level>, asks: seq<Level>, policy: Policy,
    ourBids: Levels, theirBids: Levels, ourAsks: Levels, theirAsks: Levels)
    requires Distinct(bids) && Distinct(asks)
    requires AreWindows(book.bids, Bid, bids, policy, ourBids, theirBids)
    requires AreWindows(book.asks, Ask, asks, policy, ourAsks, theirAsks)
    ensures var b, a := CoveredPrices(book.bids, FullSnapshot(bids), ourBids, theirBids),
                        CoveredPrices(book.asks, FullSnapshot(asks), ourAsks, theirAsks);
            var o := Audited(book, bids, asks, policy);
            var agree := AgreesAt(book.bids, FullSnapshot(bids), b) && AgreesAt(book.asks, FullSnapshot(asks), a);
            && (o.Inconclusive? <==> b == {} && a == {})
            && (o.Match? <==> (b != {} || a != {}) && agree) && (o.Mismatch? <==> !agree)
            && o.Compared() == |b| + |a|
  {
    SideComparesTheCovered(book, Bid, bids, policy, ourBids, theirBids);
    SideComparesTheCovered(book, Ask, asks, policy, ourAsks, theirAsks);
    OutcomeOfTheSides(book, bids, asks, policy);
  }

  ////////// Which findings are listed

  /** The covered prices at which the two differ. */
  ghost function WrongPrices(book: Levels, full: Levels, ours: Levels, theirs: Levels): set<Price> {
    set p | p in CoveredPrices(book, full, ours, theirs) && Lookup(book, p) != Lookup(full, p)
  }

  predicate Lists(found: seq<Finding>, side: Side, p: Price) {
    exists i :: 0 <= i < |found| && found[i].side == side && found[i].price == p
  }

  /** Findings come bids first, then by ascending price. */
  predicate ComesBefore(f: Finding, side: Side, p: Price) {
    (f.side.Bid? && side.Ask?) || (f.side == side && f.price < p)
  }

  /** A price left out comes after all that are listed, and they are as many as fit. */
  ghost predicate LacksOnlyLater(found: seq<Finding>, side: Side, wrong: set<Price>) {
    forall p | p in wrong && !Lists(found, side, p) ::
      |found| == MAX_FINDINGS && forall i | 0 <= i < |found| :: ComesBefore(found[i], side, p)
  }

  lemma {:induction false} FindingsLackOnlyLater(side: Side, ours: Levels, theirs: Levels, prices: seq<Price>, p: Price)
    requires forall i, j | 0 <= i < j < |prices| :: prices[i] < prices[j]
    requires p in prices && Lookup(ours, p) != Lookup(theirs, p)
    ensures var found := FindingsOver(side, ours, theirs, prices);
            !Lists(found, side, p) ==> |found| == MAX_FINDINGS && forall i | 0 <= i < |found| :: ComesBefore(found[i], side, p)
  {
    var n := |prices| - 1;
    var front, last := prices[..n], prices[n];
    var before, found := FindingsOver(side, ours, theirs, front), FindingsOver(side, ours, theirs, prices);
    FindingsAreDifferences(side, ours, theirs, front);
    forall i | 0 <= i < |before| ensures before[i].side == side && before[i].price < last {
      assert before[i] in before;
      var j :| 0 <= j < |front| && front[j] == before[i].price;
      assert prices[j] == front[j];
    }
    if p == last {
      if |before| < MAX_FINDINGS {
        assert found[|before|].price == p;
      }
    } else {
      assert p in front;
      FindingsLackOnlyLater(side, ours, theirs, front, p);
      if i :| 0 <= i < |before| && before[i].side == side && before[i].price == p {
        assert found[i] == before[i];
      }
    }
  }

  /** Findings at wrong prices, ascending, that lack only later ones. */
  ghost predicate ListsTheFirst(found: seq<Finding>, side: Side, wrong: set<Price>) {
    && |found| <= MAX_FINDINGS
    && (forall i | 0 <= i < |found| :: found[i].side == side && found[i].price in wrong)
    && (forall i, j | 0 <= i < j < |found| :: found[i].price < found[j].price)
    && LacksOnlyLater(found, side, wrong)
  }

  lemma SideListsTheFirst(book: BookValue, side: Side, served: seq<Level>, policy: Policy, ours: Levels, theirs: Levels)
    requires Distinct(served) && AreWindows(book.Of(side), side, served, policy, ours, theirs)
    ensures ListsTheFirst(SideResult(book, side, served, policy).0, side, WrongPrices(book.Of(side), FullSnapshot(served), ours, theirs))
  {
    var v, w := WindowsExist(book, side, served, policy);
    var levels, full, edge := book.Of(side), FullSnapshot(served), EdgeOf(book, side, policy);
    if Best(side, levels).Some? {
      OurWindowIsAPrefix(side, edge, levels, policy.maxLevels);
      TheirWindowIsAPrefix(side, edge, served, policy.maxLevels);
      FindingsListTheFirst(side, edge, levels, full, ours, theirs);
    }
  }

  lemma FindingsListTheFirst(side: Side, edge: Price, book: Levels, full: Levels, ours: Levels, theirs: Levels)
    requires IsPrefix(side, edge, ours, book) && IsPrefix(side, edge, theirs, full)
    ensures ListsTheFirst(FindingsOver(side, ours, theirs, Ascending(Compared(ours, theirs))), side, WrongPrices(book, full, ours, theirs))
  {
    var prices := Ascending(Compared(ours, theirs));
    var found, wrong := FindingsOver(side, ours, theirs, prices), WrongPrices(book, full, ours, theirs);
    AscendingLists(Compared(ours, theirs));
    ComparedIsCovered(side, edge, book, full, ours, theirs);
    FindingsAreDifferences(side, ours, theirs, prices);
    FindingsAreOrdered(side, ours, theirs, prices);
    forall p | InOverlap(ours, theirs, p)
      ensures Lookup(ours, p) == Lookup(book, p) && Lookup(theirs, p) == Lookup(full, p)
    {
      OverlapIsExact(side, edge, ours, book, theirs, full, p);
    }
    forall i | 0 <= i < |found| ensures found[i].side == side && found[i].price in wrong {
      assert found[i] in found;
    }
    forall p | p in wrong && !Lists(found, side, p)
      ensures |found| == MAX_FINDINGS && forall i | 0 <= i < |found| :: ComesBefore(found[i], side, p)
    {
      FindingsLackOnlyLater(side, ours, theirs, prices, p);
    }
  }

  /** Wrong prices of both sides, bids before asks and each side ascending, that lack only later ones. */
  ghost predicate ListsBoth(found: seq<Finding>, b: set<Price>, a: set<Price>) {
    && (forall i | 0 <= i < |found| :: found[i].price in if found[i].side.Bid? then b else a)
    && (forall i, j | 0 <= i < j < |found| :: ComesBefore(found[i], found[j].side, found[j].price))
    && LacksOnlyLater(found, Bid, b) && LacksOnlyLater(found, Ask, a)
  }

  /** A mismatch lists the first of all wrong prices, as many as fit. */
  lemma MismatchListsTheFirst(
    book: BookValue, bids: seq<Level>, asks: seq<Level>, policy: Policy,
    ourBids: Levels, theirBids: Levels, ourAsks: Levels, theirAsks: Levels)
    requires Distinct(bids) && Distinct(asks) && Audited(book, bids, asks, policy).Mismatch?
    requires AreWindows(book.bids, Bid, bids, policy, ourBids, theirBids)
    requires AreWindows(book.asks, Ask, asks, policy, ourAsks, theirAsks)
    ensures ListsBoth(Audited(book, bids, asks, policy).findings,
                      WrongPrices(book.bids, FullSnapshot(bids), ourBids, theirBids),
                      WrongPrices(book.asks, FullSnapshot(asks), ourAsks, theirAsks))
  {
    SideListsTheFirst(book, Bid, bids, policy, ourBids, theirBids);
    SideListsTheFirst(book, Ask, asks, policy, ourAsks, theirAsks);
    FindingsOfBoth(book, bids, asks, policy);
    FirstOfBoth(SideResult(book, Bid, bids, policy).0, SideResult(book, Ask, asks, policy).0,
                Audited(book, bids, asks, policy).findings,
                WrongPrices(book.bids, FullSnapshot(bids), ourBids, theirBids),
                WrongPrices(book.asks, FullSnapshot(asks), ourAsks, theirAsks));
  }

  lemma FindingsOfBoth(book: BookValue, bids: seq<Level>, asks: seq<Level>, policy: Policy)
    requires Audited(book, bids, asks, policy).Mismatch?
    ensures var all := SideResult(book, Bid, bids, policy).0 + SideResult(book, Ask, asks, policy).0;
            Audited(book, bids, asks, policy).findings == if |all| <= MAX_FINDINGS then all else all[..MAX_FINDINGS]
  {
  }

  lemma FirstOfBoth(fb: seq<Finding>, fa: seq<Finding>, found: seq<Finding>, b: set<Price>, a: set<Price>)
    requires ListsTheFirst(fb, Bid, b) && ListsTheFirst(fa, Ask, a)
    requires var all := fb + fa; found == if |all| <= MAX_FINDINGS then all else all[..MAX_FINDINGS]
    ensures ListsBoth(found, b, a)
  {
    forall p | p in b && !Lists(found, Bid, p)
      ensures |found| == MAX_FINDINGS && forall i | 0 <= i < |found| :: ComesBefore(found[i], Bid, p)
    {
      assert forall i | 0 <= i < |fb| :: fb[i] == found[i];
      assert found == fb;
    }
    forall p | p in a && !Lists(found, Ask, p)
      ensures |found| == MAX_FINDINGS && forall i | 0 <= i < |found| :: ComesBefore(found[i], Ask, p)
    {
      assert forall i | 0 <= i < |fa| && |fb| + i < |found| :: found[|fb| + i] == fa[i];
    }
  }
}
