/** The order a merged archive comes back in (crates/ma-persist/src/reader.rs). */
module MergeOrder {
  import opened Types
  import opened Codec
  import opened Merge

  /** The events a merge emitted from one partition, in the order it emitted them. */
  function From(emissions: seq<Emission>, i: nat): seq<StoredEvent> {
    if emissions == [] then []
    else (if emissions[0].from == i then [emissions[0].event] else []) + From(emissions[1..], i)
  }

  /** Every stored event comes out exactly once, and each partition's in its own order. */
  lemma {:induction false} EachPartitionComesOutWhole(queues: seq<seq<StoredEvent>>, i: nat)
    ensures From(Merged(queues), i) == if i < |queues| then queues[i] else []
    decreases Total(queues)
  {
    var least := Least(queues);
    if least.Some? {
      var rest := queues[least.value := queues[least.value][1..]];
      TotalDrops(queues, least.value);
      EachPartitionComesOutWhole(rest, i);
      assert Merged(queues)[1..] == Merged(rest);
    }
  }

  lemma {:induction false} EmissionsAreStored(queues: seq<seq<StoredEvent>>, k: nat)
    requires k < |Merged(queues)|
    ensures var e := Merged(queues)[k]; e.from < |queues| && e.event in queues[e.from]
    decreases Total(queues)
  {
    var i := Least(queues).value;
    if k > 0 {
      TotalDrops(queues, i);
      var rest := queues[i := queues[i][1..]];
      EmissionsAreStored(rest, k - 1);
      assert Merged(queues)[k] == Merged(rest)[k - 1];
    }
  }

  /** Earlier by wall clock, or at the same instant from an earlier partition. */
  predicate NotAfter(a: Emission, b: Emission) {
    a.event.wall < b.event.wall || (a.event.wall == b.event.wall && a.from <= b.from)
  }

  lemma {:induction false} LeastIsFirst(queues: seq<seq<StoredEvent>>, j: nat)
    requires j < |queues| && queues[j] != []
    ensures Least(queues).Some?
    ensures var i := Least(queues).value; NotAfter(Emission(i, queues[i][0]), Emission(j, queues[j][0]))
  {
    var n := |queues| - 1;
    if j < n {
      LeastIsFirst(queues[..n], j);
    }
  }

  predicate WallOrdered(es: seq<StoredEvent>) {
    forall j, k | 0 <= j < k < |es| :: es[j].wall <= es[k].wall
  }

  predicate Ordered(emissions: seq<Emission>) {
    forall j, k | 0 <= j < k < |emissions| :: NotAfter(emissions[j], emissions[k])
  }

  /** Whatever comes later is not before the least head, if partitions are in order. */
  lemma HeadIsFirst(queues: seq<seq<StoredEvent>>, k: nat)
    requires k < |Merged(queues)| && forall i | 0 <= i < |queues| :: WallOrdered(queues[i])
    ensures NotAfter(Merged(queues)[0], Merged(queues)[k])
  {
    EmissionsAreStored(queues, k);
    var e := Merged(queues)[k];
    LeastIsFirst(queues, e.from);
    assert queues[e.from][0].wall <= e.event.wall;
  }

  /** With every partition in wall-clock order, so is the merge, partition order breaking ties. */
  lemma {:induction false} MergeIsOrdered(queues: seq<seq<StoredEvent>>)
    requires forall i | 0 <= i < |queues| :: WallOrdered(queues[i])
    ensures Ordered(Merged(queues))
    decreases Total(queues)
  {
    var least := Least(queues);
    if least.Some? {
      var i := least.value;
      var rest := queues[i := queues[i][1..]];
      TotalDrops(queues, i);
      MergeIsOrdered(rest);
      forall j, k | 0 <= j < k < |Merged(queues)|
        ensures NotAfter(Merged(queues)[j], Merged(queues)[k])
      {
        if j == 0 {
          HeadIsFirst(queues, k);
        } else {
          assert Merged(queues)[j] == Merged(rest)[j - 1] && Merged(queues)[k] == Merged(rest)[k - 1];
        }
      }
    }
  }

  lemma {:induction false} FromHead(es: seq<Emission>, i: nat)
    requires From(es, i) != []
    ensures exists k | 0 <= k < |es| :: es[k] == Emission(i, From(es, i)[0])
  {
    if es[0].from == i {
      assert es[0] == Emission(i, From(es, i)[0]);
    } else {
      FromHead(es[1..], i);
      var k :| 0 <= k < |es[1..]| && es[1..][k] == Emission(i, From(es, i)[0]);
      assert es[k + 1] == Emission(i, From(es, i)[0]);
    }
  }

  lemma FirstIsNotAfter(xs: seq<Emission>, ys: seq<Emission>)
    requires xs != [] && ys != [] && Ordered(ys) && forall i: nat :: From(xs, i) == From(ys, i)
    ensures NotAfter(ys[0], xs[0])
  {
    var i := xs[0].from;
    assert From(ys, i) == From(xs, i) == [xs[0].event] + From(xs[1..], i);
    FromHead(ys, i);
    var k :| 0 <= k < |ys| && ys[k] == Emission(i, From(ys, i)[0]);
    assert ys[k] == xs[0];
    assert k > 0 ==> NotAfter(ys[0], ys[k]);
  }

  lemma EmptyTogether(xs: seq<Emission>, ys: seq<Emission>)
    requires forall i: nat :: From(xs, i) == From(ys, i)
    ensures xs == [] ==> ys == []
  {
    if ys != [] {
      assert From(ys, ys[0].from) == [ys[0].event] + From(ys[1..], ys[0].from);
      assert From(xs, ys[0].from) != [];
    }
  }

  /**
   It is the stable sort: of all ways to interleave the partitions, each kept in its order,
   only one is in wall-clock order with ties by partition, and that is the merge.
   */
  lemma {:induction false} OnlyOneStableOrder(xs: seq<Emission>, ys: seq<Emission>)
    requires Ordered(xs) && Ordered(ys) && forall i: nat :: From(xs, i) == From(ys, i)
    ensures xs == ys
    decreases |xs|
  {
    EmptyTogether(xs, ys);
    EmptyTogether(ys, xs);
    if xs != [] {
      FirstIsNotAfter(xs, ys);
      FirstIsNotAfter(ys, xs);
      var i := xs[0].from;
      assert From(xs, i)[0] == xs[0].event && From(ys, i)[0] == ys[0].event;
      forall j: nat
        ensures From(xs[1..], j) == From(ys[1..], j)
      {
        TailsAgree(xs, ys, j);
      }
      OnlyOneStableOrder(xs[1..], ys[1..]);
      assert xs == [xs[0]] + xs[1..] && ys == [ys[0]] + ys[1..];
    }
  }

  lemma TailsAgree(xs: seq<Emission>, ys: seq<Emission>, j: nat)
    requires xs != [] && ys != [] && xs[0] == ys[0] && From(xs, j) == From(ys, j)
    ensures From(xs[1..], j) == From(ys[1..], j)
  {
    var head := if xs[0].from == j then [xs[0].event] else [];
    assert From(xs, j) == head + From(xs[1..], j) && From(ys, j) == head + From(ys[1..], j);
    assert From(xs[1..], j) == From(xs, j)[|head|..] && From(ys[1..], j) == From(ys, j)[|head|..];
  }

  /** So any stable sort of the partitions is what the merge returns. */
  lemma MergeIsTheStableSort(queues: seq<seq<StoredEvent>>, sorted: seq<Emission>)
    requires forall i | 0 <= i < |queues| :: WallOrdered(queues[i])
    requires Ordered(sorted) && forall i: nat :: From(sorted, i) == if i < |queues| then queues[i] else []
    ensures Merged(queues) == sorted
  {
    MergeIsOrdered(queues);
    forall i: nat
      ensures From(Merged(queues), i) == From(sorted, i)
    {
      EachPartitionComesOutWhole(queues, i);
    }
    OnlyOneStableOrder(Merged(queues), sorted);
  }
}
