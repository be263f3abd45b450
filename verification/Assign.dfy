/**
 Rendezvous assignment: which node owns which stream (crates/ma-coord/src/assign.rs).

 The hash is a parameter: every lemma holds for any weight function, so nothing here
 depends on how the weights are mixed. A node id is an integer; only its total order is used.
 */
module Assign {
  import opened Types

  type NodeId = int

  /** The score a node gives a stream. */
  type Weight = (StreamId, NodeId) -> int

  /** `a` is preferred to `b` for `stream`: heavier, or as heavy with the smaller id. */
  predicate Beats(w: Weight, stream: StreamId, a: NodeId, b: NodeId) {
    w(stream, a) > w(stream, b) || (w(stream, a) == w(stream, b) && a < b)
  }

  /** The node that should own `stream`; `None` only for an empty membership. */
  function Owner(w: Weight, stream: StreamId, nodes: seq<NodeId>): Option<NodeId> {
    if nodes == [] then None
    else
      var rest := Owner(w, stream, nodes[..|nodes| - 1]);
      var last := nodes[|nodes| - 1];
      if rest.Some? && Beats(w, stream, rest.value, last) then rest else Some(last)
  }

  /** Every stream `node` should own. */
  function AssignedTo(w: Weight, node: NodeId, streams: seq<StreamId>, nodes: seq<NodeId>): set<StreamId> {
    set s | s in streams && Owner(w, s, nodes) == Some(node)
  }

  /** `n` is a member and is preferred to every other member. */
  ghost predicate Wins(w: Weight, stream: StreamId, n: NodeId, nodes: set<NodeId>) {
    n in nodes && forall m | m in nodes && m != n :: Beats(w, stream, n, m)
  }

  function Members(nodes: seq<NodeId>): set<NodeId> {
    set n | n in nodes
  }

  /** The owner is exactly the member that beats all others. */
  lemma {:induction false} OwnerIsTheWinner(w: Weight, stream: StreamId, nodes: seq<NodeId>, n: NodeId)
    ensures Owner(w, stream, nodes) == Some(n) <==> Wins(w, stream, n, Members(nodes))
  {
    if nodes != [] {
      var front, last := nodes[..|nodes| - 1], nodes[|nodes| - 1];
      assert nodes == front + [last];
      assert Members(nodes) == Members(front) + {last};
      forall m ensures Owner(w, stream, front) == Some(m) <==> Wins(w, stream, m, Members(front)) {
        OwnerIsTheWinner(w, stream, front, m);
      }
      SomeoneOwns(w, stream, front);
    }
  }

  /** It is the member that gives the stream the greatest weight, of several the one with the smallest id. */
  lemma OwnerHasTheGreatestWeight(w: Weight, stream: StreamId, nodes: seq<NodeId>, n: NodeId)
    ensures Owner(w, stream, nodes) == Some(n) <==>
              n in nodes && forall m | m in nodes :: w(stream, m) < w(stream, n) || (w(stream, m) == w(stream, n) && n <= m)
  {
    OwnerIsTheWinner(w, stream, nodes, n);
    assert forall m :: m in nodes <==> m in Members(nodes);
  }

  lemma {:induction false} SomeoneOwns(w: Weight, stream: StreamId, nodes: seq<NodeId>)
    ensures Owner(w, stream, nodes).None? <==> nodes == []
    ensures Owner(w, stream, nodes).Some? ==> Owner(w, stream, nodes).value in nodes
  {
    if nodes != [] {
      SomeoneOwns(w, stream, nodes[..|nodes| - 1]);
    }
  }

  /** Only the set of members matters: neither their order nor how often one is listed. */
  lemma OwnerDependsOnlyOnMembership(w: Weight, stream: StreamId, xs: seq<NodeId>, ys: seq<NodeId>)
    requires Members(xs) == Members(ys)
    ensures Owner(w, stream, xs) == Owner(w, stream, ys)
  {
    SomeoneOwns(w, stream, xs);
    SomeoneOwns(w, stream, ys);
    if xs == [] {
      assert forall y | y in ys :: y in Members(ys);
    } else {
      assert xs[0] in Members(ys);
      var n := Owner(w, stream, xs).value;
      OwnerIsTheWinner(w, stream, xs, n);
      OwnerIsTheWinner(w, stream, ys, n);
    }
  }

  /** A non-empty membership assigns every stream to exactly one of its members. */
  lemma AssignmentsPartitionTheStreams(w: Weight, streams: seq<StreamId>, nodes: seq<NodeId>)
    requires nodes != []
    ensures forall s | s in streams :: exists n | n in nodes :: s in AssignedTo(w, n, streams, nodes)
    ensures forall a, b | a != b :: AssignedTo(w, a, streams, nodes) !! AssignedTo(w, b, streams, nodes)
    ensures forall n | n !in nodes :: AssignedTo(w, n, streams, nodes) == {}
  {
    forall s | s in streams ensures exists n | n in nodes :: s in AssignedTo(w, n, streams, nodes) {
      SomeoneOwns(w, s, nodes);
      assert s in AssignedTo(w, Owner(w, s, nodes).value, streams, nodes);
    }
    forall s, n | n !in nodes ensures s !in AssignedTo(w, n, streams, nodes) {
      SomeoneOwns(w, s, nodes);
    }
  }

  /**
   Growing the membership moves a stream only to a new member, and a stream whose owner
   stays a member moves nowhere else. Read from `after` to `before`, shrinking it moves
   only the streams of the members that left.
   */
  lemma MembershipChangeMovesOnlyWhatItMust(w: Weight, stream: StreamId, before: seq<NodeId>, after: seq<NodeId>)
    requires Members(before) <= Members(after)
    requires before != []
    ensures Owner(w, stream, after).Some? && Owner(w, stream, before).Some?
    ensures Owner(w, stream, after) != Owner(w, stream, before) ==>
              Owner(w, stream, after).value in Members(after) - Members(before)
    ensures Owner(w, stream, after).value in before ==> Owner(w, stream, after) == Owner(w, stream, before)
  {
    assert before[0] in Members(before);
    SomeoneOwns(w, stream, before);
    SomeoneOwns(w, stream, after);
    var n := Owner(w, stream, after).value;
    OwnerIsTheWinner(w, stream, after, n);
    if n in before {
      OwnerIsTheWinner(w, stream, before, n);
    }
  }

  /**
   Two nodes whose views may differ, but each of which is in both views, are never
   assigned the same stream. This is the step from mutual visibility to exclusive ownership.
   */
  lemma MutuallyVisibleNodesShareNothing(
      w: Weight, streams: seq<StreamId>, a: NodeId, viewA: seq<NodeId>, b: NodeId, viewB: seq<NodeId>)
    requires a != b && b in viewA && a in viewB
    ensures AssignedTo(w, a, streams, viewA) !! AssignedTo(w, b, streams, viewB)
  {
    forall s ensures !(s in AssignedTo(w, a, streams, viewA) && s in AssignedTo(w, b, streams, viewB)) {
      OwnerIsTheWinner(w, s, viewA, a);
      OwnerIsTheWinner(w, s, viewB, b);
      assert b in Members(viewA) && a in Members(viewB);
    }
  }
}
