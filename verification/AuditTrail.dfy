/**
 The evidence an audit needs before a book is distrusted (crates/ma-core/src/audit.rs):
 the same price wrong in successive conclusive audits.
 */
module AuditTrail {
  import opened Types
  import opened Book
  import opened Audit

  datatype Trail = Trail(consecutive: nat, suspect: set<Price>, audits: nat, mismatches: nat)

  const NewTrail: Trail := Trail(0, {}, 0, 0)

  /** The trail after one outcome. */
  function Observed(t: Trail, o: Outcome): Trail {
    match o
    case Inconclusive => t.(audits := t.audits + 1)
    case Match(_) => Trail(0, {}, t.audits + 1, t.mismatches)
    case Mismatch(_, _) =>
      var still := t.suspect * o.Prices();
      if t.consecutive == 0 || still == {} then Trail(1, o.Prices(), t.audits + 1, t.mismatches + 1)
      else Trail(t.consecutive + 1, still, t.audits + 1, t.mismatches + 1)
  }

  function Forgotten(t: Trail): Trail {
    t.(consecutive := 0, suspect := {})
  }

  /** An outcome is acted on when it extends a streak to the policy's length. */
  predicate Reports(t: Trail, o: Outcome, policy: Policy) {
    && o.Mismatch? && t.consecutive > 0 && t.suspect * o.Prices() != {}
    && t.consecutive + 1 >= policy.consecutive
  }

  /** The reason given: the lowest suspect price and the length of the streak. */
  ghost function Reason(t: Trail, o: Outcome, policy: Policy): (r: Option<DesyncReason>)
    ensures r.Some? <==> Reports(t, o, policy)
  {
    if !Reports(t, o, policy) then None
    else
      var still := t.suspect * o.Prices();
      assert exists p :: IsBest(Ask, p, still) by { var p := BestExists(Ask, still); }
      var p :| IsBest(Ask, p, still);
      Some(AuditMismatch(p, t.consecutive + 1))
  }

  class AuditTrail {
    var consecutive: nat
    var suspect: set<Price>
    var audits: nat
    var mismatches: nat

    ghost function Value(): Trail
      reads this
    {
      Trail(consecutive, suspect, audits, mismatches)
    }

    constructor ()
      ensures Value() == NewTrail
    {
      consecutive, suspect, audits, mismatches := 0, {}, 0, 0;
    }

    method Observe(o: Outcome, policy: Policy) returns (reason: Option<DesyncReason>)
      modifies this
      ensures Value() == Observed(old(Value()), o)
      ensures reason == Reason(old(Value()), o, policy)
    {
      reason := None;
      audits := audits + 1;
      match o {
        case Inconclusive =>
        case Match(_) =>
          consecutive := 0;
          suspect := {};
        case Mismatch(_, _) =>
          mismatches := mismatches + 1;
          var now := o.Prices();
          if consecutive == 0 {
            suspect := now;
            consecutive := 1;
            return;
          }
          suspect := suspect * now;
          if suspect == {} {
            suspect := now;
            consecutive := 1;
            return;
          }
          consecutive := consecutive + 1;
          if consecutive < policy.consecutive {
            return;
          }
          var price := FindBest(Ask, suspect);
          reason := Some(AuditMismatch(price, consecutive));
      }
    }

    method Reset()
      modifies this
      ensures Value() == Forgotten(old(Value()))
    {
      consecutive := 0;
      suspect := {};
    }
  }

  ////////// Over every sequence of outcomes

  /** The trail after a sequence of outcomes since a reset. */
  function After(t: Trail, outcomes: seq<Outcome>): Trail {
    if outcomes == [] then Forgotten(t)
    else Observed(After(t, outcomes[..|outcomes| - 1]), outcomes[|outcomes| - 1])
  }

  function Conclusive(outcomes: seq<Outcome>): seq<Outcome> {
    if outcomes == [] then []
    else
      var front := Conclusive(outcomes[..|outcomes| - 1]);
      if outcomes[|outcomes| - 1].Inconclusive? then front else front + [outcomes[|outcomes| - 1]]
  }

  /** Every mismatch names a price: what `Audited` guarantees of its outcomes. */
  ghost predicate WellFormed(outcomes: seq<Outcome>) {
    forall o | o in outcomes && o.Mismatch? :: o.findings != []
  }

  /** The streak is the last `consecutive` conclusive audits, and the suspects are what they all found. */
  ghost predicate Streak(t: Trail, conclusive: seq<Outcome>) {
    && t.consecutive <= |conclusive|
    && (t.consecutive == 0 <==> t.suspect == {})
    && (t.consecutive > 0 ==>
          forall p :: p in t.suspect <==>
            forall i | |conclusive| - t.consecutive <= i < |conclusive| :: p in conclusive[i].Prices())
  }

  lemma {:induction false} SuspectsAreTheIntersection(t: Trail, outcomes: seq<Outcome>)
    requires WellFormed(outcomes)
    ensures Streak(After(t, outcomes), Conclusive(outcomes))
  {
    if outcomes != [] {
      var front, o := outcomes[..|outcomes| - 1], outcomes[|outcomes| - 1];
      assert o in outcomes && forall x | x in front :: x in outcomes;
      SuspectsAreTheIntersection(t, front);
      var u, c, c' := After(t, front), Conclusive(front), Conclusive(outcomes);
      if o.Mismatch? {
        assert o.findings[0].price in o.Prices();
        var u' := After(t, outcomes);
        assert c' == c + [o];
        forall p
          ensures p in u'.suspect <==> forall i | |c'| - u'.consecutive <= i < |c'| :: p in c'[i].Prices()
        {
          if u'.consecutive == 1 {
            assert c'[|c'| - 1] == o;
          } else {
            assert forall i | 0 <= i < |c| :: c'[i] == c[i];
            assert c'[|c|] == o;
          }
        }
      }
    }
  }

  /** The price was wrong in each of the last `n` of these audits. */
  ghost predicate WrongInLast(conclusive: seq<Outcome>, n: nat, p: Price) {
    forall i | |conclusive| - n <= i < |conclusive| :: 0 <= i && p in conclusive[i].Prices()
  }

  /**
   Whatever the policy, a report names a price that was wrong in each of the last
   `consecutive` conclusive audits since the reset, counting this one, and there were at
   least two of them; of several such prices it is the lowest.
   */
  lemma ReportIsEvidence(t: Trail, outcomes: seq<Outcome>, o: Outcome, policy: Policy)
    requires WellFormed(outcomes + [o])
    requires Reason(After(t, outcomes), o, policy).Some?
    ensures var r := Reason(After(t, outcomes), o, policy).value;
            var c := Conclusive(outcomes + [o]);
            && r.AuditMismatch? && 2 <= r.consecutive <= |c| && r.consecutive >= policy.consecutive
            && WrongInLast(c, r.consecutive, r.price) && (forall p | WrongInLast(c, r.consecutive, p) :: r.price <= p)
  {
    var all := outcomes + [o];
    assert all[..|outcomes|] == outcomes;
    assert forall x | x in outcomes :: x in all;
    SuspectsAreTheIntersection(t, outcomes);
    var u, c := After(t, outcomes), Conclusive(outcomes);
    var r := Reason(u, o, policy).value;
    var c' := Conclusive(all);
    assert c' == c + [o];
    assert r.price in u.suspect && r.price in o.Prices();
    forall p | WrongInLast(c', r.consecutive, p)
      ensures r.price <= p
    {
      assert c'[|c|] == o && forall i | |c| - u.consecutive <= i < |c| :: c'[i] == c[i];
      assert p in u.suspect * o.Prices();
    }
  }

  /**
   Under the default policy of two, a price wrong in two successive conclusive audits,
   whatever inconclusive ones lie between, forces a report at the first or the second.
   */
  lemma {:induction false} TwiceWrongIsReported(t: Trail, outcomes: seq<Outcome>, x: Outcome, between: seq<Outcome>, y: Outcome,
                                               p: Price, policy: Policy)
    requires WellFormed(outcomes) && policy.consecutive <= 2
    requires forall o | o in between :: o.Inconclusive?
    requires p in x.Prices() && p in y.Prices()
    ensures Reports(After(t, outcomes), x, policy) || Reports(After(t, outcomes + [x] + between), y, policy)
  {
    var u := After(t, outcomes);
    var one := outcomes + [x];
    assert one[..|outcomes|] == outcomes;
    InconclusiveChangesNothing(t, one, between);
    var v := Observed(u, x);
    if p !in v.suspect {
      assert Reports(u, x, policy);
    } else {
      assert p in v.suspect * y.Prices();
    }
  }

  /** How many of these outcomes are mismatches. */
  function Mismatches(outcomes: seq<Outcome>): nat {
    if outcomes == [] then 0
    else Mismatches(outcomes[..|outcomes| - 1]) + if outcomes[|outcomes| - 1].Mismatch? then 1 else 0
  }

  /** The totals count every audit and every mismatch, and a reset leaves them. */
  lemma {:induction false} TotalsCount(t: Trail, outcomes: seq<Outcome>)
    ensures After(t, outcomes).audits == t.audits + |outcomes|
    ensures After(t, outcomes).mismatches == t.mismatches + Mismatches(outcomes)
  {
    if outcomes != [] {
      TotalsCount(t, outcomes[..|outcomes| - 1]);
    }
  }

  /** A suspect that goes on being wrong stays one, and every conclusive audit lengthens the streak by one. */
  lemma {:induction false} StreakGoesOn(t: Trail, outcomes: seq<Outcome>, more: seq<Outcome>, p: Price)
    requires After(t, outcomes).consecutive > 0 && p in After(t, outcomes).suspect
    requires forall o | o in more && !o.Inconclusive? :: p in o.Prices()
    ensures p in After(t, outcomes + more).suspect
    ensures After(t, outcomes + more).consecutive == After(t, outcomes).consecutive + |Conclusive(more)|
  {
    if more == [] {
      assert outcomes + more == outcomes;
    } else {
      var front, last := more[..|more| - 1], more[|more| - 1];
      assert last in more && forall x | x in front :: x in more;
      StreakGoesOn(t, outcomes, front, p);
      var all := outcomes + more;
      assert all[..|all| - 1] == outcomes + front && all[|all| - 1] == last;
      if last.Mismatch? {
        assert p in After(t, outcomes + front).suspect * last.Prices();
      }
    }
  }

  /** So whatever the policy, a suspect wrong again is reported exactly if that makes the streak long enough. */
  lemma StreaksAreReportedExactlyWhen(t: Trail, outcomes: seq<Outcome>, more: seq<Outcome>, o: Outcome, p: Price, policy: Policy)
    requires After(t, outcomes).consecutive > 0 && p in After(t, outcomes).suspect
    requires (forall x | x in more && !x.Inconclusive? :: p in x.Prices()) && p in o.Prices()
    ensures Reports(After(t, outcomes + more), o, policy) <==>
              After(t, outcomes).consecutive + |Conclusive(more)| + 1 >= policy.consecutive
  {
    StreakGoesOn(t, outcomes, more, p);
    assert p in After(t, outcomes + more).suspect * o.Prices();
  }

  lemma {:induction false} InconclusiveChangesNothing(t: Trail, outcomes: seq<Outcome>, between: seq<Outcome>)
    requires forall o | o in between :: o.Inconclusive?
    ensures After(t, outcomes + between).consecutive == After(t, outcomes).consecutive
    ensures After(t, outcomes + between).suspect == After(t, outcomes).suspect
  {
    if between == [] {
      assert outcomes + between == outcomes;
    } else {
      var front, last := between[..|between| - 1], between[|between| - 1];
      assert last in between && forall x | x in front :: x in between;
      InconclusiveChangesNothing(t, outcomes, front);
      var all := outcomes + between;
      assert all[..|all| - 1] == outcomes + front && all[|all| - 1] == last;
    }
  }

  /**
   A policy of one does not act on a single finding, although its description says it
   would: the first mismatch after a reset never reports, whatever the policy.
   */
  lemma FirstMismatchNeverReports(t: Trail, outcomes: seq<Outcome>, o: Outcome, policy: Policy)
    requires WellFormed(outcomes)
    requires forall x | x in Conclusive(outcomes) :: !x.Mismatch?
    ensures !Reports(After(t, outcomes), o, policy)
  {
    SuspectsAreTheIntersection(t, outcomes);
    var u, c := After(t, outcomes), Conclusive(outcomes);
    if u.consecutive > 0 {
      assert c[|c| - 1] in c;
      assert c[|c| - 1].Prices() == {};
    }
  }
}
