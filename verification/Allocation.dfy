/** One allocation round over the whole pool: quotas, fair sharing and, for unweighted pools, remainder
    recovery. */
module Allocation {
  import opened RealSums
  import opened Wholes
  import opened GroupNodes
  import opened GroupTrees
  import FairShare
  import RoundRobin
  import Quotas

  ghost predicate RequestsNonneg(t: Tree)
  {
    && t.requested >= 0.0
    && forall i :: 0 <= i < |t.kids| ==> RequestsNonneg(t.kids[i])
  }

  /** Every node asks for a whole number of slots. */
  ghost predicate WholeRequests(t: Tree)
  {
    && Whole(t.requested)
    && forall i :: 0 <= i < |t.kids| ==> WholeRequests(t.kids[i])
  }

  /** Node by node, the request is split into what was allocated and what was not, and nobody is pushed
      below its quota's worth of whole slots. */
  ghost predicate Granted(t: Tree, t': Tree)
  {
    && t'.allocation + t'.requested == t.requested && t'.requested >= 0.0
    && t'.allocation >= Min(t.requested, t.quota).Floor as real
    && |t'.kids| == |t.kids|
    && forall i :: 0 <= i < |t.kids| ==> Granted(t.kids[i], t'.kids[i])
  }

  lemma {:induction false} SharedIsGranted(t: Tree, t': Tree)
    requires Shared(t, t')
    ensures Granted(t, t')
  {
    forall i | 0 <= i < |t.kids| ensures Granted(t.kids[i], t'.kids[i]) { SharedIsGranted(t.kids[i], t'.kids[i]); }
  }

  /** With whole requests, rounding gives back exactly the fraction it took. */
  lemma {:induction false} RoundedIsGranted(t: Tree, m: Tree, t': Tree)
    requires WholeRequests(t) && Shared(t, m) && RoundRobin.Rounded(m, t')
    ensures Granted(t, t')
  {
    var x := m.requested + RoundRobin.Frac(m.allocation);
    assert Whole(x) by {
      WholeInt(t.requested.Floor - m.allocation.Floor, x);
    }
    RoundRobin.RoundWhole(x);
    FloorMonotone(Min(t.requested, t.quota), m.allocation);
    forall i | 0 <= i < |t.kids| ensures Granted(t.kids[i], t'.kids[i]) {
      RoundedIsGranted(t.kids[i], m.kids[i], t'.kids[i]);
    }
  }

  /** Whole requests that were met stay met: their slots are whole already, so recovery takes nothing back. */
  lemma {:induction false} StaysSatisfied(t: Tree, m: Tree, t': Tree)
    requires WholeRequests(t) && Shared(t, m) && Satisfied(m) && RoundRobin.Rounded(m, t')
    ensures Satisfied(t')
  {
    assert m.allocation == t.requested;
    RoundRobin.FloorSettled(m.allocation);
    WholeInt(0, 0.0);
    RoundRobin.RoundWhole(0.0);
    forall i | 0 <= i < |t'.kids| && t'.kids[i].accept ensures Satisfied(t'.kids[i]) {
      StaysSatisfied(t.kids[i], m.kids[i], t'.kids[i]);
    }
  }

  lemma {:induction false} StaysNonnegative(t: Tree, t': Tree)
    requires Nonnegative(t) && Shared(t, t')
    ensures Nonnegative(t')
  {
    forall i | 0 <= i < |t.kids| ensures Nonnegative(t'.kids[i]) { StaysNonnegative(t.kids[i], t'.kids[i]); }
  }

  /** What one round makes of a tree: its fair shares, which an unweighted pool then turns into whole slots. */
  ghost predicate Outcome(t: Tree, t': Tree, weighted: bool)
  {
    if weighted then FairShare.SharedOut(t, t')
    else exists m: Tree :: FairShare.SharedOut(t, m) && RoundRobin.RecoveredOut(m, t')
  }

  /** Requests, quotas and round-robin stamps leave one outcome. */
  lemma OutcomeUnique(t: Tree, a: Tree, b: Tree, weighted: bool)
    requires Outcome(t, a, weighted) && Outcome(t, b, weighted)
    ensures a == b
  {
    hide FairShare.SharedOut, RoundRobin.RecoveredOut;
    if weighted {
      FairShare.SharedUnique(t, a, b);
    } else {
      var m: Tree :| FairShare.SharedOut(t, m) && RoundRobin.RecoveredOut(m, a);
      var n: Tree :| FairShare.SharedOut(t, n) && RoundRobin.RecoveredOut(n, b);
      FairShare.SharedUnique(t, m, n);
      RoundRobin.RecoveredUnique(m, a, b);
    }
  }

  /** The allocation phase of one round. Surplus and allocations add up to the quotas; what comes back as
      surplus could not be used by any group that accepts surplus. */
  method AllocateRound(root: GroupNode, weighted: bool) returns (surplus: real)
    requires root.Valid() && Nonnegative(root.View())
    modifies root.repr
    ensures TotalAllocation(root.View()) + surplus == TotalQuota(old(root.View()))
    ensures Settled(root.View()) && Outcome(old(root.View()), root.View(), weighted)
    ensures weighted ==> Granted(old(root.View()), root.View()) && (surplus > 0.0 ==> Satisfied(root.View()))
    ensures !weighted ==> RoundRobin.WholeTree(root.View())
    ensures !weighted && WholeRequests(old(root.View())) ==>
              Granted(old(root.View()), root.View()) && (surplus >= 1.0 ==> Satisfied(root.View()))
  {
    hide Settled, TotalAllocation, TotalQuota, Shared, Satisfied, Nonnegative, WholeRequests, Granted,
         RoundRobin.WholeTree, RoundRobin.Rounded, RoundRobin.RecoveredOut, FairShare.SharedOut;
    ghost var t := root.View();
    surplus := FairShare.ShareFairly(root);
    ghost var m := root.View();
    SharedIsGranted(t, m);
    UnmetIsExact(m);
    if !weighted {
      StaysNonnegative(t, m);
      var more := RoundRobin.RecoverRemainders(root);
      if WholeRequests(t) {
        RoundedIsGranted(t, m, root.View());
        if surplus > 0.0 {
          StaysSatisfied(t, m, root.View());
        }
      }
      RoundRobin.RecoveryIsWorkConserving(m, root.View(), more);
      surplus := surplus + more;
    }
  }

  lemma {:induction false} QuotasKeepRequests(t: Tree, t': Tree)
    requires RequestsNonneg(t) && Quotas.OnlyQuotas(t, t') && Quotas.Spread(t')
    ensures Nonnegative(t')
  {
    forall i | 0 <= i < |t.kids| ensures Nonnegative(t'.kids[i]) { QuotasKeepRequests(t.kids[i], t'.kids[i]); }
  }

  lemma {:induction false} QuotasKeepWholes(t: Tree, t': Tree)
    requires WholeRequests(t) && Quotas.OnlyQuotas(t, t')
    ensures WholeRequests(t')
  {
    forall i | 0 <= i < |t.kids| ensures WholeRequests(t'.kids[i]) { QuotasKeepWholes(t.kids[i], t'.kids[i]); }
  }

  lemma {:induction false} ConfigKept(t: Tree, t': Tree)
    requires Quotas.ConfigNonneg(t) && Quotas.OnlyQuotas(t, t')
    ensures Quotas.ConfigNonneg(t')
  {
    forall i | 0 <= i < |t.kids| ensures Quotas.ConfigNonneg(t'.kids[i]) { ConfigKept(t.kids[i], t'.kids[i]); }
  }

  /** From the pool's total to allocations: nothing is created and nothing is lost. */
  method AllocatePool(root: GroupNode, totalQuota: real, weighted: bool) returns (surplus: real)
    requires root.Valid()
    requires Quotas.ConfigNonneg(root.View()) && RequestsNonneg(root.View())
    modifies root.repr
    ensures TotalAllocation(root.View()) + surplus == Max(0.0, totalQuota)
    ensures Settled(root.View())
    ensures weighted && surplus > 0.0 ==> Satisfied(root.View())
    ensures !weighted ==> RoundRobin.WholeTree(root.View())
    ensures !weighted && WholeRequests(old(root.View())) && surplus >= 1.0 ==> Satisfied(root.View())
  {
    hide Settled, TotalAllocation, TotalQuota, Satisfied, Nonnegative, RequestsNonneg, WholeRequests, Granted,
         RoundRobin.WholeTree, Quotas.OnlyQuotas, Quotas.Spread, Quotas.ConfigNonneg, Quotas.Assigned;
    ghost var t := root.View();
    Quotas.AssignQuotas(root, totalQuota, false);
    ConfigKept(t, root.View());
    QuotasKeepRequests(t, root.View());
    if WholeRequests(t) {
      QuotasKeepWholes(t, root.View());
    }
    surplus := AllocateRound(root, weighted);
  }
}
