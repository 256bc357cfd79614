/** Quota assignment: the pool's quota spread top-down over the group tree. */
module Quotas {
  import opened RealSums
  import opened GroupNodes
  import opened GroupTrees

  /** The configured quotas of the children of one kind, zero in the places of the other. */
  ghost function Configs(ks: seq<Tree>, isStatic: bool): (c: seq<real>)
    ensures |c| == |ks|
    ensures forall i :: 0 <= i < |ks| ==> c[i] == (if ks[i].isStatic == isStatic then ks[i].config else 0.0)
  {
    seq(|ks|, i requires 0 <= i < |ks| => if ks[i].isStatic == isStatic then ks[i].config else 0.0)
  }

  /** What static children get together: they come before the dynamic ones. */
  function StaticPart(sqsum: real, quota: real, oversub: bool): real {
    if oversub then sqsum else Min(sqsum, quota)
  }

  /** Per unit of configured quota, what a static and what a dynamic child gets. */
  function StaticRate(sqsum: real, quota: real, oversub: bool): real {
    StaticPart(sqsum, quota, oversub) / (if sqsum <= 0.0 then 1.0 else sqsum)
  }

  function DynamicRate(sqsum: real, dqsum: real, quota: real, oversub: bool): real {
    Max(0.0, quota - StaticPart(sqsum, quota, oversub)) / Max(dqsum, 1.0)
  }

  ghost function ChildShares(t: Tree, quota: real, oversub: bool): (s: seq<real>)
    ensures |s| == |t.kids|
  {
    var st, dy := Configs(t.kids, true), Configs(t.kids, false);
    var sr, dr := StaticRate(Sum(st), quota, oversub), DynamicRate(Sum(st), Sum(dy), quota, oversub);
    seq(|t.kids|, i requires 0 <= i < |t.kids| => Max(0.0, Scaled(st, sr)[i] + Scaled(dy, dr)[i]))
  }

  /** The quotas of a subtree that received `quota`. */
  ghost predicate Assigned(t: Tree, quota: real, oversub: bool)
    decreases t
  {
    if quota <= 0.0 then ZeroQuotas(t)
    else
      var shares := ChildShares(t, quota, oversub);
      && t.subtreeQuota == quota
      && t.quota == Max(0.0, if oversub && !t.isRoot then quota else quota - Sum(shares))
      && forall i :: 0 <= i < |t.kids| ==> Assigned(t.kids[i], shares[i], oversub)
  }

  ghost predicate ZeroQuotas(t: Tree)
  {
    && t.quota == 0.0 && t.subtreeQuota == 0.0
    && forall i :: 0 <= i < |t.kids| ==> ZeroQuotas(t.kids[i])
  }

  ghost predicate ConfigNonneg(t: Tree)
  {
    && t.config >= 0.0
    && forall i :: 0 <= i < |t.kids| ==> ConfigNonneg(t.kids[i])
  }

  /** Every subtree holds exactly the quota it was assigned, spread over its nodes without debt. */
  ghost predicate Spread(t: Tree)
  {
    && t.quota >= 0.0 && t.subtreeQuota == TotalQuota(t) >= 0.0
    && forall i :: 0 <= i < |t.kids| ==> Spread(t.kids[i])
  }

  lemma {:induction false} ZeroTotal(t: Tree)
    requires ZeroQuotas(t)
    ensures TotalQuota(t) == 0.0 && Spread(t)
  {
    forall i | 0 <= i < |t.kids| ensures TotalQuota(t.kids[i]) == 0.0 && Spread(t.kids[i]) { ZeroTotal(t.kids[i]); }
    SumNonneg(TotalQuotas(t.kids));
    SumNonpos(TotalQuotas(t.kids));
  }

  lemma RatesNonneg(sqsum: real, dqsum: real, quota: real)
    requires sqsum >= 0.0 && dqsum >= 0.0 && quota >= 0.0
    ensures StaticRate(sqsum, quota, false) >= 0.0 && DynamicRate(sqsum, dqsum, quota, false) >= 0.0
    ensures StaticRate(sqsum, quota, false) * sqsum == Min(sqsum, quota)
    ensures DynamicRate(sqsum, dqsum, quota, false) * dqsum <= quota - Min(sqsum, quota)
  {
    var part := Min(sqsum, quota);
    var zd := Max(dqsum, 1.0);
    var dr := (quota - part) / zd;
    RateTimesTotal(quota - part, zd);
    ProductMonotone(dqsum, zd, dr);
    if sqsum > 0.0 { RateTimesTotal(part, sqsum); }
  }

  lemma SharesTotal(t: Tree, quota: real)
    requires forall i :: 0 <= i < |t.kids| ==> t.kids[i].config >= 0.0
    requires quota >= 0.0
    ensures forall i :: 0 <= i < |t.kids| ==> ChildShares(t, quota, false)[i] >= 0.0
    ensures var sq, dq := Sum(Configs(t.kids, true)), Sum(Configs(t.kids, false));
            Sum(ChildShares(t, quota, false)) == Min(sq, quota) + DynamicRate(sq, dq, quota, false) * dq
  {
    hide Sum, Scaled, StaticRate, DynamicRate;
    var st, dy := Configs(t.kids, true), Configs(t.kids, false);
    SumNonneg(st);
    SumNonneg(dy);
    var sr, dr := StaticRate(Sum(st), quota, false), DynamicRate(Sum(st), Sum(dy), quota, false);
    RatesNonneg(Sum(st), Sum(dy), quota);
    ScaledNonneg(st, sr);
    ScaledNonneg(dy, dr);
    ScaledSum(st, sr);
    ScaledSum(dy, dr);
    SumPointwiseAdd(Scaled(st, sr), Scaled(dy, dr), ChildShares(t, quota, false));
  }

  /** The children's shares fit into the incoming quota. */
  lemma SharesFit(t: Tree, quota: real)
    requires forall i :: 0 <= i < |t.kids| ==> t.kids[i].config >= 0.0
    requires quota >= 0.0
    ensures forall i :: 0 <= i < |t.kids| ==> ChildShares(t, quota, false)[i] >= 0.0
    ensures Sum(ChildShares(t, quota, false)) <= quota
  {
    hide Sum, DynamicRate, ChildShares;
    SharesTotal(t, quota);
    SumNonneg(Configs(t.kids, true));
    SumNonneg(Configs(t.kids, false));
    RatesNonneg(Sum(Configs(t.kids, true)), Sum(Configs(t.kids, false)), quota);
  }

  /** Without oversubscription, the quotas of a subtree add up to exactly what it received. */
  lemma {:induction false} AssignmentConserves(t: Tree, quota: real)
    requires ConfigNonneg(t) && Assigned(t, quota, false)
    ensures TotalQuota(t) == Max(0.0, quota) && Spread(t)
  {
    hide Sum;
    if quota <= 0.0 {
      ZeroTotal(t);
    } else {
      var shares := ChildShares(t, quota, false);
      SharesFit(t, quota);
      forall i | 0 <= i < |t.kids| ensures TotalQuota(t.kids[i]) == shares[i] && Spread(t.kids[i]) {
        AssignmentConserves(t.kids[i], shares[i]);
      }
      assert TotalQuotas(t.kids) == shares;
    }
  }

  // ----- a larger pool never costs a group quota -----

  ghost predicate SameConfig(a: Tree, b: Tree)
  {
    && a.config == b.config && a.isStatic == b.isStatic && a.isRoot == b.isRoot && |a.kids| == |b.kids|
    && forall i :: 0 <= i < |a.kids| ==> SameConfig(a.kids[i], b.kids[i])
  }

  ghost predicate NoLess(a: Tree, b: Tree)
  {
    && a.quota <= b.quota && a.subtreeQuota <= b.subtreeQuota && |a.kids| == |b.kids|
    && forall i :: 0 <= i < |a.kids| ==> NoLess(a.kids[i], b.kids[i])
  }

  lemma {:induction false} NothingIsLeast(a: Tree, b: Tree)
    requires SameConfig(a, b) && ZeroQuotas(a) && Spread(b)
    ensures NoLess(a, b)
  {
    forall i | 0 <= i < |a.kids| ensures NoLess(a.kids[i], b.kids[i]) { NothingIsLeast(a.kids[i], b.kids[i]); }
  }

  /** What is kept for the node itself is a fixed fraction of what the static children leave. */
  lemma KeptFraction(left: real, dqsum: real)
    requires left >= 0.0 && dqsum >= 0.0
    ensures left - (left / Max(dqsum, 1.0)) * dqsum == (left / Max(dqsum, 1.0)) * (Max(dqsum, 1.0) - dqsum)
  {
    RateTimesTotal(left, Max(dqsum, 1.0));
  }

  lemma RatesMonotone(sqsum: real, dqsum: real, q1: real, q2: real)
    requires sqsum >= 0.0 && dqsum >= 0.0 && 0.0 <= q1 <= q2
    ensures StaticRate(sqsum, q1, false) <= StaticRate(sqsum, q2, false)
    ensures DynamicRate(sqsum, dqsum, q1, false) <= DynamicRate(sqsum, dqsum, q2, false)
    ensures q1 - Min(sqsum, q1) - DynamicRate(sqsum, dqsum, q1, false) * dqsum
         <= q2 - Min(sqsum, q2) - DynamicRate(sqsum, dqsum, q2, false) * dqsum
  {
    QuotientMonotone(Min(sqsum, q1), Min(sqsum, q2), if sqsum <= 0.0 then 1.0 else sqsum);
    QuotientMonotone(q1 - Min(sqsum, q1), q2 - Min(sqsum, q2), Max(dqsum, 1.0));
    LeftMonotone(q1 - Min(sqsum, q1), q2 - Min(sqsum, q2), dqsum);
  }

  lemma LeftMonotone(l1: real, l2: real, dqsum: real)
    requires 0.0 <= l1 <= l2 && dqsum >= 0.0
    ensures l1 - l1 / Max(dqsum, 1.0) * dqsum <= l2 - l2 / Max(dqsum, 1.0) * dqsum
  {
    var zd := Max(dqsum, 1.0);
    QuotientMonotone(l1, l2, zd);
    KeptFraction(l1, dqsum);
    KeptFraction(l2, dqsum);
    ProductMonotone(l1 / zd, l2 / zd, zd - dqsum);
  }

  lemma SharesMonotone(t: Tree, q1: real, q2: real)
    requires forall i :: 0 <= i < |t.kids| ==> t.kids[i].config >= 0.0
    requires 0.0 <= q1 <= q2
    ensures forall i :: 0 <= i < |t.kids| ==> ChildShares(t, q1, false)[i] <= ChildShares(t, q2, false)[i]
    ensures q1 - Sum(ChildShares(t, q1, false)) <= q2 - Sum(ChildShares(t, q2, false))
  {
    hide Sum, Scaled, StaticRate, DynamicRate;
    var st, dy := Configs(t.kids, true), Configs(t.kids, false);
    SumNonneg(st);
    SumNonneg(dy);
    SharesTotal(t, q1);
    SharesTotal(t, q2);
    RatesMonotone(Sum(st), Sum(dy), q1, q2);
    ScaledMonotone(st, StaticRate(Sum(st), q1, false), StaticRate(Sum(st), q2, false));
    ScaledMonotone(dy, DynamicRate(Sum(st), Sum(dy), q1, false), DynamicRate(Sum(st), Sum(dy), q2, false));
  }

  /** Of two pools over the same configuration, the larger gives every group at least as much. */
  lemma {:induction false} AssignmentMonotone(a: Tree, b: Tree, q1: real, q2: real)
    requires SameConfig(a, b) && ConfigNonneg(a) && ConfigNonneg(b) && q1 <= q2
    requires Assigned(a, q1, false) && Assigned(b, q2, false)
    ensures NoLess(a, b)
  {
    hide Sum, ChildShares;
    if q1 <= 0.0 {
      AssignmentConserves(b, q2);
      NothingIsLeast(a, b);
    } else {
      SameShares(a, b, q1);
      SharesMonotone(b, q1, q2);
      SharesFit(b, q1);
      SharesFit(b, q2);
      forall i | 0 <= i < |a.kids| ensures NoLess(a.kids[i], b.kids[i]) {
        AssignmentMonotone(a.kids[i], b.kids[i], ChildShares(a, q1, false)[i], ChildShares(b, q2, false)[i]);
      }
    }
  }

  lemma SameShares(a: Tree, b: Tree, q: real)
    requires SameConfig(a, b)
    ensures ChildShares(a, q, false) == ChildShares(b, q, false)
  {
    assert Configs(a.kids, true) == Configs(b.kids, true);
    assert Configs(a.kids, false) == Configs(b.kids, false);
  }

  // ----- the assignment itself -----

  /** Everything but the quotas is as before. */
  ghost predicate OnlyQuotas(t: Tree, t': Tree)
  {
    && t'.(quota := t.quota, subtreeQuota := t.subtreeQuota, kids := t.kids) == t
    && |t'.kids| == |t.kids|
    && forall i :: 0 <= i < |t.kids| ==> OnlyQuotas(t.kids[i], t'.kids[i])
  }

  /** The configured quotas of the children, static and dynamic apart. */
  method SumConfigs(n: GroupNode) returns (sqsum: real, dqsum: real)
    requires n.Valid()
    ensures sqsum == Sum(Configs(n.View().kids, true)) && dqsum == Sum(Configs(n.View().kids, false))
  {
    sqsum, dqsum := 0.0, 0.0;
    ghost var st, dy := Configs(n.View().kids, true), Configs(n.View().kids, false);
    for i := 0 to |n.children|
      invariant sqsum == Sum(st[..i]) && dqsum == Sum(dy[..i])
    {
      SumPrefix(st, i);
      SumPrefix(dy, i);
      if n.children[i].staticQuota {
        sqsum := sqsum + n.children[i].configQuota;
      } else {
        dqsum := dqsum + n.children[i].configQuota;
      }
    }
    assert st[..|n.children|] == st && dy[..|n.children|] == dy;
  }

  /** One child's share of the incoming quota. */
  method ChildShare(child: GroupNode, sqa: real, zs: real, dqa: real, zd: real,
                    ghost t: Tree, ghost i: nat, ghost quota: real, ghost oversub: bool) returns (q: real)
    requires i < |t.kids| && t.kids[i].config == child.configQuota && t.kids[i].isStatic == child.staticQuota
    requires zs != 0.0 && zd != 0.0
    requires sqa / zs == StaticRate(Sum(Configs(t.kids, true)), quota, oversub)
    requires dqa / zd == DynamicRate(Sum(Configs(t.kids, true)), Sum(Configs(t.kids, false)), quota, oversub)
    ensures q == ChildShares(t, quota, oversub)[i]
  {
    if child.staticQuota {
      q := child.configQuota * (sqa / zs);
    } else {
      q := child.configQuota * (dqa / zd);
    }
    ScaledAt(Configs(t.kids, true), sqa / zs, i);
    ScaledAt(Configs(t.kids, false), dqa / zd, i);
    if q < 0.0 {
      q := 0.0;
    }
  }

  lemma {:induction false} SameThroughout(t: Tree)
    ensures OnlyQuotas(t, t)
  {
    forall i | 0 <= i < |t.kids| ensures OnlyQuotas(t.kids[i], t.kids[i]) { SameThroughout(t.kids[i]); }
  }

  lemma {:induction false} OnlyQuotasTwice(a: Tree, b: Tree, c: Tree)
    requires OnlyQuotas(a, b) && OnlyQuotas(b, c)
    ensures OnlyQuotas(a, c)
  {
    forall i | 0 <= i < |a.kids| ensures OnlyQuotas(a.kids[i], c.kids[i]) {
      OnlyQuotasTwice(a.kids[i], b.kids[i], c.kids[i]);
    }
  }

  ghost predicate ChildAssigned(t: Tree, t': Tree, q: real, oversub: bool) {
    OnlyQuotas(t, t') && Assigned(t', q, oversub)
  }

  lemma AssignedNode(t: Tree, t': Tree, quota: real, oversub: bool)
    requires quota > 0.0 && |t'.kids| == |t.kids|
    requires forall i :: 0 <= i < |t.kids| ==>
               ChildAssigned(t.kids[i], t'.kids[i], ChildShares(t, quota, oversub)[i], oversub)
    requires t'.(quota := t.quota, subtreeQuota := t.subtreeQuota, kids := t.kids) == t
    requires t'.subtreeQuota == quota
    requires t'.quota == Max(0.0, if oversub && !t.isRoot then quota else quota - Sum(ChildShares(t, quota, oversub)))
    ensures OnlyQuotas(t, t') && Assigned(t', quota, oversub)
  {
    hide Sum, Scaled, StaticRate, DynamicRate;
    assert Configs(t.kids, true) == Configs(t'.kids, true);
    assert Configs(t.kids, false) == Configs(t'.kids, false);
    assert ChildShares(t, quota, oversub) == ChildShares(t', quota, oversub);
  }

  /** Spread `quota` over the subtree of `n`, whose quotas have been reset. */
  method AssignBelow(n: GroupNode, quota: real, oversub: bool)
    requires n.Valid() && ZeroQuotas(n.View())
    modifies n.repr
    ensures OnlyQuotas(old(n.View()), n.View())
    ensures Assigned(n.View(), quota, oversub)
    decreases n.height, 1
  {
    hide Sum, OnlyQuotas, ZeroQuotas, StaticRate, DynamicRate, ChildShares, Assigned, ChildAssigned, GroupNode.Valid,
         GroupNode.View;
    ghost var t := n.View();
    n.Structure();
    n.Figures();
    if quota <= 0.0 {
      NothingAssigned(t, quota, oversub);
      return;
    }
    var sqsum, dqsum := SumConfigs(n);
    var chq := AssignChildren(n, quota, oversub, sqsum, dqsum, t);
    n.Figures();
    SetQuotas(n, quota, if oversub && n.name != ROOT_GROUP_NAME then quota else quota - chq);
    AssignedNode(t, n.View(), quota, oversub);
  }

  lemma NothingAssigned(t: Tree, quota: real, oversub: bool)
    requires ZeroQuotas(t) && quota <= 0.0
    ensures OnlyQuotas(t, t) && Assigned(t, quota, oversub)
  {
    SameThroughout(t);
  }

  /** The node keeps what its children do not consume, never a negative amount. */
  method SetQuotas(n: GroupNode, subtreeQuota: real, quota: real)
    requires n.Valid()
    modifies n
    ensures n.View() == old(n.View()).(subtreeQuota := subtreeQuota, quota := Max(0.0, quota))
  {
    n.subtreeQuota := subtreeQuota;
    n.quota := quota;
    if n.quota < 0.0 {
      n.quota := 0.0;
    }
    assert forall i :: 0 <= i < |n.children| ==> n.children[i].View() == old(n.children[i].View());
  }

  /** Hand the quota down: static children are served before dynamic ones, and together they get no more than there
      is unless oversubscription is on. The dynamic ones split the remainder by rate; rates that add up to more than
      one are scaled down. */
  method AssignChildren(n: GroupNode, quota: real, oversub: bool, sqsum: real, dqsum: real, ghost t: Tree)
    returns (chq: real)
    requires n.Valid() && n.View() == t && ZeroQuotas(t)
    requires sqsum == Sum(Configs(t.kids, true)) && dqsum == Sum(Configs(t.kids, false))
    modifies n.repr - {n}
    ensures forall i :: 0 <= i < |t.kids| ==>
              ChildAssigned(t.kids[i], n.children[i].View(), ChildShares(t, quota, oversub)[i], oversub)
    ensures chq == Sum(ChildShares(t, quota, oversub))
    decreases n.height, 0
  {
    hide Sum, OnlyQuotas, ZeroQuotas, ChildShares, Assigned, ChildAssigned, Configs, GroupNode.Valid, GroupNode.View;
    n.Structure();
    n.Figures();
    ZeroBelow(t);
    var sqa := StaticPart(sqsum, quota, oversub);
    var dqa := Max(0.0, quota - sqa);
    var zs := if sqsum <= 0.0 then 1.0 else sqsum;
    var zd := Max(dqsum, 1.0);
    ghost var shares := ChildShares(t, quota, oversub);
    chq := 0.0;
    SumEmpty();
    for j := 0 to |n.children|
      invariant forall k :: 0 <= k < j ==> ChildAssigned(t.kids[k], n.children[k].View(), shares[k], oversub)
      invariant forall k :: j <= k < |n.children| ==> n.children[k].View() == t.kids[k]
      invariant chq == Sum(shares[..j])
    {
      SumPrefix(shares, j);
      n.children[j].Figures();
      var q := ChildShare(n.children[j], sqa, zs, dqa, zd, t, j, quota, oversub);
      AssignBelow(n.children[j], q, oversub);
      IsChildAssigned(t.kids[j], n.children[j].View(), q, oversub);
      chq := chq + q;
    }
    assert shares[..|n.children|] == shares;
  }

  lemma ZeroBelow(t: Tree)
    requires ZeroQuotas(t)
    ensures forall i :: 0 <= i < |t.kids| ==> ZeroQuotas(t.kids[i])
  {
  }

  lemma IsChildAssigned(t: Tree, t': Tree, q: real, oversub: bool)
    requires OnlyQuotas(t, t') && Assigned(t', q, oversub)
    ensures ChildAssigned(t, t', q, oversub)
  {
  }

  /** Reset every quota below `n`. */
  method ResetQuotas(n: GroupNode)
    requires n.Valid()
    modifies n.repr
    ensures ZeroQuotas(n.View()) && OnlyQuotas(old(n.View()), n.View())
    decreases n.height
  {
    hide ZeroQuotas, OnlyQuotas, GroupNode.Valid, GroupNode.View;
    n.Structure();
    n.Figures();
    ghost var t := n.View();
    n.quota, n.subtreeQuota := 0.0, 0.0;
    n.Figures();
    for j := 0 to |n.children|
      invariant n.View() == t.(quota := 0.0, subtreeQuota := 0.0, kids := n.View().kids)
      invariant forall k :: 0 <= k < j ==> ZeroQuotas(n.View().kids[k]) && OnlyQuotas(t.kids[k], n.View().kids[k])
      invariant forall k :: j <= k < |n.children| ==> n.View().kids[k] == t.kids[k]
    {
      n.Figures();
      ResetQuotas(n.children[j]);
      n.Figures();
    }
    ResetNode(t, n.View());
  }

  lemma {:induction false} ResetNode(t: Tree, t': Tree)
    requires |t'.kids| == |t.kids| && t' == t.(quota := 0.0, subtreeQuota := 0.0, kids := t'.kids)
    requires forall i :: 0 <= i < |t.kids| ==> ZeroQuotas(t'.kids[i]) && OnlyQuotas(t.kids[i], t'.kids[i])
    ensures ZeroQuotas(t') && OnlyQuotas(t, t')
  {
  }

  /** Normalise quotas over the tree: the pool's total is spread, exactly, over its groups. */
  method AssignQuotas(root: GroupNode, totalQuota: real, oversub: bool)
    requires root.Valid()
    modifies root.repr
    ensures OnlyQuotas(old(root.View()), root.View())
    ensures Assigned(root.View(), totalQuota, oversub)
    ensures !oversub && ConfigNonneg(root.View()) ==>
              Spread(root.View()) && TotalQuota(root.View()) == Max(0.0, totalQuota)
  {
    hide OnlyQuotas, ZeroQuotas, Assigned, Spread, TotalQuota, ConfigNonneg;
    ghost var t := root.View();
    ResetQuotas(root);
    ghost var m := root.View();
    AssignBelow(root, totalQuota, oversub);
    OnlyQuotasTwice(t, m, root.View());
    if !oversub && ConfigNonneg(root.View()) {
      AssignmentConserves(root.View(), totalQuota);
    }
  }
}
