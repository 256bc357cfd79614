/** Fair sharing with recursive surplus distribution over the group tree. */
module FairShare {
  import opened RealSums
  import opened GroupNodes
  import opened GroupTrees
  import opened SurplusLoop

  /** What the first stage of a division leaves unmet. */
  ghost function Rest(asks: seq<real>, quotas: seq<real>, level: real): (rest: seq<real>)
    requires |asks| == |quotas|
    ensures |rest| == |asks|
    ensures forall j :: 0 <= j < |asks| ==> rest[j] == asks[j] - Fill(asks, quotas, level)[j]
  {
    seq(|asks|, j requires 0 <= j < |asks| => asks[j] - Fill(asks, quotas, level)[j])
  }

  ghost function Ones(n: nat): (s: seq<real>)
    ensures |s| == n && forall j :: 0 <= j < n ==> s[j] == 1.0
  {
    seq(n, _ => 1.0)
  }

  /** Scarce surplus, divided in two stages: by subtree quota up to level `byQuota`, and only when no
      group with quota is short any more, equally up to level `mopUp`. */
  ghost predicate TwoStageFair(asks: seq<real>, quotas: seq<real>, byQuota: real, mopUp: real, given: seq<real>)
    requires |asks| == |quotas| == |given|
  {
    var rest := Rest(asks, quotas, byQuota);
    && byQuota >= 0.0 && mopUp >= 0.0
    && (forall j :: 0 <= j < |given| ==>
          given[j] == Fill(asks, quotas, byQuota)[j] + Fill(rest, Ones(|asks|), mopUp)[j])
    && (mopUp == 0.0 || forall j :: 0 <= j < |given| && rest[j] > 0.0 ==> quotas[j] == 0.0)
  }

  lemma FillWithin(demand: seq<real>, w: seq<real>, level: real)
    requires |demand| == |w| && Nonneg(demand) && Nonneg(w) && level >= 0.0
    ensures forall j :: 0 <= j < |w| ==> 0.0 <= Fill(demand, w, level)[j] <= demand[j]
  {
    hide Scaled;
    ScaledNonneg(w, level);
  }

  lemma StagesAreFair(asks: seq<real>, quotas: seq<real>, byQuota: real, mopUp: real, rest: seq<real>, given: seq<real>)
    requires |asks| == |quotas| == |rest| == |given| && byQuota >= 0.0 && mopUp >= 0.0
    requires forall j :: 0 <= j < |asks| ==> rest[j] == asks[j] - Fill(asks, quotas, byQuota)[j]
    requires mopUp == 0.0 || forall j :: 0 <= j < |asks| && rest[j] > 0.0 ==> quotas[j] == 0.0
    requires forall j :: 0 <= j < |asks| ==>
               given[j] == Fill(asks, quotas, byQuota)[j] + Fill(rest, Ones(|asks|), mopUp)[j]
    ensures TwoStageFair(asks, quotas, byQuota, mopUp, given)
  {
    hide Fill, Ones;
    assert rest == Rest(asks, quotas, byQuota);
  }

  /** Two runs of the loop, one by quota and one with unit weights, add up to a two-stage division. */
  lemma TwoStages(asks: seq<real>, quotas: seq<real>, byQuota: real, mopUp: real,
                  first: seq<real>, rest: seq<real>, given: seq<real>, unmet: seq<real>)
    requires |asks| == |quotas| == |first| == |rest| == |given| == |unmet|
    requires Nonneg(asks) && Nonneg(quotas) && byQuota >= 0.0 && mopUp >= 0.0
    requires mopUp == 0.0 || forall j :: 0 <= j < |asks| && rest[j] > 0.0 ==> quotas[j] == 0.0
    requires forall j :: 0 <= j < |asks| ==>
               first[j] == Fill(asks, quotas, byQuota)[j] && rest[j] == asks[j] - Fill(asks, quotas, byQuota)[j]
    requires forall j :: 0 <= j < |asks| ==>
               && given[j] == first[j] + Fill(rest, Ones(|asks|), mopUp)[j]
               && unmet[j] == rest[j] - Fill(rest, Ones(|asks|), mopUp)[j]
    ensures TwoStageFair(asks, quotas, byQuota, mopUp, given)
    ensures forall j :: 0 <= j < |asks| ==> 0.0 <= given[j] <= asks[j]
    ensures Sum(given) + Sum(unmet) == Sum(asks)
  {
    hide Sum, Scaled, Fill, TwoStageFair;
    StagesAreFair(asks, quotas, byQuota, mopUp, rest, given);
    FillWithin(asks, quotas, byQuota);
    FillWithin(rest, Ones(|asks|), mopUp);
    SumPointwiseAdd(given, unmet, asks);
  }

  /** Requests are never negative, and neither are the weights of either stage. */
  lemma StageWeights(groups: seq<GroupNode>)
    requires forall j :: 0 <= j < |groups| ==> groups[j].subtreeQuota >= 0.0
    ensures Nonneg(Asks(groups)) && Nonneg(Weights(true, groups)) && Nonneg(Weights(false, groups))
    ensures Weights(false, groups) == Ones(|groups|)
  {
  }

  /** Too little for everybody: one water-filling stage weighted by quota, then an unweighted one for groups without. */
  method DivideScarce(groups: seq<GroupNode>, surplusIn: real, requestedIn: real)
    returns (given: array<real>, surplus: real, requested: real, ghost byQuota: real, ghost mopUp: real)
    requires forall j :: 0 <= j < |groups| ==> groups[j].subtreeQuota >= 0.0
    requires requestedIn == Sum(Asks(groups))
    requires 0.0 < surplusIn < requestedIn
    ensures fresh(given) && given.Length == |groups|
    ensures surplus == 0.0 && requested == requestedIn - surplusIn
    ensures Sum(given[..]) == surplusIn
    ensures forall j :: 0 <= j < |groups| ==> 0.0 <= given[j] <= Asks(groups)[j]
    ensures TwoStageFair(Asks(groups), Weights(true, groups), byQuota, mopUp, given[..])
  {
    hide *;
    ghost var asks, quotas := Asks(groups), Weights(true, groups);
    StageWeights(groups);
    var unmet := CollectAsks(groups);
    given := new real[|groups|](_ => 0.0);
    surplus, requested, byQuota := AllocateSurplusLoop(true, groups, given, unmet, surplusIn, requestedIn);
    ghost var first, rest := given[..], unmet[..];
    surplus, requested, mopUp := AllocateSurplusLoop(false, groups, given, unmet, surplus, requested);
    TwoStages(asks, quotas, byQuota, mopUp, first, rest, given[..], unmet[..]);
    if surplus > 0.0 {
      // Then nobody wants anything, yet requests exceeded the surplus all along.
      SumNonpos(unmet[..]);
      assert false;
    }
  }

  /** Everyone satisfied if the surplus covers all requests, else the scarcity stages. */
  method DivideSurplus(groups: seq<GroupNode>, surplusIn: real, requestedIn: real,
                       ghost asks: seq<real>, ghost quotas: seq<real>)
    returns (given: array<real>, surplus: real, requested: real)
    requires asks == Asks(groups) && quotas == Weights(true, groups) && Nonneg(quotas)
    requires requestedIn == Sum(asks)
    requires 0.0 < surplusIn
    ensures fresh(given) && given.Length == |groups|
    ensures surplus == Max(0.0, surplusIn - requestedIn)
    ensures requested == Max(0.0, requestedIn - surplusIn)
    ensures Sum(given[..]) == surplusIn - surplus
    ensures forall j :: 0 <= j < |groups| ==> 0.0 <= given[j] <= asks[j]
    ensures FairDivision(asks, quotas, given[..])
  {
    hide Sum, Scaled, TwoStageFair;
    if surplusIn >= requestedIn {
      given := CollectAsks(groups);
      surplus, requested := surplusIn - requestedIn, 0.0;
    } else {
      ghost var byQuota, mopUp;
      given, surplus, requested, byQuota, mopUp := DivideScarce(groups, surplusIn, requestedIn);
    }
  }

  /** A division is fair when it meets every request, or else runs the two scarcity stages. */
  ghost predicate FairDivision(asks: seq<real>, quotas: seq<real>, given: seq<real>)
    requires |asks| == |quotas| == |given|
  {
    given == asks || exists byQuota, mopUp :: TwoStageFair(asks, quotas, byQuota, mopUp, given)
  }

  // ----- distribution over a whole subtree -----

  /** At every node of the subtree the gains of the peers are a fair division of their requests. */
  ghost predicate FairBelow(t: Tree, t': Tree)
  {
    && |t'.kids| == |t.kids|
    && FairDivision(PeerAsks(t), PeerQuotas(t), PeerGains(t, t'))
    && forall i :: 0 <= i < |t.kids| ==> FairBelow(t.kids[i], t'.kids[i])
  }

  /** Handing out nothing is fair. */
  lemma {:induction false} FairNothing(t: Tree)
    requires Settled(t)
    ensures FairBelow(t, t)
  {
    SettledNonneg(t);
    var asks, quotas := PeerAsks(t), PeerQuotas(t);
    FillAtZero(asks, quotas);
    FillAtZero(Rest(asks, quotas, 0.0), Ones(|asks|));
    assert TwoStageFair(asks, quotas, 0.0, 0.0, PeerGains(t, t));
    forall i | 0 <= i < |t.kids| ensures FairBelow(t.kids[i], t.kids[i]) { FairNothing(t.kids[i]); }
  }

  lemma FairNode(t: Tree, t': Tree, given: seq<real>)
    requires |t'.kids| == |t.kids| && |given| == |t.kids| + 1
    requires FairDivision(PeerAsks(t), PeerQuotas(t), given)
    requires forall i :: 0 <= i < |t.kids| ==> Absorbed(t.kids[i], t'.kids[i], given[i])
    requires forall i :: 0 <= i < |t.kids| ==> FairBelow(t.kids[i], t'.kids[i])
    requires t'.allocation == t.allocation + given[|t.kids|]
    ensures FairBelow(t, t')
  {
    hide TotalAllocation, FairDivision, Moved, Settled;
    GainsAre(t, t', given);
  }

  /** A child absorbed its part and divided it fairly below itself. */
  ghost predicate ChildFair(t: Tree, t': Tree, given: real) {
    Absorbed(t, t', given) && FairBelow(t, t')
  }

  lemma PeersShare(t: Tree, t': Tree, given: seq<real>, total: real)
    requires Settled(t) && Sum(given) == total
    requires |t'.kids| == |t.kids| && |given| == |t.kids| + 1
    requires FairDivision(PeerAsks(t), PeerQuotas(t), given)
    requires forall j :: 0 <= j < |given| ==> 0.0 <= given[j] <= PeerAsks(t)[j]
    requires forall i :: 0 <= i < |t.kids| ==> ChildFair(t.kids[i], t'.kids[i], given[i])
    requires var own := given[|t.kids|];
             t' == t.(allocation := t.allocation + own, requested := t.requested - own, unmet := t.unmet - total,
                      kids := t'.kids)
    ensures Absorbed(t, t', total) && FairBelow(t, t')
  {
    hide Sum, Settled, Absorbed, FairBelow, FairDivision;
    PeersAbsorb(t, t', given);
    FairNode(t, t', given);
  }

  /** While `n` poses as a child of itself, the competing groups ask for what the tree says. */
  lemma PeersCompete(n: GroupNode, t: Tree)
    requires n.Valid() && Settled(t)
    requires n.View() == t.(accept := true, subtreeQuota := t.quota, unmet := t.requested)
    ensures Asks(n.children + [n]) == PeerAsks(t)
    ensures Weights(true, n.children + [n]) == PeerQuotas(t)
    ensures Sum(PeerAsks(t)) == t.unmet
    ensures Nonneg(PeerQuotas(t))
  {
    hide Sum;
    SettledNonneg(t);
    SumAppend(Wants(t.kids), t.requested);
  }

  /** Distribute surplus over the subtree of `n`, the node competing with its own children. What
      comes back is exactly the surplus nobody could use. */
  method AllocateSurplus(n: GroupNode, surplusIn: real) returns (surplus: real)
    requires n.Valid() && Settled(n.View())
    modifies n.repr
    ensures surplus == Max(0.0, Max(0.0, surplusIn) - old(n.subtreeRequested))
    ensures Absorbed(old(n.View()), n.View(), Max(0.0, surplusIn) - surplus)
    ensures FairBelow(old(n.View()), n.View())
    decreases n.height, 2
  {
    hide Settled, FairBelow, Absorbed;
    if surplusIn <= 0.0 || n.subtreeRequested <= 0.0 {
      SettledNonneg(n.View());
      surplus := Max(0.0, surplusIn);
      AbsorbedNothing(n.View(), Max(0.0, surplusIn) - surplus);
      FairNothing(n.View());
    } else {
      surplus := SpreadSurplus(n, Max(0.0, surplusIn));
    }
  }

  /** The same where there is surplus and somebody to use it. */
  method SpreadSurplus(n: GroupNode, surplusIn: real) returns (surplus: real)
    requires n.Valid() && Settled(n.View()) && surplusIn > 0.0 && n.subtreeRequested > 0.0
    modifies n.repr
    ensures surplus == Max(0.0, surplusIn - old(n.subtreeRequested))
    ensures Absorbed(old(n.View()), n.View(), surplusIn - surplus)
    ensures FairBelow(old(n.View()), n.View())
    decreases n.height, 1
  {
    hide Sum, Settled, Moved, TotalAllocation, FairDivision, FairBelow, Absorbed, GroupNode.Valid, GroupNode.View;
    n.Structure();
    n.Figures();
    ghost var t := n.View();
    var groups := n.children + [n];

    // The node behaves like a surplus-accepting child for the time being.
    var saveAccept, saveSubtreeQuota, requested := n.acceptSurplus, n.subtreeQuota, n.subtreeRequested;
    n.PoseAsChild(n.subtreeRRTime);
    PeersCompete(n, t);
    var given;
    given, surplus, requested := DivideSurplus(groups, surplusIn, requested, PeerAsks(t), PeerQuotas(t));
    HandOut(n, given, requested, saveAccept, saveSubtreeQuota, t, surplusIn - surplus);
  }

  /** Pass on what was divided, and restore the node. */
  method HandOut(n: GroupNode, given: array<real>, unmet: real, accept: bool, subtreeQuota: real, ghost t: Tree,
                 ghost total: real)
    requires n.Valid() && Settled(t) && given.Length == |n.children| + 1
    requires n.View() == t.(accept := true, subtreeQuota := t.quota, unmet := t.requested)
    requires accept == t.accept && subtreeQuota == t.subtreeQuota && unmet == t.unmet - total
    requires forall j :: 0 <= j < given.Length ==> 0.0 <= given[j] <= PeerAsks(t)[j]
    requires FairDivision(PeerAsks(t), PeerQuotas(t), given[..]) && Sum(given[..]) == total
    modifies n.repr
    ensures Absorbed(t, n.View(), total) && FairBelow(t, n.View())
    decreases n.height, 0, 1
  {
    hide Sum, Settled, Moved, TotalAllocation, FairDivision, FairBelow, Absorbed, ChildFair;
    ghost var parts := given[..];
    DistributeToChildren(n, given, t);
    n.AllocateAndRestore(given[|n.children|], unmet, accept, subtreeQuota, n.subtreeRRTime);
    PeersShare(t, n.View(), parts, total);
  }

  /** Pass every child its part. A child never returns any of it. */
  method DistributeToChildren(n: GroupNode, given: array<real>, ghost t: Tree)
    requires n.Valid() && Settled(t)
    requires |t.kids| == |n.children| && given.Length == |n.children| + 1
    requires forall i :: 0 <= i < |t.kids| ==> n.children[i].View() == t.kids[i]
    requires forall j :: 0 <= j < given.Length ==> 0.0 <= given[j] <= PeerAsks(t)[j]
    modifies n.repr - {n}
    ensures forall i :: 0 <= i < |t.kids| ==> ChildFair(t.kids[i], n.children[i].View(), given[i])
    decreases n.height, 0, 0
  {
    hide Sum, Moved, TotalAllocation, FairBelow;
    for j := 0 to |n.children|
      invariant forall k :: 0 <= k < j ==> ChildFair(t.kids[k], n.children[k].View(), given[k])
      invariant forall k :: j <= k < |n.children| ==> n.children[k].View() == t.kids[k]
    {
      SettledNonneg(t.kids[j]);
      if given[j] > 0.0 {
        var unused := AllocateSurplus(n.children[j], given[j]);
        assert unused == 0.0;
      } else {
        AbsorbedNothing(t.kids[j], given[j]);
        FairNothing(t.kids[j]);
      }
    }
  }

  // ----- the distribution is unique -----

  /** A mop-up means the first stage met every request that carries quota. */
  lemma MoppedUp(asks: seq<real>, quotas: seq<real>, byQuota: real, mopUp: real, given: seq<real>)
    requires |asks| == |quotas| == |given|
    requires Nonneg(asks) && Nonneg(quotas)
    requires TwoStageFair(asks, quotas, byQuota, mopUp, given) && mopUp != 0.0
    ensures forall j :: 0 <= j < |asks| ==>
              Fill(asks, quotas, byQuota)[j] == (if quotas[j] > 0.0 then asks[j] else 0.0)
  {
    hide Scaled;
    forall j | 0 <= j < |asks|
      ensures Fill(asks, quotas, byQuota)[j] == (if quotas[j] > 0.0 then asks[j] else 0.0)
    {
      if quotas[j] == 0.0 {
        ScaledAt(quotas, byQuota, j);
      }
    }
  }

  lemma NoMopUp(asks: seq<real>, quotas: seq<real>, byQuota: real, given: seq<real>)
    requires |asks| == |quotas| == |given| && Nonneg(asks) && Nonneg(quotas)
    requires TwoStageFair(asks, quotas, byQuota, 0.0, given)
    ensures byQuota >= 0.0 && given == Fill(asks, quotas, byQuota)
  {
    hide Scaled;
    FillAtZero(Rest(asks, quotas, byQuota), Ones(|asks|));
  }

  lemma StagesUnique(asks: seq<real>, quotas: seq<real>, l1: real, m1: real, g1: seq<real>,
                     l2: real, m2: real, g2: seq<real>)
    requires |asks| == |quotas| == |g1| == |g2|
    requires Nonneg(asks) && Nonneg(quotas)
    requires TwoStageFair(asks, quotas, l1, m1, g1) && TwoStageFair(asks, quotas, l2, m2, g2)
    requires Sum(g1) == Sum(g2)
    ensures g1 == g2
  {
    hide Scaled, Sum, Fill, TwoStageFair;
    if m1 == 0.0 && m2 == 0.0 {
      NoMopUp(asks, quotas, l1, g1);
      NoMopUp(asks, quotas, l2, g2);
      FillUnique(asks, quotas, l1, l2);
    } else if m1 == 0.0 {
      NoMopUpIsLess(asks, quotas, l1, g1, l2, m2, g2);
      forall j | 0 <= j < |g1| ensures g1[j] == g2[j] { SumSqueeze(g1, g2, j); }
    } else if m2 == 0.0 {
      NoMopUpIsLess(asks, quotas, l2, g2, l1, m1, g1);
      forall j | 0 <= j < |g1| ensures g1[j] == g2[j] { SumSqueeze(g2, g1, j); }
    } else {
      MopUpsUnique(asks, quotas, l1, m1, g1, l2, m2, g2);
    }
  }

  lemma MopUpsUnique(asks: seq<real>, quotas: seq<real>, l1: real, m1: real, g1: seq<real>,
                     l2: real, m2: real, g2: seq<real>)
    requires |asks| == |quotas| == |g1| == |g2|
    requires Nonneg(asks) && Nonneg(quotas)
    requires TwoStageFair(asks, quotas, l1, m1, g1) && TwoStageFair(asks, quotas, l2, m2, g2)
    requires m1 != 0.0 && m2 != 0.0 && Sum(g1) == Sum(g2)
    ensures g1 == g2
  {
    hide Sum, Fill;
    SameFirstStage(asks, quotas, l1, m1, g1, l2, m2, g2);
    SameSecondStage(Fill(asks, quotas, l1), Rest(asks, quotas, l1), m1, g1, m2, g2);
  }

  lemma SameFirstStage(asks: seq<real>, quotas: seq<real>, l1: real, m1: real, g1: seq<real>,
                       l2: real, m2: real, g2: seq<real>)
    requires |asks| == |quotas| == |g1| == |g2|
    requires Nonneg(asks) && Nonneg(quotas)
    requires TwoStageFair(asks, quotas, l1, m1, g1) && TwoStageFair(asks, quotas, l2, m2, g2)
    requires m1 != 0.0 && m2 != 0.0
    ensures Fill(asks, quotas, l1) == Fill(asks, quotas, l2) && Rest(asks, quotas, l1) == Rest(asks, quotas, l2)
  {
    hide TwoStageFair, Fill;
    MoppedUp(asks, quotas, l1, m1, g1);
    MoppedUp(asks, quotas, l2, m2, g2);
  }

  lemma SameSecondStage(first: seq<real>, rest: seq<real>, m1: real, g1: seq<real>, m2: real, g2: seq<real>)
    requires |first| == |rest| == |g1| == |g2| && Sum(g1) == Sum(g2)
    requires forall j :: 0 <= j < |g1| ==> g1[j] == first[j] + Fill(rest, Ones(|rest|), m1)[j]
    requires forall j :: 0 <= j < |g2| ==> g2[j] == first[j] + Fill(rest, Ones(|rest|), m2)[j]
    ensures g1 == g2
  {
    hide Sum, Fill;
    var ones := Ones(|rest|);
    SumPointwiseAdd(first, Fill(rest, ones, m1), g1);
    SumPointwiseAdd(first, Fill(rest, ones, m2), g2);
    FillUnique(rest, ones, m1, m2);
  }

  /** A division without mop-up never gives anybody more than one with. */
  lemma NoMopUpIsLess(asks: seq<real>, quotas: seq<real>, l1: real, g1: seq<real>, l2: real, m2: real, g2: seq<real>)
    requires |asks| == |quotas| == |g1| == |g2|
    requires Nonneg(asks) && Nonneg(quotas)
    requires TwoStageFair(asks, quotas, l1, 0.0, g1) && TwoStageFair(asks, quotas, l2, m2, g2) && m2 != 0.0
    ensures forall j :: 0 <= j < |asks| ==> g1[j] <= g2[j]
  {
    hide Scaled;
    MoppedUp(asks, quotas, l2, m2, g2);
    FillAtZero(Rest(asks, quotas, l1), Ones(|asks|));
    ScaledNonneg(Ones(|asks|), m2);
    forall j | 0 <= j < |asks| ensures g1[j] <= g2[j] {
      if quotas[j] == 0.0 { ScaledAt(quotas, l1, j); }
    }
  }

  lemma StagesBelowAsks(asks: seq<real>, quotas: seq<real>, byQuota: real, mopUp: real, given: seq<real>)
    requires |asks| == |quotas| == |given|
    requires TwoStageFair(asks, quotas, byQuota, mopUp, given)
    ensures forall j :: 0 <= j < |asks| ==> given[j] <= asks[j]
  {
  }

  /** The same requests, the same quotas and the same total leave only one fair division. */
  lemma FairDivisionUnique(asks: seq<real>, quotas: seq<real>, g1: seq<real>, g2: seq<real>)
    requires |asks| == |quotas| == |g1| == |g2|
    requires Nonneg(asks) && Nonneg(quotas)
    requires FairDivision(asks, quotas, g1) && FairDivision(asks, quotas, g2)
    requires Sum(g1) == Sum(g2)
    ensures g1 == g2
  {
    hide TwoStageFair, Sum;
    if g1 == asks && g2 != asks {
      var l2, m2 :| TwoStageFair(asks, quotas, l2, m2, g2);
      StagesBelowAsks(asks, quotas, l2, m2, g2);
      forall j | 0 <= j < |g1| ensures g1[j] == g2[j] { SumSqueeze(g2, g1, j); }
    } else if g2 == asks && g1 != asks {
      var l1, m1 :| TwoStageFair(asks, quotas, l1, m1, g1);
      StagesBelowAsks(asks, quotas, l1, m1, g1);
      forall j | 0 <= j < |g1| ensures g1[j] == g2[j] { SumSqueeze(g1, g2, j); }
    } else if g1 != asks {
      var l1, m1 :| TwoStageFair(asks, quotas, l1, m1, g1);
      var l2, m2 :| TwoStageFair(asks, quotas, l2, m2, g2);
      StagesUnique(asks, quotas, l1, m1, g1, l2, m2, g2);
    }
  }

  /** A settled tree and an amount of surplus determine every node's allocation: there is one fair way to
      distribute over the whole tree, however the scarcity loops get there. */
  lemma {:induction false} DistributionUnique(t: Tree, a: Tree, b: Tree)
    requires Settled(t)
    requires FairBelow(t, a) && FairBelow(t, b)
    requires TotalAllocation(a) == TotalAllocation(b)
    ensures SameAllocations(a, b)
  {
    hide Sum, FairDivision, TotalAllocation;
    GainsAddUp(t, a);
    GainsAddUp(t, b);
    SettledNonneg(t);
    FairDivisionUnique(PeerAsks(t), PeerQuotas(t), PeerGains(t, a), PeerGains(t, b));
    forall i | 0 <= i < |t.kids| ensures SameAllocations(a.kids[i], b.kids[i]) {
      assert PeerGains(t, a)[i] == PeerGains(t, b)[i];
      DistributionUnique(t.kids[i], a.kids[i], b.kids[i]);
    }
    assert PeerGains(t, a)[|t.kids|] == PeerGains(t, b)[|t.kids|];
  }

  // ----- the whole fair share -----

  /** The tree just before the node's own distribution: the node has taken its quota's worth, every child
      subtree has been shared out, and the node's unmet figure is what it and the accepting ones still lack. */
  ghost predicate Halfway(t: Tree, m: Tree)
    decreases t, 0
  {
    && SameSettings(t, m) && Settled(m)
    && m.allocation == Min(t.requested, t.quota) && m.requested == t.requested - m.allocation
    && |m.kids| == |t.kids|
    && forall i :: 0 <= i < |t.kids| ==> SharedOut(t.kids[i], m.kids[i])
  }

  /** From the leaves up, every node's pot went, as far as it was lacked, to the node and its children, and
      was divided fairly among them. */
  ghost predicate SharedOut(t: Tree, t': Tree)
    decreases t, 1
  {
    exists m: Tree :: Halfway(t, m) && Absorbed(m, t', Pot(t) - Leftover(t)) && FairBelow(m, t')
  }

  lemma SharedOutVia(t: Tree, m: Tree, t': Tree, amount: real)
    requires Halfway(t, m) && Absorbed(m, t', amount) && amount == Pot(t) - Leftover(t) && FairBelow(m, t')
    ensures SharedOut(t, t')
  {
  }

  /** Requests and quotas determine the fair share of every group in the tree: two outcomes are the same. */
  lemma {:induction false} SharedUnique(t: Tree, a: Tree, b: Tree)
    requires SharedOut(t, a) && SharedOut(t, b)
    ensures a == b
  {
    hide Sum, Absorbed, FairBelow, Pot, Leftover, Min;
    var amount := Pot(t) - Leftover(t);
    var m: Tree :| Halfway(t, m) && Absorbed(m, a, amount) && FairBelow(m, a);
    var n: Tree :| Halfway(t, n) && Absorbed(n, b, amount) && FairBelow(n, b);
    forall i | 0 <= i < |t.kids| ensures m.kids[i] == n.kids[i] {
      SharedUnique(t.kids[i], m.kids[i], n.kids[i]);
    }
    assert m.kids == n.kids && m == n;
    AbsorbedUnique(m, a, b, amount);
  }

  lemma AbsorbedUnique(m: Tree, a: Tree, b: Tree, amount: real)
    requires Settled(m) && Absorbed(m, a, amount) && FairBelow(m, a) && Absorbed(m, b, amount) && FairBelow(m, b)
    ensures a == b
  {
    hide Settled, FairBelow, TotalAllocation, Moved;
    DistributionUnique(m, a, b);
    MovedUnique(m, a, b);
  }

  /** Distributing the pot completes the fair share of the subtree. */
  lemma FairlySharedVia(t: Tree, m: Tree, t': Tree, surplus: real)
    requires Nonnegative(t)
    requires Settled(m) && Shared(t, m) && m.unmet == Lack(t)
    requires TotalAllocation(m) + Pot(t) == TotalQuota(t)
    requires surplus == Max(0.0, Pot(t) - Lack(t))
    requires Absorbed(m, t', Pot(t) - surplus)
    ensures FairlyShared(t, t', surplus)
  {
    hide Settled, Moved, TotalAllocation, TotalQuota, Pot, Lack;
    SharedThenMoved(t, m, t');
  }

  ghost predicate ChildShared(t: Tree, t': Tree) {
    FairlyShared(t, t', Leftover(t)) && SharedOut(t, t')
  }

  lemma FairFigures(t: Tree, t': Tree, surplus: real)
    requires FairlyShared(t, t', surplus) && SharedOut(t, t')
    ensures ChildShared(t, t')
    ensures surplus == Leftover(t) && t'.unmet == Shortfall(t) && t'.accept == t.accept
  {
  }

  /** Fair sharing of a subtree: the node takes what its quota covers, its children share among themselves, and the pot
      of unused quota goes to whoever still lacks. */
  method ShareFairly(n: GroupNode) returns (surplus: real)
    requires n.Valid() && Nonnegative(n.View())
    modifies n.repr
    ensures FairlyShared(old(n.View()), n.View(), surplus)
    ensures SharedOut(old(n.View()), n.View())
    decreases n.height
  {
    hide Sum, Settled, Shared, Moved, TotalAllocation, TotalQuota, FairBelow, GroupNode.Valid, GroupNode.View;
    n.Structure();
    n.Figures();
    ghost var t := n.View();
    n.allocation := Min(n.requested, n.quota);
    n.requested := n.requested - n.allocation;
    n.subtreeRequested := n.requested;
    surplus := n.quota - n.allocation;
    surplus := ShareChildren(n, surplus, t);
    n.Figures();
    ghost var m, pot := n.View(), surplus;
    SharedTogether(t, m);
    PotNonneg(t);
    if |n.children| == 0 {
      assert Leftovers(t.kids) == Shortfalls(t.kids) == [];
      SumEmpty();
      AbsorbedNothing(m, pot - surplus);
      FairNothing(m);
    } else {
      surplus := AllocateSurplus(n, surplus);
    }
    FairlySharedVia(t, m, n.View(), surplus);
    SharedOutVia(t, m, n.View(), pot - surplus);
  }

  /** Share out one child subtree. */
  method ShareChild(n: GroupNode, j: nat) returns (surplus: real)
    requires n.Valid() && j < |n.children| && Nonnegative(n.View().kids[j])
    modifies n.repr - {n}
    ensures var v, v' := old(n.View()), n.View();
            && |v'.kids| == |v.kids| && v' == v.(kids := v.kids[j := v'.kids[j]])
            && ChildShared(v.kids[j], v'.kids[j]) && surplus == Leftover(v.kids[j])
            && n.children[j].subtreeRequested == Shortfall(v.kids[j]) && n.children[j].acceptSurplus == v.kids[j].accept
    decreases n.height, 0
  {
    hide *;
    n.Structure();
    n.Figures();
    ghost var v := n.View();
    surplus := ShareFairly(n.children[j]);
    n.Figures();
    n.children[j].Figures();
    FairFigures(v.kids[j], n.children[j].View(), surplus);
    assert n.View().kids == v.kids[j := n.View().kids[j]];
  }

  /** The first `j` children have been shared out. */
  ghost predicate SharedTo(kids: seq<Tree>, kids': seq<Tree>, j: nat) {
    && |kids'| == |kids|
    && forall k :: 0 <= k < |kids| ==> if k < j then ChildShared(kids[k], kids'[k]) else kids'[k] == kids[k]
  }

  lemma NoneShared(kids: seq<Tree>, kids': seq<Tree>)
    requires |kids'| == |kids| && forall k :: 0 <= k < |kids| ==> kids'[k] == kids[k]
    ensures SharedTo(kids, kids', 0)
  {
  }

  lemma NextShared(kids: seq<Tree>, kids': seq<Tree>, j: nat)
    requires SharedTo(kids, kids', j) && j < |kids|
    ensures |kids'| == |kids| && kids'[j] == kids[j]
    ensures forall kid :: ChildShared(kids[j], kid) ==> SharedTo(kids, kids'[j := kid], j + 1)
  {
  }

  lemma AllShared(kids: seq<Tree>, kids': seq<Tree>)
    requires SharedTo(kids, kids', |kids|)
    ensures |kids'| == |kids| && forall k :: 0 <= k < |kids| ==> ChildShared(kids[k], kids'[k])
  {
  }

  /** Share out every child subtree, adding up what they leave over and what the accepting ones lack. */
  method ShareChildren(n: GroupNode, surplusIn: real, ghost t: Tree) returns (surplus: real)
    requires n.Valid() && |t.kids| == |n.children|
    requires forall i :: 0 <= i < |t.kids| ==> n.children[i].View() == t.kids[i] && Nonnegative(t.kids[i])
    modifies n.repr - {n}, n`subtreeRequested
    ensures forall i :: 0 <= i < |t.kids| ==> ChildShared(t.kids[i], n.children[i].View())
    ensures surplus == surplusIn + Sum(Leftovers(t.kids))
    ensures n.subtreeRequested == old(n.subtreeRequested) + Sum(Shortfalls(t.kids))
    decreases n.height, 1
  {
    hide *;
    n.Structure();
    surplus := surplusIn;
    ghost var left, short := Leftovers(t.kids), Shortfalls(t.kids);
    SumEmpty();
    NoneShared(t.kids, n.View().kids);
    for j := 0 to |n.children|
      invariant SharedTo(t.kids, n.View().kids, j)
      invariant surplus == surplusIn + Sum(left[..j])
      invariant n.subtreeRequested == old(n.subtreeRequested) + Sum(short[..j])
    {
      SumPrefix(left, j);
      SumPrefix(short, j);
      NextShared(t.kids, n.View().kids, j);
      var more := ShareChild(n, j);
      surplus := surplus + more;
      ghost var kids := n.View().kids;
      if n.children[j].acceptSurplus {
        n.subtreeRequested := n.subtreeRequested + n.children[j].subtreeRequested;
      }
      n.Structure();
      assert n.View().kids == kids;
    }
    AllShared(t.kids, n.View().kids);
    assert left[..|n.children|] == left && short[..|n.children|] == short;
  }
}
