/** The arithmetic of a group tree: totals, demand that surplus can reach, and what a step of the
    allocator may change. */
module GroupTrees {
  import opened RealSums
  import opened GroupNodes

  /** What each child asks of its parent's surplus: its unmet demand if it accepts surplus at all. */
  ghost function Wants(ks: seq<Tree>): (s: seq<real>)
    ensures |s| == |ks|
    ensures forall i :: 0 <= i < |ks| ==> s[i] == (if ks[i].accept then ks[i].unmet else 0.0)
  {
    seq(|ks|, i requires 0 <= i < |ks| => if ks[i].accept then ks[i].unmet else 0.0)
  }

  ghost function TotalAllocation(t: Tree): real
    decreases t, 1
  {
    t.allocation + Sum(TotalAllocations(t.kids))
  }

  ghost function TotalAllocations(ks: seq<Tree>): (s: seq<real>)
    ensures |s| == |ks|
    ensures forall i :: 0 <= i < |ks| ==> s[i] == TotalAllocation(ks[i])
    decreases ks, 0
  {
    seq(|ks|, i requires 0 <= i < |ks| => TotalAllocation(ks[i]))
  }

  ghost function TotalQuota(t: Tree): real
    decreases t, 1
  {
    t.quota + Sum(TotalQuotas(t.kids))
  }

  ghost function TotalQuotas(ks: seq<Tree>): (s: seq<real>)
    ensures |s| == |ks|
    ensures forall i :: 0 <= i < |ks| ==> s[i] == TotalQuota(ks[i])
    decreases ks, 0
  {
    seq(|ks|, i requires 0 <= i < |ks| => TotalQuota(ks[i]))
  }

  /** Demands and quotas are nonnegative throughout. */
  ghost predicate Nonnegative(t: Tree)
  {
    && t.requested >= 0.0 && t.quota >= 0.0 && t.subtreeQuota >= 0.0
    && forall i :: 0 <= i < |t.kids| ==> Nonnegative(t.kids[i])
  }

  /** The tree-wide bookkeeping invariant: every node's unmet figure is its own remaining request plus
      that of its surplus-accepting children. */
  ghost predicate Settled(t: Tree)
  {
    && t.requested >= 0.0 && t.quota >= 0.0 && t.subtreeQuota >= 0.0
    && t.unmet == t.requested + Sum(Wants(t.kids))
    && forall i :: 0 <= i < |t.kids| ==> Settled(t.kids[i])
  }

  lemma {:induction false} SettledNonneg(t: Tree)
    requires Settled(t)
    ensures t.unmet >= 0.0
    ensures Sum(Wants(t.kids)) >= 0.0
    ensures forall i :: 0 <= i < |t.kids| ==> t.kids[i].unmet >= 0.0
  {
    forall i | 0 <= i < |t.kids| ensures t.kids[i].unmet >= 0.0 {
      SettledNonneg(t.kids[i]);
    }
    SumNonneg(Wants(t.kids));
  }

  /** What no allocator step may change for good. */
  ghost predicate SameSettings(t: Tree, t': Tree) {
    && t'.quota == t.quota && t'.subtreeQuota == t.subtreeQuota && t'.accept == t.accept
    && t'.ownRR == t.ownRR && t'.subtreeRR == t.subtreeRR
    && t'.config == t.config && t'.isStatic == t.isStatic && t'.isRoot == t.isRoot
  }

  /** Demand turned into allocation, node by node: nothing is taken back, no node exceeds its request,
      and the configuration is left as it was. */
  ghost predicate Moved(t: Tree, t': Tree)
  {
    && SameSettings(t, t')
    && t'.allocation + t'.requested == t.allocation + t.requested
    && t'.allocation >= t.allocation && t'.requested >= 0.0
    && |t'.kids| == |t.kids|
    && forall i :: 0 <= i < |t.kids| ==> Moved(t.kids[i], t'.kids[i])
  }

  lemma {:induction false} MovedRefl(t: Tree)
    requires Settled(t)
    ensures Moved(t, t)
  {
    forall i | 0 <= i < |t.kids| ensures Moved(t.kids[i], t.kids[i]) { MovedRefl(t.kids[i]); }
  }

  /** `t` handed `x` units of surplus, all of which it could use. */
  ghost predicate Absorbed(t: Tree, t': Tree, x: real)
  {
    && Settled(t') && Moved(t, t') && t'.accept == t.accept
    && TotalAllocation(t') == TotalAllocation(t) + x
    && t'.unmet == t.unmet - x
  }

  lemma AbsorbedNothing(t: Tree, amount: real)
    requires Settled(t) && amount == 0.0
    ensures Absorbed(t, t, amount)
  {
    MovedRefl(t);
  }

  lemma SettledAbove(t: Tree, t': Tree)
    requires Settled(t)
    requires t'.requested >= 0.0 && t'.quota == t.quota && t'.subtreeQuota == t.subtreeQuota
    requires t'.unmet - t.unmet == t'.requested - t.requested + Sum(Wants(t'.kids)) - Sum(Wants(t.kids))
    requires forall i :: 0 <= i < |t'.kids| ==> Settled(t'.kids[i])
    ensures Settled(t')
  {
  }

  lemma MovedNode(t: Tree, t': Tree)
    requires SameSettings(t, t')
    requires t'.allocation + t'.requested == t.allocation + t.requested
    requires t'.allocation >= t.allocation && t'.requested >= 0.0
    requires |t'.kids| == |t.kids|
    requires forall i :: 0 <= i < |t.kids| ==> Moved(t.kids[i], t'.kids[i])
    ensures Moved(t, t')
  {
  }

  lemma TotalMoves(t: Tree, t': Tree, parts: seq<real>)
    requires |t'.kids| == |t.kids| == |parts|
    requires forall i :: 0 <= i < |parts| ==> TotalAllocation(t'.kids[i]) == TotalAllocation(t.kids[i]) + parts[i]
    ensures TotalAllocation(t') - t'.allocation == TotalAllocation(t) - t.allocation + Sum(parts)
  {
    hide Sum;
    SumPointwiseAdd(TotalAllocations(t.kids), parts, TotalAllocations(t'.kids));
  }

  /** A node and its children that absorb their parts absorb the sum. */
  lemma AbsorbedTogether(t: Tree, t': Tree, parts: seq<real>, own: real)
    requires Settled(t)
    requires |t'.kids| == |t.kids| == |parts|
    requires forall i :: 0 <= i < |parts| ==> Absorbed(t.kids[i], t'.kids[i], parts[i])
    requires forall i :: 0 <= i < |parts| ==> t.kids[i].accept || parts[i] == 0.0
    requires SameSettings(t, t')
    requires 0.0 <= own <= t.requested
    requires t'.allocation == t.allocation + own && t'.requested == t.requested - own
    requires t'.unmet == t.unmet - (Sum(parts) + own)
    ensures Absorbed(t, t', Sum(parts) + own)
  {
    hide Sum, TotalAllocation, Settled, Moved, Wants;
    TotalMoves(t, t', parts);
    WantsFall(t, t', parts);
    SettledAbove(t, t');
    MovedNode(t, t');
  }

  lemma WantsFall(t: Tree, t': Tree, parts: seq<real>)
    requires |t'.kids| == |t.kids| == |parts|
    requires forall i :: 0 <= i < |parts| ==> Absorbed(t.kids[i], t'.kids[i], parts[i])
    requires forall i :: 0 <= i < |parts| ==> t.kids[i].accept || parts[i] == 0.0
    ensures Sum(Wants(t'.kids)) == Sum(Wants(t.kids)) - Sum(parts)
  {
    hide Sum, TotalAllocation, Settled, Moved;
    SumPointwiseAdd(Wants(t'.kids), parts, Wants(t.kids));
  }

  // ----- the fair share a whole subtree settles at -----

  /** What a subtree has left over, and what it still lacks, once it has shared internally. Only totals
      enter: however scarcity is divided below, these two figures come out the same. */
  ghost function Pot(t: Tree): real
    decreases t, 2
  {
    t.quota - Min(t.requested, t.quota) + Sum(Leftovers(t.kids))
  }

  ghost function Lack(t: Tree): real
    decreases t, 2
  {
    t.requested - Min(t.requested, t.quota) + Sum(Shortfalls(t.kids))
  }

  ghost function Leftover(t: Tree): real
    decreases t, 3
  {
    Max(0.0, Pot(t) - Lack(t))
  }

  ghost function Shortfall(t: Tree): real
    decreases t, 3
  {
    Max(0.0, Lack(t) - Pot(t))
  }

  ghost function Leftovers(ks: seq<Tree>): (s: seq<real>)
    ensures |s| == |ks|
    ensures forall i :: 0 <= i < |ks| ==> s[i] == Leftover(ks[i])
    decreases ks, 0
  {
    seq(|ks|, i requires 0 <= i < |ks| => Leftover(ks[i]))
  }

  ghost function Shortfalls(ks: seq<Tree>): (s: seq<real>)
    ensures |s| == |ks|
    ensures forall i :: 0 <= i < |ks| ==> s[i] == (if ks[i].accept then Shortfall(ks[i]) else 0.0)
    decreases ks, 0
  {
    seq(|ks|, i requires 0 <= i < |ks| => if ks[i].accept then Shortfall(ks[i]) else 0.0)
  }

  lemma PotNonneg(t: Tree)
    requires Nonnegative(t)
    ensures Pot(t) >= 0.0 && Lack(t) >= 0.0
  {
    SumNonneg(Leftovers(t.kids));
    SumNonneg(Shortfalls(t.kids));
  }

  /** Node by node, what fair sharing promises a group: its request is split into allocation and
      remainder, and it keeps at least its quota's worth. */
  ghost predicate Shared(t: Tree, t': Tree)
  {
    && SameSettings(t, t')
    && t'.allocation + t'.requested == t.requested
    && t'.allocation >= Min(t.requested, t.quota) && t'.requested >= 0.0
    && |t'.kids| == |t.kids|
    && forall i :: 0 <= i < |t.kids| ==> Shared(t.kids[i], t'.kids[i])
  }

  lemma {:induction false} SharedThenMoved(t: Tree, m: Tree, t': Tree)
    requires Shared(t, m) && Moved(m, t')
    ensures Shared(t, t')
  {
    forall i | 0 <= i < |t.kids| ensures Shared(t.kids[i], t'.kids[i]) {
      SharedThenMoved(t.kids[i], m.kids[i], t'.kids[i]);
    }
  }

  /** What one call of the fair-share allocator owes for a subtree. */
  ghost predicate FairlyShared(t: Tree, t': Tree, surplus: real)
  {
    && Settled(t') && Shared(t, t') && t'.accept == t.accept
    && TotalAllocation(t') + surplus == TotalQuota(t)
    && surplus == Leftover(t) && t'.unmet == Shortfall(t)
  }

  /** Once the children are shared out and the node has taken its own quota's worth, the node is settled
      and the pot holds exactly what the subtree has not used. */
  lemma SharedTogether(t: Tree, m: Tree)
    requires Nonnegative(t)
    requires |m.kids| == |t.kids|
    requires forall i :: 0 <= i < |t.kids| ==> FairlyShared(t.kids[i], m.kids[i], Leftover(t.kids[i]))
    requires SameSettings(t, m)
    requires m.allocation == Min(t.requested, t.quota) && m.requested == t.requested - m.allocation
    requires m.unmet == Lack(t)
    ensures Settled(m) && Shared(t, m)
    ensures TotalAllocation(m) + Pot(t) == TotalQuota(t)
  {
    hide Sum;
    assert Wants(m.kids) == Shortfalls(t.kids);
    SumPointwiseAdd(TotalAllocations(m.kids), Leftovers(t.kids), TotalQuotas(t.kids));
  }

  /** No demand that surplus could reach is left: neither here nor below any child that accepts surplus. */
  ghost predicate Satisfied(t: Tree)
  {
    && t.requested == 0.0
    && forall i :: 0 <= i < |t.kids| && t.kids[i].accept ==> Satisfied(t.kids[i])
  }

  /** The bookkeeping figure is exact: it reads zero just when no reachable demand is left. */
  lemma {:induction false} UnmetIsExact(t: Tree)
    requires Settled(t)
    ensures t.unmet == 0.0 <==> Satisfied(t)
  {
    SettledNonneg(t);
    SumNonneg(Wants(t.kids));
    forall i | 0 <= i < |t.kids| ensures t.kids[i].unmet == 0.0 <==> Satisfied(t.kids[i]) {
      UnmetIsExact(t.kids[i]);
    }
    if t.unmet == 0.0 {
      forall i | 0 <= i < |t.kids| && t.kids[i].accept ensures t.kids[i].unmet == 0.0 {
        assert Wants(t.kids)[i] <= 0.0;
      }
    }
    if Satisfied(t) {
      SumNonpos(Wants(t.kids));
    }
  }

  // ----- the node and its children as peers -----

  /** The peers of one distribution: the children by subtree quota, then the node itself by its own quota. */
  ghost function PeerQuotas(t: Tree): (q: seq<real>)
    ensures |q| == |t.kids| + 1
    ensures forall i :: 0 <= i < |t.kids| ==> q[i] == t.kids[i].subtreeQuota
    ensures q[|t.kids|] == t.quota
  {
    seq(|t.kids|, i requires 0 <= i < |t.kids| => t.kids[i].subtreeQuota) + [t.quota]
  }

  ghost function PeerAsks(t: Tree): (a: seq<real>)
    ensures |a| == |t.kids| + 1
  {
    Wants(t.kids) + [t.requested]
  }

  /** What each peer gained, children counted with their whole subtrees. */
  ghost function PeerGains(t: Tree, t': Tree): (g: seq<real>)
    requires |t.kids| == |t'.kids|
    ensures |g| == |t.kids| + 1
    ensures forall i :: 0 <= i < |t.kids| ==> g[i] == TotalAllocation(t'.kids[i]) - TotalAllocation(t.kids[i])
    ensures g[|t.kids|] == t'.allocation - t.allocation
  {
    seq(|t.kids|, i requires 0 <= i < |t.kids| => TotalAllocation(t'.kids[i]) - TotalAllocation(t.kids[i]))
      + [t'.allocation - t.allocation]
  }

  /** Peers that absorb what they were given, each within its request, absorb the total. */
  lemma PeersAbsorb(t: Tree, t': Tree, given: seq<real>)
    requires Settled(t)
    requires |t'.kids| == |t.kids| && |given| == |t.kids| + 1
    requires forall j :: 0 <= j < |given| ==> 0.0 <= given[j] <= PeerAsks(t)[j]
    requires forall i :: 0 <= i < |t.kids| ==> Absorbed(t.kids[i], t'.kids[i], given[i])
    requires SameSettings(t, t')
    requires t'.allocation == t.allocation + given[|t.kids|] && t'.requested == t.requested - given[|t.kids|]
    requires t'.unmet == t.unmet - Sum(given)
    ensures Absorbed(t, t', Sum(given))
  {
    hide Settled, TotalAllocation, Absorbed, SameSettings, Sum;
    SumPrefix(given, |t.kids|);
    AbsorbedTogether(t, t', given[..|t.kids|], given[|t.kids|]);
  }

  lemma GainsAre(t: Tree, t': Tree, given: seq<real>)
    requires |t'.kids| == |t.kids| && |given| == |t.kids| + 1
    requires forall i :: 0 <= i < |t.kids| ==> TotalAllocation(t'.kids[i]) == TotalAllocation(t.kids[i]) + given[i]
    requires t'.allocation == t.allocation + given[|t.kids|]
    ensures PeerGains(t, t') == given
  {
    hide TotalAllocation;
  }

  lemma GainsAddUp(t: Tree, t': Tree)
    requires |t.kids| == |t'.kids|
    ensures Sum(PeerGains(t, t')) == TotalAllocation(t') - TotalAllocation(t)
  {
    var g := PeerGains(t, t');
    SumPrefix(g, |t.kids|);
    SumPointwiseAdd(TotalAllocations(t.kids), g[..|t.kids|], TotalAllocations(t'.kids));
  }

  /** Two trees of the same shape that allocate the same amount to every node. */
  ghost predicate SameAllocations(a: Tree, b: Tree)
  {
    && a.allocation == b.allocation && |a.kids| == |b.kids|
    && forall i :: 0 <= i < |a.kids| ==> SameAllocations(a.kids[i], b.kids[i])
  }

  /** After a distribution the allocations determine everything else: what each node still asks for, and the
      bookkeeping figures above it. */
  lemma {:induction false} MovedUnique(m: Tree, a: Tree, b: Tree)
    requires Moved(m, a) && Moved(m, b) && Settled(a) && Settled(b) && SameAllocations(a, b)
    ensures a == b
  {
    hide Sum;
    forall i | 0 <= i < |a.kids| ensures a.kids[i] == b.kids[i] {
      MovedUnique(m.kids[i], a.kids[i], b.kids[i]);
    }
    assert a.kids == b.kids;
  }
}
