/** Remainder recovery for unweighted pools: fractional slots are reclaimed and handed out again whole. */
module RoundRobin {
  import opened RealSums
  import opened Wholes
  import opened GroupNodes
  import opened GroupTrees
  import opened SurplusLoop
  import opened Rounds

  /** Every node's request and allocation is a whole number of slots. */
  ghost predicate WholeTree(t: Tree)
  {
    && Whole(t.requested) && Whole(t.allocation)
    && forall i :: 0 <= i < |t.kids| ==> WholeTree(t.kids[i])
  }

  lemma {:induction false} WholeUnmet(t: Tree)
    requires Settled(t) && WholeTree(t)
    ensures Whole(t.unmet) && AllWhole(Wants(t.kids)) && AllWhole(PeerAsks(t))
  {
    hide Whole, Sum;
    WholeInt(0, 0.0);
    forall i | 0 <= i < |t.kids| ensures Whole(Wants(t.kids)[i]) { WholeUnmet(t.kids[i]); }
    WholeSum(Wants(t.kids));
    WholeAdd(t.requested, Sum(Wants(t.kids)));
  }

  /** The peers' places in the round-robin order: children by their subtree's stamp, the node by its own. */
  ghost function PeerKeys(t: Tree): (ks: seq<RRKey>)
    ensures |ks| == |t.kids| + 1
    ensures forall i :: 0 <= i < |t.kids| ==>
              ks[i] == RRKey(t.kids[i].subtreeRR, t.kids[i].subtreeQuota, t.kids[i].unmet)
    ensures ks[|t.kids|] == RRKey(t.ownRR, t.quota, t.requested)
  {
    seq(|t.kids|, i requires 0 <= i < |t.kids| => RRKey(t.kids[i].subtreeRR, t.kids[i].subtreeQuota, t.kids[i].unmet))
      + [RRKey(t.ownRR, t.quota, t.requested)]
  }

  ghost predicate NoGain(gains: seq<real>) {
    forall j :: 0 <= j < |gains| ==> gains[j] == 0.0
  }

  /** At every node of the subtree the peers gained nothing, or what rounds in their order give. */
  ghost predicate RoundsBelow(t: Tree, t': Tree)
  {
    && |t'.kids| == |t.kids|
    && (NoGain(PeerGains(t, t')) || RoundRobinDivision(PeerAsks(t), PeerKeys(t), PeerGains(t, t')))
    && forall i :: 0 <= i < |t.kids| ==> RoundsBelow(t.kids[i], t'.kids[i])
  }

  lemma {:induction false} RoundsNothing(t: Tree)
    ensures RoundsBelow(t, t)
  {
    forall i | 0 <= i < |t.kids| ensures RoundsBelow(t.kids[i], t.kids[i]) { RoundsNothing(t.kids[i]); }
  }

  /** Gains of zero in total are no gains, if none is negative. */
  lemma DivisionOfNothing(asks: seq<real>, keys: seq<RRKey>, gains: seq<real>, none: seq<real>)
    requires |asks| == |gains| == |none| && Nonneg(asks)
    requires RoundRobinDivision(asks, keys, gains) && NoGain(none) && Sum(gains) == Sum(none)
    ensures gains == none
  {
    hide Sum, Whole;
    var order, rank, level, cut :| OrderedRounds(asks, keys, gains, order, rank, level, cut);
    forall j | 0 <= j < |gains| ensures gains[j] == none[j] { SumSqueeze(none, gains, j); }
  }

  /** Requests, keys and the total handed out determine every node's allocation: whole slots go out in one way. */
  lemma {:induction false} ServingUnique(t: Tree, a: Tree, b: Tree)
    requires Settled(t) && RoundsBelow(t, a) && RoundsBelow(t, b)
    requires TotalAllocation(a) == TotalAllocation(b)
    ensures SameAllocations(a, b)
  {
    hide Sum, RoundRobinDivision, TotalAllocation;
    GainsAddUp(t, a);
    GainsAddUp(t, b);
    SettledNonneg(t);
    var asks, keys, ga, gb := PeerAsks(t), PeerKeys(t), PeerGains(t, a), PeerGains(t, b);
    SameGains(asks, keys, ga, gb);
    forall i | 0 <= i < |t.kids| ensures SameAllocations(a.kids[i], b.kids[i]) {
      assert ga[i] == gb[i];
      ServingUnique(t.kids[i], a.kids[i], b.kids[i]);
    }
    assert ga[|t.kids|] == gb[|t.kids|];
  }

  lemma SameGains(asks: seq<real>, keys: seq<RRKey>, ga: seq<real>, gb: seq<real>)
    requires |asks| == |ga| == |gb| && Nonneg(asks) && Sum(ga) == Sum(gb)
    requires NoGain(ga) || RoundRobinDivision(asks, keys, ga)
    requires NoGain(gb) || RoundRobinDivision(asks, keys, gb)
    ensures ga == gb
  {
    hide Sum, RoundRobinDivision;
    if NoGain(ga) && !NoGain(gb) {
      DivisionOfNothing(asks, keys, gb, ga);
    } else if NoGain(gb) && !NoGain(ga) {
      DivisionOfNothing(asks, keys, ga, gb);
    } else if !NoGain(ga) {
      RoundRobinDivisionUnique(asks, keys, ga, gb);
    }
  }

  ghost predicate ChildServed(t: Tree, t': Tree, x: real) {
    Absorbed(t, t', x) && RoundsBelow(t, t') && WholeTree(t')
  }

  lemma ServedChild(t: Tree, t': Tree, x: real)
    requires Absorbed(t, t', x) && RoundsBelow(t, t') && WholeTree(t')
    ensures ChildServed(t, t', x)
  {
  }

  lemma RoundsNode(t: Tree, t': Tree, given: seq<real>)
    requires |t'.kids| == |t.kids| && |given| == |t.kids| + 1
    requires RoundRobinDivision(PeerAsks(t), PeerKeys(t), given)
    requires forall i :: 0 <= i < |t.kids| ==> Absorbed(t.kids[i], t'.kids[i], given[i])
    requires forall i :: 0 <= i < |t.kids| ==> RoundsBelow(t.kids[i], t'.kids[i])
    requires t'.allocation == t.allocation + given[|t.kids|]
    ensures RoundsBelow(t, t')
  {
    hide TotalAllocation, RoundRobinDivision, Moved, Settled;
    GainsAre(t, t', given);
  }

  lemma WholeNode(t: Tree, t': Tree, own: real)
    requires WholeTree(t) && Whole(own)
    requires t'.allocation == t.allocation + own && t'.requested == t.requested - own
    requires forall i :: 0 <= i < |t'.kids| ==> WholeTree(t'.kids[i])
    ensures WholeTree(t')
  {
    WholeAdd(t.allocation, own);
    WholeAdd(t.requested, own);
  }

  /** Peers served what they were given leave the subtree served. */
  lemma PeersServed(t: Tree, t': Tree, given: seq<real>, total: real)
    requires Settled(t) && WholeTree(t) && Sum(given) == total
    requires |t'.kids| == |t.kids| && |given| == |t.kids| + 1
    requires RoundRobinDivision(PeerAsks(t), PeerKeys(t), given)
    requires forall j :: 0 <= j < |given| ==> 0.0 <= given[j] <= PeerAsks(t)[j] && Whole(given[j])
    requires forall i :: 0 <= i < |t.kids| ==> ChildServed(t.kids[i], t'.kids[i], given[i])
    requires SameSettings(t, t')
    requires t'.allocation == t.allocation + given[|t.kids|] && t'.requested == t.requested - given[|t.kids|]
    requires t'.unmet == t.unmet - total
    ensures Absorbed(t, t', total) && RoundsBelow(t, t') && WholeTree(t')
  {
    hide Sum, Settled, Absorbed, SameSettings, WholeTree, Whole, RoundsBelow, RoundRobinDivision;
    PeersAbsorb(t, t', given);
    RoundsNode(t, t', given);
    WholeNode(t, t', given[|t.kids|]);
  }

  /** While `n` poses as a child of itself, the groups compete as the tree says. */
  lemma PeersQueue(n: GroupNode, t: Tree)
    requires n.Valid() && Settled(t)
    requires n.View() == t.(accept := true, subtreeQuota := t.quota, unmet := t.requested, subtreeRR := t.ownRR)
    ensures Asks(n.children + [n]) == PeerAsks(t)
    ensures Keys(n.children + [n]) == PeerKeys(t)
    ensures Sum(PeerAsks(t)) == t.unmet
  {
    hide Sum;
    SettledNonneg(t);
    SumAppend(Wants(t.kids), t.requested);
  }

  /** How much of `surplus` a subtree lacking `unmet` takes: whole slots only. */
  ghost function Takes(surplus: real, unmet: real): real {
    Max(0.0, Min(surplus.Floor as real, unmet))
  }

  /** Hand out whole slots over the subtree of `n`. */
  method ServeTree(n: GroupNode, surplusIn: real) returns (surplus: real)
    requires n.Valid() && Settled(n.View()) && WholeTree(n.View())
    modifies n.repr
    ensures surplusIn - surplus == Takes(surplusIn, old(n.subtreeRequested))
    ensures Absorbed(old(n.View()), n.View(), surplusIn - surplus)
    ensures WholeTree(n.View())
    ensures RoundsBelow(old(n.View()), n.View())
    decreases n.height, 3
  {
    hide Sum, Settled, Moved, TotalAllocation, Whole, WholeTree, RoundRobinDivision, RoundsBelow, ChildServed,
         Absorbed, Takes, GroupNode.Valid, GroupNode.View;
    n.Structure();
    n.Figures();
    ghost var t := n.View();
    WholeUnmet(t);
    FloorSettled(n.subtreeRequested);
    TakesHow(surplusIn, n.subtreeRequested);
    n.subtreeRequested := n.subtreeRequested.Floor as real;
    n.Figures();
    assert n.View().kids == t.kids;
    if n.subtreeRequested <= 0.0 || surplusIn < 1.0 {
      surplus := surplusIn;
      AbsorbedNothing(t, surplusIn - surplus);
      RoundsNothing(t);
      return;
    }
    surplus := ServePeers(n, surplusIn, t);
  }

  /** Hand out slots where there are some and somebody lacks them. */
  method ServePeers(n: GroupNode, surplusIn: real, ghost t: Tree) returns (surplus: real)
    requires n.Valid() && n.View() == t && Settled(t) && WholeTree(t) && t.unmet > 0.0 && surplusIn >= 1.0
    modifies n.repr
    ensures surplusIn - surplus == Min(surplusIn.Floor as real, t.unmet)
    ensures Absorbed(t, n.View(), surplusIn - surplus) && WholeTree(n.View()) && RoundsBelow(t, n.View())
    decreases n.height, 2
  {
    hide *;
    n.Structure();
    n.Figures();
    SettledNonneg(t);
    WholeUnmet(t);
    var groups := n.children + [n];

    // The node behaves like a surplus-accepting child for the time being.
    var saveAccept, saveSubtreeQuota, saveRRTime := n.acceptSurplus, n.subtreeQuota, n.subtreeRRTime;
    var requested := n.subtreeRequested;
    n.PoseAsChild(n.rrTime);
    PeersQueue(n, t);
    var given;
    given, surplus, requested := ServeRounds(groups, surplusIn, requested, PeerAsks(t), PeerKeys(t));
    PassOn(n, given, requested, saveAccept, saveSubtreeQuota, saveRRTime, t, surplusIn - surplus);
  }

  /** Pass the slots on to the children and the node itself, and restore what was overwritten for it. */
  method PassOn(n: GroupNode, given: array<real>, unmet: real, accept: bool, subtreeQuota: real, rrTime: real,
                ghost t: Tree, ghost total: real)
    requires n.Valid() && Settled(t) && WholeTree(t) && given.Length == |n.children| + 1 && Sum(given[..]) == total
    requires n.View() == t.(accept := true, subtreeQuota := t.quota, unmet := t.requested, subtreeRR := t.ownRR)
    requires accept == t.accept && subtreeQuota == t.subtreeQuota && rrTime == t.subtreeRR && unmet == t.unmet - total
    requires RoundRobinDivision(PeerAsks(t), PeerKeys(t), given[..])
    requires forall j :: 0 <= j < given.Length ==> 0.0 <= given[j] <= PeerAsks(t)[j] && Whole(given[j])
    modifies n.repr
    ensures Absorbed(t, n.View(), total) && RoundsBelow(t, n.View()) && WholeTree(n.View())
    decreases n.height, 1
  {
    hide Sum, Settled, Moved, TotalAllocation, Whole, WholeTree, RoundRobinDivision, RoundsBelow, ChildServed,
         Absorbed, GroupNode.Valid, GroupNode.View;
    n.Structure();
    n.Figures();
    ghost var parts := given[..];
    ServeChildren(n, given, t);
    n.Figures();
    n.AllocateAndRestore(given[|n.children|], unmet, accept, subtreeQuota, rrTime);
    PeersServed(t, n.View(), parts, total);
  }

  lemma FloorSettled(x: real)
    requires Whole(x)
    ensures x == x.Floor as real
  {
  }

  lemma TakesHow(surplus: real, unmet: real)
    ensures unmet <= 0.0 || surplus < 1.0 ==> Takes(surplus, unmet) == 0.0
    ensures unmet > 0.0 && surplus >= 1.0 ==> Takes(surplus, unmet) == Min(surplus.Floor as real, unmet)
  {
  }

  /** A child given no more than it lacks, in whole slots, takes all of it. */
  lemma TakesAll(surplus: real, unmet: real)
    requires Whole(surplus) && 0.0 <= surplus <= unmet
    ensures Takes(surplus, unmet) == surplus
  {
  }

  /** Pass every child its slots. A child never returns any of them. */
  method ServeChildren(n: GroupNode, given: array<real>, ghost t: Tree)
    requires n.Valid() && Settled(t) && WholeTree(t)
    requires |t.kids| == |n.children| && given.Length == |n.children| + 1
    requires forall i :: 0 <= i < |t.kids| ==> n.children[i].View() == t.kids[i]
    requires forall j :: 0 <= j < given.Length ==> 0.0 <= given[j] <= PeerAsks(t)[j] && Whole(given[j])
    modifies n.repr - {n}
    ensures forall i :: 0 <= i < |t.kids| ==> ChildServed(t.kids[i], n.children[i].View(), given[i])
    decreases n.height, 0
  {
    hide Sum, Moved, TotalAllocation, RoundsBelow, Whole, ChildServed;
    for j := 0 to |n.children|
      invariant forall k :: 0 <= k < j ==> ChildServed(t.kids[k], n.children[k].View(), given[k])
      invariant forall k :: j <= k < |n.children| ==> n.children[k].View() == t.kids[k]
    {
      SettledNonneg(t.kids[j]);
      if given[j] > 0.0 {
        TakesAll(given[j], n.children[j].subtreeRequested);
        var unused := ServeTree(n.children[j], given[j]);
        assert unused == 0.0;
      } else {
        AbsorbedNothing(t.kids[j], given[j]);
        RoundsNothing(t.kids[j]);
      }
      ServedChild(t.kids[j], n.children[j].View(), given[j]);
    }
  }

  // ----- reclaiming the remainders -----

  /** The stamp of a subtree in which nobody is waiting. */
  const NEVER: real := MAX_FLOAT64

  function Frac(x: real): real { x - x.Floor as real }

  function Round(x: real): real { (0.5 + x).Floor as real }

  lemma RoundWhole(x: real)
    requires Whole(x)
    ensures Round(x) == x
  {
    FloorBetween(0.5 + x, x.Floor);
  }

  lemma RoundNonneg(x: real)
    requires x >= 0.0
    ensures Round(x) >= 0.0 && Whole(Round(x))
  {
    WholeInt((0.5 + x).Floor, Round(x));
  }

  /** The node's own request once its fractional slot has been taken back. */
  ghost function Rerequested(t: Tree): real {
    Round(t.requested + Frac(t.allocation))
  }

  /** What a subtree has reclaimed and what it lacks before its own round robin, and after it. As for fair
      sharing, only totals enter. */
  ghost function Reclaimed(t: Tree): real
    decreases t, 2
  {
    Frac(t.allocation) + Sum(Remainders(t.kids))
  }

  ghost function Missing(t: Tree): real
    decreases t, 2
  {
    Rerequested(t) + Sum(StillMissings(t.kids))
  }

  ghost function Remainder(t: Tree): real
    decreases t, 3
  {
    Reclaimed(t) - Takes(Reclaimed(t), Missing(t))
  }

  ghost function StillMissing(t: Tree): real
    decreases t, 3
  {
    Missing(t) - Takes(Reclaimed(t), Missing(t))
  }

  ghost function Remainders(ks: seq<Tree>): (s: seq<real>)
    ensures |s| == |ks|
    ensures forall i :: 0 <= i < |ks| ==> s[i] == Remainder(ks[i])
    decreases ks, 0
  {
    seq(|ks|, i requires 0 <= i < |ks| => Remainder(ks[i]))
  }

  ghost function StillMissings(ks: seq<Tree>): (s: seq<real>)
    ensures |s| == |ks|
    ensures forall i :: 0 <= i < |ks| ==> s[i] == (if ks[i].accept then StillMissing(ks[i]) else 0.0)
    decreases ks, 0
  {
    seq(|ks|, i requires 0 <= i < |ks| => if ks[i].accept then StillMissing(ks[i]) else 0.0)
  }

  /** Node by node: the fraction goes back into the request, and slots come back whole. */
  ghost predicate Rounded(t: Tree, t': Tree)
  {
    && t'.quota == t.quota && t'.subtreeQuota == t.subtreeQuota && t'.accept == t.accept && t'.ownRR == t.ownRR
    && t'.allocation + t'.requested == t.allocation.Floor as real + Rerequested(t)
    && t'.allocation >= t.allocation.Floor as real && t'.requested >= 0.0
    && |t'.kids| == |t.kids|
    && forall i :: 0 <= i < |t.kids| ==> Rounded(t.kids[i], t'.kids[i])
  }

  lemma {:induction false} RoundedThenMoved(t: Tree, m: Tree, t': Tree)
    requires Rounded(t, m) && Moved(m, t')
    ensures Rounded(t, t')
  {
    forall i | 0 <= i < |t.kids| ensures Rounded(t.kids[i], t'.kids[i]) {
      RoundedThenMoved(t.kids[i], m.kids[i], t'.kids[i]);
    }
  }

  /** What one call of remainder recovery owes for a subtree. */
  ghost predicate Recovered(t: Tree, t': Tree, surplus: real)
  {
    && Settled(t') && WholeTree(t') && Rounded(t, t') && t'.accept == t.accept
    && TotalAllocation(t') + surplus == TotalAllocation(t)
    && surplus == Remainder(t) && t'.unmet == StillMissing(t)
  }

  /** One or more whole slots are returned only when no demand that surplus can reach is left. */
  lemma RecoveryIsWorkConserving(t: Tree, t': Tree, surplus: real)
    requires Recovered(t, t', surplus)
    ensures surplus >= 1.0 ==> Satisfied(t')
  {
    SettledNonneg(t');
    UnmetIsExact(t');
  }

  /** The longest-waiting stamp below a node, folded over its first `j` children. */
  ghost function OldestTo(t: Tree, j: nat): real
    requires j <= |t.kids|
  {
    if j == 0 then (if t.requested > 0.0 then t.ownRR else NEVER)
    else
      var k := t.kids[j - 1];
      if k.accept && k.unmet > 0.0 then Min(OldestTo(t, j - 1), k.subtreeRR) else OldestTo(t, j - 1)
  }

  /** The tree just before the node's own round robin. */
  ghost predicate HalfRecovered(t: Tree, m: Tree)
    decreases t, 0
  {
    && m.quota == t.quota && m.subtreeQuota == t.subtreeQuota && m.accept == t.accept && m.ownRR == t.ownRR
    && m.config == t.config && m.isStatic == t.isStatic && m.isRoot == t.isRoot
    && m.allocation == t.allocation.Floor as real && m.requested == Rerequested(t)
    && m.subtreeRR == OldestTo(m, |m.kids|)
    && Settled(m) && |m.kids| == |t.kids|
    && forall i :: 0 <= i < |t.kids| ==> RecoveredOut(t.kids[i], m.kids[i])
  }

  /** From the leaves up, as many reclaimed slots as were lacked were handed out, in rounds among each node and
      its children. */
  ghost predicate RecoveredOut(t: Tree, t': Tree)
    decreases t, 1
  {
    exists m: Tree :: HalfRecovered(t, m) && Absorbed(m, t', Takes(Reclaimed(t), Missing(t))) && RoundsBelow(m, t')
  }

  lemma RecoveredOutVia(t: Tree, m: Tree, t': Tree, taken: real)
    requires HalfRecovered(t, m) && Absorbed(m, t', taken) && taken == Takes(Reclaimed(t), Missing(t)) &&
             RoundsBelow(m, t')
    ensures RecoveredOut(t, t')
  {
  }

  /** Allocations and requests determine where the reclaimed slots go: two outcomes are the same. */
  lemma {:induction false} RecoveredUnique(t: Tree, a: Tree, b: Tree)
    requires RecoveredOut(t, a) && RecoveredOut(t, b)
    ensures a == b
  {
    hide Sum, Absorbed, RoundsBelow, Reclaimed, Missing, Takes, Rerequested;
    var taken := Takes(Reclaimed(t), Missing(t));
    var m: Tree :| HalfRecovered(t, m) && Absorbed(m, a, taken) && RoundsBelow(m, a);
    var n: Tree :| HalfRecovered(t, n) && Absorbed(n, b, taken) && RoundsBelow(n, b);
    forall i | 0 <= i < |t.kids| ensures m.kids[i] == n.kids[i] {
      RecoveredUnique(t.kids[i], m.kids[i], n.kids[i]);
    }
    assert m.kids == n.kids;
    OldestAgrees(m, n, |m.kids|);
    assert m == n;
    ServedUnique(m, a, b, taken);
  }

  lemma ServedUnique(m: Tree, a: Tree, b: Tree, taken: real)
    requires Settled(m) && Absorbed(m, a, taken) && RoundsBelow(m, a) && Absorbed(m, b, taken) && RoundsBelow(m, b)
    ensures a == b
  {
    hide Settled, RoundsBelow, TotalAllocation, Moved;
    ServingUnique(m, a, b);
    MovedUnique(m, a, b);
  }

  ghost predicate ChildRecovered(t: Tree, t': Tree) {
    Recovered(t, t', Remainder(t)) && RecoveredOut(t, t')
  }

  lemma RecoveredFigures(t: Tree, t': Tree, surplus: real)
    requires Recovered(t, t', surplus) && RecoveredOut(t, t')
    ensures ChildRecovered(t, t')
    ensures surplus == Remainder(t) && t'.unmet == StillMissing(t) && t'.accept == t.accept
  {
  }

  /** With the children recovered and its own fraction reclaimed, the node is settled and the pot holds
      what the subtree gave back. */
  lemma RecoveredTogether(t: Tree, m: Tree)
    requires Nonnegative(t)
    requires |m.kids| == |t.kids|
    requires forall i :: 0 <= i < |t.kids| ==> Recovered(t.kids[i], m.kids[i], Remainder(t.kids[i]))
    requires m.quota == t.quota && m.subtreeQuota == t.subtreeQuota && m.accept == t.accept && m.ownRR == t.ownRR
    requires m.allocation == t.allocation.Floor as real && m.requested == Rerequested(t)
    requires m.unmet == Missing(t)
    ensures Settled(m) && WholeTree(m) && Rounded(t, m)
    ensures TotalAllocation(m) + Reclaimed(t) == TotalAllocation(t)
  {
    hide Sum, Whole, Remainder, StillMissing, Round;
    RoundNonneg(t.requested + Frac(t.allocation));
    WholeInt(t.allocation.Floor, m.allocation);
    assert Wants(m.kids) == StillMissings(t.kids);
    SumPointwiseAdd(TotalAllocations(m.kids), Remainders(t.kids), TotalAllocations(t.kids));
  }

  /** Serving the pot completes the recovery of the subtree. */
  lemma RecoveredVia(t: Tree, m: Tree, t': Tree, surplus: real, taken: real)
    requires Settled(m) && Rounded(t, m) && m.unmet == Missing(t)
    requires TotalAllocation(m) + Reclaimed(t) == TotalAllocation(t)
    requires taken == Reclaimed(t) - surplus == Takes(Reclaimed(t), Missing(t))
    requires Absorbed(m, t', taken) && WholeTree(t')
    ensures Recovered(t, t', surplus)
  {
    hide Settled, WholeTree, TotalAllocation, Reclaimed, Missing, Takes;
    RoundedThenMoved(t, m, t');
  }

  /** Take back the node's own fraction of a slot. */
  method ReclaimOwn(n: GroupNode) returns (surplus: real)
    requires n.Valid()
    modifies n
    ensures surplus == Frac(old(n.allocation))
    ensures n.View() == old(n.View()).(allocation := old(n.allocation).Floor as real,
                                       requested := Rerequested(old(n.View())), unmet := Rerequested(old(n.View())),
                                       subtreeRR := n.subtreeRRTime)
    ensures n.subtreeRRTime == OldestTo(n.View(), 0)
  {
    hide Whole, NEVER, Round, GroupNode.Valid, GroupNode.View;
    n.Structure();
    n.Figures();
    ghost var t := n.View();
    surplus := n.allocation - n.allocation.Floor as real;
    RoundedDown(n.allocation);
    n.allocation := Round(n.allocation - surplus);
    n.requested := Round(n.requested + surplus);
    n.subtreeRequested := n.requested;
    n.subtreeRRTime := if n.requested > 0.0 then n.rrTime else NEVER;
    n.Figures();
    assert n.View().kids == t.kids;
  }

  lemma RoundedDown(x: real)
    ensures Round(x - (x - x.Floor as real)) == x.Floor as real
  {
    WholeInt(x.Floor, x.Floor as real);
    RoundWhole(x.Floor as real);
  }

  lemma {:induction false} OldestAgrees(t: Tree, t': Tree, j: nat)
    requires j <= |t.kids| && j <= |t'.kids|
    requires t.requested == t'.requested && t.ownRR == t'.ownRR
    requires forall k :: 0 <= k < j ==> t.kids[k] == t'.kids[k]
    ensures OldestTo(t, j) == OldestTo(t', j)
  {
    if j > 0 { OldestAgrees(t, t', j - 1); }
  }

  lemma OldestStep(t: Tree, t': Tree, j: nat)
    requires j < |t.kids| && j < |t'.kids|
    requires t.requested == t'.requested && t.ownRR == t'.ownRR
    requires forall k :: 0 <= k < j ==> t.kids[k] == t'.kids[k]
    ensures OldestTo(t', j + 1) == (if t'.kids[j].accept && t'.kids[j].unmet > 0.0
                                    then Min(OldestTo(t, j), t'.kids[j].subtreeRR) else OldestTo(t, j))
  {
    OldestAgrees(t, t', j);
  }

  /** Reclaim fractional remainders bottom-up and hand the whole slots they add up to out again. */
  method RecoverRemainders(n: GroupNode) returns (surplus: real)
    requires n.Valid() && Nonnegative(n.View())
    modifies n.repr
    ensures Recovered(old(n.View()), n.View(), surplus)
    ensures RecoveredOut(old(n.View()), n.View())
    decreases n.height, 2
  {
    hide Sum, Settled, Rounded, Moved, WholeTree, TotalAllocation, RoundsBelow, Round, Whole, NEVER, Takes, Rerequested,
         Absorbed, OldestTo, GroupNode.Valid, GroupNode.View;
    ghost var t := n.View();
    n.Structure();
    n.Figures();
    surplus := ReclaimOwn(n);
    n.Figures();
    surplus := RecoverChildren(n, surplus, t);
    n.Figures();
    ghost var m, pot := n.View(), surplus;
    RecoveredTogether(t, m);
    if |n.children| == 0 {
      LeafTakesNothing(t);
      AbsorbedNothing(m, pot - surplus);
      RoundsNothing(m);
    } else {
      surplus := ServeTree(n, surplus);
    }
    RecoveredVia(t, m, n.View(), surplus, pot - surplus);
    RecoveredOutVia(t, m, n.View(), pot - surplus);
  }

  /** A leaf has less than one slot to hand out. */
  lemma LeafTakesNothing(t: Tree)
    requires |t.kids| == 0
    ensures Takes(Reclaimed(t), Missing(t)) == 0.0
  {
    assert Remainders(t.kids) == [];
    FloorBetween(Frac(t.allocation), 0);
  }

  /** Add one recovered child to the node's figures. */
  method FoldChild(n: GroupNode, j: nat)
    requires n.Valid() && j < |n.children| && n.subtreeRRTime == OldestTo(n.View(), j)
    modifies n`subtreeRequested, n`subtreeRRTime
    ensures var v, v' := old(n.View()), n.View();
            v' == v.(unmet := v.unmet + (if v.kids[j].accept then v.kids[j].unmet else 0.0), subtreeRR := v'.subtreeRR)
    ensures n.subtreeRRTime == n.View().subtreeRR == OldestTo(n.View(), j + 1)
  {
    hide OldestTo;
    ghost var v := n.View();
    n.children[j].Figures();
    var child := n.children[j];
    if child.acceptSurplus {
      n.subtreeRequested := n.subtreeRequested + child.subtreeRequested;
      if child.subtreeRequested > 0.0 {
        n.subtreeRRTime := Min(n.subtreeRRTime, child.subtreeRRTime);
      }
    }
    assert n.View().kids == v.kids by {
      assert forall i :: 0 <= i < |n.children| ==> n.children[i].View() == old(n.children[i].View());
    }
    OldestStep(v, n.View(), j);
  }

  /** Recover one child subtree and add it to the node's figures. */
  method RecoverChild(n: GroupNode, j: nat) returns (more: real)
    requires n.Valid() && j < |n.children| && Nonnegative(n.View().kids[j])
    requires n.subtreeRRTime == OldestTo(n.View(), j)
    modifies n.children[j].repr, n`subtreeRequested, n`subtreeRRTime
    ensures Recovered(old(n.View()).kids[j], n.View().kids[j], more)
    ensures RecoveredOut(old(n.View()).kids[j], n.View().kids[j])
    ensures var v, v' := old(n.View()), n.View();
            v' == v.(unmet := v.unmet + (if v'.kids[j].accept then v'.kids[j].unmet else 0.0),
                     subtreeRR := v'.subtreeRR, kids := v.kids[j := v'.kids[j]])
    ensures n.subtreeRRTime == n.View().subtreeRR == OldestTo(n.View(), j + 1)
    decreases n.height, 0
  {
    hide OldestTo, Nonnegative, Recovered, RecoveredOut, GroupNode.Valid, GroupNode.View;
    n.Structure();
    n.Figures();
    ghost var v := n.View();
    more := RecoverRemainders(n.children[j]);
    n.Figures();
    assert n.View().kids == v.kids[j := n.View().kids[j]];
    OldestAgrees(v, n.View(), j);
    FoldChild(n, j);
  }

  /** Recover every child subtree, adding up what they return, what the accepting ones lack and the
      longest-waiting stamp. */
  method RecoverChildren(n: GroupNode, surplusIn: real, ghost t: Tree) returns (surplus: real)
    requires n.Valid() && |t.kids| == |n.children|
    requires forall i :: 0 <= i < |t.kids| ==> n.children[i].View() == t.kids[i] && Nonnegative(t.kids[i])
    requires n.subtreeRRTime == OldestTo(n.View(), 0)
    modifies n.repr - {n}, n`subtreeRequested, n`subtreeRRTime
    ensures forall i :: 0 <= i < |t.kids| ==> ChildRecovered(t.kids[i], n.children[i].View())
    ensures surplus == surplusIn + Sum(Remainders(t.kids))
    ensures n.subtreeRequested == old(n.subtreeRequested) + Sum(StillMissings(t.kids))
    ensures n.subtreeRRTime == OldestTo(n.View(), |n.children|)
    decreases n.height, 1
  {
    hide Sum, Recovered, RecoveredOut, ChildRecovered, Remainder, StillMissing, OldestTo, Nonnegative, GroupNode.Valid,
         GroupNode.View;
    n.Structure();
    n.Figures();
    surplus := surplusIn;
    ghost var left, short := Remainders(t.kids), StillMissings(t.kids);
    SumEmpty();
    for j := 0 to |n.children|
      invariant forall k :: 0 <= k < j ==> ChildRecovered(t.kids[k], n.View().kids[k])
      invariant forall k :: j <= k < |n.children| ==> n.View().kids[k] == t.kids[k]
      invariant surplus == surplusIn + Sum(left[..j])
      invariant n.View().unmet == old(n.View()).unmet + Sum(short[..j])
      invariant n.subtreeRRTime == OldestTo(n.View(), j)
    {
      SumPrefix(left, j);
      SumPrefix(short, j);
      var more := RecoverChild(n, j);
      RecoveredFigures(t.kids[j], n.View().kids[j], more);
      surplus := surplus + more;
    }
    n.Figures();
    assert left[..|n.children|] == left && short[..|n.children|] == short;
  }
}
