/** The proportional surplus loop: one list of competing groups, one pot of surplus. */
module SurplusLoop {
  import opened RealSums
  import opened GroupNodes

  ghost predicate Nonneg(s: seq<real>) {
    forall j :: 0 <= j < |s| ==> s[j] >= 0.0
  }

  /** The groups still asking for something. */
  ghost function Unsatisfied(unmet: seq<real>): set<nat> {
    set j: nat | j < |unmet| && unmet[j] > 0.0
  }

  /** The weights that take part in a pass: those of the unsatisfied groups. */
  ghost function Active(w: seq<real>, unmet: seq<real>): (a: seq<real>)
    requires |w| == |unmet|
    ensures |a| == |w|
    ensures forall j :: 0 <= j < |w| ==> a[j] == (if unmet[j] > 0.0 then w[j] else 0.0)
  {
    seq(|w|, j requires 0 <= j < |w| => if unmet[j] > 0.0 then w[j] else 0.0)
  }

  /** Weighted max-min fairness: with the water raised to `level`, each group has received its demand
      or level times its weight, whichever is less. */
  ghost function Fill(demand: seq<real>, w: seq<real>, level: real): (got: seq<real>)
    requires |demand| == |w|
    ensures |got| == |w|
    ensures forall j :: 0 <= j < |w| ==> got[j] == Min(demand[j], Scaled(w, level)[j])
  {
    seq(|w|, j requires 0 <= j < |w| => Min(demand[j], Scaled(w, level)[j]))
  }

  /** Two fills of the same demands that hand out the same total agree group by group:
      the fair allocation does not depend on how it was reached. */
  lemma FillUnique(demand: seq<real>, w: seq<real>, l1: real, l2: real)
    requires |demand| == |w|
    requires Nonneg(w)
    requires Sum(Fill(demand, w, l1)) == Sum(Fill(demand, w, l2))
    ensures Fill(demand, w, l1) == Fill(demand, w, l2)
  {
    var g1, g2 := Fill(demand, w, l1), Fill(demand, w, l2);
    if l1 <= l2 {
      ScaledMonotone(w, l1, l2);
      forall j | 0 <= j < |w| ensures g1[j] == g2[j] { SumSqueeze(g1, g2, j); }
    } else {
      ScaledMonotone(w, l2, l1);
      forall j | 0 <= j < |w| ensures g1[j] == g2[j] { SumSqueeze(g2, g1, j); }
    }
  }

  /** No fair reallocation can help a group without hurting one that is no better off: a group short of
      its demand stands at the level, and nobody stands above the level. */
  lemma FillIsMaxMin(demand: seq<real>, w: seq<real>, level: real, i: nat, j: nat)
    requires |demand| == |w| && i < |w| && j < |w|
    requires w[i] > 0.0 && w[j] > 0.0
    requires Fill(demand, w, level)[i] < demand[i]
    ensures Fill(demand, w, level)[j] / w[j] <= Fill(demand, w, level)[i] / w[i]
  {
    ScaledAt(w, level, i);
    ScaledAt(w, level, j);
    RatioOf(level, w[i]);
    RatioBelow(Fill(demand, w, level)[j], level, w[j]);
  }

  lemma RatioOf(level: real, w: real)
    requires w > 0.0
    ensures level * w / w == level
  {
  }

  lemma RatioBelow(x: real, level: real, w: real)
    requires w > 0.0 && x <= level * w
    ensures x / w <= level
  {
    assert (level - x / w) * w == level * w - x;
  }

  /** Raising the level of a fill by `rate` is the same as filling what is still unmet at `rate`. */
  lemma FillDeepens(demand: seq<real>, w: seq<real>, level: real, unmet: seq<real>, rate: real)
    requires |demand| == |w| == |unmet|
    requires Nonneg(demand) && Nonneg(w) && level >= 0.0 && rate >= 0.0
    requires forall j :: 0 <= j < |w| ==> unmet[j] == demand[j] - Fill(demand, w, level)[j]
    ensures forall j :: 0 <= j < |w| ==>
              Fill(demand, w, level)[j] + Fill(unmet, w, rate)[j] == Fill(demand, w, level + rate)[j]
    ensures forall j :: 0 <= j < |w| ==> Fill(demand, w, level + rate)[j] <= demand[j]
  {
    hide Scaled;
    ScaledNonneg(w, level);
    ScaledNonneg(w, rate);
    ScaledAdd(w, level, rate);
  }

  lemma FillAtZero(demand: seq<real>, w: seq<real>)
    requires |demand| == |w| && Nonneg(demand)
    ensures forall j :: 0 <= j < |w| ==> Fill(demand, w, 0.0)[j] == 0.0
  {
    forall j | 0 <= j < |w| ensures Fill(demand, w, 0.0)[j] == 0.0 { ScaledAt(w, 0.0, j); }
  }

  lemma ActiveScaledAt(w: seq<real>, unmet: seq<real>, rate: real, j: nat)
    requires |unmet| == |w| && j < |w|
    ensures Active(Scaled(w, rate), unmet)[j] == Scaled(Active(w, unmet), rate)[j]
  {
    ScaledAt(w, rate, j);
    ScaledAt(Active(w, unmet), rate, j);
  }

  lemma ActiveScaled(w: seq<real>, unmet: seq<real>, rate: real)
    requires |unmet| == |w|
    ensures Sum(Active(Scaled(w, rate), unmet)) == rate * Sum(Active(w, unmet))
  {
    hide Scaled, Sum;
    forall j | 0 <= j < |w| ensures Active(Scaled(w, rate), unmet)[j] == Scaled(Active(w, unmet), rate)[j] {
      ActiveScaledAt(w, unmet, rate, j);
    }
    assert Active(Scaled(w, rate), unmet) == Scaled(Active(w, unmet), rate);
    ScaledSum(Active(w, unmet), rate);
  }

  /** Nobody among the first `n` was promised more than it wants. */
  ghost predicate Uncapped(unmet: seq<real>, w: seq<real>, rate: real, n: nat)
    requires |unmet| == |w| >= n
  {
    forall j :: 0 <= j < n && unmet[j] > 0.0 ==> Scaled(w, rate)[j] <= unmet[j]
  }

  lemma NobodyCapped(unmet: seq<real>, w: seq<real>, rate: real)
    requires |unmet| == |w|
    ensures Uncapped(unmet, w, rate, 0)
  {
  }

  lemma UncappedStep(unmet: seq<real>, w: seq<real>, rate: real, n: nat)
    requires n < |w| == |unmet|
    ensures Uncapped(unmet, w, rate, n + 1) <==>
              Uncapped(unmet, w, rate, n) && (unmet[n] > 0.0 ==> Scaled(w, rate)[n] <= unmet[n])
  {
    hide Scaled;
  }

  /** One pass hands out at most the surplus, and exactly the surplus when nobody was capped. */
  lemma PassTotal(unmet: seq<real>, w: seq<real>, surplus: real, z: real)
    requires |unmet| == |w|
    requires Nonneg(w) && Nonneg(unmet) && surplus >= 0.0 && z > 0.0
    requires z == Sum(Active(w, unmet))
    ensures Sum(Fill(unmet, w, surplus / z)) <= surplus
    ensures Uncapped(unmet, w, surplus / z, |w|) ==> Sum(Fill(unmet, w, surplus / z)) == surplus
  {
    hide Scaled, Sum;
    var rate := surplus / z;
    var draws := Fill(unmet, w, rate);
    var promised := Active(Scaled(w, rate), unmet);
    ScaledNonneg(w, rate);
    ActiveScaled(w, unmet, rate);
    RateTimesTotal(surplus, z);
    SumMonotone(draws, promised);
    if Uncapped(unmet, w, rate, |w|) {
      SumMonotone(promised, draws);
    }
  }

  lemma FewerUnsatisfied(before: seq<real>, after: seq<real>, j: nat)
    requires |before| == |after| && j < |before|
    requires forall k :: 0 <= k < |before| ==> after[k] <= before[k]
    requires before[j] > 0.0 && after[j] == 0.0
    ensures Unsatisfied(after) < Unsatisfied(before)
  {
    assert j in Unsatisfied(before) && j !in Unsatisfied(after);
  }

  /** The weights a pass competes by: subtree quotas, or one each for the zero-quota mop-up. */
  ghost function Weights(byQuota: bool, groups: seq<GroupNode>): (w: seq<real>)
    reads groups
    ensures |w| == |groups|
    ensures forall j :: 0 <= j < |w| ==> w[j] == (if byQuota then groups[j].subtreeQuota else 1.0)
  {
    seq(|groups|, j requires 0 <= j < |groups| reads groups => if byQuota then groups[j].subtreeQuota else 1.0)
  }

  /** The normaliser of one pass: total weight of the groups still asking. */
  method TotalWeight(byQuota: bool, groups: seq<GroupNode>, unmet: array<real>) returns (z: real)
    requires unmet.Length == |groups|
    ensures z == Sum(Active(Weights(byQuota, groups), unmet[..]))
  {
    z := 0.0;
    ghost var a := Active(Weights(byQuota, groups), unmet[..]);
    for j := 0 to |groups|
      invariant z == Sum(a[..j])
    {
      SumPrefix(a, j);
      if unmet[j] > 0.0 {
        z := z + (if byQuota then groups[j].subtreeQuota else 1.0);
      }
    }
    assert a[..|groups|] == a;
  }

  /** The share one group is offered, and what that is in terms of the level. */
  method Share(surplus: real, weight: real, z: real, ghost w: seq<real>, ghost j: nat) returns (alloc: real)
    requires z > 0.0 && j < |w| && weight == w[j]
    ensures alloc == Scaled(w, surplus / z)[j]
  {
    alloc := surplus * (weight / z);
    ScaledAt(w, surplus / z, j);
    ShareIsRate(surplus, weight, z);
  }

  /** One group draws its share, capped at what it still wants. */
  method Draw(surplus: real, weight: real, z: real, given: array<real>, unmet: array<real>, ghost w: seq<real>, j: nat)
    returns (alloc: real, capped: bool)
    requires z > 0.0 && j < |w| == given.Length == unmet.Length && weight == w[j] && given != unmet
    modifies given, unmet
    ensures alloc == Min(old(unmet[j]), Scaled(w, surplus / z)[j])
    ensures capped <==> Scaled(w, surplus / z)[j] > old(unmet[j])
    ensures given[..] == old(given[..])[j := old(given[j]) + alloc]
    ensures unmet[..] == old(unmet[..])[j := old(unmet[j]) - alloc]
  {
    hide Scaled;
    alloc := Share(surplus, weight, z, w, j);
    capped := false;
    if alloc > unmet[j] {
      alloc := unmet[j];
      capped := true;
    }
    given[j] := given[j] + alloc;
    unmet[j] := unmet[j] - alloc;
  }

  lemma Unchanged(a: seq<real>, j: nat)
    requires j < |a|
    ensures a[j := a[j] + 0.0] == a && a[j := a[j] - 0.0] == a
  {
  }

  /** One proportional pass: every unsatisfied group draws surplus * (N / Z), capped at what it still
      wants. The water level rises by `rate`, which is surplus / Z. */
  method Pass(byQuota: bool, groups: seq<GroupNode>, given: array<real>, unmet: array<real>, surplus: real, z: real)
    returns (sum: real, neverCapped: bool, ghost rate: real)
    requires unmet.Length == given.Length == |groups| && given != unmet
    requires Nonneg(Weights(byQuota, groups)) && Nonneg(unmet[..])
    requires surplus >= 0.0 && z > 0.0
    requires z == Sum(Active(Weights(byQuota, groups), unmet[..]))
    modifies given, unmet
    ensures rate >= 0.0
    ensures var draws := Fill(old(unmet[..]), Weights(byQuota, groups), rate);
            forall j :: 0 <= j < |groups| ==>
              given[j] == old(given[j]) + draws[j] && unmet[j] == old(unmet[j]) - draws[j] <= old(unmet[j])
    ensures sum == Sum(old(unmet[..])) - Sum(unmet[..])
    ensures neverCapped || Unsatisfied(unmet[..]) < Unsatisfied(old(unmet[..]))
    ensures sum <= surplus
    ensures neverCapped ==> sum == surplus
  {
    hide Scaled, Sum, Fill, Active, Drawn, Unsatisfied, Uncapped;
    ghost var w, g, u := Weights(byQuota, groups), given[..], unmet[..];
    rate := surplus / z;
    ghost var draws := Fill(u, w, rate);
    ghost var capped := 0;
    QuotientNonneg(surplus, z);
    SumEmpty();
    NothingDrawn(g, u, draws);
    NobodyCapped(u, w, rate);
    sum, neverCapped := 0.0, true;
    for j := 0 to |groups|
      invariant sum == Sum(draws[..j]) && Drawn(g, given[..], u, unmet[..], draws, j)
      invariant neverCapped ==> Uncapped(u, w, rate, j)
      invariant neverCapped || (0 <= capped < j && u[capped] > 0.0 && unmet[capped] == 0.0)
    {
      SumPrefix(draws, j);
      DrawnAt(g, given[..], u, unmet[..], draws, j);
      DrawIs(u, w, rate, j);
      DrawnStep(g, given[..], u, unmet[..], draws, j);
      UncappedStep(u, w, rate, j);
      if unmet[j] > 0.0 {
        var alloc, cap := Draw(surplus, if byQuota then groups[j].subtreeQuota else 1.0, z, given, unmet, w, j);
        if cap {
          neverCapped := false;
          capped := j;
        }
        sum := sum + alloc;
      } else {
        Unchanged(given[..], j);
        Unchanged(unmet[..], j);
      }
    }
    assert draws[..|groups|] == draws;
    PassTotal(u, w, surplus, z);
    AllDrawn(g, given[..], u, unmet[..], draws, w, rate);
    if !neverCapped {
      // Somebody was satisfied completely, so fewer groups compete in the next pass.
      FewerUnsatisfied(u, unmet[..], capped);
    }
  }

  /** The first `j` groups have drawn, the others have not. */
  ghost predicate Drawn(g: seq<real>, g': seq<real>, u: seq<real>, u': seq<real>, draws: seq<real>, j: nat) {
    && |g| == |g'| == |u| == |u'| == |draws|
    && forall k :: 0 <= k < |draws| ==>
         g'[k] == g[k] + (if k < j then draws[k] else 0.0) && u'[k] == u[k] - (if k < j then draws[k] else 0.0)
  }

  lemma NothingDrawn(g: seq<real>, u: seq<real>, draws: seq<real>)
    requires |g| == |u| == |draws|
    ensures Drawn(g, g, u, u, draws, 0)
  {
  }

  lemma DrawnAt(g: seq<real>, g': seq<real>, u: seq<real>, u': seq<real>, draws: seq<real>, j: nat)
    requires Drawn(g, g', u, u', draws, j) && j < |draws|
    ensures |g'| == |u'| == |u| == |draws| && g'[j] == g[j] && u'[j] == u[j]
  {
  }

  lemma DrawnStep(g: seq<real>, g': seq<real>, u: seq<real>, u': seq<real>, draws: seq<real>, j: nat)
    requires Drawn(g, g', u, u', draws, j) && j < |draws|
    ensures Drawn(g, g'[j := g'[j] + draws[j]], u, u'[j := u'[j] - draws[j]], draws, j + 1)
  {
  }

  /** What a group draws. */
  lemma DrawIs(u: seq<real>, w: seq<real>, rate: real, j: nat)
    requires |u| == |w| && j < |u| && Nonneg(u) && Nonneg(w) && rate >= 0.0
    ensures Fill(u, w, rate)[j] == if u[j] > 0.0 then Min(u[j], Scaled(w, rate)[j]) else 0.0
  {
    hide Scaled;
    ScaledNonneg(w, rate);
  }

  lemma AllDrawn(g: seq<real>, g': seq<real>, u: seq<real>, u': seq<real>, draws: seq<real>, w: seq<real>, rate: real)
    requires Drawn(g, g', u, u', draws, |draws|) && |w| == |u| && Nonneg(u) && Nonneg(w) && rate >= 0.0
    requires draws == Fill(u, w, rate)
    ensures forall j :: 0 <= j < |draws| ==> g'[j] == g[j] + draws[j] && u'[j] == u[j] - draws[j] <= u[j]
    ensures Sum(draws) == Sum(u) - Sum(u')
  {
    hide Scaled, Sum;
    ScaledNonneg(w, rate);
    SumPointwiseAdd(u', draws, u);
  }

  /** The loop of repeated passes. `level` is the water level the passes add up to. */
  method AllocateSurplusLoop(byQuota: bool, groups: seq<GroupNode>, given: array<real>, unmet: array<real>,
                             surplusIn: real, requestedIn: real)
    returns (surplus: real, requested: real, ghost level: real)
    requires unmet.Length == given.Length == |groups| && given != unmet
    requires Nonneg(Weights(byQuota, groups)) && Nonneg(unmet[..])
    requires surplusIn >= 0.0
    modifies given, unmet
    // Each group receives exactly its weighted max-min fair amount, never more than it asked for.
    ensures level >= 0.0 && (surplusIn == 0.0 ==> level == 0.0)
    ensures var fair := Fill(old(unmet[..]), Weights(byQuota, groups), level);
            forall j :: 0 <= j < |groups| ==> given[j] == old(given[j]) + fair[j] && unmet[j] == old(unmet[j]) - fair[j]
    ensures Nonneg(unmet[..])
    // Surplus and outstanding request fall in step with what was handed out.
    ensures surplusIn - surplus == requestedIn - requested == Sum(old(unmet[..])) - Sum(unmet[..])
    ensures surplus >= 0.0
    // The loop stops only when the pot is empty or nobody left carries weight.
    ensures surplus == 0.0 || forall j :: 0 <= j < |groups| && unmet[j] > 0.0 ==> Weights(byQuota, groups)[j] == 0.0
  {
    hide Scaled, Sum, Fill, Active, Drawn, Unsatisfied;
    ghost var w, g, u := Weights(byQuota, groups), given[..], unmet[..];
    surplus, requested, level := surplusIn, requestedIn, 0.0;
    FilledAtZero(g, u, w);
    while surplus > 0.0
      invariant Weights(byQuota, groups) == w
      invariant level >= 0.0 && surplus >= 0.0 && (surplusIn == 0.0 ==> level == surplus == 0.0)
      invariant Filled(g, given[..], u, unmet[..], w, level)
      invariant surplusIn - surplus == requestedIn - requested == Sum(u) - Sum(unmet[..])
      invariant Nonneg(unmet[..])
      decreases surplus > 0.0, Unsatisfied(unmet[..])
    {
      ghost var had, before := given[..], unmet[..];
      var z := TotalWeight(byQuota, groups, unmet);
      if z <= 0.0 {
        NobodyActive(w, before, z);
        break;
      }
      var sum, neverCapped, rate := Pass(byQuota, groups, given, unmet, surplus, z);
      FilledDeeper(g, had, given[..], u, before, unmet[..], w, level, rate);
      level := level + rate;
      surplus := surplus - sum;
      requested := requested - sum;
      if neverCapped || surplus < 0.0 {
        surplus := 0.0;
      }
    }
    AllFilled(g, given[..], u, unmet[..], w, level);
  }

  /** Every group has drawn its part of a fill. */
  ghost predicate Filled(g: seq<real>, g': seq<real>, u: seq<real>, u': seq<real>, w: seq<real>, level: real) {
    |u| == |w| && Drawn(g, g', u, u', Fill(u, w, level), |w|)
  }

  lemma FilledAtZero(g: seq<real>, u: seq<real>, w: seq<real>)
    requires |g| == |u| == |w| && Nonneg(u)
    ensures Filled(g, g, u, u, w, 0.0)
  {
    hide Fill;
    FillAtZero(u, w);
  }

  lemma FilledDeeper(g: seq<real>, g1: seq<real>, g2: seq<real>, u: seq<real>, u1: seq<real>, u2: seq<real>,
                     w: seq<real>, level: real, rate: real)
    requires Filled(g, g1, u, u1, w, level) && Nonneg(u) && Nonneg(w) && level >= 0.0 && rate >= 0.0
    requires |g2| == |u2| == |w|
    requires forall j :: 0 <= j < |w| ==> g2[j] == g1[j] + Fill(u1, w, rate)[j] && u2[j] == u1[j] - Fill(u1, w, rate)[j]
    ensures Filled(g, g2, u, u2, w, level + rate) && Nonneg(u2)
  {
    hide Scaled, Fill;
    FillDeepens(u, w, level, u1, rate);
  }

  lemma AllFilled(g: seq<real>, g': seq<real>, u: seq<real>, u': seq<real>, w: seq<real>, level: real)
    requires Filled(g, g', u, u', w, level)
    ensures forall j :: 0 <= j < |w| ==> g'[j] == g[j] + Fill(u, w, level)[j] && u'[j] == u[j] - Fill(u, w, level)[j]
  {
    hide Fill;
  }

  /** Without weight nobody who still asks carries any. */
  lemma NobodyActive(w: seq<real>, unmet: seq<real>, z: real)
    requires |w| == |unmet| && Nonneg(w) && z <= 0.0 && z == Sum(Active(w, unmet))
    ensures forall j :: 0 <= j < |w| && unmet[j] > 0.0 ==> w[j] == 0.0
  {
    SumNonneg(Active(w, unmet));
  }

  /** What each competing group asks for. */
  ghost function Asks(groups: seq<GroupNode>): (s: seq<real>)
    reads groups
    ensures |s| == |groups|
    ensures forall j :: 0 <= j < |s| ==> s[j] == Ask(groups[j])
  {
    seq(|groups|, j requires 0 <= j < |groups| reads groups => Ask(groups[j]))
  }

  function Ask(grp: GroupNode): real
    reads grp
  {
    if grp.acceptSurplus && grp.subtreeRequested > 0.0 then grp.subtreeRequested else 0.0
  }

  /** Copy out what each group asks for. */
  method CollectAsks(groups: seq<GroupNode>) returns (asks: array<real>)
    ensures fresh(asks) && asks[..] == Asks(groups)
  {
    asks := new real[|groups|];
    for j := 0 to |groups|
      invariant forall k :: 0 <= k < j ==> asks[k] == Ask(groups[k])
    {
      asks[j] := if groups[j].acceptSurplus && groups[j].subtreeRequested > 0.0 then groups[j].subtreeRequested
        else 0.0;
    }
  }
}
