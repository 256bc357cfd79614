/** Whole slots handed out in rounds to one list of competing groups, in round-robin order. */
module Rounds {
  import opened RealSums
  import opened Wholes
  import opened GroupNodes
  import SurplusLoop

  /** A visiting order and its inverse: `order[p]` is visited at position `p`, which is `rank[order[p]]`. */
  ghost predicate Ranked(order: seq<nat>, rank: seq<nat>) {
    && |order| == |rank|
    && (forall p :: 0 <= p < |order| ==> order[p] < |rank| && rank[order[p]] == p)
    && (forall j :: 0 <= j < |rank| ==> rank[j] < |order| && order[rank[j]] == j)
  }

  // ----- counting the groups that still ask -----

  ghost function CountTo(u: seq<real>, order: seq<nat>, q: nat): nat
    requires q <= |order| && forall p :: 0 <= p < |order| ==> order[p] < |u|
  {
    if q == 0 then 0 else CountTo(u, order, q - 1) + (if u[order[q - 1]] > 0.0 then 1 else 0)
  }

  lemma {:induction false} CountAgrees(u: seq<real>, v: seq<real>, order: seq<nat>, q: nat)
    requires |u| == |v| && q <= |order| && forall p :: 0 <= p < |order| ==> order[p] < |u|
    requires forall p :: 0 <= p < q ==> u[order[p]] == v[order[p]]
    ensures CountTo(u, order, q) == CountTo(v, order, q)
  {
    if q > 0 { CountAgrees(u, v, order, q - 1); }
  }

  lemma {:induction false} CountMonotone(u: seq<real>, order: seq<nat>, q: nat, r: nat)
    requires q <= r <= |order| && forall p :: 0 <= p < |order| ==> order[p] < |u|
    ensures CountTo(u, order, q) <= CountTo(u, order, r)
    ensures (forall p :: q <= p < r ==> u[order[p]] <= 0.0) <==> CountTo(u, order, q) == CountTo(u, order, r)
  {
    if q < r { CountMonotone(u, order, q, r - 1); }
  }

  ghost function SeenAsking(u: seq<real>, order: seq<nat>, n: nat): set<nat>
    requires n <= |order| && forall p :: 0 <= p < |order| ==> order[p] < |u|
  {
    if n == 0 then {} else SeenAsking(u, order, n - 1) + (if u[order[n - 1]] > 0.0 then {order[n - 1]} else {})
  }

  lemma {:induction false} SeenExactly(u: seq<real>, order: seq<nat>, n: nat)
    requires n <= |order| && forall p :: 0 <= p < |order| ==> order[p] < |u|
    ensures forall j :: j in SeenAsking(u, order, n) ==> j < |u| && u[j] > 0.0 && j in order[..n]
    ensures forall p :: 0 <= p < n && u[order[p]] > 0.0 ==> order[p] in SeenAsking(u, order, n)
  {
    if n > 0 {
      SeenExactly(u, order, n - 1);
      assert order[..n] == order[..n - 1] + [order[n - 1]];
    }
  }

  lemma {:induction false} CountIsCardinality(u: seq<real>, order: seq<nat>, n: nat)
    requires n <= |order| && forall p :: 0 <= p < |order| ==> order[p] < |u|
    requires forall p, q :: 0 <= p < q < |order| ==> order[p] != order[q]
    ensures CountTo(u, order, n) == |SeenAsking(u, order, n)|
  {
    hide SeenAsking;
    if n == 0 {
      NoneSeen(u, order);
    } else {
      CountIsCardinality(u, order, n - 1);
      OneMoreSeen(u, order, n - 1);
    }
  }

  lemma NoneSeen(u: seq<real>, order: seq<nat>)
    requires forall p :: 0 <= p < |order| ==> order[p] < |u|
    ensures SeenAsking(u, order, 0) == {}
  {
  }

  lemma OneMoreSeen(u: seq<real>, order: seq<nat>, n: nat)
    requires n < |order| && forall p :: 0 <= p < |order| ==> order[p] < |u|
    requires forall p, q :: 0 <= p < q < |order| ==> order[p] != order[q]
    ensures |SeenAsking(u, order, n + 1)| == |SeenAsking(u, order, n)| + if u[order[n]] > 0.0 then 1 else 0
  {
    hide SeenAsking;
    var j, seen := order[n], SeenAsking(u, order, n);
    SeenExactly(u, order, n);
    SeenStep(u, order, n);
    assert j !in order[..n];
    Grown(seen, j);
  }

  lemma SeenStep(u: seq<real>, order: seq<nat>, n: nat)
    requires n < |order| && forall p :: 0 <= p < |order| ==> order[p] < |u|
    ensures SeenAsking(u, order, n + 1) == SeenAsking(u, order, n) + if u[order[n]] > 0.0 then {order[n]} else {}
  {
  }

  lemma Grown(s: set<nat>, j: nat)
    ensures j !in s ==> |s + {j}| == |s| + 1
    ensures |s + {}| == |s|
  {
    assert s + {} == s;
  }

  /** Any order visits all indices, so counting along it counts the groups that still ask. */
  lemma CountIsUnsatisfied(u: seq<real>, order: seq<nat>, rank: seq<nat>)
    requires |u| == |order| && Ranked(order, rank)
    ensures CountTo(u, order, |order|) == |SurplusLoop.Unsatisfied(u)|
  {
    hide SeenAsking, CountTo;
    assert forall p, q :: 0 <= p < q < |order| ==> order[p] != order[q];
    CountIsCardinality(u, order, |order|);
    var seen := SeenAsking(u, order, |order|);
    SeenExactly(u, order, |order|);
    forall j | j in SurplusLoop.Unsatisfied(u) ensures j in seen {
      assert order[rank[j]] == j;
    }
    assert seen == SurplusLoop.Unsatisfied(u);
  }

  // ----- the round-robin order -----

  /** What the round-robin order looks at. */
  datatype RRKey = RRKey(time: real, quota: real, requested: real)

  function KeyOf(g: GroupNode): RRKey
    reads g
  {
    RRKey(g.subtreeRRTime, g.subtreeQuota, g.subtreeRequested)
  }

  ghost function Keys(groups: seq<GroupNode>): (ks: seq<RRKey>)
    reads groups
    ensures |ks| == |groups| && forall j :: 0 <= j < |ks| ==> ks[j] == KeyOf(groups[j])
  {
    seq(|groups|, j requires 0 <= j < |groups| reads groups => KeyOf(groups[j]))
  }

  /** Least recently served first, then larger subtree quota, then larger request. */
  predicate RRLess(x: RRKey, y: RRKey) {
    if x.time != y.time then x.time < y.time
    else if x.quota != y.quota then x.quota > y.quota
    else x.requested > y.requested
  }

  /** RRLess with ties broken by list position, as a stable sort leaves them. */
  ghost predicate Precedes(keys: seq<RRKey>, i: nat, j: nat)
    requires i < |keys| && j < |keys|
  {
    RRLess(keys[i], keys[j]) || (!RRLess(keys[j], keys[i]) && i < j)
  }

  /** The inverse of an order with `k` inserted at `pos`. */
  ghost function RankInserted(rank: seq<nat>, pos: nat): (r: seq<nat>)
    ensures |r| == |rank| + 1 && r[|rank|] == pos
    ensures forall j :: 0 <= j < |rank| ==> r[j] == (if rank[j] < pos then rank[j] else rank[j] + 1)
  {
    seq(|rank|, j requires 0 <= j < |rank| => if rank[j] < pos then rank[j] else rank[j] + 1) + [pos]
  }

  lemma InsertRanked(order: seq<nat>, rank: seq<nat>, pos: nat, order': seq<nat>)
    requires Ranked(order, rank) && pos <= |order|
    requires order' == order[..pos] + [|order|] + order[pos..]
    ensures Ranked(order', RankInserted(rank, pos))
  {
    var rank' := RankInserted(rank, pos);
    forall p | 0 <= p < |order'| ensures order'[p] < |rank'| && rank'[order'[p]] == p {
      assert order'[p] == if p < pos then order[p] else if p == pos then |order| else order[p - 1];
    }
    forall j | 0 <= j < |rank'| ensures rank'[j] < |order'| && order'[rank'[j]] == j {
      if j < |rank| { assert order[rank[j]] == j; }
    }
  }

  ghost predicate InOrder(keys: seq<RRKey>, order: seq<nat>) {
    && (forall p :: 0 <= p < |order| ==> order[p] < |keys|)
    && forall p, q :: 0 <= p < q < |order| ==> Precedes(keys, order[p], order[q])
  }

  lemma InsertInOrder(keys: seq<RRKey>, order: seq<nat>, k: nat, pos: nat, order': seq<nat>)
    requires InOrder(keys, order) && k < |keys| && pos <= |order|
    requires order' == order[..pos] + [k] + order[pos..]
    requires pos > 0 ==> Precedes(keys, order[pos - 1], k)
    requires forall p :: pos <= p < |order| ==> Precedes(keys, k, order[p])
    ensures InOrder(keys, order')
  {
    forall p | 0 <= p < pos ensures Precedes(keys, order[p], k) {
      if p < pos - 1 { assert Precedes(keys, order[p], order[pos - 1]); }
    }
    hide Precedes;
    forall p, q | 0 <= p < q < |order'| ensures Precedes(keys, order'[p], order'[q]) {
      assert order'[p] == if p < pos then order[p] else if p == pos then k else order[p - 1];
      assert order'[q] == if q < pos then order[q] else if q == pos then k else order[q - 1];
    }
  }

  /** The indices of `groups` in round-robin order. */
  method SortByRR(groups: seq<GroupNode>) returns (order: seq<nat>, ghost rank: seq<nat>)
    ensures Ranked(order, rank) && |order| == |groups|
    ensures InOrder(Keys(groups), order)
  {
    order, rank := [], [];
    ghost var keys := Keys(groups);
    for k := 0 to |groups|
      invariant |order| == k && Ranked(order, rank) && InOrder(keys, order)
    {
      var pos := k;
      while pos > 0 && RRLess(KeyOf(groups[k]), KeyOf(groups[order[pos - 1]]))
        invariant pos <= k
        invariant forall p :: pos <= p < k ==> Precedes(keys, k, order[p])
      {
        pos := pos - 1;
      }
      var order' := order[..pos] + [k] + order[pos..];
      InsertInOrder(keys, order, k, pos, order');
      InsertRanked(order, rank, pos, order');
      order, rank := order', RankInserted(rank, pos);
    }
  }

  // ----- one round -----

  /** `count` shares of `amax` each. */
  ghost function Shares(count: nat, amax: real): real {
    if count == 0 then 0.0 else Shares(count - 1, amax) + amax
  }

  lemma {:induction false} SharesIsProduct(count: nat, amax: real)
    ensures Shares(count, amax) == (count as real) * amax
  {
    if count > 0 {
      SharesIsProduct(count - 1, amax);
      assert (count as real) * amax == ((count - 1) as real) * amax + amax;
    }
  }

  lemma SharesFit(surplus: real, count: nat, amax: real)
    requires count > 0 && surplus >= 1.0
    requires amax == (surplus / (count as real)).Floor as real
    ensures Shares(count, amax) <= surplus
  {
    var c := count as real;
    SharesIsProduct(count, amax);
    ProductMonotone(amax, surplus / c, c);
    RateTimesTotal(surplus, c);
  }

  lemma CountStep(u: seq<real>, order: seq<nat>, q: nat)
    requires q < |order| && forall p :: 0 <= p < |order| ==> order[p] < |u|
    ensures CountTo(u, order, 0) == 0
    ensures CountTo(u, order, q + 1) == CountTo(u, order, q) + (if u[order[q]] > 0.0 then 1 else 0)
    ensures CountTo(u, order, q + 1) <= CountTo(u, order, |order|)
  {
    CountMonotone(u, order, q + 1, |order|);
  }

  lemma {:induction false} SharesStep(count: nat, amax: real)
    requires amax >= 0.0
    ensures Shares(count, amax) >= 0.0
    ensures count > 0 ==> Shares(count, amax) == Shares(count - 1, amax) + amax && Shares(count - 1, amax) >= 0.0
  {
    if count > 0 { SharesStep(count - 1, amax); }
  }

  /** Serving a group changes nothing for those already counted. */
  lemma CountAfterServing(before: seq<real>, after: seq<real>, order: seq<nat>, rank: seq<nat>, q: nat)
    requires |before| == |after| == |order| && Ranked(order, rank) && q < |order|
    requires forall j :: 0 <= j < |before| && j != order[q] ==> after[j] == before[j]
    ensures CountTo(after, order, q + 1) == CountTo(before, order, q) + (if after[order[q]] > 0.0 then 1 else 0)
  {
    hide CountTo;
    CountAgrees(before, after, order, q);
    CountStep(after, order, q);
  }

  lemma SomebodyAsks(u: seq<real>, order: seq<nat>, rank: seq<nat>)
    requires |u| == |order| && Ranked(order, rank)
    requires Sum(u) > 0.0
    ensures CountTo(u, order, 0) == 0 < CountTo(u, order, |order|)
  {
    hide Sum;
    CountMonotone(u, order, 0, |order|);
    if CountTo(u, order, |order|) == 0 {
      forall j | 0 <= j < |u| ensures u[j] <= 0.0 { assert u[order[rank[j]]] <= 0.0; }
      SumNonpos(u);
    }
  }

  /** What one round gives a group: nothing once the round was cut short before its turn. */
  ghost function RoundDraw(unmet: real, amax: real, served: bool): real {
    if served then Min(unmet, amax) else 0.0
  }

  /** Serve one group up to `amax`. */
  method ServeGroup(given: array<real>, unmet: array<real>, j: nat, amax: real) returns (alloc: real)
    requires given.Length == unmet.Length && given != unmet && j < unmet.Length
    modifies given, unmet
    ensures alloc == Min(old(unmet[j]), amax)
    ensures given[..] == old(given[..])[j := old(given[j]) + alloc]
    ensures unmet[..] == old(unmet[..])[j := old(unmet[j]) - alloc]
    ensures Sum(unmet[..]) == Sum(old(unmet[..])) - alloc
  {
    alloc := Min(unmet[j], amax);
    SumUpdate(unmet[..], j, unmet[j] - alloc);
    given[j] := given[j] + alloc;
    unmet[j] := unmet[j] - alloc;
    assert unmet[..] == old(unmet[..])[j := old(unmet[j]) - alloc];
  }

  /** Unless a round hands out single slots, what is left covers a full share for everybody still to come. */
  ghost predicate Covers(u: seq<real>, order: seq<nat>, q: nat, amax: real, surplus: real)
    requires q <= |order| && forall p :: 0 <= p < |order| ==> order[p] < |u|
  {
    amax == 1.0 || Shares(CountTo(u, order, |order|) - Seen(u, order, q), amax) <= surplus
  }

  ghost function Seen(u: seq<real>, order: seq<nat>, q: nat): (c: nat)
    requires q <= |order| && forall p :: 0 <= p < |order| ==> order[p] < |u|
    ensures c <= CountTo(u, order, |order|)
  {
    CountMonotone(u, order, q, |order|);
    CountTo(u, order, q)
  }

  lemma CoversNext(u: seq<real>, order: seq<nat>, q: nat, amax: real, surplus: real, alloc: real)
    requires q < |order| && forall p :: 0 <= p < |order| ==> order[p] < |u|
    requires amax >= 0.0 && Covers(u, order, q, amax, surplus)
    requires if u[order[q]] > 0.0 then alloc <= amax else alloc <= 0.0
    ensures Covers(u, order, q + 1, amax, surplus - alloc)
  {
    hide CountTo, Shares;
    CountStep(u, order, q);
    SharesStep(CountTo(u, order, |order|) - CountTo(u, order, q), amax);
  }

  /** When a round of more than one slot each runs short, nobody behind is asking: it was the last share. */
  lemma LastShare(u: seq<real>, v: seq<real>, order: seq<nat>, q: nat, amax: real, surplus: real)
    requires |u| == |v| == |order| && q <= |order| && forall p :: 0 <= p < |order| ==> order[p] < |u|
    requires forall p :: q <= p < |order| ==> v[order[p]] == u[order[p]]
    requires amax >= 0.0 && amax != 1.0 && surplus < amax && Covers(u, order, q, amax, surplus)
    ensures forall p :: q <= p < |order| ==> u[order[p]] <= 0.0
    ensures CountTo(v, order, q) == CountTo(v, order, |order|)
  {
    hide CountTo, Shares;
    SharesStep(CountTo(u, order, |order|) - CountTo(u, order, q), amax);
    CountMonotone(u, order, q, |order|);
    CountMonotone(v, order, q, |order|);
  }

  /** One round: every group still asking takes up to `amax`, until less than `amax` is left. `cut` is the
      position where the round ended. */
  method ServeRound(groups: seq<GroupNode>, order: seq<nat>, given: array<real>, unmet: array<real>,
                    surplusIn: real, requestedIn: real, amax: real, ghost rank: seq<nat>)
    returns (surplus: real, requested: real, sum: real, outstanding: nat, ghost cut: nat)
    requires |groups| == |order| == unmet.Length == given.Length && given != unmet && Ranked(order, rank)
    requires forall j :: 0 <= j < |groups| ==> unmet[j] >= 0.0 && Whole(unmet[j])
    requires forall j :: 0 <= j < |groups| && unmet[j] > 0.0 ==> groups[j].acceptSurplus
    requires amax >= 1.0 && Whole(amax) && surplusIn >= amax
    requires Covers(unmet[..], order, 0, amax, surplusIn)
    requires requestedIn > 0.0 && requestedIn == Sum(unmet[..])
    modifies given, unmet
    ensures cut <= |order|
    ensures forall j :: 0 <= j < |groups| ==>
              var d := RoundDraw(old(unmet[j]), amax, rank[j] < cut);
              given[j] == old(given[j]) + d && unmet[j] == old(unmet[j]) - d
    ensures surplusIn - surplus == requestedIn - requested == sum
    ensures requested == Sum(unmet[..])
    ensures sum >= 1.0 && surplus >= 0.0
    // Either everybody had a turn and those still asking were counted exactly, or the pot is below one slot.
    ensures (cut == |order| && outstanding == CountTo(unmet[..], order, |order|)) || (amax == 1.0 && surplus < 1.0)
  {
    hide Sum, Shares, CountTo, Whole, Covers, RoundTo, Ranked;
    var q := 0;
    surplus, requested, sum, outstanding, cut := surplusIn, requestedIn, 0.0, 0, |order|;
    ghost var g, u := given[..], unmet[..];
    RankedIsWithin(order, rank);
    SomebodyAsks(u, order, rank);
    NobodyServed(g, u, rank, amax);
    while q < |order|
      invariant q <= |order| && cut == |order| && RoundTo(g, given[..], u, unmet[..], rank, amax, q)
      invariant surplusIn - surplus == requestedIn - requested == sum
      invariant requested == Sum(unmet[..])
      invariant outstanding == CountTo(unmet[..], order, q)
      invariant surplus >= amax && Covers(u, order, q, amax, surplus)
      invariant sum >= (if CountTo(u, order, q) == 0 then 0.0 else 1.0)
    {
      var j := order[q];
      CountStep(u, order, q);
      CountStep(unmet[..], order, q);
      RoundStep(g, given[..], u, unmet[..], order, rank, amax, q);
      if groups[j].acceptSurplus && unmet[j] > 0.0 {
        ghost var before := unmet[..];
        WholePositive(before[j]);
        var alloc := ServeGroup(given, unmet, j, amax);
        CoversNext(u, order, q, amax, surplus, alloc);
        CountAfterServing(before, unmet[..], order, rank, q);
        sum := sum + alloc;
        surplus := surplus - alloc;
        requested := requested - alloc;
        if unmet[j] > 0.0 {
          outstanding := outstanding + 1;
        }
        if surplus < amax {
          if amax == 1.0 {
            cut := q + 1;
          } else {
            StillToCome(g, given[..], u, unmet[..], order, rank, amax, q + 1);
            LastShare(u, unmet[..], order, q + 1, amax, surplus);
            LastTurn(g, given[..], u, unmet[..], order, rank, amax, q + 1);
          }
          break;
        }
      } else {
        CoversNext(u, order, q, amax, surplus, 0.0);
      }
      q := q + 1;
    }
    RoundDone(g, given[..], u, unmet[..], rank, amax, cut);
  }

  /** The groups in front of position `q` have had their turn. */
  ghost predicate RoundTo(g: seq<real>, g': seq<real>, u: seq<real>, u': seq<real>, rank: seq<nat>, amax: real,
                          q: nat) {
    && |g| == |g'| == |u| == |u'| == |rank|
    && forall j :: 0 <= j < |u| ==>
         g'[j] == g[j] + RoundDraw(u[j], amax, rank[j] < q) && u'[j] == u[j] - RoundDraw(u[j], amax, rank[j] < q)
  }

  lemma RankedIsWithin(order: seq<nat>, rank: seq<nat>)
    requires Ranked(order, rank)
    ensures |rank| == |order| && forall p :: 0 <= p < |order| ==> order[p] < |order|
  {
  }

  lemma NobodyServed(g: seq<real>, u: seq<real>, rank: seq<nat>, amax: real)
    requires |g| == |u| == |rank|
    ensures RoundTo(g, g, u, u, rank, amax, 0)
  {
  }

  /** The next group's turn: it takes its draw, which is nothing if it does not ask. */
  lemma RoundStep(g: seq<real>, g': seq<real>, u: seq<real>, u': seq<real>, order: seq<nat>, rank: seq<nat>, amax: real,
                  q: nat)
    requires q < |order| && Ranked(order, rank) && RoundTo(g, g', u, u', rank, amax, q) && amax >= 0.0
    ensures var j := order[q];
            && j < |u| == |u'| == |g'| && u'[j] == u[j]
            && RoundTo(g, g'[j := g'[j] + Min(u[j], amax)], u, u'[j := u'[j] - Min(u[j], amax)], rank, amax, q + 1)
            && (u[j] == 0.0 ==> RoundTo(g, g', u, u', rank, amax, q + 1))
  {
  }

  lemma StillToCome(g: seq<real>, g': seq<real>, u: seq<real>, u': seq<real>, order: seq<nat>, rank: seq<nat>,
                    amax: real, q: nat)
    requires q <= |order| && Ranked(order, rank) && RoundTo(g, g', u, u', rank, amax, q)
    ensures forall p :: q <= p < |order| ==> u'[order[p]] == u[order[p]]
  {
  }

  /** If nobody behind asks, it is as if all had had their turn. */
  lemma LastTurn(g: seq<real>, g': seq<real>, u: seq<real>, u': seq<real>, order: seq<nat>, rank: seq<nat>, amax: real,
                 q: nat)
    requires q <= |order| && Ranked(order, rank) && RoundTo(g, g', u, u', rank, amax, q) && amax >= 0.0
    requires forall j :: 0 <= j < |u| ==> u[j] >= 0.0
    requires forall p :: q <= p < |order| ==> u[order[p]] <= 0.0
    ensures RoundTo(g, g', u, u', rank, amax, |order|)
  {
    forall j | 0 <= j < |u| && rank[j] >= q ensures u[j] == 0.0 {
      assert u[order[rank[j]]] <= 0.0;
    }
  }

  lemma RoundDone(g: seq<real>, g': seq<real>, u: seq<real>, u': seq<real>, rank: seq<nat>, amax: real, cut: nat)
    requires RoundTo(g, g', u, u', rank, amax, cut)
    ensures forall j :: 0 <= j < |u| ==>
              var d := RoundDraw(u[j], amax, rank[j] < cut);
              g'[j] == g[j] + d && u'[j] == u[j] - d
  {
  }

  // ----- all rounds -----

  /** Integral max-min fairness in round-robin order: everybody is served up to a whole level, and those
      before the cut one slot more. */
  ghost predicate RoundRobinFair(asks: seq<real>, rank: seq<nat>, level: real, cut: nat, given: seq<real>)
    requires |asks| == |rank| == |given|
  {
    && level >= 0.0 && Whole(level)
    && forall j :: 0 <= j < |given| ==> given[j] == Min(asks[j], if rank[j] < cut then level + 1.0 else level)
  }

  ghost predicate OrderedRounds(asks: seq<real>, keys: seq<RRKey>, given: seq<real>,
                                order: seq<nat>, rank: seq<nat>, level: real, cut: nat) {
    && |asks| == |keys| == |given| == |rank|
    && Ranked(order, rank) && InOrder(keys, order)
    && RoundRobinFair(asks, rank, level, cut, given)
  }

  /** A division that some number of whole-slot rounds in round-robin order produces. */
  ghost predicate RoundRobinDivision(asks: seq<real>, keys: seq<RRKey>, given: seq<real>) {
    exists order, rank, level, cut :: OrderedRounds(asks, keys, given, order, rank, level, cut)
  }

  // ----- the outcome is unique -----

  lemma PrecedesAsymmetric(keys: seq<RRKey>, i: nat, j: nat)
    requires i < |keys| && j < |keys| && i != j && Precedes(keys, i, j)
    ensures !Precedes(keys, j, i)
  {
  }

  /** The keys determine the visiting order. */
  lemma {:induction false} OrdersAgree(keys: seq<RRKey>, order1: seq<nat>, rank1: seq<nat>, order2: seq<nat>,
                                       rank2: seq<nat>, p: nat)
    requires |rank1| == |rank2| == |keys| && p < |keys|
    requires Ranked(order1, rank1) && InOrder(keys, order1) && Ranked(order2, rank2) && InOrder(keys, order2)
    ensures order1[p] == order2[p]
    decreases p
  {
    hide Precedes;
    forall q | 0 <= q < p ensures order1[q] == order2[q] {
      OrdersAgree(keys, order1, rank1, order2, rank2, q);
    }
    var a, b := order1[p], order2[p];
    if a != b {
      assert order1[rank1[b]] == b && order2[rank2[a]] == a;
      assert rank1[b] >= p && rank2[a] >= p;
      assert Precedes(keys, order1[p], order1[rank1[b]]);
      assert Precedes(keys, order2[p], order2[rank2[a]]);
      PrecedesAsymmetric(keys, a, b);
      assert false;
    }
  }

  /** Of two outcomes in the same order, one gives everybody at least as much. */
  lemma RoundsComparable(asks: seq<real>, rank: seq<nat>, l1: real, c1: nat, g1: seq<real>, l2: real, c2: nat,
                         g2: seq<real>)
    requires |asks| == |rank| == |g1| == |g2|
    requires RoundRobinFair(asks, rank, l1, c1, g1) && RoundRobinFair(asks, rank, l2, c2, g2)
    requires l1 < l2 || (l1 == l2 && c1 <= c2)
    ensures forall j :: 0 <= j < |g1| ==> g1[j] <= g2[j]
  {
    hide Whole;
    if l1 < l2 {
      WholeAdd(l2, l1);
      WholePositive(l2 - l1);
    }
  }

  /** Requests, keys and total leave only one round-robin division. */
  lemma RoundRobinDivisionUnique(asks: seq<real>, keys: seq<RRKey>, g1: seq<real>, g2: seq<real>)
    requires RoundRobinDivision(asks, keys, g1) && RoundRobinDivision(asks, keys, g2)
    requires Sum(g1) == Sum(g2)
    ensures g1 == g2
  {
    hide Sum, RoundRobinFair, Ranked, InOrder;
    var order1, rank1, l1, c1 :| OrderedRounds(asks, keys, g1, order1, rank1, l1, c1);
    var order2, rank2, l2, c2 :| OrderedRounds(asks, keys, g2, order2, rank2, l2, c2);
    SameRanks(keys, order1, rank1, order2, rank2);
    if l1 < l2 || (l1 == l2 && c1 <= c2) {
      RoundsComparable(asks, rank1, l1, c1, g1, l2, c2, g2);
      forall j | 0 <= j < |g1| ensures g1[j] == g2[j] { SumSqueeze(g1, g2, j); }
    } else {
      RoundsComparable(asks, rank1, l2, c2, g2, l1, c1, g1);
      forall j | 0 <= j < |g1| ensures g1[j] == g2[j] { SumSqueeze(g2, g1, j); }
    }
  }

  lemma SameRanks(keys: seq<RRKey>, order1: seq<nat>, rank1: seq<nat>, order2: seq<nat>, rank2: seq<nat>)
    requires |rank1| == |rank2| == |keys|
    requires Ranked(order1, rank1) && InOrder(keys, order1) && Ranked(order2, rank2) && InOrder(keys, order2)
    ensures rank1 == rank2
  {
    hide InOrder;
    forall j | 0 <= j < |rank1| ensures rank1[j] == rank2[j] {
      OrdersAgree(keys, order1, rank1, order2, rank2, rank1[j]);
    }
  }

  /** What was handed out, read off the final figures. */
  lemma HandedOut(surplusIn: real, surplus: real, requestedIn: real, requested: real)
    requires Whole(requestedIn) && Whole(requested) && surplus >= 0.0 && requested >= 0.0
    requires surplusIn - surplus == requestedIn - requested
    requires surplus < 1.0 || requested == 0.0
    ensures surplusIn - surplus == Min(surplusIn.Floor as real, requestedIn)
  {
    hide Whole;
    var handed := requestedIn - requested;
    WholeAdd(requestedIn, requested);
    if surplus < 1.0 {
      FloorIsWhole(surplusIn, handed);
    } else {
      FloorAtLeast(surplusIn, handed);
    }
  }

  /** The state between rounds: a fair outcome so far, and what is still unmet. */
  ghost predicate Served(asks: seq<real>, rank: seq<nat>, level: real, cut: nat, given: seq<real>, unmet: seq<real>) {
    && |asks| == |rank| == |given| == |unmet|
    && AllWhole(asks) && SurplusLoop.Nonneg(asks)
    && RoundRobinFair(asks, rank, level, cut, given)
    && forall j :: 0 <= j < |asks| ==> unmet[j] == asks[j] - given[j]
  }

  lemma ServedNothing(asks: seq<real>, rank: seq<nat>, given: seq<real>, unmet: seq<real>)
    requires |asks| == |rank| == |given| && unmet == asks
    requires AllWhole(asks) && SurplusLoop.Nonneg(asks)
    requires forall j :: 0 <= j < |given| ==> given[j] == 0.0
    ensures Served(asks, rank, 0.0, 0, given, unmet)
  {
    WholeInt(0, 0.0);
  }

  lemma ServedBounds(asks: seq<real>, rank: seq<nat>, level: real, cut: nat, given: seq<real>, unmet: seq<real>)
    requires Served(asks, rank, level, cut, given, unmet)
    ensures |asks| == |rank| == |given| == |unmet|
    ensures RoundRobinFair(asks, rank, level, cut, given)
    ensures forall j :: 0 <= j < |asks| ==> 0.0 <= given[j] <= asks[j] && Whole(given[j])
    ensures forall j :: 0 <= j < |asks| ==> 0.0 <= unmet[j] <= asks[j] && Whole(unmet[j])
    ensures Sum(given) + Sum(unmet) == Sum(asks) && Sum(unmet) >= 0.0
  {
    hide Sum, Whole;
    WholeInt(1, 1.0);
    WholeAdd(level, 1.0);
    forall j | 0 <= j < |asks| ensures Whole(unmet[j]) { WholeAdd(asks[j], given[j]); }
    SumPointwiseAdd(given, unmet, asks);
    SumNonneg(unmet);
  }

  /** A round on top of a level outcome: a full round raises the level, one cut short adds a slot before
      the cut. */
  lemma ServedOn(asks: seq<real>, rank: seq<nat>, level: real, g: seq<real>, u: seq<real>, amax: real, cut: nat,
                 g': seq<real>, u': seq<real>) returns (level': real, cut': nat)
    requires Served(asks, rank, level, 0, g, u) && |g'| == |u'| == |asks|
    requires amax >= 1.0 && Whole(amax) && (cut == |asks| || amax == 1.0)
    requires forall j :: 0 <= j < |asks| ==> rank[j] < |asks|
    requires forall j :: 0 <= j < |asks| ==>
               var d := RoundDraw(u[j], amax, rank[j] < cut);
               g'[j] == g[j] + d && u'[j] == u[j] - d
    ensures Served(asks, rank, level', cut', g', u')
    ensures cut == |asks| ==> cut' == 0
  {
    hide Whole;
    WholeAdd(level, amax);
    if cut == |asks| {
      level', cut' := level + amax, 0;
    } else {
      level', cut' := level, cut;
    }
  }

  lemma NobodyAsks(a: seq<real>)
    ensures |SurplusLoop.Unsatisfied(a[..0])| == 0
  {
    assert SurplusLoop.Unsatisfied(a[..0]) == {};
  }

  lemma AskingStep(a: seq<real>, j: nat)
    requires j < |a|
    ensures |SurplusLoop.Unsatisfied(a[..j + 1])| == |SurplusLoop.Unsatisfied(a[..j])| + (if a[j] > 0.0 then 1 else 0)
  {
    var before := SurplusLoop.Unsatisfied(a[..j]);
    assert SurplusLoop.Unsatisfied(a[..j + 1]) == if a[j] > 0.0 then before + {j} else before;
  }

  /** Copy out what each group asks for and count the groups that ask. */
  method CollectOutstanding(groups: seq<GroupNode>, ghost order: seq<nat>, ghost rank: seq<nat>)
    returns (asks: array<real>, outstanding: nat)
    requires |order| == |groups| && Ranked(order, rank)
    ensures fresh(asks) && asks[..] == SurplusLoop.Asks(groups)
    ensures outstanding == CountTo(asks[..], order, |order|)
  {
    hide SurplusLoop.Unsatisfied, CountTo, Ranked;
    asks := new real[|groups|];
    outstanding := 0;
    ghost var a := SurplusLoop.Asks(groups);
    NobodyAsks(a);
    for j := 0 to |groups|
      invariant forall k :: 0 <= k < j ==> asks[k] == a[k]
      invariant outstanding == |SurplusLoop.Unsatisfied(a[..j])|
    {
      AskingStep(a, j);
      asks[j] := 0.0;
      if groups[j].acceptSurplus && groups[j].subtreeRequested > 0.0 {
        asks[j] := groups[j].subtreeRequested;
        outstanding := outstanding + 1;
      }
    }
    assert a[..|groups|] == a == asks[..];
    CountIsUnsatisfied(a, order, rank);
  }

  /** The share each group may take in the next round. */
  method RoundSize(surplus: real, outstanding: nat, ghost u: seq<real>, ghost order: seq<nat>) returns (amax: real)
    requires surplus >= 1.0 && outstanding > 0
    requires (forall p :: 0 <= p < |order| ==> order[p] < |u|) && outstanding == CountTo(u, order, |order|)
    ensures amax >= 1.0 && Whole(amax) && amax <= surplus
    ensures Covers(u, order, 0, amax, surplus)
  {
    amax := Max(1.0, (surplus / (outstanding as real)).Floor as real);
    if amax != 1.0 {
      SharesFit(surplus, outstanding, amax);
      SharesStep(outstanding, amax);
    }
  }

  /** Hand out whole slots round after round. Everything that can be handed out whole is. */
  method ServeRounds(groups: seq<GroupNode>, surplusIn: real, requestedIn: real,
                     ghost asks: seq<real>, ghost keys: seq<RRKey>)
    returns (given: array<real>, surplus: real, requested: real)
    requires asks == SurplusLoop.Asks(groups) && keys == Keys(groups) && AllWhole(asks)
    requires surplusIn >= 1.0 && requestedIn == Sum(asks) > 0.0
    ensures fresh(given) && given.Length == |groups|
    ensures surplusIn - surplus == requestedIn - requested == Sum(given[..]) ==
            Min(surplusIn.Floor as real, requestedIn)
    ensures forall j :: 0 <= j < |groups| ==> 0.0 <= given[j] <= asks[j] && Whole(given[j])
    ensures RoundRobinDivision(asks, keys, given[..])
  {
    hide Sum, CountTo, Shares, Whole, Served;
    var order, rank := SortByRR(groups);
    var unmet, outstanding := CollectOutstanding(groups, order, rank);
    given := new real[|groups|](_ => 0.0);
    surplus, requested := surplusIn, requestedIn;
    ghost var level, cut := 0.0, 0;
    ServedNothing(asks, rank, given[..], unmet[..]);
    while surplus >= 1.0 && requested > 0.0
      invariant surplus >= 0.0
      invariant Served(asks, rank, level, cut, given[..], unmet[..])
      invariant surplusIn - surplus == requestedIn - requested
      invariant requested == Sum(unmet[..])
      invariant surplus < 1.0 || (cut == 0 && outstanding == CountTo(unmet[..], order, |order|))
      decreases requested.Floor
    {
      ServedBounds(asks, rank, level, cut, given[..], unmet[..]);
      SomebodyAsks(unmet[..], order, rank);
      ghost var g, u := given[..], unmet[..];
      var amax := RoundSize(surplus, outstanding, unmet[..], order);
      FloorDrops(requested, requested - 1.0);
      var sum;
      surplus, requested, sum, outstanding, cut := ServeRound(groups, order, given, unmet, surplus, requested, amax,
          rank);
      level, cut := ServedOn(asks, rank, level, g, u, amax, cut, given[..], unmet[..]);
      if sum < 1.0 {
        break;
      }
    }
    ServedBounds(asks, rank, level, cut, given[..], unmet[..]);
    WholeSum(asks);
    WholeSum(unmet[..]);
    HandedOut(surplusIn, surplus, requestedIn, requested);
    assert OrderedRounds(asks, keys, given[..], order, rank, level, cut);
  }
}
