/** The accountant's records, and what each operation does to the balance between them and the history of
    matches. Times are whole seconds. */
module Ledger {
  import opened Holds
  import opened Options
  import opened RealSums

  const MIN_PRIORITY := 0.5

  /** One parsed token of a concurrency-limit list: a lower-case name and a positive weight. */
  datatype LimitUse = LimitUse(name: string, weight: real)

  /** A Customer record. An attribute that is absent reads as zero, which only matters for the optional ones. */
  datatype Customer = Customer(
    resourcesUsed: int,
    weightedUsed: real,
    uncharged: int,
    weightedUncharged: real,
    accumulated: int,
    weightedAccumulated: Option<real>,
    priority: real,
    factor: Option<real>,
    hierUsed: real)

  const NOBODY := Customer(0, 0.0, 0, 0.0, 0, None, 0.0, None, 0.0)

  /** A Resource record. */
  datatype Resource = Resource(customer: string, weight: real, start: int, limits: seq<LimitUse>)

  type Customers = map<string, Customer>

  function Rec(m: Customers, x: string): Customer {
    if x in m then m[x] else NOBODY
  }

  /** The stored weighted usage. */
  function Stored(c: Customer): real {
    if c.weightedAccumulated.Some? then c.weightedAccumulated.value else 0.0
  }

  function Limit(limits: map<string, real>, l: string): real {
    if l in limits then limits[l] else 0.0
  }

  /** The valid tokens of a concurrency-limit list; no list has none. */
  function Listed(uses: Option<seq<LimitUse>>): seq<LimitUse> {
    if uses.Some? then uses.value else []
  }

  /** How much of limit `l` a list of tokens asks for. */
  function UseOf(uses: seq<LimitUse>, l: string): real {
    if |uses| == 0 then 0.0
    else UseOf(uses[..|uses| - 1], l) + (if uses[|uses| - 1].name == l then uses[|uses| - 1].weight else 0.0)
  }

  // ----- one record at a time -----

  /** A name is charged once as the customer and once as the customer's group. */
  function Dose(customer: string, x: string, v: int): int {
    (if customer == x then v else 0) + (if AssignedGroupName(customer) == x then v else 0)
  }

  function Shifted(c: Customer, n: int, weight: real, seconds: int, weightedSeconds: real): Customer {
    c.(resourcesUsed := c.resourcesUsed + n, weightedUsed := c.weightedUsed + weight,
       uncharged := c.uncharged + seconds, weightedUncharged := c.weightedUncharged + weightedSeconds)
  }

  /** `x`'s record took on (`n` = 1) or gave up (`n` = -1) its part of a match; its subtree usage aside. */
  ghost predicate Moved(c: Customer, c': Customer, customer: string, x: string,
                        n: int, weight: real, seconds: int, weightedSeconds: real)
  {
    c' == Shifted(c, Dose(customer, x, n), Part(customer, x, Weight, weight), Dose(customer, x, seconds),
                  Part(customer, x, Weight, weightedSeconds)).(hierUsed := c'.hierUsed)
  }

  ghost predicate AllMoved(was: Customers, now: Customers, customer: string,
                           n: int, weight: real, seconds: int, weightedSeconds: real)
  {
    forall x :: Moved(Rec(was, x), Rec(now, x), customer, x, n, weight, seconds, weightedSeconds)
  }

  /** Slots in use and time charged agree with the history; `last` is the time of the last tick. */
  ghost predicate Balanced(c: Customer, hs: seq<Hold>, last: int, x: string) {
    && c.resourcesUsed as real == InUse(hs, x, Count)
    && c.weightedUsed == InUse(hs, x, Weight)
    && (c.accumulated + c.uncharged) as real == Paid(hs, x, Count, last)
  }

  ghost predicate WeightBalanced(c: Customer, hs: seq<Hold>, last: int, x: string) {
    && Stored(c) + c.weightedUncharged == Paid(hs, x, Weight, last)
    && (c.weightedAccumulated.None? ==> c.accumulated == 0)
  }

  ghost predicate AllBalanced(m: Customers, hs: seq<Hold>, last: int) {
    forall x :: Balanced(Rec(m, x), hs, last, x)
  }

  ghost predicate AllWeightBalanced(m: Customers, hs: seq<Hold>, last: int) {
    forall x :: WeightBalanced(Rec(m, x), hs, last, x)
  }

  ghost predicate AllRolled(m: Customers, hs: seq<Hold>) {
    forall x :: Rec(m, x).hierUsed == InUse(hs, x, Subtree)
  }

  lemma DoseIsPart(customer: string, x: string, v: int)
    ensures Part(customer, x, Count, v as real) == Dose(customer, x, v) as real
  {
    hide AssignedGroupName;
  }

  lemma PartNegated(customer: string, x: string, m: Measure, v: real)
    ensures Part(customer, x, m, -v) == -Part(customer, x, m, v)
  {
    hide AssignedGroupName;
  }

  lemma OverOne(seconds: int)
    ensures Over(1.0, seconds) == seconds as real
  {
  }

  lemma OverNegated(rate: real, seconds: int)
    ensures Over(rate, -seconds) == -Over(rate, seconds)
  {
  }

  // ----- a customer, its group and the ancestors -----

  function Raised(c: Customer, hit: bool, weight: real): Customer {
    if !hit then c
    else if weight < 0.0 then c.(hierUsed := Max(0.0, c.hierUsed + weight))
    else c.(hierUsed := c.hierUsed + weight)
  }

  ghost predicate RaisedAll(was: Customers, now: Customers, names: seq<string>, weight: real) {
    forall x :: Rec(now, x) == Raised(Rec(was, x), x in names, weight)
  }

  /** Only subtree usage is compared: it rose by `weight` for the listed names. */
  ghost predicate RaisedBy(was: Customers, now: Customers, names: seq<string>, weight: real) {
    forall x :: Rec(now, x).hierUsed == Raised(Rec(was, x), x in names, weight).hierUsed
  }

  lemma NoneRaised(m: Customers, weight: real)
    ensures RaisedAll(m, m, [], weight)
  {
  }

  lemma RaiseOne(was: Customers, m: Customers, done: seq<string>, part: string, weight: real, h: real, next: Customers)
    requires RaisedAll(was, m, done, weight) && part !in done
    requires var raised := Rec(m, part).hierUsed + weight; h == if weight < 0.0 && raised < 0.0 then 0.0 else raised
    requires next == m[part := Rec(m, part).(hierUsed := h)]
    ensures RaisedAll(was, next, done + [part], weight)
  {
    forall x ensures Rec(next, x) == Raised(Rec(was, x), x in done + [part], weight) {
      if x == part {
        assert Rec(m, x) == Rec(was, x);
      } else {
        assert x in done + [part] <==> x in done;
        assert Rec(next, x) == Rec(m, x);
      }
    }
  }

  /** The walk up from a group has passed `done` and has come to `part`. */
  ghost predicate Climbed(group: string, done: seq<string>, part: string) {
    done + AncestorChain(part) == AncestorChain(group) && forall x :: x in done ==> |x| > |part|
  }

  lemma ClimbStarts(group: string)
    ensures Climbed(group, [], group)
  {
    hide AncestorChain;
    assert [] + AncestorChain(group) == AncestorChain(group);
  }

  lemma {:induction false} ClimbOn(group: string, done: seq<string>, part: string)
    requires Climbed(group, done, part) && part != ""
    ensures var dot := LastIndex(part, '.');
            part !in done && Climbed(group, done + [part], if dot >= 0 then part[..dot] else "")
  {
    var dot := LastIndex(part, '.');
    var rest := AncestorChain(if dot >= 0 then part[..dot] else "");
    assert AncestorChain(part) == [part] + rest;
    assert done + ([part] + rest) == done + [part] + rest;
  }

  lemma ClimbEnds(group: string, done: seq<string>)
    requires Climbed(group, done, "")
    ensures done == AncestorChain(group)
  {
    assert AncestorChain("") == [] && done + [] == done;
  }

  lemma MovedAt(c: Customer, once: Customer, twice: Customer, now: Customer,
                customer: string, x: string, n: int, weight: real, seconds: int, weightedSeconds: real)
    requires once == if customer == x then Shifted(c, n, weight, seconds, weightedSeconds) else c
    requires twice == if AssignedGroupName(customer) == x then Shifted(once, n, weight, seconds, weightedSeconds)
             else once
    requires now == Raised(twice, x in AncestorChain(AssignedGroupName(customer)), weight)
    ensures Moved(c, now, customer, x, n, weight, seconds, weightedSeconds)
    ensures now.hierUsed == Raised(c, x in AncestorChain(AssignedGroupName(customer)), weight).hierUsed
  {
    hide AncestorChain, AssignedGroupName;
  }

  lemma ChargedTwice(was: Customers, once: Customers, twice: Customers, now: Customers,
                     customer: string, n: int, weight: real, seconds: int, weightedSeconds: real)
    requires once == was[customer := Shifted(Rec(was, customer), n, weight, seconds, weightedSeconds)]
    requires var group := AssignedGroupName(customer);
             && twice == once[group := Shifted(Rec(once, group), n, weight, seconds, weightedSeconds)]
             && RaisedAll(twice, now, AncestorChain(group), weight)
    ensures AllMoved(was, now, customer, n, weight, seconds, weightedSeconds)
    ensures RaisedBy(was, now, AncestorChain(AssignedGroupName(customer)), weight)
  {
    hide AncestorChain, AssignedGroupName, Moved, Raised, Shifted;
    var group := AssignedGroupName(customer);
    forall x
      ensures Moved(Rec(was, x), Rec(now, x), customer, x, n, weight, seconds, weightedSeconds)
      ensures Rec(now, x).hierUsed == Raised(Rec(was, x), x in AncestorChain(group), weight).hierUsed
    {
      MovedAt(Rec(was, x), Rec(once, x), Rec(twice, x), Rec(now, x), customer, x, n, weight, seconds, weightedSeconds);
    }
  }

  // ----- adding a match -----

  lemma AddBalances(c: Customer, c': Customer, hs: seq<Hold>, h: Hold, last: int, x: string)
    requires h.end.None? && h.lost == 0
    requires Moved(c, c', h.customer, x, 1, h.weight, last - h.start, Over(h.weight, last - h.start))
    ensures Balanced(c, hs, last, x) ==> Balanced(c', hs + [h], last, x)
    ensures WeightBalanced(c, hs, last, x) ==> WeightBalanced(c', hs + [h], last, x)
    ensures Weighed(c, hs, last, x) ==> Weighed(c', hs + [h], last, x)
  {
    hide Part, Dose, Over, InUse, Paid;
    HoldAdded(hs, h, x, Count, last);
    HoldAdded(hs, h, x, Weight, last);
    DoseIsPart(h.customer, x, 1);
    DoseIsPart(h.customer, x, last - h.start);
    OverOne(last - h.start);
  }

  lemma AddKeepsBooks(was: Customers, now: Customers, hs: seq<Hold>, h: Hold, last: int)
    requires h.end.None? && h.lost == 0
    requires AllMoved(was, now, h.customer, 1, h.weight, last - h.start, Over(h.weight, last - h.start))
    ensures AllBalanced(was, hs, last) ==> AllBalanced(now, hs + [h], last)
    ensures AllWeightBalanced(was, hs, last) ==> AllWeightBalanced(now, hs + [h], last)
    ensures AllWeighed(was, hs, last) ==> AllWeighed(now, hs + [h], last)
  {
    hide Moved, Balanced, WeightBalanced, Weighed;
    forall x
      ensures Balanced(Rec(was, x), hs, last, x) ==> Balanced(Rec(now, x), hs + [h], last, x)
      ensures Weighed(Rec(was, x), hs, last, x) ==> Weighed(Rec(now, x), hs + [h], last, x)
      ensures WeightBalanced(Rec(was, x), hs, last, x) ==> WeightBalanced(Rec(now, x), hs + [h], last, x)
    {
      AddBalances(Rec(was, x), Rec(now, x), hs, h, last, x);
    }
  }

  lemma AddKeepsSubtrees(was: Customers, now: Customers, hs: seq<Hold>, h: Hold)
    requires h.end.None? && h.weight >= 0.0
    requires RaisedBy(was, now, AncestorChain(AssignedGroupName(h.customer)), h.weight)
    ensures AllRolled(was, hs) ==> AllRolled(now, hs + [h])
  {
    hide AncestorChain, AssignedGroupName, InUse;
    forall x ensures Rec(was, x).hierUsed == InUse(hs, x, Subtree) ==>
      Rec(now, x).hierUsed == InUse(hs + [h], x, Subtree) {
      HoldAdded(hs, h, x, Subtree, 0);
    }
  }

  // ----- removing a match -----

  /** How far a match began after the last tick. */
  function Early(start: int, last: int): nat {
    if start > last then start - last else 0
  }

  /** The hold as it ends at `t`. Time charged in advance back to the last tick is never repaid if the match
      began after that tick. */
  ghost function Ended(h: Hold, last: int, t: int): Hold {
    h.(end := Some(t), lost := h.lost + Early(h.start, last))
  }

  lemma EndedTerms(h: Hold, last: int, t: int, x: string, m: Measure)
    requires h.end.None?
    ensures OpenTerm(Ended(h, last, t), x, m) == 0.0
    ensures PaidTerm(Ended(h, last, t), x, m, last)
            == PaidTerm(h, x, m, last) + Part(h.customer, x, m, Over(Rate(h, m), t - last - Early(h.start, last)))
  {
    hide Part, Over;
    var e, gain := Ended(h, last, t), t - last - Early(h.start, last);
    assert Rate(e, m) == Rate(h, m);
    PartOfNothing(h.customer, x, m);
    assert Age(e, last) - e.lost == Age(h, last) - h.lost + gain;
    Distribute(Rate(h, m), Age(h, last) - h.lost, gain);
    PartAdds(h.customer, x, m, Over(Rate(h, m), Age(h, last) - h.lost), Over(Rate(h, m), gain));
  }

  lemma RemoveBalances(c: Customer, c': Customer, hs: seq<Hold>, k: nat, last: int, t: int, x: string)
    requires k < |hs| && hs[k].end.None?
    requires var seconds := t - last - Early(hs[k].start, last);
             Moved(c, c', hs[k].customer, x, -1, -hs[k].weight, seconds, Over(hs[k].weight, seconds))
    ensures Balanced(c, hs, last, x) ==> Balanced(c', hs[k := Ended(hs[k], last, t)], last, x)
    ensures WeightBalanced(c, hs, last, x) ==> WeightBalanced(c', hs[k := Ended(hs[k], last, t)], last, x)
    ensures Weighed(c, hs, last, x) ==> Weighed(c', hs[k := Ended(hs[k], last, t)], last, x)
  {
    hide Part, Dose, Over, InUse, Paid;
    var h, e := hs[k], Ended(hs[k], last, t);
    HoldReplaced(hs, k, e, x, Count, last);
    HoldReplaced(hs, k, e, x, Weight, last);
    EndedTerms(h, last, t, x, Count);
    EndedTerms(h, last, t, x, Weight);
    DoseIsPart(h.customer, x, -1);
    PartNegated(h.customer, x, Count, 1.0);
    PartNegated(h.customer, x, Weight, h.weight);
    DoseIsPart(h.customer, x, t - last - Early(h.start, last));
    OverOne(t - last - Early(h.start, last));
  }

  /** One record gives up a match; neither counter falls below zero. */
  function Settled(c: Customer, weight: real, seconds: int): Customer {
    c.(resourcesUsed := if c.resourcesUsed > 0 then c.resourcesUsed - 1 else c.resourcesUsed,
       weightedUsed := Max(0.0, c.weightedUsed - weight),
       uncharged := c.uncharged + seconds,
       weightedUncharged := c.weightedUncharged + Over(weight, seconds))
  }

  ghost function SettledTwice(was: Customers, customer: string, weight: real, seconds: int): Customers {
    var once := was[customer := Settled(Rec(was, customer), weight, seconds)];
    var group := AssignedGroupName(customer);
    once[group := Settled(Rec(once, group), weight, seconds)]
  }

  /** While the books balance, the floors never act. */
  lemma FloorsIdle(was: Customers, hs: seq<Hold>, k: nat, last: int, seconds: int)
    requires AllBalanced(was, hs, last) && Weighty(hs) && k < |hs| && hs[k].end.None?
    ensures var customer, weight := hs[k].customer, hs[k].weight;
            var group := AssignedGroupName(customer);
            var once := was[customer := Shifted(Rec(was, customer), -1, -weight, seconds, Over(weight, seconds))];
            SettledTwice(was, customer, weight, seconds)
            == once[group := Shifted(Rec(once, group), -1, -weight, seconds, Over(weight, seconds))]
  {
    hide InUse, Paid, AssignedGroupName, Over;
    var customer, group := hs[k].customer, AssignedGroupName(hs[k].customer);
    InUseAtLeast(hs, k, customer, Count);
    InUseAtLeast(hs, k, customer, Weight);
    InUseAtLeast(hs, k, group, Count);
    InUseAtLeast(hs, k, group, Weight);
    assert Balanced(Rec(was, customer), hs, last, customer);
    assert Balanced(Rec(was, group), hs, last, group);
  }

  lemma RemoveKeepsBooks(was: Customers, now: Customers, hs: seq<Hold>, k: nat, last: int, t: int)
    requires k < |hs| && hs[k].end.None? && Weighty(hs)
    requires AllBalanced(was, hs, last)
    requires var seconds := t - last - Early(hs[k].start, last);
             RaisedAll(SettledTwice(was, hs[k].customer, hs[k].weight, seconds), now,
                       AncestorChain(AssignedGroupName(hs[k].customer)), -hs[k].weight)
    ensures var seconds := t - last - Early(hs[k].start, last);
            AllMoved(was, now, hs[k].customer, -1, -hs[k].weight, seconds, Over(hs[k].weight, seconds))
    ensures AllBalanced(now, hs[k := Ended(hs[k], last, t)], last)
    ensures AllWeightBalanced(was, hs, last) ==> AllWeightBalanced(now, hs[k := Ended(hs[k], last, t)], last)
    ensures AllWeighed(was, hs, last) ==> AllWeighed(now, hs[k := Ended(hs[k], last, t)], last)
  {
    hide Moved, Balanced, WeightBalanced, Weighed, RaisedAll, RaisedBy, AssignedGroupName, AncestorChain, Over, Shifted,
      Settled;
    var h, seconds := hs[k], t - last - Early(hs[k].start, last);
    FloorsIdle(was, hs, k, last, seconds);
    var once := was[h.customer := Shifted(Rec(was, h.customer), -1, -h.weight, seconds, Over(h.weight, seconds))];
    ChargedTwice(was, once, SettledTwice(was, h.customer, h.weight, seconds), now,
                 h.customer, -1, -h.weight, seconds, Over(h.weight, seconds));
    forall x
      ensures Balanced(Rec(now, x), hs[k := Ended(h, last, t)], last, x)
      ensures Weighed(Rec(was, x), hs, last, x) ==> Weighed(Rec(now, x), hs[k := Ended(h, last, t)], last, x)
      ensures WeightBalanced(Rec(was, x), hs, last, x) ==>
                WeightBalanced(Rec(now, x), hs[k := Ended(h, last, t)], last, x)
    {
      RemoveBalances(Rec(was, x), Rec(now, x), hs, k, last, t, x);
    }
  }

  lemma RemoveKeepsSubtrees(was: Customers, now: Customers, hs: seq<Hold>, k: nat, last: int, t: int, seconds: int)
    requires k < |hs| && hs[k].end.None? && Weighty(hs)
    requires RaisedAll(SettledTwice(was, hs[k].customer, hs[k].weight, seconds), now,
                       AncestorChain(AssignedGroupName(hs[k].customer)), -hs[k].weight)
    ensures AllRolled(was, hs) ==> AllRolled(now, hs[k := Ended(hs[k], last, t)])
  {
    hide InUse, AssignedGroupName, AncestorChain, Over;
    var h, e := hs[k], Ended(hs[k], last, t);
    var twice := SettledTwice(was, h.customer, h.weight, seconds);
    forall x ensures Rec(was, x).hierUsed == InUse(hs, x, Subtree) ==>
      Rec(now, x).hierUsed == InUse(hs[k := e], x, Subtree) {
      HoldReplaced(hs, k, e, x, Subtree, 0);
      InUseAtLeast(hs, k, x, Subtree);
      assert Rec(twice, x).hierUsed == Rec(was, x).hierUsed;
      assert Rec(now, x) == Raised(Rec(twice, x), x in AncestorChain(AssignedGroupName(h.customer)), -h.weight);
    }
  }

  // ----- the tick -----

  function NewAccumulated(c: Customer, passed: int): int {
    c.accumulated + c.resourcesUsed * passed + c.uncharged
  }

  /** The weighted usage a tick starts from: without a stored one, the unweighted usage. */
  function WeightedBase(c: Customer): real {
    if c.weightedAccumulated.Some? then c.weightedAccumulated.value else c.accumulated as real
  }

  function WeightedGain(c: Customer, passed: int): real {
    Over(c.weightedUsed, passed) + c.weightedUncharged
  }

  /** The recent weighted usage that priority moves towards; a group with usage below it uses the subtree's. */
  function RecentUsage(c: Customer, passed: int): real
    requires passed > 0
  {
    if c.hierUsed > 0.0 then c.hierUsed else c.weightedUsed + c.weightedUncharged / (passed as real)
  }

  function Floored(priority: real): real {
    Max(priority, MIN_PRIORITY)
  }

  function NewPriority(c: Customer, passed: int, aging: real): real
    requires passed > 0
  {
    Floored(c.priority) * aging + RecentUsage(c, passed) * (1.0 - aging)
  }

  /** The record is dropped: no slots in use, no time ever charged, no factor set, and a priority below the floor. */
  predicate Collected(c: Customer, passed: int, aging: real)
    requires passed > 0
  {
    && NewPriority(c, passed, aging) < MIN_PRIORITY
    && c.resourcesUsed == 0 && NewAccumulated(c, passed) == 0 && c.factor.None?
  }

  /** What a tick does to a record that stays. */
  ghost predicate Ticked(c: Customer, c': Customer, passed: int, aging: real)
    requires passed > 0
  {
    && c'.accumulated == NewAccumulated(c, passed) && c'.uncharged == 0 && c'.weightedUncharged == 0.0
    && (WeightedGain(c, passed) == 0.0 ==> c'.weightedAccumulated == c.weightedAccumulated)
    && (WeightedGain(c, passed) != 0.0 ==> c'.weightedAccumulated == Some(WeightedBase(c) + WeightedGain(c, passed)))
    && Floored(c'.priority) == Floored(NewPriority(c, passed, aging))
    && c'.resourcesUsed == c.resourcesUsed && c'.weightedUsed == c.weightedUsed
    && c'.hierUsed == c.hierUsed && c'.factor == c.factor
  }

  /** A record after a tick: folded, or collected and so empty. */
  ghost predicate TickedTo(c: Customer, c': Customer, passed: int, aging: real)
    requires passed > 0
  {
    if Collected(c, passed, aging) then c' == NOBODY else Ticked(c, c', passed, aging)
  }

  ghost predicate TickedAll(was: Customers, now: Customers, passed: int, aging: real)
    requires passed > 0
  {
    forall x :: if x in was then TickedTo(was[x], Rec(now, x), passed, aging) else Rec(now, x) == NOBODY
  }

  /** Halfway through a tick: the names still to come are untouched. */
  ghost predicate TickedOutside(was: Customers, now: Customers, names: set<string>, passed: int, aging: real)
    requires passed > 0
  {
    && (forall x :: x in names ==> x in was && Rec(now, x) == was[x])
    && (forall x :: x in was && x !in names ==> TickedTo(was[x], Rec(now, x), passed, aging))
    && (forall x :: x !in was ==> Rec(now, x) == NOBODY)
  }

  lemma Between(p: real, r: real, aging: real)
    requires 0.0 < aging < 1.0
    ensures Min(p, r) <= p * aging + r * (1.0 - aging) <= Max(p, r)
  {
    var v := p * aging + r * (1.0 - aging);
    assert v - r == (p - r) * aging;
    assert p - v == (p - r) * (1.0 - aging);
    if p >= r {
      ProductNonneg(p - r, aging);
      ProductNonneg(p - r, 1.0 - aging);
    } else {
      ProductNonneg(r - p, aging);
      ProductNonneg(r - p, 1.0 - aging);
      assert (p - r) * aging == -((r - p) * aging);
      assert (p - r) * (1.0 - aging) == -((r - p) * (1.0 - aging));
    }
  }

  /** Priority moves from where it was towards recent usage and never past either. */
  lemma PriorityBetween(c: Customer, passed: int, aging: real)
    requires passed > 0 && 0.0 < aging < 1.0
    ensures Min(Floored(c.priority), RecentUsage(c, passed)) <= NewPriority(c, passed, aging)
    ensures NewPriority(c, passed, aging) <= Max(Floored(c.priority), RecentUsage(c, passed))
  {
    Between(Floored(c.priority), RecentUsage(c, passed), aging);
  }

  /** Under steady usage two ticks age a priority exactly as one tick over both intervals does: how often the
      accountant ticks makes no difference. */
  lemma DecayComposes(c: Customer, passed1: int, aging1: real, passed2: int, aging2: real)
    requires passed1 > 0 && passed2 > 0 && c.weightedUncharged == 0.0
    requires NewPriority(c, passed1, aging1) >= MIN_PRIORITY
    ensures NewPriority(c.(priority := NewPriority(c, passed1, aging1)), passed2, aging2)
            == NewPriority(c, passed1 + passed2, aging1 * aging2)
  {
    var p, r := Floored(c.priority), RecentUsage(c, passed1);
    assert (p * aging1 + r * (1.0 - aging1)) * aging2 + r * (1.0 - aging2)
        == p * (aging1 * aging2) + r * (1.0 - aging1 * aging2);
  }

  lemma TickBalances(c: Customer, c': Customer, hs: seq<Hold>, last: int, t: int, aging: real, x: string)
    requires t > last && Balanced(c, hs, last, x) && Weighty(hs)
    requires if Collected(c, t - last, aging) then c' == NOBODY else Ticked(c, c', t - last, aging)
    ensures Balanced(c', hs, t, x)
  {
    hide InUse, Paid, NewPriority, Floored, WeightedGain, WeightedBase;
    PaidLater(hs, x, Count, last, t - last);
    if Collected(c, t - last, aging) {
      NothingInUse(hs, x);
    }
  }

  lemma NobodyBalances(hs: seq<Hold>, last: int, t: int, x: string)
    requires Balanced(NOBODY, hs, last, x)
    ensures Balanced(NOBODY, hs, t, x)
    ensures WeightBalanced(NOBODY, hs, last, x) ==> WeightBalanced(NOBODY, hs, t, x)
  {
    PaidLater(hs, x, Count, last, t - last);
    PaidLater(hs, x, Weight, last, t - last);
  }

  /** What a tick needs to keep a record's weighted usage. A record it collects must have none. A record that stays
      must have a stored weighted usage, or no accumulated usage yet, or gain nothing: otherwise unweighted usage
      is taken for the weighted one. */
  ghost predicate KeepsWeight(c: Customer, passed: int, aging: real)
    requires passed > 0
  {
    if Collected(c, passed, aging) then Stored(c) + c.weightedUncharged == 0.0
    else c.weightedAccumulated.Some? || c.accumulated == 0 || WeightedGain(c, passed) == 0.0
  }

  /** The weighted books of a name stay exact through a tick if and only if its record keeps its weight. */
  lemma WeightedTickExact(c: Customer, c': Customer, hs: seq<Hold>, last: int, t: int, aging: real, x: string)
    requires t > last && Balanced(c, hs, last, x) && Weighty(hs) && TickedTo(c, c', t - last, aging)
    requires Stored(c) + c.weightedUncharged == Paid(hs, x, Weight, last)
    ensures Stored(c') + c'.weightedUncharged == Paid(hs, x, Weight, t) <==> KeepsWeight(c, t - last, aging)
  {
    hide InUse, Paid, NewPriority, Floored;
    PaidLater(hs, x, Weight, last, t - last);
    assert Over(c.weightedUsed, t - last) == ((t - last) as real) * InUse(hs, x, Weight);
    if Collected(c, t - last, aging) {
      NothingInUse(hs, x);
    }
  }

  ghost predicate Weighed(c: Customer, hs: seq<Hold>, last: int, x: string) {
    Stored(c) + c.weightedUncharged == Paid(hs, x, Weight, last)
  }

  /** The weighted time charged to every name is what its slots were held for, less what was lost. */
  ghost predicate AllWeighed(m: Customers, hs: seq<Hold>, last: int) {
    forall x :: Weighed(Rec(m, x), hs, last, x)
  }

  /** The weighted books stay exact through a tick if and only if every record keeps its weight. */
  lemma TickKeepsEveryWeight(was: Customers, now: Customers, hs: seq<Hold>, last: int, t: int, aging: real)
    requires t > last && Weighty(hs) && AllBalanced(was, hs, last) && AllWeighed(was, hs, last)
    requires TickedAll(was, now, t - last, aging)
    ensures AllWeighed(now, hs, t) <==> forall x :: x in was ==> KeepsWeight(was[x], t - last, aging)
  {
    hide Balanced, TickedTo, KeepsWeight, Paid, InUse;
    forall x ensures Weighed(Rec(now, x), hs, t, x) <==> (x in was ==> KeepsWeight(was[x], t - last, aging)) {
      assert Balanced(Rec(was, x), hs, last, x) && Weighed(Rec(was, x), hs, last, x);
      if x in was {
        WeightedTickExact(was[x], Rec(now, x), hs, last, t, aging, x);
      } else {
        NobodyWeighed(hs, last, t, x);
      }
    }
  }

  lemma NobodyWeighed(hs: seq<Hold>, last: int, t: int, x: string)
    requires Balanced(NOBODY, hs, last, x) && Weighed(NOBODY, hs, last, x)
    ensures Weighed(NOBODY, hs, t, x)
  {
    hide Paid, InUse;
    PaidLater(hs, x, Weight, last, t - last);
  }

  lemma TickKeepsWeights(c: Customer, c': Customer, hs: seq<Hold>, last: int, t: int, aging: real, x: string)
    requires t > last && Balanced(c, hs, last, x) && WeightBalanced(c, hs, last, x) && Honest(hs, t)
    requires TickedTo(c, c', t - last, aging)
    ensures WeightBalanced(c', hs, t, x)
  {
    hide InUse, Paid, NewPriority, Floored, WeightedGain;
    PaidAgree(hs, x, t);
    PaidLater(hs, x, Count, last, t - last);
    if Collected(c, t - last, aging) {
    } else {
      WeightedTickExact(c, c', hs, last, t, aging, x);
    }
  }

  /** A tick collects this record although slots are in use below it: their weight is too small to hold the priority
      at its floor, and the group itself was never charged. */
  predicate ForgetsSubtree(c: Customer, aging: real) {
    && c.hierUsed > 0.0 && Floored(c.priority) * aging + c.hierUsed * (1.0 - aging) < MIN_PRIORITY
    && c.resourcesUsed == 0 && c.accumulated + c.uncharged == 0 && c.factor.None?
  }

  /** For a record at the priority floor, small means below the floor. */
  lemma SmallSubtree(c: Customer, aging: real)
    requires 0.0 < aging < 1.0 && c.priority <= MIN_PRIORITY
    ensures ForgetsSubtree(c, aging) <==>
              0.0 < c.hierUsed < MIN_PRIORITY && c.resourcesUsed == 0 && c.accumulated + c.uncharged == 0 &&
                c.factor.None?
  {
    AgedBelow(MIN_PRIORITY, c.hierUsed, aging);
  }

  lemma AgedBelow(floor: real, h: real, aging: real)
    requires 0.0 < aging < 1.0
    ensures floor * aging + h * (1.0 - aging) < floor <==> h < floor
  {
    var d := 1.0 - aging;
    assert floor - (floor * aging + h * d) == (floor - h) * d by {
      assert floor * (aging + d) == floor * aging + floor * d;
    }
    if h < floor {
      ProductPositive(floor - h, d);
    } else {
      ProductNonneg(h - floor, d);
      assert (floor - h) * d == -((h - floor) * d);
    }
  }

  /** A tick keeps a name's subtree usage if and only if it does not forget it. */
  lemma SubtreeTickExact(c: Customer, c': Customer, hs: seq<Hold>, passed: int, aging: real, x: string)
    requires passed > 0 && Weighty(hs) && c.hierUsed == InUse(hs, x, Subtree) && TickedTo(c, c', passed, aging)
    ensures c'.hierUsed == InUse(hs, x, Subtree) <==> !ForgetsSubtree(c, aging)
  {
    hide InUse, Floored;
    InUseNonneg(hs, x, Subtree);
    if c.hierUsed > 0.0 {
      CollectedAbove(c, passed, aging);
    }
  }

  lemma CollectedAbove(c: Customer, passed: int, aging: real)
    requires passed > 0 && c.hierUsed > 0.0
    ensures Collected(c, passed, aging) <==> ForgetsSubtree(c, aging)
  {
    hide Floored;
    var r := RecentUsage(c, passed);
    assert r == c.hierUsed;
    assert NewPriority(c, passed, aging) == Floored(c.priority) * aging + c.hierUsed * (1.0 - aging);
  }

  /** A tick keeps every group's subtree usage if and only if it forgets none. */
  lemma TickKeepsSubtrees(was: Customers, now: Customers, hs: seq<Hold>, passed: int, aging: real)
    requires passed > 0 && Weighty(hs) && AllRolled(was, hs) && TickedAll(was, now, passed, aging)
    ensures AllRolled(now, hs) <==> forall x :: x in was ==> !ForgetsSubtree(was[x], aging)
  {
    hide InUse, TickedTo, ForgetsSubtree;
    forall x ensures Rec(now, x).hierUsed == InUse(hs, x, Subtree) <==> !(x in was && ForgetsSubtree(was[x], aging)) {
      assert Rec(was, x).hierUsed == InUse(hs, x, Subtree);
      if x in was {
        SubtreeTickExact(was[x], Rec(now, x), hs, passed, aging, x);
      }
    }
  }

  lemma RewindKeepsSubtrees(m: Customers, hs: seq<Hold>, d: int)
    ensures AllRolled(m, hs) ==> AllRolled(m, Rewound(hs, d))
  {
    hide InUse, Rewound;
    forall x ensures InUse(Rewound(hs, d), x, Subtree) == InUse(hs, x, Subtree) {
      RewoundIsPaid(hs, x, Subtree, 0, d);
    }
  }

  lemma TickKeepsBooks(was: Customers, now: Customers, hs: seq<Hold>, last: int, t: int, aging: real)
    requires t > last && Weighty(hs) && TickedAll(was, now, t - last, aging)
    ensures AllBalanced(was, hs, last) ==> AllBalanced(now, hs, t)
    ensures AllBalanced(was, hs, last) && AllWeightBalanced(was, hs, last) && Honest(hs, t) ==>
              AllWeightBalanced(now, hs, t)
  {
    hide Balanced, WeightBalanced, Ticked, Collected, Honest;
    forall x
      ensures Balanced(Rec(was, x), hs, last, x) ==> Balanced(Rec(now, x), hs, t, x)
      ensures Balanced(Rec(was, x), hs, last, x) && WeightBalanced(Rec(was, x), hs, last, x) && Honest(hs, t)
              ==> WeightBalanced(Rec(now, x), hs, t, x)
    {
      if Balanced(Rec(was, x), hs, last, x) {
        if x in was {
          TickBalances(was[x], Rec(now, x), hs, last, t, aging, x);
          if WeightBalanced(Rec(was, x), hs, last, x) && Honest(hs, t) {
            TickKeepsWeights(was[x], Rec(now, x), hs, last, t, aging, x);
          }
        } else {
          NobodyBalances(hs, last, t, x);
        }
      }
    }
  }

  lemma RewindKeepsBooks(m: Customers, hs: seq<Hold>, last: int, d: nat)
    ensures AllBalanced(m, hs, last) ==> AllBalanced(m, Rewound(hs, d), last - d)
  {
    hide InUse, Paid, Rewound;
    forall x ensures Balanced(Rec(m, x), hs, last, x) ==> Balanced(Rec(m, x), Rewound(hs, d), last - d, x) {
      RewoundIsPaid(hs, x, Count, last, d);
      RewoundIsPaid(hs, x, Weight, last, d);
    }
  }

  /** What the tick does to the books. */
  lemma TickedBooks(was: Customers, now: Customers, hs: seq<Hold>, last: int, t: int, aging: real)
    requires t > last && Weighty(hs) && TickedAll(was, now, t - last, aging)
    ensures AllBalanced(was, hs, last) ==> AllBalanced(now, hs, t)
    ensures AllBalanced(was, hs, last) && AllWeightBalanced(was, hs, last) && Honest(hs, t) ==>
              AllWeightBalanced(now, hs, t)
    ensures AllBalanced(was, hs, last) && AllWeighed(was, hs, last) ==>
              (AllWeighed(now, hs, t) <==> forall x :: x in was ==> KeepsWeight(was[x], t - last, aging))
    ensures AllRolled(was, hs) ==>
              (AllRolled(now, hs) <==> forall x :: x in was ==> !ForgetsSubtree(was[x], aging))
  {
    hide *;
    TickKeepsBooks(was, now, hs, last, t, aging);
    if AllBalanced(was, hs, last) && AllWeighed(was, hs, last) {
      TickKeepsEveryWeight(was, now, hs, last, t, aging);
    }
    if AllRolled(was, hs) {
      TickKeepsSubtrees(was, now, hs, t - last, aging);
    }
  }

  // ----- Resource records and the history -----

  ghost predicate IsOpen(h: Hold, r: Resource) {
    h.end.None? && h.customer == r.customer && h.weight == r.weight && h.start == r.start
  }

  /** Every Resource record is an open hold of its own. */
  ghost predicate Linked(rs: map<string, Resource>, hs: seq<Hold>, at: map<string, nat>) {
    && at.Keys == rs.Keys && Weighty(hs)
    && (forall n :: n in rs ==> at[n] < |hs| && IsOpen(hs[at[n]], rs[n]))
    && forall n, o :: n in rs && o in rs && n != o ==> at[n] != at[o]
  }

  lemma LinkAdded(rs: map<string, Resource>, hs: seq<Hold>, at: map<string, nat>, name: string, r: Resource, h: Hold)
    requires Linked(rs, hs, at) && IsOpen(h, r) && h.weight >= 0.0
    ensures Linked(rs[name := r], hs + [h], at[name := |hs|])
  {
  }

  lemma LinkRemoved(rs: map<string, Resource>, hs: seq<Hold>, at: map<string, nat>, name: string, h: Hold)
    requires Linked(rs, hs, at) && name in rs && h.weight == hs[at[name]].weight
    ensures Linked(rs - {name}, hs[at[name] := h], at - {name})
  {
  }

  lemma LinkRestricted(rs: map<string, Resource>, hs: seq<Hold>, at: map<string, nat>, name: string)
    requires Linked(rs, hs, at)
    ensures Linked(rs - {name}, hs, at - {name})
  {
  }

  lemma LinkRewound(rs: map<string, Resource>, hs: seq<Hold>, at: map<string, nat>, d: int)
    requires Linked(rs, hs, at)
    ensures Linked(rs, Rewound(hs, d), at)
  {
  }

  lemma LinkedIsWeighty(rs: map<string, Resource>, hs: seq<Hold>, at: map<string, nat>)
    requires Linked(rs, hs, at)
    ensures Weighty(hs)
  {
  }

  ghost function OpenHold(rs: map<string, Resource>, hs: seq<Hold>, at: map<string, nat>, name: string): (k: nat)
    requires Linked(rs, hs, at) && name in rs
    ensures name in at && k == at[name] && k < |hs| && IsOpen(hs[k], rs[name]) && Weighty(hs)
  {
    at[name]
  }

  /** What the end of a match does to the books, given what was charged for it. */
  lemma MatchRemoved(rs: map<string, Resource>, hs: seq<Hold>, at: map<string, nat>, name: string,
                     was: Customers, now: Customers, last: int, t: int)
    requires Linked(rs, hs, at) && name in rs
    requires var r := rs[name];
             RaisedAll(SettledTwice(was, r.customer, r.weight, t - last - Early(r.start, last)), now,
                       AncestorChain(AssignedGroupName(r.customer)), -r.weight)
    ensures name in at && at[name] < |hs|
    ensures var r, k, seconds := rs[name], at[name], t - last - Early(rs[name].start, last);
            var hs' := hs[k := Ended(hs[k], last, t)];
            && Linked(rs - {name}, hs', at - {name})
            && (Honest(hs, t) && r.start <= last ==> Honest(hs', t))
            && (AllRolled(was, hs) ==> AllRolled(now, hs'))
            && (AllBalanced(was, hs, last) ==>
                  && AllBalanced(now, hs', last)
                  && AllMoved(was, now, r.customer, -1, -r.weight, seconds, Over(r.weight, seconds))
                  && (AllWeightBalanced(was, hs, last) ==> AllWeightBalanced(now, hs', last))
                  && (AllWeighed(was, hs, last) ==> AllWeighed(now, hs', last)))
  {
    hide AncestorChain, AssignedGroupName, Over, AllBalanced, AllWeightBalanced, AllRolled, Linked, Honest, RaisedAll,
      SettledTwice, AllMoved, AllWeighed;
    var k := OpenHold(rs, hs, at, name);
    LinkRemoved(rs, hs, at, name, Ended(hs[k], last, t));
    if Honest(hs, t) && hs[k].start <= last {
      HonestEnded(hs, k, last, t);
    }
    if AllBalanced(was, hs, last) {
      RemoveKeepsBooks(was, now, hs, k, last, t);
    }
    RemoveKeepsSubtrees(was, now, hs, k, last, t, t - last - Early(hs[k].start, last));
  }

  lemma HonestAdded(hs: seq<Hold>, h: Hold, t: int)
    requires Honest(hs, t) && h.weight > 0.0 && h.lost == 0 && h.start == t && h.end.None?
    ensures Honest(hs + [h], t)
  {
  }

  lemma HonestEnded(hs: seq<Hold>, k: nat, last: int, t: int)
    requires Honest(hs, t) && k < |hs| && hs[k].start <= last
    ensures Honest(hs[k := Ended(hs[k], last, t)], t)
  {
  }

  // ----- the claimed slots -----

  datatype State = Claimed | Preempting | Matched | Unclaimed

  /** A slot ad. `user` is whom a claim is charged to: the accounting group if it has one, else the remote user. */
  datatype Slot = Slot(resource: Option<string>, state: Option<State>, user: Option<string>, suspended: bool,
                       weight: real, uses: Option<seq<LimitUse>>)

  /** The customer an active claim is charged to. */
  function ClaimedBy(slot: Slot, discountSuspended: bool): Option<string> {
    if slot.state != Some(Claimed) && slot.state != Some(Preempting) then None
    else if discountSuspended && slot.suspended then None
    else slot.user
  }

  /** Whether a slot still is a match of the given customer. */
  predicate StillHeld(slot: Slot, customer: string, discountSuspended: bool) {
    slot.state == Some(Matched) || ClaimedBy(slot, discountSuspended) == Some(customer)
  }

  /** The weight of the claimed slots that are charged to a name. */
  ghost function ClaimedWeight(slots: seq<Slot>, discount: bool, x: string): real {
    if |slots| == 0 then 0.0
    else
      var s, front := slots[|slots| - 1], ClaimedWeight(slots[..|slots| - 1], discount, x);
      var user := ClaimedBy(s, discount);
      if user.Some? && s.resource.Some? then front + Part(user.value, x, Weight, s.weight) else front
  }

  /** What the claimed slots use of a concurrency limit. */
  ghost function ClaimedUse(slots: seq<Slot>, discount: bool, l: string): real {
    if |slots| == 0 then 0.0
    else
      var s, front := slots[|slots| - 1], ClaimedUse(slots[..|slots| - 1], discount, l);
      if ClaimedBy(s, discount).Some? && s.resource.Some? then front + UseOf(Listed(s.uses), l) else front
  }

  predicate IsClaim(slot: Slot, discount: bool, name: string) {
    slot.resource == Some(name) && ClaimedBy(slot, discount).Some?
  }

  /** Some slot of that name is claimed. */
  ghost predicate HasClaim(slots: seq<Slot>, discount: bool, name: string) {
    exists i :: 0 <= i < |slots| && IsClaim(slots[i], discount, name)
  }

  /** Index `j` is the last ad of resource `n`. */
  ghost predicate LastAd(slots: seq<Slot>, j: int, n: string) {
    0 <= j < |slots| && slots[j].resource == Some(n) && forall k :: j < k < |slots| ==> slots[k].resource != Some(n)
  }

  /** A Resource record survives if the last ad of its name still is its customer's match. */
  ghost predicate Survives(slots: seq<Slot>, discount: bool, name: string, customer: string) {
    exists i :: && 0 <= i < |slots| && slots[i].resource == Some(name) && StillHeld(slots[i], customer, discount)
                && forall j :: i < j < |slots| ==> slots[j].resource != Some(name)
  }

  lemma ClaimsGrow(slots: seq<Slot>, discount: bool, i: nat)
    requires i < |slots|
    ensures forall n :: HasClaim(slots[..i + 1], discount, n) <==>
              HasClaim(slots[..i], discount, n) || IsClaim(slots[i], discount, n)
  {
    hide IsClaim;
    forall n
      ensures HasClaim(slots[..i + 1], discount, n) <==>
                HasClaim(slots[..i], discount, n) || IsClaim(slots[i], discount, n)
    {
      HasClaimAt(slots, discount, i, n);
      HasClaimAt(slots, discount, i + 1, n);
    }
  }

  lemma HasClaimAt(slots: seq<Slot>, discount: bool, i: nat, n: string)
    requires i <= |slots|
    ensures HasClaim(slots[..i], discount, n) <==> exists k :: 0 <= k < i && IsClaim(slots[k], discount, n)
  {
    hide IsClaim;
    if k :| 0 <= k < i && IsClaim(slots[k], discount, n) {
      assert slots[..i][k] == slots[k];
    }
  }

  lemma WeightMoved(was: Customers, now: Customers, customer: string, n: int, weight: real, seconds: int, ws: real)
    requires AllMoved(was, now, customer, n, weight, seconds, ws)
    ensures forall x :: Rec(now, x).weightedUsed == Rec(was, x).weightedUsed + Part(customer, x, Weight, weight)
  {
    hide Rec, Part, Dose;
    forall x ensures Rec(now, x).weightedUsed == Rec(was, x).weightedUsed + Part(customer, x, Weight, weight) {
      assert Moved(Rec(was, x), Rec(now, x), customer, x, n, weight, seconds, ws);
    }
  }

  /** Weighted usage, limit counts and Resource records are those of the claimed slots, and `kept`. */
  ghost predicate Rebuilt(m: Customers, limits: map<string, real>, names: set<string>,
                          slots: seq<Slot>, discount: bool, kept: set<string>)
  {
    && (forall x :: Rec(m, x).weightedUsed == ClaimedWeight(slots, discount, x))
    && (forall l :: Limit(limits, l) == ClaimedUse(slots, discount, l))
    && forall n :: n in names <==> HasClaim(slots, discount, n) || n in kept
  }

  lemma NothingRebuilt(m: Customers, limits: map<string, real>, kept: set<string>, discount: bool)
    requires (forall x :: Rec(m, x).weightedUsed == 0.0) && forall l :: Limit(limits, l) == 0.0
    ensures Rebuilt(m, limits, kept, [], discount, kept)
  {
  }

  lemma RebuiltStep(was: Customers, wasLimits: map<string, real>, wasNames: set<string>,
                    m: Customers, limits: map<string, real>, names: set<string>,
                    slots: seq<Slot>, i: nat, discount: bool, kept: set<string>)
    requires i < |slots| && Rebuilt(was, wasLimits, wasNames, slots[..i], discount, kept)
    requires var user := ClaimedBy(slots[i], discount);
             if user.Some? && slots[i].resource.Some? then
               && (forall x ::
                     Rec(m, x).weightedUsed == Rec(was, x).weightedUsed + Part(user.value, x, Weight, slots[i].weight))
               && (forall l :: Limit(limits, l) == Limit(wasLimits, l) + UseOf(Listed(slots[i].uses), l))
               && names == wasNames + {slots[i].resource.value}
             else m == was && limits == wasLimits && names == wasNames
    ensures Rebuilt(m, limits, names, slots[..i + 1], discount, kept)
  {
    hide ClaimedBy, Part, UseOf, Rec, Limit, HasClaim;
    var next := slots[..i + 1];
    assert next[..i] == slots[..i] && next[i] == slots[i];
    ClaimsGrow(slots, discount, i);
  }

  lemma Finished(m: Customers, limits: map<string, real>, names: set<string>, slots: seq<Slot>, discount: bool,
                 kept: set<string>)
    requires Rebuilt(m, limits, names, slots, discount, kept)
    ensures forall x :: Rec(m, x).weightedUsed == ClaimedWeight(slots, discount, x)
    ensures forall l :: Limit(limits, l) == ClaimedUse(slots, discount, l)
    ensures forall n :: n in names <==> HasClaim(slots, discount, n) || n in kept
  {
  }
}
