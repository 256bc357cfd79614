/** The accountant: matches are charged in advance, settled when they end, and folded into accumulated usage
    at each priority tick. */
module Accounting {
  import opened Holds
  import opened Ledger
  import opened Options

  class Accountant {
    const discountSuspended: bool

    var lastUpdate: int
    var customers: Customers
    var resources: map<string, Resource>
    var limits: map<string, real>

    // The history: every match ever charged, and where each resource's current match is in it.
    ghost var holds: seq<Hold>
    ghost var openAt: map<string, nat>

    constructor (discountSuspended: bool)
      ensures Valid() && Books() && Weighed() && Sound(0) && Rolled()
      ensures lastUpdate == 0 && customers == map[] && resources == map[] && limits == map[] && holds == [] &&
              openAt == map[]
    {
      this.discountSuspended := discountSuspended;
      lastUpdate, customers, resources, limits := 0, map[], map[], map[];
      holds, openAt := [], map[];
    }

    ghost predicate Valid()
      reads this
    {
      Linked(resources, holds, openAt)
    }

    /** Slots in use and time charged agree with the history for every name. */
    ghost predicate Books()
      reads this
    {
      AllBalanced(customers, holds, lastUpdate)
    }

    /** Nothing went wrong so far: the weighted books agree too. */
    ghost predicate Sound(t: int)
      reads this
    {
      Honest(holds, t) && AllWeightBalanced(customers, holds, lastUpdate)
    }

    /** The weighted time charged agrees with the history for every name. */
    ghost predicate Weighed()
      reads this
    {
      AllWeighed(customers, holds, lastUpdate)
    }

    /** Every group's subtree usage is the weight in use below it. */
    ghost predicate Rolled()
      reads this
    {
      AllRolled(customers, holds)
    }

    /** Charged time is conserved: accumulated, uncharged and running time together are the time that slots
        were held, less what early removals lost. */
    lemma ChargedTimeConserved(x: string, now: int)
      requires Books()
      ensures var c := Rec(customers, x);
              (c.accumulated + c.uncharged + c.resourcesUsed * (now - lastUpdate)) as real
              == Held(holds, x, Count, now) - Lost(holds, x, Count)
    {
      hide InUse, Paid, Held, Lost;
      PaidLater(holds, x, Count, lastUpdate, now - lastUpdate);
      PaidIsHeldLessLost(holds, x, Count, now);
    }

    lemma WeightedTimeConserved(x: string, t: int, now: int)
      requires Books() && Sound(t)
      ensures var c := Rec(customers, x);
              Stored(c) + c.weightedUncharged + Over(c.weightedUsed, now - lastUpdate) == Held(holds, x, Weight, now)
      ensures Lost(holds, x, Count) == Lost(holds, x, Weight) == 0.0
    {
      hide InUse, Paid, Held, Lost;
      PaidLater(holds, x, Weight, lastUpdate, now - lastUpdate);
      PaidIsHeldLessLost(holds, x, Weight, now);
      HonestLosesNothing(holds, x, Count, t);
      HonestLosesNothing(holds, x, Weight, t);
    }

    // ----- adding a match -----

    method Charge(name: string, weight: real, delta: int)
      modifies this`customers
      ensures customers == old(customers)[name := Shifted(Rec(old(customers), name), 1, weight, -delta,
                                                          -Over(weight, delta))]
    {
      var c := Rec(customers, name);
      customers := customers[name := c.(
        resourcesUsed := c.resourcesUsed + 1,
        weightedUsed := c.weightedUsed + weight,
        uncharged := c.uncharged - delta,
        weightedUncharged := c.weightedUncharged - Over(weight, delta))];
    }

    /** Add a weight to the subtree usage of a group and its ancestors; taking away stops at zero. */
    method RollUp(group: string, weight: real)
      modifies this`customers
      ensures RaisedAll(old(customers), customers, AncestorChain(group), weight)
    {
      hide *;
      var part := group;
      ghost var done: seq<string> := [];
      NoneRaised(customers, weight);
      ClimbStarts(group);
      while part != ""
        invariant Climbed(group, done, part) && RaisedAll(old(customers), customers, done, weight)
        decreases |part|
      {
        ClimbOn(group, done, part);
        ghost var before := customers;
        var c := Rec(customers, part);
        var h := c.hierUsed + weight;
        if weight < 0.0 && h < 0.0 {
          h := 0.0;
        }
        customers := customers[part := c.(hierUsed := h)];
        RaiseOne(old(customers), before, done, part, weight, h, customers);
        done := done + [part];
        var dot := LastIndex(part, '.');
        part := if dot >= 0 then part[..dot] else "";
      }
      ClimbEnds(group, done);
    }

    method IncrementLimits(uses: seq<LimitUse>)
      modifies this`limits
      ensures forall l :: Limit(limits, l) == Limit(old(limits), l) + UseOf(uses, l)
    {
      for i := 0 to |uses|
        invariant forall l :: Limit(limits, l) == Limit(old(limits), l) + UseOf(uses[..i], l)
      {
        assert uses[..i + 1][..i] == uses[..i];
        limits := limits[uses[i].name := Limit(limits, uses[i].name) + uses[i].weight];
      }
      assert uses[..|uses|] == uses;
    }

    method DecrementLimits(uses: seq<LimitUse>)
      modifies this`limits
      ensures forall l :: Limit(limits, l) == Limit(old(limits), l) - UseOf(uses, l)
    {
      for i := 0 to |uses|
        invariant forall l :: Limit(limits, l) == Limit(old(limits), l) - UseOf(uses[..i], l)
      {
        assert uses[..i + 1][..i] == uses[..i];
        limits := limits[uses[i].name := Limit(limits, uses[i].name) - uses[i].weight];
      }
      assert uses[..|uses|] == uses;
    }

    /** Charge the customer, then its group, then the group's ancestors. */
    method ChargeAll(customer: string, weight: real, delta: int)
      modifies this`customers
      ensures AllMoved(old(customers), customers, customer, 1, weight, -delta, -Over(weight, delta))
      ensures RaisedBy(old(customers), customers, AncestorChain(AssignedGroupName(customer)), weight)
    {
      hide Moved, RaisedAll, AncestorChain, AssignedGroupName, RaisedBy, Over, Shifted;
      Charge(customer, weight, delta);
      var group := AssignedGroupName(customer);
      ghost var once := customers;
      Charge(group, weight, delta);
      ghost var twice := customers;
      RollUp(group, weight);
      ChargedTwice(old(customers), once, twice, customers, customer, 1, weight, -delta, -Over(weight, delta));
    }

    /** Charge a match that begins at `t`: back to the last tick, as if it had been running since then, with
        the excess taken off in advance. Without a list of limits those of an older record stay in place. */
    method AddMatch(customer: string, resource: string, weight: real, uses: Option<seq<LimitUse>>, t: int)
      requires Valid() && weight >= 0.0
      modifies this
      ensures Valid() && lastUpdate == old(lastUpdate)
      ensures holds == old(holds) + [Hold(customer, weight, t, None, 0)] &&
              openAt == old(openAt)[resource := |old(holds)|]
      ensures AllMoved(old(customers), customers, customer, 1, weight, lastUpdate - t, Over(weight, lastUpdate - t))
      ensures RaisedBy(old(customers), customers, AncestorChain(AssignedGroupName(customer)), weight)
      ensures resources == old(resources)[resource := Resource(customer, weight, t,
                if uses.None? && resource in old(resources) then old(resources)[resource].limits else Listed(uses))]
      ensures forall l :: Limit(limits, l) == Limit(old(limits), l) + UseOf(Listed(uses), l)
      ensures (old(Books()) ==> Books()) && (old(Weighed()) ==> Weighed())
      ensures old(Sound(t)) && weight > 0.0 ==> Sound(t)
      ensures old(Rolled()) ==> Rolled()
    {
      hide AllWeighed, AllMoved, AncestorChain, AssignedGroupName, RaisedBy, Over, AllBalanced, AllWeightBalanced,
        AllRolled, Linked, Honest;
      OverNegated(weight, t - lastUpdate);
      ChargeAll(customer, weight, t - lastUpdate);
      var stale := if resource in resources then resources[resource].limits else [];
      resources := resources[resource := Resource(customer, weight, t, if uses.None? then stale else uses.value)];
      if uses.Some? {
        IncrementLimits(uses.value);
      }
      ghost var h := Hold(customer, weight, t, None, 0);
      LinkAdded(old(resources), holds, openAt, resource, resources[resource], h);
      if Honest(holds, t) && weight > 0.0 {
        HonestAdded(holds, h, t);
      }
      openAt := openAt[resource := |holds|];
      holds := holds + [h];
      AddKeepsBooks(old(customers), customers, old(holds), h, lastUpdate);
      AddKeepsSubtrees(old(customers), customers, old(holds), h);
    }

    // ----- removing a match -----

    method Settle(name: string, weight: real, charged: int)
      modifies this`customers
      ensures customers == old(customers)[name := Settled(Rec(old(customers), name), weight, charged)]
    {
      var c := Rec(customers, name);
      var ru, wru := c.resourcesUsed, c.weightedUsed - weight;
      if ru > 0 {
        ru := ru - 1;
      }
      if wru < 0.0 {
        wru := 0.0;
      }
      customers := customers[name := c.(
        resourcesUsed := ru,
        weightedUsed := wru,
        uncharged := c.uncharged + charged,
        weightedUncharged := c.weightedUncharged + Over(weight, charged))];
    }

    method SettleAll(customer: string, weight: real, charged: int)
      modifies this`customers
      ensures RaisedAll(SettledTwice(old(customers), customer, weight, charged), customers,
                        AncestorChain(AssignedGroupName(customer)), -weight)
    {
      hide AncestorChain, AssignedGroupName, RaisedAll, Settled;
      Settle(customer, weight, charged);
      var group := AssignedGroupName(customer);
      Settle(group, weight, charged);
      RollUp(group, -weight);
    }

    /** Settle a match that ends at `t`: charge the time since it began or since the last tick, whichever is
        later, and give back its slot and its limits. */
    method RemoveMatch(resource: string, t: int)
      requires Valid()
      modifies this
      ensures Valid() && lastUpdate == old(lastUpdate)
      ensures resource !in old(resources) ==>
                resources == old(resources) && customers == old(customers) && limits == old(limits)
                && holds == old(holds) && openAt == old(openAt)
      ensures resource in old(resources) ==>
                var r, k := old(resources)[resource], old(openAt)[resource];
                && resources == old(resources) - {resource} && openAt == old(openAt) - {resource}
                && holds == old(holds)[k := Ended(old(holds)[k], lastUpdate, t)]
                && RaisedAll(SettledTwice(old(customers), r.customer, r.weight,
                                          t - lastUpdate - Early(r.start, lastUpdate)),
                             customers, AncestorChain(AssignedGroupName(r.customer)), -r.weight)
                && forall l :: Limit(limits, l) == Limit(old(limits), l) - UseOf(r.limits, l)
      ensures old(Books()) && resource in old(resources) ==>
                var r := old(resources)[resource];
                var seconds := t - lastUpdate - Early(r.start, lastUpdate);
                AllMoved(old(customers), customers, r.customer, -1, -r.weight, seconds, Over(r.weight, seconds))
      ensures (old(Books()) ==> Books()) && (old(Books() && Weighed()) ==> Weighed())
      ensures old(Books() && Sound(t)) && (resource in old(resources) ==> old(resources)[resource].start <= lastUpdate)
              ==> Sound(t)
      ensures old(Rolled()) ==> Rolled()
    {
      hide AncestorChain, AssignedGroupName, Over, AllBalanced, AllWeightBalanced, AllRolled, Linked, Honest, RaisedAll,
        SettledTwice, AllMoved, AllWeighed, Ended;
      if resource !in resources {
        return;
      }
      var r := resources[resource];
      var startTime := r.start;
      if startTime < lastUpdate {
        startTime := lastUpdate;
      }
      var charged := t - startTime;
      SettleAll(r.customer, r.weight, charged);
      if r.limits != [] {
        DecrementLimits(r.limits);
      }
      resources := resources - {resource};
      MatchRemoved(old(resources), holds, openAt, resource, old(customers), customers, lastUpdate, t);
      ghost var k := openAt[resource];
      holds, openAt := holds[k := Ended(holds[k], lastUpdate, t)], openAt - {resource};
    }

    // ----- the priority tick -----

    /** Decay one customer's priority and fold its uncharged time into its accumulated usage. */
    method UpdateOnePriority(passed: int, aging: real, name: string)
      requires passed > 0
      modifies this`customers
      ensures forall x :: x != name ==> Rec(customers, x) == Rec(old(customers), x)
      ensures name !in old(customers) ==> customers == old(customers)
      ensures name in old(customers) ==> TickedTo(old(customers)[name], Rec(customers, name), passed, aging)
      ensures customers.Keys <= old(customers).Keys <= customers.Keys + {name}
      ensures name in old(customers) ==> (name !in customers <==> Collected(old(customers)[name], passed, aging))
    {
      if name !in customers {
        return;
      }
      var r := customers[name];
      var priority := Floored(r.priority);
      var newPriority := priority * aging + RecentUsage(r, passed) * (1.0 - aging);
      var clamped := Floored(newPriority);
      var newAccum := r.accumulated + r.resourcesUsed * passed + r.uncharged;
      var weightedAccum := WeightedBase(r);
      var newWeightedAccum := weightedAccum + (Over(r.weightedUsed, passed) + r.weightedUncharged);
      var c := r;
      if clamped != priority {
        c := c.(priority := clamped);
      }
      c := c.(accumulated := newAccum);
      if newWeightedAccum != weightedAccum {
        c := c.(weightedAccumulated := Some(newWeightedAccum));
      }
      c := c.(uncharged := 0, weightedUncharged := 0.0);
      if newPriority < MIN_PRIORITY && r.resourcesUsed == 0 && newAccum == 0 && r.factor.None? {
        customers := customers - {name};
      } else {
        customers := customers[name := c];
      }
    }

    /** Fold every record once. */
    method FoldAll(passed: int, aging: real)
      requires passed > 0
      modifies this`customers
      ensures TickedAll(old(customers), customers, passed, aging)
    {
      hide TickedTo, Collected;
      var names := customers.Keys;
      while names != {}
        invariant names <= customers.Keys
        invariant TickedOutside(old(customers), customers, names, passed, aging)
        decreases |names|
      {
        var name :| name in names;
        UpdateOnePriority(passed, aging, name);
        names := names - {name};
      }
    }

    /** The tick: every record is folded. A clock that went backwards only moves the baseline. */
    method UpdatePriorities(t: int, aging: real)
      requires Valid()
      modifies this
      ensures Valid() && lastUpdate == t && resources == old(resources) && limits == old(limits) &&
              openAt == old(openAt)
      ensures t <= old(lastUpdate) ==> customers == old(customers)
      ensures t > old(lastUpdate) ==> TickedAll(old(customers), customers, t - old(lastUpdate), aging)
      ensures holds == if t < old(lastUpdate) then Rewound(old(holds), old(lastUpdate) - t) else old(holds)
      ensures old(Books()) ==> Books()
      ensures old(Books() && Sound(t)) && t >= old(lastUpdate) ==> Sound(t)
      ensures old(Books() && Weighed()) && t > old(lastUpdate) ==>
                (Weighed() <==> forall x :: x in old(customers) ==>
                                  KeepsWeight(old(customers)[x], t - old(lastUpdate), aging))
      ensures old(Rolled()) && t <= old(lastUpdate) ==> Rolled()
      ensures old(Rolled()) && t > old(lastUpdate) ==>
                (Rolled() <==> forall x :: x in old(customers) ==>
                                 !ForgetsSubtree(old(customers)[x], aging))
    {
      hide AllBalanced, AllWeightBalanced, AllRolled, Linked, Honest, TickedAll, Rewound, ForgetsSubtree, KeepsWeight,
        AllWeighed;
      var passed := t - lastUpdate;
      if passed == 0 {
        return;
      }
      lastUpdate := t;
      if passed < 0 {
        RewindKeepsBooks(customers, holds, t - passed, -passed);
        LinkRewound(resources, holds, openAt, -passed);
        RewindKeepsSubtrees(customers, holds, -passed);
        holds := Rewound(holds, -passed);
        return;
      }
      FoldAll(passed, aging);
      assert Weighty(holds) by { LinkedIsWeighty(resources, holds, openAt); }
      TickedBooks(old(customers), customers, holds, old(lastUpdate), t, aging);
    }

    // ----- the reconcile -----

    /** The slots by resource name; of several ads the last counts. */
    method IndexLive(slots: seq<Slot>) returns (live: map<string, Slot>)
      ensures forall n, c :: n in live && StillHeld(live[n], c, discountSuspended) <==>
                Survives(slots, discountSuspended, n, c)
    {
      live := map[];
      for i := 0 to |slots|
        invariant forall n :: n in live ==> exists j :: LastAd(slots[..i], j, n) && live[n] == slots[j]
        invariant forall n :: n !in live ==> forall j :: 0 <= j < i ==> slots[j].resource != Some(n)
      {
        if slots[i].resource.Some? {
          var name := slots[i].resource.value;
          live := live[name := slots[i]];
          assert LastAd(slots[..i + 1], i, name);
        }
        forall n | n in live && slots[i].resource != Some(n)
          ensures exists j :: LastAd(slots[..i + 1], j, n) && live[n] == slots[j]
        {
          var j :| LastAd(slots[..i], j, n) && live[n] == slots[j];
          assert LastAd(slots[..i + 1], j, n);
        }
      }
      assert slots[..|slots|] == slots;
    }

    /** Drop the Resource records that no longer are their customer's match. */
    method Reap(slots: seq<Slot>)
      requires Valid()
      modifies this`resources, this`openAt
      ensures Valid()
      ensures forall n :: n in resources <==>
                n in old(resources) && Survives(slots, discountSuspended, n, old(resources)[n].customer)
      ensures forall n :: n in resources ==> resources[n] == old(resources)[n]
    {
      hide Linked, Survives, StillHeld;
      var live := IndexLive(slots);
      var names := resources.Keys;
      while names != {}
        invariant Valid() && names <= resources.Keys <= old(resources).Keys
        invariant forall n :: n in resources ==> resources[n] == old(resources)[n]
        invariant forall n :: n in old(resources) && n !in names ==>
                    (n in resources <==> Survives(slots, discountSuspended, n, old(resources)[n].customer))
        modifies this`resources, this`openAt
        decreases |names|
      {
        var n :| n in names;
        if n !in live || !StillHeld(live[n], resources[n].customer, discountSuspended) {
          LinkRestricted(resources, holds, openAt, n);
          resources, openAt := resources - {n}, openAt - {n};
        }
        names := names - {n};
      }
    }

    method ZeroUsage()
      modifies this`customers
      ensures forall x :: Rec(customers, x) == Rec(old(customers), x).(weightedUsed := 0.0)
    {
      var names := customers.Keys;
      while names != {}
        invariant names <= customers.Keys == old(customers).Keys
        invariant forall x :: x in names ==> customers[x] == old(customers)[x]
        invariant forall x :: x in customers && x !in names ==> customers[x] == old(customers)[x].(weightedUsed := 0.0)
        decreases |names|
      {
        var name :| name in names;
        customers := customers[name := customers[name].(weightedUsed := 0.0)];
        names := names - {name};
      }
    }

    method ClearLimits()
      modifies this`limits
      ensures forall l :: Limit(limits, l) == 0.0
    {
      var names := limits.Keys;
      while names != {}
        invariant names <= limits.Keys
        invariant forall l :: l in limits && l !in names ==> limits[l] == 0.0
        decreases |names|
      {
        var name :| name in names;
        limits := limits[name := 0.0];
        names := names - {name};
      }
    }

    /** Rebuild weighted usage and limit counts from the slots: whatever came before, they end up what the
        claimed slots say and nothing else. */
    method CheckMatches(slots: seq<Slot>, t: int)
      requires Valid() && forall i :: 0 <= i < |slots| ==> slots[i].weight >= 0.0
      modifies this
      ensures Valid() && lastUpdate == old(lastUpdate)
      ensures forall x :: Rec(customers, x).weightedUsed == ClaimedWeight(slots, discountSuspended, x)
      ensures forall l :: Limit(limits, l) == ClaimedUse(slots, discountSuspended, l)
      ensures forall n :: n in resources <==>
                || HasClaim(slots, discountSuspended, n)
                || (n in old(resources) && Survives(slots, discountSuspended, n, old(resources)[n].customer))
    {
      hide Linked, Survives, Rebuilt;
      Reap(slots);
      ghost var kept := resources.Keys;
      ZeroUsage();
      ClearLimits();
      NothingRebuilt(customers, limits, kept, discountSuspended);
      assert slots[..0] == [];
      for i := 0 to |slots|
        invariant Valid() && lastUpdate == old(lastUpdate)
        invariant Rebuilt(customers, limits, resources.Keys, slots[..i], discountSuspended, kept)
      {
        ReAdd(slots, i, t, kept);
      }
      assert slots[..|slots|] == slots;
      Finished(customers, limits, resources.Keys, slots, discountSuspended, kept);
    }

    /** Charge one slot again if it is claimed. */
    method ReAdd(slots: seq<Slot>, i: nat, t: int, ghost kept: set<string>)
      requires Valid() && i < |slots| && slots[i].weight >= 0.0
      requires Rebuilt(customers, limits, resources.Keys, slots[..i], discountSuspended, kept)
      modifies this
      ensures Valid() && lastUpdate == old(lastUpdate)
      ensures Rebuilt(customers, limits, resources.Keys, slots[..i + 1], discountSuspended, kept)
    {
      hide Linked, Rebuilt, AllMoved, RaisedBy, AllBalanced, AllWeightBalanced, Honest, AllRolled, UseOf, ClaimedBy;
      var user := ClaimedBy(slots[i], discountSuspended);
      ghost var was, wasLimits, names := customers, limits, resources.Keys;
      if user.Some? && slots[i].resource.Some? {
        AddMatch(user.value, slots[i].resource.value, slots[i].weight, slots[i].uses, t);
        WeightMoved(was, customers, user.value, 1, slots[i].weight, lastUpdate - t,
                    Over(slots[i].weight, lastUpdate - t));
        assert resources.Keys == names + {slots[i].resource.value};
      }
      RebuiltStep(was, wasLimits, names, customers, limits, resources.Keys, slots, i, discountSuspended, kept);
    }
  }
}
