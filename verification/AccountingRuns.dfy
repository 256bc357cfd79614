/** Whole runs of the accountant. */
module AccountingRuns {
  import opened Accounting
  import opened Holds
  import opened Ledger
  import opened Options

  datatype Event =
    | Add(customer: string, resource: string, weight: real, uses: Option<seq<LimitUse>>, time: int)
    | Remove(resource: string, time: int)
    | Tick(aging: real, time: int)

  /** Time does not go back, every weight is positive, and every removal follows a tick after its add. */
  ghost predicate Orderly(run: seq<Event>) {
    && (forall i, j :: 0 <= i <= j < |run| ==> 0 <= run[i].time <= run[j].time)
    && (forall i :: 0 <= i < |run| && run[i].Add? ==> run[i].weight > 0.0)
    && (forall i, j :: 0 <= i < j < |run| && run[i].Add? && run[j].Remove? && run[i].resource == run[j].resource ==>
          exists k :: i < k < j && run[k].Tick?)
  }

  /** Who held what, and the time of the last tick: every add begins a match, a removal ends the resource's latest
      one, and a tick that sets the clock back has its seconds charged again. */
  datatype History = History(holds: seq<Hold>, current: map<string, nat>, last: int)

  ghost predicate Proper(h: History) {
    forall r :: r in h.current ==> h.current[r] < |h.holds|
  }

  ghost function Step(h: History, e: Event): (h': History)
    requires Proper(h)
    ensures Proper(h') && |h'.holds| >= |h.holds|
  {
    match e
    case Add(customer, resource, weight, _, time) =>
      History(h.holds + [Hold(customer, weight, time, None, 0)], h.current[resource := |h.holds|], h.last)
    case Remove(resource, time) =>
      if resource !in h.current then h
      else
        var k := h.current[resource];
        History(h.holds[k := Ended(h.holds[k], h.last, time)], h.current - {resource}, h.last)
    case Tick(_, time) =>
      History(if time < h.last then Rewound(h.holds, h.last - time) else h.holds, h.current, time)
  }

  ghost function HistoryOf(run: seq<Event>): (h: History)
    ensures Proper(h)
  {
    if |run| == 0 then History([], map[], 0) else Step(HistoryOf(run[..|run| - 1]), run[|run| - 1])
  }

  lemma NextStep(run: seq<Event>, n: nat)
    requires n < |run|
    ensures HistoryOf(run[..n + 1]) == Step(HistoryOf(run[..n]), run[n])
  {
    assert run[..n + 1][..n] == run[..n];
  }

  lemma RecordedStep(run: seq<Event>, n: nat, hs: seq<Hold>, at: map<string, nat>, last: int,
                     hs': seq<Hold>, at': map<string, nat>, last': int, rs: map<string, Resource>)
    requires n < |run| && HistoryOf(run[..n]) == History(hs, at, last) && at.Keys == rs.Keys
    requires run[n].Add? ==>
               && hs' == hs + [Hold(run[n].customer, run[n].weight, run[n].time, None, 0)]
               && at' == at[run[n].resource := |hs|] && last' == last
    requires run[n].Remove? && run[n].resource !in rs ==> hs' == hs && at' == at && last' == last
    requires run[n].Remove? && run[n].resource in rs ==>
               var k := at[run[n].resource];
               && k < |hs| && hs' == hs[k := Ended(hs[k], last, run[n].time)] && at' == at - {run[n].resource}
               && last' == last
    requires run[n].Tick? ==>
               && at' == at && last' == run[n].time
               && hs' == if run[n].time < last then Rewound(hs, last - run[n].time) else hs
    ensures HistoryOf(run[..n + 1]) == History(hs', at', last')
  {
    hide HistoryOf, Rewound, Ended;
    NextStep(run, n);
  }

  // ----- what becomes of one match -----

  ghost predicate Touches(e: Event, resource: string) {
    !e.Tick? && e.resource == resource
  }

  /** Between two events nothing else happens to the resource. */
  ghost predicate Quiet(run: seq<Event>, i: nat, j: nat, resource: string)
    requires j <= |run|
  {
    forall m :: i < m < j ==> !Touches(run[m], resource)
  }

  /** The match that event `i` adds is removed by event `j`: the first that touches its resource again. */
  ghost predicate EndsAt(run: seq<Event>, i: nat, j: nat)
    requires i < |run| && run[i].Add?
  {
    i < j < |run| && run[j].Remove? && run[j].resource == run[i].resource && Quiet(run, i, j, run[i].resource)
  }

  /** No tick sets the clock back. */
  ghost predicate Forward(run: seq<Event>) {
    forall n :: 0 <= n < |run| && run[n].Tick? ==> run[n].time >= HistoryOf(run[..n]).last
  }

  /** After `n` events: only its own resource leads to the match, and only until that is touched again; it ends at
      its removal, if there is one, and otherwise never. */
  ghost predicate FateAt(run: seq<Event>, i: nat, k: nat, n: nat, h: History)
    requires i < n <= |run| && run[i].Add?
  {
    && k < |h.holds| && h.holds[k].customer == run[i].customer && h.holds[k].weight == run[i].weight
    && h.holds[k].start == run[i].time
    && (forall q :: q in h.current && h.current[q] == k ==> q == run[i].resource && Quiet(run, i, n, q))
    && (Quiet(run, i, n, run[i].resource) ==> run[i].resource in h.current && h.current[run[i].resource] == k)
    && (forall j: nat :: j < n && EndsAt(run, i, j) ==>
          && h.holds[k].end == Some(run[j].time)
          && (Forward(run) ==> h.holds[k].lost == Early(run[i].time, HistoryOf(run[..j]).last)))
    && ((forall j: nat :: j < n ==> !EndsAt(run, i, j)) ==>
          h.holds[k].end.None? && (Forward(run) ==> h.holds[k].lost == 0))
  }

  lemma {:induction false} FateBegins(run: seq<Event>, i: nat)
    requires i < |run| && run[i].Add?
    ensures FateAt(run, i, |HistoryOf(run[..i]).holds|, i + 1, HistoryOf(run[..i + 1]))
  {
    hide HistoryOf, Forward;
    NextStep(run, i);
    assert Proper(HistoryOf(run[..i]));
  }

  lemma {:induction false} FateStep(run: seq<Event>, i: nat, k: nat, n: nat, h: History)
    requires i < n < |run| && run[i].Add? && FateAt(run, i, k, n, h) && h == HistoryOf(run[..n])
    ensures FateAt(run, i, k, n + 1, Step(h, run[n]))
  {
    hide HistoryOf, Forward, Rewound;
    var r, e, h' := run[i].resource, run[n], Step(h, run[n]);
    assert Quiet(run, i, n + 1, r) <==> Quiet(run, i, n, r) && !Touches(e, r);
    assert EndsAt(run, i, n) <==> e.Remove? && e.resource == r && Quiet(run, i, n, r);
    if e.Tick? {
      OnlyLost(h, e, k);
      if Forward(run) {
        ForwardAt(run, n);
      }
    } else if EndsAt(run, i, n) {
      NotBefore(run, i, n);
    }
  }

  lemma ForwardAt(run: seq<Event>, n: nat)
    requires n < |run| && run[n].Tick? && Forward(run)
    ensures run[n].time >= HistoryOf(run[..n]).last
  {
  }

  lemma OnlyLost(h: History, e: Event, k: nat)
    requires Proper(h) && e.Tick? && k < |h.holds|
    ensures var h' := Step(h, e);
            && h'.current == h.current && h'.holds[k] == h.holds[k].(lost := h'.holds[k].lost)
            && (e.time >= h.last ==> h'.holds == h.holds)
  {
  }

  /** A match is removed once. */
  lemma NotBefore(run: seq<Event>, i: nat, n: nat)
    requires i < |run| && run[i].Add? && EndsAt(run, i, n)
    ensures forall j: nat :: j < n ==> !EndsAt(run, i, j)
  {
    forall j: nat | j < n ensures !EndsAt(run, i, j) {
      assert i < j ==> !Touches(run[j], run[i].resource);
    }
  }

  /** The history is the run's: a match ends if and only if the first event on its resource after its add is a
      removal, and then at that time. A name added again while in use is never given back. Where no tick sets the
      clock back, what is lost is the time from the last tick before the removal to the add, and an open match
      has lost nothing. */
  lemma {:induction false} HoldFate(run: seq<Event>, i: nat)
    requires i < |run| && run[i].Add?
    ensures FateAt(run, i, |HistoryOf(run[..i]).holds|, |run|, HistoryOf(run))
    ensures var h := HistoryOf(run).holds[|HistoryOf(run[..i]).holds|];
            h.end.Some? <==> exists j: nat :: EndsAt(run, i, j)
  {
    hide HistoryOf, FateAt, Step;
    var k := |HistoryOf(run[..i]).holds|;
    FateBegins(run, i);
    for n := i + 1 to |run|
      invariant FateAt(run, i, k, n, HistoryOf(run[..n]))
    {
      FateStep(run, i, k, n, HistoryOf(run[..n]));
      NextStep(run, n);
    }
    assert run[..|run|] == run;
    FateEnd(run, i, k, HistoryOf(run));
  }

  lemma FateEnd(run: seq<Event>, i: nat, k: nat, h: History)
    requires i < |run| && run[i].Add? && FateAt(run, i, k, |run|, h)
    ensures k < |h.holds| && (h.holds[k].end.Some? <==> exists j: nat :: EndsAt(run, i, j))
  {
    hide HistoryOf, Forward, Quiet;
    if j: nat :| EndsAt(run, i, j) {
      assert j < |run|;
    }
  }

  // ----- when nothing is lost -----

  /** The customer's matches are charged to the name. */
  ghost predicate Concerns(customer: string, x: string) {
    customer == x || AssignedGroupName(customer) == x
  }

  lemma LostTermSign(h: Hold, x: string)
    requires h.lost >= 0
    ensures LostTerm(h, x, Count) >= 0.0
    ensures LostTerm(h, x, Count) == 0.0 <==> (Concerns(h.customer, x) ==> h.lost == 0)
  {
    hide AssignedGroupName, AncestorChain;
    OverOne(h.lost);
  }

  /** Where no loss is negative, nothing is lost exactly if no match concerned lost anything. */
  lemma {:induction false} LostNothing(hs: seq<Hold>, x: string)
    requires forall k :: 0 <= k < |hs| ==> hs[k].lost >= 0
    ensures Lost(hs, x, Count) >= 0.0
    ensures Lost(hs, x, Count) == 0.0 <==> forall k :: 0 <= k < |hs| && Concerns(hs[k].customer, x) ==> hs[k].lost == 0
  {
    hide LostTerm, Concerns;
    if |hs| > 0 {
      var n := |hs| - 1;
      LostNothing(hs[..n], x);
      LostTermSign(hs[n], x);
      assert hs == hs[..n] + [hs[n]];
    }
  }

  /** Every match was added by some event. */
  lemma {:induction false} AddedBy(run: seq<Event>, k: nat) returns (i: nat)
    requires k < |HistoryOf(run).holds|
    ensures i < |run| && run[i].Add? && |HistoryOf(run[..i]).holds| == k
  {
    hide HistoryOf, Step;
    var n := |run|;
    assert run[..n] == run;
    while n > 0 && k < |HistoryOf(run[..n - 1]).holds|
      invariant 0 <= n <= |run| && k < |HistoryOf(run[..n]).holds|
    {
      n := n - 1;
    }
    if n == 0 {
      NothingYet(run);
      assert false;
    }
    i := n - 1;
    NextStep(run, i);
    OneMore(HistoryOf(run[..i]), run[i]);
  }

  lemma OneMore(h: History, e: Event)
    requires Proper(h)
    ensures |Step(h, e).holds| == |h.holds| + if e.Add? then 1 else 0
  {
  }

  /** No match charged to the name is removed before a tick has followed its add. */
  ghost predicate RemovedAfterTick(run: seq<Event>, x: string) {
    forall i: nat, j: nat :: i < |run| && run[i].Add? && Concerns(run[i].customer, x) && EndsAt(run, i, j) ==>
      run[i].time <= HistoryOf(run[..j]).last
  }

  /** A clock that is not set back loses time for a name exactly if some match of its is removed while the last tick
      is older than its add. */
  lemma {:induction false} LossExactly(run: seq<Event>, x: string)
    requires Forward(run)
    ensures Lost(HistoryOf(run).holds, x, Count) == 0.0 <==> RemovedAfterTick(run, x)
  {
    hide HistoryOf, Forward, Lost, Quiet, Concerns, Early;
    var hs := HistoryOf(run).holds;
    forall k | 0 <= k < |hs| ensures hs[k].lost >= 0 {
      var i := AddedBy(run, k);
      LostOf(run, i);
    }
    LostNothing(hs, x);
    if RemovedAfterTick(run, x) {
      forall k | 0 <= k < |hs| && Concerns(hs[k].customer, x) ensures hs[k].lost == 0 {
        var i := AddedBy(run, k);
        LostOf(run, i);
      }
    }
    if Lost(hs, x, Count) == 0.0 {
      forall i: nat, j: nat | i < |run| && run[i].Add? && Concerns(run[i].customer, x) && EndsAt(run, i, j)
        ensures run[i].time <= HistoryOf(run[..j]).last
      {
        LostOf(run, i);
        EarlyIsZero(run[i].time, HistoryOf(run[..j]).last);
      }
    }
  }

  lemma EarlyIsZero(start: int, last: int)
    ensures Early(start, last) == 0 <==> start <= last
  {
  }

  /** What the match of event `i` has lost. */
  lemma {:induction false} LostOf(run: seq<Event>, i: nat)
    requires Forward(run) && i < |run| && run[i].Add?
    ensures |HistoryOf(run[..i]).holds| < |HistoryOf(run).holds|
    ensures var h := HistoryOf(run).holds[|HistoryOf(run[..i]).holds|];
            && h.customer == run[i].customer && h.lost >= 0
            && (forall j: nat :: EndsAt(run, i, j) ==> h.lost == Early(run[i].time, HistoryOf(run[..j]).last))
            && ((forall j: nat :: EndsAt(run, i, j) ==> run[i].time <= HistoryOf(run[..j]).last) ==> h.lost == 0)
  {
    hide HistoryOf, Forward, Quiet;
    HoldFate(run, i);
    if j: nat :| EndsAt(run, i, j) {
      assert j < |run|;
      EarlyIsZero(run[i].time, HistoryOf(run[..j]).last);
    }
  }

  lemma OrderlyStep(run: seq<Event>, n: nat, now: int)
    requires n < |run| && Orderly(run) && now == if n == 0 then 0 else run[n - 1].time
    ensures now <= run[n].time && (run[n].Add? ==> run[n].weight > 0.0)
  {
  }

  /** Where in the run each current match was added; if a tick followed, the match began no later than it. */
  ghost predicate Attributed(run: seq<Event>, n: nat, rs: map<string, Resource>, addedBy: map<string, nat>, last: int)
    requires n <= |run|
  {
    forall r :: r in rs ==>
      && r in addedBy && addedBy[r] < n && run[addedBy[r]].Add?
      && run[addedBy[r]].resource == r && run[addedBy[r]].time == rs[r].start
      && ((exists k :: addedBy[r] < k < n && run[k].Tick?) ==> rs[r].start <= last)
  }

  lemma AttributedStep(run: seq<Event>, n: nat, rs: map<string, Resource>, rs': map<string, Resource>,
                       by0: map<string, nat>, by1: map<string, nat>, last: int, last': int)
    requires n < |run| && Orderly(run) && Attributed(run, n, rs, by0, last)
    requires run[n].Add? ==>
               && last' == last && by1 == by0[run[n].resource := n]
               && run[n].resource in rs' && rs'[run[n].resource].start == run[n].time
               && forall r :: r in rs' && r != run[n].resource ==> r in rs && rs'[r] == rs[r]
    requires run[n].Remove? ==> last' == last && by1 == by0 && forall r :: r in rs' ==> r in rs && rs'[r] == rs[r]
    requires run[n].Tick? ==> last' == run[n].time && by1 == by0 && rs' == rs
    ensures Attributed(run, n + 1, rs', by1, last')
  {
    forall r | r in rs'
      ensures && r in by1 && by1[r] < n + 1 && run[by1[r]].Add? && run[by1[r]].resource == r &&
              run[by1[r]].time == rs'[r].start
      ensures (exists k :: by1[r] < k < n + 1 && run[k].Tick?) ==> rs'[r].start <= last'
    {
      if run[n].Add? && r == run[n].resource {
      } else {
        assert r in rs && by1[r] == by0[r];
        if k :| by1[r] < k < n + 1 && run[k].Tick? {
          assert run[n].Tick? || k < n;
        }
      }
    }
  }

  lemma RemovedLate(run: seq<Event>, n: nat, rs: map<string, Resource>, addedBy: map<string, nat>, last: int)
    requires n < |run| && Orderly(run) && Attributed(run, n, rs, addedBy, last)
    requires run[n].Remove? && run[n].resource in rs
    ensures rs[run[n].resource].start <= last
  {
  }

  lemma SoundLater(hs: seq<Hold>, t: int, later: int)
    requires t <= later && Honest(hs, t)
    ensures Honest(hs, later)
  {
  }

  lemma NothingYet(run: seq<Event>)
    ensures HistoryOf(run[..0]) == History([], map[], 0)
    ensures Attributed(run, 0, map[], map[], 0)
  {
  }

  /** What a name was charged by time `now`: accumulated, uncharged and running time. */
  ghost function Charged(c: Customer, last: int, now: int): real {
    (c.accumulated + c.uncharged + c.resourcesUsed * (now - last)) as real
  }

  ghost function WeightCharged(c: Customer, last: int, now: int): real {
    Stored(c) + c.weightedUncharged + Over(c.weightedUsed, now - last)
  }

  lemma Conserved(a: Accountant, x: string, t: int, now: int)
    requires a.Books() && a.Sound(t)
    ensures var c := Rec(a.customers, x);
            && Charged(c, a.lastUpdate, now) == Held(a.holds, x, Count, now)
            && WeightCharged(c, a.lastUpdate, now) == Held(a.holds, x, Weight, now)
  {
    a.ChargedTimeConserved(x, now);
    a.WeightedTimeConserved(x, t, now);
  }

  /** At every time charged is held less lost, so the two agree at all times exactly if nothing was lost. */
  ghost predicate ChargedLessLost(c: Customer, last: int, hs: seq<Hold>, x: string) {
    && (forall now: int :: Charged(c, last, now) == Held(hs, x, Count, now) - Lost(hs, x, Count))
    && ((forall now: int :: Charged(c, last, now) == Held(hs, x, Count, now)) <==> Lost(hs, x, Count) == 0.0)
  }

  lemma ChargedExactly(a: Accountant, x: string)
    requires a.Books()
    ensures ChargedLessLost(Rec(a.customers, x), a.lastUpdate, a.holds, x)
  {
    hide AllBalanced, Held, Lost;
    forall now: int
      ensures Charged(Rec(a.customers, x), a.lastUpdate, now) == Held(a.holds, x, Count, now) - Lost(a.holds, x, Count)
    {
      a.ChargedTimeConserved(x, now);
    }
    assert Charged(Rec(a.customers, x), a.lastUpdate, 0) == Held(a.holds, x, Count, 0) - Lost(a.holds, x, Count);
  }

  /** One event of a run. */
  method Apply(a: Accountant, run: seq<Event>, n: nat)
    requires n < |run| && a.Valid() && a.Books() && HistoryOf(run[..n]) == History(a.holds, a.openAt, a.lastUpdate)
    requires run[n].Add? ==> run[n].weight >= 0.0
    modifies a
    ensures a.Valid() && a.Books() && HistoryOf(run[..n + 1]) == History(a.holds, a.openAt, a.lastUpdate)
    ensures run[n].Add? ==>
              && a.lastUpdate == old(a.lastUpdate) && run[n].resource in a.resources &&
                 a.resources[run[n].resource].start == run[n].time
              && forall r :: r in a.resources && r != run[n].resource ==>
                   r in old(a.resources) && a.resources[r] == old(a.resources)[r]
    ensures run[n].Remove? ==>
              && a.lastUpdate == old(a.lastUpdate)
              && forall r :: r in a.resources ==> r in old(a.resources) && a.resources[r] == old(a.resources)[r]
    ensures run[n].Tick? ==> a.lastUpdate == run[n].time && a.resources == old(a.resources)
    ensures old(a.Sound(run[n].time)) && run[n].time >= old(a.lastUpdate)
            && (run[n].Add? ==> run[n].weight > 0.0)
            && (run[n].Remove? && run[n].resource in old(a.resources) ==>
                old(a.resources)[run[n].resource].start <= old(a.lastUpdate))
            ==> a.Sound(run[n].time)
  {
    hide AllBalanced, AllWeightBalanced, AllRolled, AllMoved, RaisedBy, RaisedAll, TickedAll, Honest, Rewound,
      SettledTwice, UseOf, HistoryOf, Weighty, IsOpen, Ended;
    match run[n] {
      case Add(customer, resource, weight, uses, time) => a.AddMatch(customer, resource, weight, uses, time);
      case Remove(resource, time) => a.RemoveMatch(resource, time);
      case Tick(aging, time) => a.UpdatePriorities(time, aging);
    }
    RecordedStep(run, n, old(a.holds), old(a.openAt), old(a.lastUpdate), a.holds, a.openAt, a.lastUpdate,
                 old(a.resources));
  }

  /** After every run the accountant's history is the run's, and what a name was charged by any time is what it held
      less what was lost: the two agree at all times exactly if nothing was lost. After an orderly run they agree by
      count and by weight. */
  method Replay(run: seq<Event>) returns (a: Accountant)
    requires forall i :: 0 <= i < |run| && run[i].Add? ==> run[i].weight >= 0.0
    ensures fresh(a) && a.Valid() && a.Books() && HistoryOf(run) == History(a.holds, a.openAt, a.lastUpdate)
    ensures forall x :: ChargedLessLost(Rec(a.customers, x), a.lastUpdate, HistoryOf(run).holds, x)
    ensures Orderly(run) ==> forall x, now: int ::
              && Charged(Rec(a.customers, x), a.lastUpdate, now) == Held(HistoryOf(run).holds, x, Count, now)
              && WeightCharged(Rec(a.customers, x), a.lastUpdate, now) == Held(HistoryOf(run).holds, x, Weight, now)
  {
    hide AllBalanced, AllWeightBalanced, AllRolled, AllMoved, RaisedBy, RaisedAll, TickedAll, Linked, Honest, Rewound,
      Orderly, Attributed, SettledTwice, UseOf, HistoryOf, Held, Lost, Over, Charged, WeightCharged, ChargedLessLost;
    a := new Accountant(false);
    ghost var now := 0;
    ghost var addedBy: map<string, nat> := map[];
    NothingYet(run);
    for n := 0 to |run|
      invariant fresh(a) && a.Valid() && a.Books() && HistoryOf(run[..n]) == History(a.holds, a.openAt, a.lastUpdate)
      invariant now == if n == 0 then 0 else run[n - 1].time
      invariant Orderly(run) ==> a.Sound(now) && a.lastUpdate <= now
      invariant Orderly(run) ==> Attributed(run, n, a.resources, addedBy, a.lastUpdate)
    {
      ghost var before := addedBy;
      if Orderly(run) {
        OrderlyStep(run, n, now);
        SoundLater(a.holds, now, run[n].time);
      }
      if run[n].Remove? && Orderly(run) && run[n].resource in a.resources {
        RemovedLate(run, n, a.resources, addedBy, a.lastUpdate);
      }
      addedBy := if run[n].Add? then addedBy[run[n].resource := n] else addedBy;
      ghost var rs, last := a.resources, a.lastUpdate;
      Apply(a, run, n);
      if Orderly(run) {
        AttributedStep(run, n, rs, a.resources, before, addedBy, last, a.lastUpdate);
      }
      now := run[n].time;
    }
    assert run[..|run|] == run;
    forall x ensures ChargedLessLost(Rec(a.customers, x), a.lastUpdate, a.holds, x) { ChargedExactly(a, x); }
    if Orderly(run) {
      forall x, t: int { Conserved(a, x, now, t); }
    }
  }

  lemma ThereAndBack(was: Customers, between: Customers, now: Customers,
                     customer: string, weight: real, last: int, from: int, till: int)
    requires from >= last
    requires AllMoved(was, between, customer, 1, weight, last - from, Over(weight, last - from))
    requires var seconds := till - last - Early(from, last);
             AllMoved(between, now, customer, -1, -weight, seconds, Over(weight, seconds))
    ensures forall x ::
              var c, c' := Rec(was, x), Rec(now, x);
              && c'.resourcesUsed == c.resourcesUsed && c'.weightedUsed == c.weightedUsed
              && c'.accumulated + c'.uncharged == c.accumulated + c.uncharged
                 + Dose(customer, x, till - from - (from - last))
  {
    hide AssignedGroupName, Over, Rec;
    forall x
      ensures var c, c' := Rec(was, x), Rec(now, x);
              && c'.resourcesUsed == c.resourcesUsed && c'.weightedUsed == c.weightedUsed
              && c'.accumulated + c'.uncharged == c.accumulated + c.uncharged
                 + Dose(customer, x, till - from - (from - last))
    {
      var seconds := till - last - Early(from, last);
      assert Moved(Rec(was, x), Rec(between, x), customer, x, 1, weight, last - from, Over(weight, last - from));
      assert Moved(Rec(between, x), Rec(now, x), customer, x, -1, -weight, seconds, Over(weight, seconds));
    }
  }

  /** Removing a match undoes adding it: slots, weights and limits are as they were. Only the time charged
      differs, and it is the time held exactly if the match began at a tick. */
  method AddThenRemove(a: Accountant, customer: string, resource: string, weight: real, uses: Option<seq<LimitUse>>,
                       from: int, till: int)
    requires a.Valid() && a.Books() && weight >= 0.0 && resource !in a.resources && from >= a.lastUpdate
    modifies a
    ensures a.Valid() && a.Books() && a.resources == old(a.resources) && a.lastUpdate == old(a.lastUpdate)
    ensures forall l :: Limit(a.limits, l) == Limit(old(a.limits), l)
    ensures forall x ::
              var c, c' := Rec(old(a.customers), x), Rec(a.customers, x);
              && c'.resourcesUsed == c.resourcesUsed && c'.weightedUsed == c.weightedUsed
              && c'.accumulated + c'.uncharged == c.accumulated + c.uncharged
                 + Dose(customer, x, till - from - (from - a.lastUpdate))
  {
    hide *;
    ghost var was := a.customers;
    a.AddMatch(customer, resource, weight, uses, from);
    ghost var between := a.customers;
    a.RemoveMatch(resource, till);
    ThereAndBack(was, between, a.customers, customer, weight, a.lastUpdate, from, till);
  }

  // ----- two runs in which a tick forgets usage -----

  lemma NoGroup()
    ensures AssignedGroupName("u") != "u" && "u" !in AncestorChain(AssignedGroupName("u"))
  {
  }

  lemma Quarter()
    ensures AssignedGroupName("g.h.u@d") == "g.h" && AncestorChain("g.h") == ["g.h", "g"]
  {
    var s := "g.h.u@d";
    assert s[5] == '@';
    assert LastIndex(s, '@') == 5;
    assert s[..5][3] == '.' && s[..5][4] != '.';
    assert LastIndex(s[..5], '.') == 3;
    assert s[..3] == "g.h";
    assert LastIndex("g.h", '.') == 1 && "g.h"[..1] == "g";
    assert LastIndex("g", '.') == -1;
    assert AncestorChain("g") == ["g"];
  }

  /** A quarter of a slot below a group that has none of its own: the first tick collects the group's record and
      with it the usage of its subtree, which is still in use. */
  method ForgottenSubtree() returns (a: Accountant)
    ensures a.Valid() && a.Books() && InUse(a.holds, "g", Subtree) == 0.25 && Rec(a.customers, "g").hierUsed == 0.0
    ensures !a.Rolled()
  {
    hide AllBalanced, AllWeightBalanced, AllRolled, AllMoved, RaisedBy, Linked, Honest, Over, AncestorChain,
         AssignedGroupName,
      TickedAll, UseOf, ForgetsSubtree, InUse;
    a := new Accountant(false);
    a.AddMatch("g.h.u@d", "slot", 0.25, None, 0);
    Quarter();
    ghost var c := Rec(a.customers, "g");
    GroupAbove(map[], a.customers);
    RolledAt(a, "g");
    ghost var was := a.customers;
    a.UpdatePriorities(1, 0.5);
    CollectedGroup(was, a.customers);
  }

  lemma RolledAt(a: Accountant, x: string)
    requires a.Rolled()
    ensures Rec(a.customers, x).hierUsed == InUse(a.holds, x, Subtree)
  {
  }

  lemma GroupAbove(was: Customers, now: Customers)
    requires was == map[] && AssignedGroupName("g.h.u@d") == "g.h" && AncestorChain("g.h") == ["g.h", "g"]
    requires AllMoved(was, now, "g.h.u@d", 1, 0.25, 0, Over(0.25, 0))
    requires RaisedBy(was, now, AncestorChain(AssignedGroupName("g.h.u@d")), 0.25)
    ensures "g" in now && now["g"] == NOBODY.(hierUsed := 0.25)
  {
    hide AssignedGroupName, AncestorChain;
    assert "g.h.u@d" != "g" && "g.h" != "g";
    assert Moved(Rec(was, "g"), Rec(now, "g"), "g.h.u@d", "g", 1, 0.25, 0, Over(0.25, 0));
    assert Rec(now, "g").hierUsed == Raised(Rec(was, "g"), "g" in ["g.h", "g"], 0.25).hierUsed;
  }

  lemma CollectedGroup(was: Customers, now: Customers)
    requires "g" in was && was["g"] == NOBODY.(hierUsed := 0.25) && TickedAll(was, now, 1, 0.5)
    ensures ForgetsSubtree(was["g"], 0.5) && Rec(now, "g") == NOBODY
  {
    hide ForgetsSubtree, Collected, Ticked;
    SmallSubtree(was["g"], 0.5);
    CollectedAbove(was["g"], 1, 0.5);
    assert TickedTo(was["g"], Rec(now, "g"), 1, 0.5);
  }

  /** One match of `u` that is removed before any tick. */
  method Brief(a: Accountant, resource: string, weight: real, from: int, till: int)
    requires a.Valid() && a.Books() && a.Rolled() && weight >= 0.0 && resource !in a.resources && from >= a.lastUpdate
    modifies a
    ensures a.Valid() && a.Books() && a.Rolled() && a.resources == old(a.resources) && a.lastUpdate == old(a.lastUpdate)
    ensures a.holds == old(a.holds) + [Hold("u", weight, from, Some(till), from - a.lastUpdate)]
    ensures var s, c := till - from - (from - a.lastUpdate), Rec(old(a.customers), "u");
            Rec(a.customers, "u") == c.(uncharged := c.uncharged + s,
                                        weightedUncharged := c.weightedUncharged + Over(weight, s),
                                        hierUsed := Rec(a.customers, "u").hierUsed)
  {
    hide AllBalanced, AllWeightBalanced, AllRolled, AllMoved, RaisedBy, RaisedAll, Linked, Honest, Over, AncestorChain,
      AssignedGroupName, UseOf, SettledTwice, Rec;
    ghost var was, hs := a.customers, a.holds;
    a.AddMatch("u", resource, weight, None, from);
    ghost var between := a.customers;
    a.RemoveMatch(resource, till);
    ShortCharge(was, between, a.customers, weight, a.lastUpdate, from, till);
    assert (hs + [Hold("u", weight, from, None, 0)])[|hs| := Hold("u", weight, from, Some(till), from - a.lastUpdate)]
        == hs + [Hold("u", weight, from, Some(till), from - a.lastUpdate)];
  }

  lemma ShortCharge(was: Customers, between: Customers, now: Customers, weight: real, last: int, from: int, till: int)
    requires from >= last
    requires AllMoved(was, between, "u", 1, weight, last - from, Over(weight, last - from))
    requires var seconds := till - last - Early(from, last);
             AllMoved(between, now, "u", -1, -weight, seconds, Over(weight, seconds))
    ensures var s, c := till - from - (from - last), Rec(was, "u");
            Rec(now, "u") == c.(uncharged := c.uncharged + s,
                                weightedUncharged := c.weightedUncharged + Over(weight, s),
                                hierUsed := Rec(now, "u").hierUsed)
  {
    hide AssignedGroupName, AncestorChain, Rec, Over;
    NoGroup();
    var seconds := till - last - Early(from, last);
    assert Moved(Rec(was, "u"), Rec(between, "u"), "u", "u", 1, weight, last - from, Over(weight, last - from));
    assert Moved(Rec(between, "u"), Rec(now, "u"), "u", "u", -1, -weight, seconds, Over(weight, seconds));
    Distribute(weight, last - from, seconds);
    assert last - from + seconds == till - from - (from - last);
  }

  /** Two matches of different weight, both removed before a tick: the seconds they were charged cancel out, the
      weighted ones do not, and the next tick collects the record. */
  method ForgottenWeight() returns (a: Accountant)
    ensures a.Valid() && a.Books() && Paid(a.holds, "u", Weight, a.lastUpdate) == 1.0
    ensures Stored(Rec(a.customers, "u")) + Rec(a.customers, "u").weightedUncharged == 0.0 && !a.Weighed()
  {
    hide *;
    a := BriefPair();
    ghost var was := a.customers;
    a.UpdatePriorities(8, 0.5);
    CollectedUser(was, a.customers);
    NotWeighed(a, "u");
  }

  lemma NotWeighed(a: Accountant, x: string)
    requires Stored(Rec(a.customers, x)) + Rec(a.customers, x).weightedUncharged
             != Paid(a.holds, x, Weight, a.lastUpdate)
    ensures !a.Weighed()
  {
    assert !Weighed(Rec(a.customers, x), a.holds, a.lastUpdate, x);
  }

  method BriefPair() returns (a: Accountant)
    ensures fresh(a) && a.Valid() && a.Books() && a.lastUpdate == 0 && Paid(a.holds, "u", Weight, 8) == 1.0
    ensures Rec(a.customers, "u") == NOBODY.(weightedUncharged := 1.0)
  {
    hide *;
    a := new Accountant(false);
    ghost var m0 := a.customers;
    Brief(a, "slot", 2.0, 1, 3);
    ghost var m1 := a.customers;
    Brief(a, "slot", 1.0, 4, 7);
    PairPaid(a.holds);
    assert Rec(a.customers, "u").hierUsed == 0.0 by { RolledAt(a, "u"); }
    PairCharged(Rec(m0, "u"), Rec(m1, "u"), Rec(a.customers, "u"), m0);
  }

  lemma PairCharged(c0: Customer, c1: Customer, c2: Customer, m0: Customers)
    requires m0 == map[] && c0 == Rec(m0, "u")
    requires c1 == c0.(uncharged := c0.uncharged + 1, weightedUncharged := c0.weightedUncharged + Over(2.0, 1),
                       hierUsed := c1.hierUsed)
    requires c2 == c1.(uncharged := c1.uncharged - 1, weightedUncharged := c1.weightedUncharged + Over(1.0, -1),
                       hierUsed := 0.0)
    ensures c2 == NOBODY.(weightedUncharged := 1.0)
  {
  }

  lemma CollectedUser(was: Customers, now: Customers)
    requires Rec(was, "u") == NOBODY.(weightedUncharged := 1.0) && TickedAll(was, now, 8, 0.5)
    ensures "u" in was && Collected(was["u"], 8, 0.5) && Rec(now, "u") == NOBODY
    ensures Stored(Rec(now, "u")) + Rec(now, "u").weightedUncharged == 0.0
  {
    assert RecentUsage(was["u"], 8) == 0.125;
    assert TickedTo(was["u"], Rec(now, "u"), 8, 0.5);
  }

  lemma PairPaid(hs: seq<Hold>)
    requires hs == [Hold("u", 2.0, 1, Some(3), 1), Hold("u", 1.0, 4, Some(7), 4)]
    ensures Paid(hs, "u", Weight, 8) == 1.0 && InUse(hs, "u", Subtree) == 0.0
  {
    hide AssignedGroupName, AncestorChain;
    NoGroup();
    var one := hs[..1];
    assert one[..0] == [];
    assert PaidTerm(hs[0], "u", Weight, 8) == 2.0 && PaidTerm(hs[1], "u", Weight, 8) == -1.0;
    assert Paid(one, "u", Weight, 8) == 2.0;
    assert InUse(one, "u", Subtree) == 0.0;
  }

  /** A slot of no weight held over a tick, then one of weight one: the second tick takes the seconds of the first for
      weighted ones. */
  method MistakenWeight() returns (a: Accountant)
    ensures a.Valid() && a.Books() && !a.Weighed()
  {
    hide *;
    a := new Accountant(false);
    a.AddMatch("u", "free", 0.0, None, 0);
    ghost var first := a.customers;
    Weightless(first);
    a.UpdatePriorities(1, 0.5);
    ghost var ticked := a.customers;
    a.AddMatch("u", "slot", 1.0, None, 1);
    Mistaken(first, ticked, a.customers);
    a.UpdatePriorities(2, 0.5);
  }

  lemma {:induction false} Weightless(now: Customers)
    requires AllMoved(map[], now, "u", 1, 0.0, 0, Over(0.0, 0))
    ensures forall x :: x in now ==> KeepsWeight(now[x], 1, 0.5)
    ensures Rec(now, "u") == NOBODY.(resourcesUsed := 1, hierUsed := Rec(now, "u").hierUsed)
  {
    hide AssignedGroupName, AncestorChain, Collected, WeightedGain;
    NoGroup();
    ZeroTimes(0.0);
    forall x ensures Rec(now, x).accumulated == 0 && Stored(Rec(now, x)) + Rec(now, x).weightedUncharged == 0.0 {
      assert Moved(Rec(map[], x), Rec(now, x), "u", x, 1, 0.0, 0, Over(0.0, 0));
      PartOfNothing("u", x, Weight);
    }
    forall x | x in now ensures KeepsWeight(now[x], 1, 0.5) {
      assert now[x] == Rec(now, x);
    }
    assert Moved(Rec(map[], "u"), Rec(now, "u"), "u", "u", 1, 0.0, 0, Over(0.0, 0));
  }

  lemma {:induction false} Mistaken(first: Customers, ticked: Customers, now: Customers)
    requires Rec(first, "u") == NOBODY.(resourcesUsed := 1, hierUsed := Rec(first, "u").hierUsed)
    requires TickedAll(first, ticked, 1, 0.5) && AllMoved(ticked, now, "u", 1, 1.0, 0, Over(1.0, 0))
    ensures "u" in now && !KeepsWeight(now["u"], 1, 0.5)
  {
    hide AssignedGroupName, AncestorChain, NewPriority, Floored;
    NoGroup();
    ZeroTimes(1.0);
    assert "u" in first;
    assert TickedTo(first["u"], Rec(ticked, "u"), 1, 0.5);
    assert Moved(Rec(ticked, "u"), Rec(now, "u"), "u", "u", 1, 1.0, 0, Over(1.0, 0));
  }
}
