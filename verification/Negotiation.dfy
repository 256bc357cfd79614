/** Negotiating with one group's submitters: spins over the list until nothing moves any more. Preemption is
    off. Clocks, sessions and the concurrency-limit gate enter as arbitrary choices. */
module Negotiation {
  import opened Options
  import opened RealSums
  import opened Matchmaking
  import opened PieSpin

  /** One resource request of a schedd: up to `count` identical jobs. */
  datatype Request = Request(ad: nat, autoCluster: int, count: int)

  /** One group's turn. A quota of None is +Inf; an empty name means no group accounting. */
  datatype RoundInfo = RoundInfo(name: string, quota: Option<real>, isFloor: bool)

  datatype MMResult = Resume | Done | Error

  /** How one attempt to place a job ended. */
  datatype Attempt = Stopped(result: MMResult) | Refused(limited: bool) | Matched(slot: nat)

  /** What is fixed for one spin. */
  datatype SpinEnv = SpinEnv(spin: nat, groupUsage: real, maxPrio: real, normalFactor: real, slotWeightTotal: real)

  function Charge(usage: Usage, name: string, weight: real): (u: Usage)
    ensures Used(u, name) == Used(usage, name) + weight
    ensures forall n :: n != name ==> Used(u, n) == Used(usage, n)
    ensures u.Keys == usage.Keys + {name}
  {
    usage[name := Used(usage, name) + weight]
  }

  class Cycle {
    const weights: seq<real>            // slot weights, by scan index
    const partitionable: seq<bool>
    const prio: string -> real          // effective priorities
    const ceiling: string -> real       // negative when there is none
    const floor: string -> real
    const groupOf: string -> string     // a submitter's assigned accounting group
    const constraint: Request -> bool   // NEGOTIATOR_JOB_CONSTRAINT
    const eval: (Request, nat) -> Offer // a request's and a slot's ads evaluated against each other
    const jobs: (Submitter, nat) -> seq<Request> // what a submitter's schedd sends in a given spin
    const untrimmedTotal: real
    const minSlotWeight: real
    const unweighted: bool
    const workers: nat

    var usage: Usage
    var live: seq<bool>
    var pieLeft: real

    ghost predicate Sane() {
      && |weights| == |partitionable|
      && (forall i :: 0 <= i < |weights| ==> weights[i] >= 0.0)
      && (forall n :: prio(n) > 0.0)
      && forall r, i: nat ::
           eval(r, i).idx == i && eval(r, i).slot == i && (i < |weights| ==> eval(r, i).weight == weights[i])
    }

    ghost predicate Valid()
      reads this
    {
      && Sane() && |live| == |weights|
      && forall n :: n in usage ==> usage[n] >= 0.0
    }

    /** Charge a match to the submitter and to its assigned group. */
    method AddMatch(name: string, weight: real)
      requires Valid() && weight >= 0.0
      modifies this`usage
      ensures Valid() && Grew(old(usage), usage)
      ensures forall n :: Used(usage, n) == Used(old(usage), n) + (if n == name then weight else 0.0)
                                            + (if n == groupOf(name) then weight else 0.0)
    {
      usage := Charge(Charge(usage, name, weight), groupOf(name), weight);
    }

    /** A matched static slot leaves the view; a partitionable one stays. */
    method Consume(i: nat)
      requires Valid() && i < |live|
      modifies this`live
      ensures Valid() && live == if partitionable[i] then old(live) else old(live)[i := false]
    {
      if live[i] && !partitionable[i] {
        live := live[i := false];
      }
    }

    /** What the first `n` slots of the view offer a request: the live ones, in canonical order. */
    ghost function LiveOffers(r: Request, n: nat): seq<Offer>
      requires n <= |live|
      reads this
    {
      if n == 0 then [] else LiveOffers(r, n - 1) + if live[n - 1] then [eval(r, n - 1)] else []
    }

    method Gather(r: Request) returns (offers: seq<Offer>)
      requires Valid()
      ensures offers == LiveOffers(r, |live|) && DistinctIndices(offers)
      ensures forall k :: 0 <= k < |offers| ==>
                && 0 <= offers[k].idx < |live| && live[offers[k].idx]
                && offers[k] == eval(r, offers[k].idx)
    {
      offers := [];
      for i := 0 to |live|
        invariant offers == LiveOffers(r, i)
        invariant forall k :: 0 <= k < |offers| ==>
                    && 0 <= offers[k].idx < i && live[offers[k].idx]
                    && offers[k] == eval(r, offers[k].idx)
        invariant DistinctIndices(offers)
      {
        if live[i] {
          offers := offers + [eval(r, i)];
        }
      }
    }

    function ScanFor(name: string, limitUsed: real, limit: real): Scan {
      Scan(Config(false, false), Limits(limit, limitUsed, limit, limitUsed, false, name), false)
    }

    /** The slot of the best candidate, if there is one. */
    ghost predicate Chosen(s: Scan, offers: seq<Offer>, choice: Option<nat>) {
      exists best :: IsBest(s, offers, best) && choice == if best.Some? then Some(best.value.slot) else None
    }

    /** Find the best slot for a request within the submitter's limit, unless a concurrency limit stands against it. */
    method Match(r: Request, name: string, limitUsed: real, limit: real)
      returns (choice: Option<nat>, forSubmitterLimit: nat, overConcurrencyLimit: bool)
      requires Valid()
      ensures overConcurrencyLimit ==> choice.None? && forSubmitterLimit == 0
      ensures !overConcurrencyLimit ==> Chosen(ScanFor(name, limitUsed, limit), LiveOffers(r, |live|), choice)
      ensures !overConcurrencyLimit && choice.None? ==>
                forSubmitterLimit == Rejections(ScanFor(name, limitUsed, limit), LiveOffers(r, |live|)).submitterLimit
      ensures choice.Some? ==> choice.value < |weights| && live[choice.value]
      ensures choice.Some? ==> SubmitterLimitPermits(limitUsed, limit, weights[choice.value])
    {
      hide Rejections, LiveOffers;
      overConcurrencyLimit := *;
      if overConcurrencyLimit {
        return None, 0, true;
      }
      var offers := Gather(r);
      var scan := ScanFor(name, limitUsed, limit);
      var best, rej := ParallelScan(scan, offers, workers);
      if best.None? {
        return None, rej.submitterLimit, false;
      }
      ghost var k: nat :| k < |offers| && scan.Eval(offers[k]) == Pass(best.value);
      MatchedWithinLimit(scan.cfg, offers[k], scan.limits, false);
      return Some(best.value.slot), 0, false;
    }

    predicate Skipped(r: Request, rejected: set<int>) {
      (r.autoCluster >= 0 && r.autoCluster in rejected) || !constraint(r)
    }

    /** The position of the first usable request, or the length of the queue. */
    ghost function FirstUsable(todo: seq<Request>, rejected: set<int>): (k: nat)
      ensures k <= |todo|
    {
      if |todo| == 0 || !Skipped(todo[0], rejected) then 0 else 1 + FirstUsable(todo[1..], rejected)
    }

    /** Everything in front of it is skipped, and it is not. */
    lemma {:induction false} FirstUsableIs(todo: seq<Request>, rejected: set<int>)
      ensures var k := FirstUsable(todo, rejected);
              (k < |todo| ==> !Skipped(todo[k], rejected)) && forall j :: 0 <= j < k ==> Skipped(todo[j], rejected)
    {
      if |todo| > 0 && Skipped(todo[0], rejected) {
        FirstUsableIs(todo[1..], rejected);
      }
    }

    /** The next usable request: rejected autoclusters and jobs outside the constraint are passed over. */
    method NextRequest(todo: seq<Request>, rejected: set<int>) returns (next: Option<Request>, rest: seq<Request>)
      ensures var k := FirstUsable(todo, rejected);
              if k < |todo| then next == Some(todo[k]) && rest == todo[k + 1..] else next == None && rest == []
    {
      rest := todo;
      while |rest| > 0
        invariant |rest| <= |todo| && rest == todo[|todo| - |rest|..]
        invariant FirstUsable(todo, rejected) == |todo| - |rest| + FirstUsable(rest, rejected)
        decreases |rest|
      {
        var r := rest[0];
        rest := rest[1..];
        if !Skipped(r, rejected) {
          return Some(r), rest;
        }
      }
      return None, [];
    }

    /** The weight of the slots in view. */
    ghost function LiveWeights(view: seq<bool>): (ws: seq<real>)
      requires |view| == |weights|
      ensures |ws| == |view| && forall i :: 0 <= i < |view| ==> ws[i] == if view[i] then weights[i] else 0.0
    {
      seq(|view|, i requires 0 <= i < |view| => if view[i] then weights[i] else 0.0)
    }

    ghost function InView(view: seq<bool>): real
      requires |view| == |weights|
    {
      Sum(LiveWeights(view))
    }

    lemma SlotLeaves(view: seq<bool>, i: nat)
      requires |view| == |weights| && i < |view| && view[i]
      ensures InView(view[i := false]) == InView(view) - weights[i]
    {
      hide Sum;
      SumUpdate(LiveWeights(view), i, 0.0);
      assert LiveWeights(view[i := false]) == LiveWeights(view)[i := 0.0];
    }

    ghost predicate AllStatic() {
      forall i :: 0 <= i < |partitionable| ==> !partitionable[i]
    }

    /** What left the view weighs `amount`, if every slot is static. */
    ghost predicate Left(view: seq<bool>, view': seq<bool>, amount: real) {
      |view| == |view'| == |weights| && (AllStatic() ==> InView(view) - InView(view') == amount)
    }

    lemma NothingLeft(view: seq<bool>)
      requires |view| == |weights|
      ensures Left(view, view, 0.0)
    {
    }

    lemma LeftTwice(a: seq<bool>, b: seq<bool>, c: seq<bool>, x: real, y: real)
      requires Left(a, b, x) && Left(b, c, y)
      ensures Left(a, c, x + y)
    {
    }

    lemma LeftIs(a: seq<bool>, b: seq<bool>, x: real)
      requires Left(a, b, x)
      ensures |a| == |b| == |weights| && (AllStatic() ==> InView(a) - InView(b) == x)
    {
    }

    /** A match costs the submitter, its group and the pie the slot's weight, and the view the slot. */
    method Commit(name: string, slot: nat)
      requires Valid() && slot < |live| && live[slot]
      modifies this
      ensures Valid() && Billed(old(usage), usage, name, weights[slot]) && pieLeft == old(pieLeft) - weights[slot]
      ensures Left(old(live), live, weights[slot])
      ensures forall i :: 0 <= i < |live| && live[i] ==> old(live)[i]
    {
      hide Sum;
      AddMatch(name, weights[slot]);
      SlotLeaves(live, slot);
      Consume(slot);
      pieLeft := pieLeft - weights[slot];
    }

    /** Try to place one job. The attempt may stop short; otherwise the best slot is taken, or none will do. */
    method Place(r: Request, name: string, limitUsed: real, limit: real) returns (attempt: Attempt)
      requires Valid()
      modifies this
      ensures Valid() && !(attempt.Stopped? && attempt.result.Done?)
      ensures !attempt.Matched? ==> usage == old(usage) && live == old(live) && pieLeft == old(pieLeft)
      ensures attempt.Refused? && attempt.limited ==>
                Rejections(ScanFor(name, limitUsed, limit), LiveOffers(r, |live|)).submitterLimit > 0
      ensures attempt.Matched? ==>
                var i := attempt.slot;
                && i < |weights| == |live| == |old(live)| && SubmitterLimitPermits(limitUsed, limit, weights[i])
                && old(Chosen(ScanFor(name, limitUsed, limit), LiveOffers(r, |live|), Some(i)))
                && Billed(old(usage), usage, name, weights[i]) && pieLeft == old(pieLeft) - weights[i]
                && Left(old(live), live, weights[i])
    {
      hide *;
      ViewFits();
      var choice, forSubmitterLimit, gated := Match(r, name, limitUsed, limit);
      var outOfTime: bool, failed: bool := *, *;
      if outOfTime || failed {
        return Stopped(if outOfTime then Resume else Error);
      }
      if choice.None? {
        return Refused(forSubmitterLimit > 0);
      }
      var undelivered: bool := *;
      if undelivered {
        return Stopped(Error);
      }
      Commit(name, choice.value);
      ViewFits();
      return Matched(choice.value);
    }

    /** `amount` was charged to the submitter and to its group, and nothing to anybody else. */
    ghost predicate Billed(u: Usage, v: Usage, name: string, amount: real) {
      forall n :: Used(v, n) == Used(u, n) + (if n == name then amount else 0.0)
        + (if n == groupOf(name) then amount else 0.0)
    }

    lemma BilledTwice(u: Usage, v: Usage, x: Usage, name: string, a: real, b: real)
      requires Billed(u, v, name, a) && Billed(v, x, name, b)
      ensures Billed(u, x, name, a + b)
    {
    }

    lemma BilledGrew(u: Usage, v: Usage, name: string, amount: real)
      requires Billed(u, v, name, amount) && amount >= 0.0
      ensures Grew(u, v) && Used(v, name) >= Used(u, name) + amount
    {
    }

    /** Every positive slot weight is at least `w`, and none exceeds `top`. */
    ghost predicate Weighed(w: real, top: real) {
      && 0.0 < w <= top
      && forall i :: 0 <= i < |weights| ==> (weights[i] == 0.0 || weights[i] >= w) && weights[i] <= top
    }

    /** Spending stays within the limit, or is a single match over it; any spending needs a positive limit, is at least
        one slot and passes the ceiling by less than one. */
    ghost predicate Spent(used: real, limit: real, headroom: real, w: real, top: real) {
      && used >= 0.0
      && (used <= Max(0.0, limit) || exists i :: 0 <= i < |weights| && weights[i] == used)
      && (used > 0.0 ==> limit > 0.0 && used >= w && used < headroom + top)
    }

    lemma NothingSpent(limit: real, headroom: real, w: real, top: real)
      ensures Spent(0.0, limit, headroom, w, top)
    {
    }

    lemma SpendMore(used: real, limit: real, headroom: real, w: real, top: real, i: nat)
      requires Valid() && Weighed(w, top) && Spent(used, limit, headroom, w, top) && i < |weights|
      requires used < limit && used < headroom && SubmitterLimitPermits(used, limit, weights[i])
      ensures Spent(used + weights[i], limit, headroom, w, top)
    {
    }

    lemma SpentIs(used: real, limit: real, headroom: real, w: real, top: real)
      requires Spent(used, limit, headroom, w, top)
      ensures used >= 0.0 && (used <= Max(0.0, limit) || exists i :: 0 <= i < |weights| && weights[i] == used)
      ensures used > 0.0 ==> limit > 0.0 && used >= w && used < headroom + top
    {
    }

    lemma ViewFits()
      requires Valid()
      ensures |live| == |weights|
    {
    }

    /** One submitter's requests, matched one job at a time until a limit stops it. */
    method NegotiateSubmitter(name: string, requests: seq<Request>, limit: real, headroom: real,
                              ghost w: real, ghost top: real) returns (result: MMResult)
      requires Valid() && Weighed(w, top)
      modifies this
      ensures Valid()
      // What the pie lost is what the submitter and its group were charged, and the weight that left the view.
      ensures pieLeft <= old(pieLeft) && Billed(old(usage), usage, name, old(pieLeft) - pieLeft)
      ensures AllStatic() ==> InView(old(live)) - InView(live) == old(pieLeft) - pieLeft
      // Spending stays within the limit, unless a single match took it over by the round-up rule.
      ensures old(pieLeft) - pieLeft <= Max(0.0, limit) ||
                exists i :: 0 <= i < |weights| && weights[i] == old(pieLeft) - pieLeft
      // Any spending needs a positive limit, and passes the ceiling by less than one slot.
      ensures pieLeft < old(pieLeft) ==>
                limit > 0.0 && old(pieLeft) - pieLeft >= w && old(pieLeft) - pieLeft < headroom + top
      // A submitter is only done when it has used less than its limit.
      ensures result == Done ==> old(pieLeft) - pieLeft < limit
    {
      hide *;
      var limitUsed := 0.0;
      var limited := false;
      var rejected: set<int> := {};
      var todo := requests;
      var cur: Option<Request> := None;
      var offers := 0;
      NothingBilled(usage, name);
      NothingSpent(limit, headroom, w, top);
      ViewFits();
      NothingLeft(live);
      while true
        invariant Valid() && Billed(old(usage), usage, name, limitUsed) && Left(old(live), live, limitUsed)
        invariant limitUsed == old(pieLeft) - pieLeft && Spent(limitUsed, limit, headroom, w, top)
        decreases |todo|, if cur.None? then 0 else if cur.value.count > offers then 1 + cur.value.count - offers else 1
      {
        var broken: bool, deadline: bool := *, *;
        if broken || deadline || limitUsed >= limit || limitUsed >= headroom {
          result := if broken then Error else Resume;
          break;
        }
        if cur.None? || offers >= cur.value.count {
          offers := 0;
          Shorter(todo, rejected);
          cur, todo := NextRequest(todo, rejected);
          if cur.None? {
            result := if limitUsed >= limit || limited then Resume else Done;
            break;
          }
        }
        ghost var before, view := usage, live;
        var attempt := Place(cur.value, name, limitUsed, limit);
        match attempt {
          case Stopped(why) =>
            result := why;
            break;
          case Refused(forLimit) =>
            if forLimit && unweighted {
              result := Resume;
              break;
            }
            limited := limited || forLimit;
            rejected := if cur.value.autoCluster >= 0 then rejected + {cur.value.autoCluster} else rejected;
            cur := None;
          case Matched(slot) =>
            SpendMore(limitUsed, limit, headroom, w, top, slot);
            BilledTwice(old(usage), before, usage, name, limitUsed, weights[slot]);
            LeftTwice(old(live), view, live, limitUsed, weights[slot]);
            limitUsed := limitUsed + weights[slot];
            offers := offers + 1;
        }
      }
      SpentIs(limitUsed, limit, headroom, w, top);
      LeftIs(old(live), live, limitUsed);
    }

    lemma NothingBilled(u: Usage, name: string)
      ensures Billed(u, u, name, 0.0)
    {
    }

    lemma Shorter(todo: seq<Request>, rejected: set<int>)
      ensures var k := FirstUsable(todo, rejected); k < |todo| ==> |todo[k + 1..]| < |todo|
    {
    }

    // ----- limits -----

    /** What the submitter's share of the total leaves it beyond its usage. */
    function FairLimit(name: string, env: SpinEnv): real
      requires Divisor(prio(name), env.normalFactor) != 0.0
      reads this
    {
      Max(0.0, Share(env.maxPrio, env.normalFactor, prio(name)) * env.slotWeightTotal - Used(usage, name))
    }

    /** The submitter's limit this spin: its fair share less its usage, within the group's headroom and,
        in a floor round, its floor. */
    function SubmitterLimit(name: string, ri: RoundInfo, env: SpinEnv, isFloorRound: bool): (limit: real)
      requires Divisor(prio(name), env.normalFactor) != 0.0
      reads this
      ensures limit <= FairLimit(name, env)
    {
      var fair := FairLimit(name, env);
      var unclaimed := if ri.name != "" && ri.quota.Some? then Min(fair, Max(0.0, ri.quota.value - env.groupUsage))
        else fair;
      if isFloorRound && floor(name) < unclaimed then floor(name) else unclaimed
    }

    /** The environment was computed for submitters of these names. */
    ghost predicate EnvFor(env: SpinEnv, names: seq<string>)
      requires Sane()
    {
      |names| > 0 && env.maxPrio > 0.0 && env.normalFactor == Sum(Terms(names, env.maxPrio, prio))
    }

    lemma EnvDivides(env: SpinEnv, names: seq<string>, name: string)
      requires Sane() && EnvFor(env, names) && name in names
      ensures Divisor(prio(name), env.normalFactor) > 0.0
      ensures 0.0 < Share(env.maxPrio, env.normalFactor, prio(name)) <= 1.0
    {
      hide Sum, Share;
      SharesAddUpToOne(names, env.maxPrio, env.normalFactor, prio);
      DivisorPositive(prio(name), env.normalFactor);
      var i :| 0 <= i < |names| && names[i] == name;
      assert Shares(names, env.maxPrio, env.normalFactor, prio)[i] == Share(env.maxPrio, env.normalFactor, prio(name));
    }

    /** A submitter with a positive limit is below the pool's total, by at least that limit. */
    lemma LimitWithinTotal(name: string, ri: RoundInfo, env: SpinEnv, isFloorRound: bool, names: seq<string>)
      requires Valid() && EnvFor(env, names) && name in names
      ensures Divisor(prio(name), env.normalFactor) > 0.0
      ensures SubmitterLimit(name, ri, env, isFloorRound) > 0.0 ==>
                Used(usage, name) + SubmitterLimit(name, ri, env, isFloorRound) <= env.slotWeightTotal
    {
      hide Share, SubmitterLimit;
      EnvDivides(env, names, name);
      var share := Share(env.maxPrio, env.normalFactor, prio(name));
      LimitBound(share, env.slotWeightTotal, Used(usage, name), SubmitterLimit(name, ri, env, isFloorRound));
    }

    /** The pie: the sum of the submitters' limits, each submitter stamped with its starvation ratio. */
    method CalculatePieLeft(subs: seq<Submitter>, ri: RoundInfo, env: SpinEnv, ghost names: seq<string>)
      returns (pie: real, stamped: seq<Submitter>)
      requires Valid() && EnvFor(env, names)
      requires forall i :: 0 <= i < |subs| ==> subs[i].name in names
      ensures |stamped| == |subs|
      ensures forall i :: 0 <= i < |subs| ==>
                stamped[i] == subs[i].(starvation := StarvationOf(subs[i].name, ri, env, names))
      ensures pie == Sum(LimitsOf(subs, ri, env, names))
    {
      hide Sum, Share, StarvationRatio;
      pie, stamped := 0.0, [];
      SumEmpty();
      ghost var limits := LimitsOf(subs, ri, env, names);
      for i := 0 to |subs|
        invariant pie == Sum(limits[..i]) && |stamped| == i
        invariant forall k :: 0 <= k < i ==>
                    stamped[k] == subs[k].(starvation := StarvationOf(subs[k].name, ri, env, names))
      {
        SumPrefix(limits, i);
        EnvDivides(env, names, subs[i].name);
        var limit := SubmitterLimit(subs[i].name, ri, env, false);
        var used := Used(usage, subs[i].name);
        stamped := stamped + [subs[i].(starvation := StarvationRatio(used, used + limit))];
        pie := pie + limit;
      }
      assert limits[..|subs|] == limits;
    }

    ghost function StarvationOf(name: string, ri: RoundInfo, env: SpinEnv, names: seq<string>): real
      requires Valid() && EnvFor(env, names) && name in names
      reads this
    {
      EnvDivides(env, names, name);
      StarvationRatio(Used(usage, name), Used(usage, name) + SubmitterLimit(name, ri, env, false))
    }

    ghost function LimitsOf(subs: seq<Submitter>, ri: RoundInfo, env: SpinEnv, names: seq<string>): (ls: seq<real>)
      requires Valid() && EnvFor(env, names)
      requires forall i :: 0 <= i < |subs| ==> subs[i].name in names
      reads this
      ensures |ls| == |subs|
      ensures forall i :: 0 <= i < |subs| ==>
                && Divisor(prio(subs[i].name), env.normalFactor) != 0.0
                && ls[i] == SubmitterLimit(subs[i].name, ri, env, false)
    {
      assert forall i :: 0 <= i < |subs| ==> Divisor(prio(subs[i].name), env.normalFactor) != 0.0 by {
        forall i | 0 <= i < |subs| ensures Divisor(prio(subs[i].name), env.normalFactor) != 0.0 {
          EnvDivides(env, names, subs[i].name);
        }
      }
      seq(|subs|, i requires 0 <= i < |subs| reads this => SubmitterLimit(subs[i].name, ri, env, false))
    }

    // ----- one submitter's turn -----

    ghost predicate NamesIn(subs: seq<Submitter>, names: seq<string>) {
      forall i :: 0 <= i < |subs| ==> subs[i].name in names
    }

    /** What a turn, or a run of turns, does to the pie and to the submitters' credits. */
    ghost predicate Progress(names: seq<string>, total: real, w: real, top: real, u: Usage, pie: real, v: Usage,
                             pie': real)
      requires w > 0.0
    {
      && Grew(u, v) && pie' <= pie
      && Credits(names, total, w, v) <= Credits(names, total, w, u)
      && (pie' < pie ==> Credits(names, total, w, v) < Credits(names, total, w, u))
      && (pie' < pie ==> pie > 0.0 && pie' > -top)
    }

    lemma NoProgress(names: seq<string>, total: real, w: real, top: real, u: Usage, pie: real)
      requires Weighed(w, top)
      ensures w > 0.0 && Progress(names, total, w, top, u, pie, u, pie)
    {
    }

    lemma TurnIsProgress(names: seq<string>, name: string, total: real, w: real, top: real, u: Usage, pie: real,
                         v: Usage, pie': real, limit: real)
      requires Weighed(w, top) && name in names && pie' <= pie && Billed(u, v, name, pie - pie') && limit <= pie
      requires limit > 0.0 ==> Used(u, name) < total
      requires pie - pie' <= Max(0.0, limit) || exists i :: 0 <= i < |weights| && weights[i] == pie - pie'
      requires pie' < pie ==> limit > 0.0 && pie - pie' >= w
      ensures w > 0.0 && Progress(names, total, w, top, u, pie, v, pie')
    {
      hide Credits, Billed, Grew;
      BilledGrew(u, v, name, pie - pie');
      CreditsMonotone(names, total, w, u, v);
      if pie' < pie {
        CreditsDrop(names, total, w, u, v, name);
      }
    }

    /** Compute one submitter's limit and ceiling, and negotiate with it unless there is no point. */
    method NegotiateOne(ri: RoundInfo, sub: Submitter, env: SpinEnv,
                        ghost names: seq<string>, ghost all: seq<string>, ghost w: real, ghost top: real)
      returns (result: MMResult)
      requires Valid() && Weighed(w, top)
      requires EnvFor(env, names) && sub.name in names && sub.name in all
      modifies this
      ensures Valid() && Billed(old(usage), usage, sub.name, old(pieLeft) - pieLeft)
      ensures AllStatic() ==> InView(old(live)) - InView(live) == old(pieLeft) - pieLeft
      // Within the fair share, the group's headroom, the floor and the pie, or one slot over.
      ensures Divisor(prio(sub.name), env.normalFactor) != 0.0
      ensures old(pieLeft) - pieLeft <= Max(0.0, Min(old(SubmitterLimit(sub.name, ri, env, ri.isFloor)), old(pieLeft)))
              || exists i :: 0 <= i < |weights| && weights[i] == old(pieLeft) - pieLeft
      // Past the ceiling by less than one slot.
      ensures pieLeft < old(pieLeft) && ceiling(sub.name) >= 0.0 ==>
                Used(old(usage), sub.name) + (old(pieLeft) - pieLeft) < ceiling(sub.name) + top
      ensures Progress(all, env.slotWeightTotal, w, top, old(usage), old(pieLeft), usage, pieLeft)
    {
      hide Share, Credits, Sum, Billed, SubmitterLimit, Progress, Grew, LiveWeights, AllStatic, EnvFor, Terms;
      NothingBilled(usage, sub.name);
      NoProgress(all, env.slotWeightTotal, w, top, usage, pieLeft);
      LimitWithinTotal(sub.name, ri, env, ri.isFloor, names);
      var limit := SubmitterLimit(sub.name, ri, env, ri.isFloor);
      if limit > pieLeft {
        limit := pieLeft;
      }
      var headroom := MAX_FLOAT64;
      if ceiling(sub.name) >= 0.0 {
        headroom := Max(0.0, ceiling(sub.name) - Used(usage, sub.name));
      }
      var outOfTime: bool := *;
      if sub.idleJobs <= 0 || outOfTime {
        return Done;
      } else if env.spin > 1 && (limit < minSlotWeight || pieLeft < minSlotWeight) {
        return Resume;
      } else if headroom <= 0.0 || headroom < minSlotWeight {
        return Done;
      }
      result := NegotiateSubmitter(sub.name, jobs(sub, env.spin), limit, headroom, w, top);
      TurnIsProgress(all, sub.name, env.slotWeightTotal, w, top, old(usage), old(pieLeft), usage, pieLeft, limit);
    }

    /** Whether the group has used up its quota. */
    predicate QuotaMet(ri: RoundInfo)
      reads this
    {
      ri.name != "" && ri.quota.Some? && Used(usage, ri.name) >= ri.quota.value
    }

    /** One pass over the submitters. Those that are satisfied or failed leave the list. */
    method SpinOnce(ri: RoundInfo, subs: seq<Submitter>, env: SpinEnv,
                    ghost names: seq<string>, ghost all: seq<string>, ghost w: real, ghost top: real)
      returns (next: seq<Submitter>)
      requires Valid() && Weighed(w, top)
      requires EnvFor(env, names) && NamesIn(subs, names) && NamesIn(subs, all)
      modifies this
      ensures Valid()
      ensures Progress(all, env.slotWeightTotal, w, top, old(usage), old(pieLeft), usage, pieLeft)
      // No slot is handed out twice: the pie falls by the weight that left the view.
      ensures AllStatic() ==> InView(old(live)) - InView(live) == old(pieLeft) - pieLeft
      ensures |next| <= |subs| && NamesIn(next, all)
    {
      hide Credits, Sum, EnvFor, Billed, SubmitterLimit;
      next := [];
      var halted := false;
      for i := 0 to |subs|
        invariant Valid()
        invariant Progress(all, env.slotWeightTotal, w, top, old(usage), old(pieLeft), usage, pieLeft)
        invariant AllStatic() ==> InView(old(live)) - InView(live) == old(pieLeft) - pieLeft
        invariant |next| <= i && NamesIn(next, all)
      {
        var cancelled: bool := *;
        if halted || cancelled {
          next := next + [subs[i]];
          continue;
        }
        if QuotaMet(ri) {
          halted := true;
          next := next + [subs[i]];
          continue;
        }
        var result := NegotiateOne(ri, subs[i], env, names, all, w, top);
        if result == Resume {
          next := next + [subs[i]];
        }
      }
    }

    /** The submitters with idle jobs, in order. */
    ghost function Idle(subs: seq<Submitter>): (out: seq<Submitter>)
      ensures |out| <= |subs| && forall s :: s in out <==> s in subs && s.idleJobs > 0
    {
      if |subs| == 0 then []
      else
        var last := subs[|subs| - 1];
        Idle(subs[..|subs| - 1]) + if last.idleJobs > 0 then [last] else []
    }

    /** Submitters without idle jobs do not take part. */
    method FilterIdle(subs: seq<Submitter>) returns (out: seq<Submitter>)
      ensures out == Idle(subs)
    {
      out := [];
      for i := 0 to |subs|
        invariant out == Idle(subs[..i])
      {
        assert subs[..i + 1][..i] == subs[..i];
        if subs[i].idleJobs > 0 {
          out := out + [subs[i]];
        }
      }
      assert subs[..|subs|] == subs;
    }

    /** Best priority first, then most starved, then the schedd heard from least recently in the tiebreak
        cycle, then the original order. */
    predicate Before(a: Submitter, b: Submitter) {
      if prio(a.name) != prio(b.name) then prio(a.name) < prio(b.name)
      else if a.starvation != b.starvation then a.starvation < b.starvation
      else if Remainder(a.lastHeard, 1009) != Remainder(b.lastHeard, 1009)
      then Remainder(a.lastHeard, 1009) < Remainder(b.lastHeard, 1009)
      else a.origIdx < b.origIdx
    }

    lemma BeforeIsOrder(a: Submitter, b: Submitter, c: Submitter)
      ensures Before(a, b) ==> !Before(b, a)
      ensures !Before(b, a) && !Before(c, b) ==> !Before(c, a)
    {
    }

    ghost predicate Ordered(subs: seq<Submitter>) {
      forall p, q :: 0 <= p < q < |subs| ==> !Before(subs[q], subs[p])
    }

    lemma InsertOrdered(subs: seq<Submitter>, x: Submitter, pos: nat, out: seq<Submitter>)
      requires Ordered(subs) && pos <= |subs|
      requires pos > 0 ==> !Before(x, subs[pos - 1])
      requires forall p :: pos <= p < |subs| ==> Before(x, subs[p])
      requires out == subs[..pos] + [x] + subs[pos..]
      ensures Ordered(out)
    {
      hide Before;
      forall p | 0 <= p < |subs|
        ensures p < pos ==> !Before(x, subs[p])
        ensures p >= pos ==> !Before(subs[p], x)
      {
        if p < pos { BeforeIsOrder(subs[p], subs[pos - 1], x); } else { BeforeIsOrder(x, subs[p], x); }
      }
      forall p, q | 0 <= p < q < |out| ensures !Before(out[q], out[p]) {
        assert out[p] == if p < pos then subs[p] else if p == pos then x else subs[p - 1];
        assert out[q] == if q < pos then subs[q] else if q == pos then x else subs[q - 1];
      }
    }

    method SortSubmitters(subs: seq<Submitter>) returns (sorted: seq<Submitter>)
      ensures multiset(sorted) == multiset(subs) && Ordered(sorted)
    {
      hide Ordered, Before;
      sorted := [];
      NothingOrdered();
      for k := 0 to |subs|
        invariant |sorted| == k && multiset(sorted) == multiset(subs[..k]) && Ordered(sorted)
      {
        var pos := k;
        while pos > 0 && Before(subs[k], sorted[pos - 1])
          invariant 0 <= pos <= k
          invariant forall p :: pos <= p < k ==> Before(subs[k], sorted[p])
        {
          pos := pos - 1;
        }
        var out := sorted[..pos] + [subs[k]] + sorted[pos..];
        InsertOrdered(sorted, subs[k], pos, out);
        assert sorted == sorted[..pos] + sorted[pos..];
        assert subs[..k + 1] == subs[..k] + [subs[k]];
        sorted := out;
      }
      assert subs[..|subs|] == subs;
    }

    lemma NothingOrdered()
      ensures Ordered([])
    {
    }

    // ----- the whole group -----

    /** The weight that is shared out: the pool's, or the group's quota if that is less. */
    function TotalFor(ri: RoundInfo): real {
      if ri.quota.Some? && untrimmedTotal > ri.quota.value then ri.quota.value else untrimmedTotal
    }

    /** The submitters that take part in a spin, and the pie they divide: the sum of their limits. */
    method PrepareSpin(ri: RoundInfo, subsIn: seq<Submitter>, spin: nat, ghost all: seq<string>)
      returns (subs: seq<Submitter>, env: SpinEnv, pie: real, ghost idle: seq<Submitter>, ghost names: seq<string>)
      requires Valid() && NamesIn(subsIn, all)
      ensures |subs| == |idle| <= |subsIn| && NamesIn(subs, all)
      ensures idle == Idle(subsIn)
      ensures env.slotWeightTotal == TotalFor(ri) && names == Names(idle)
      ensures |subs| > 0 ==> EnvFor(env, names) && NamesIn(subs, names) && NamesIn(idle, names)
      ensures |subs| > 0 ==> pie == Sum(LimitsOf(idle, ri, env, names))
      ensures spin == 1 ==> Ordered(subs)
    {
      hide Sum, EnvFor, Valid, Names, LimitsOf, Ordered, Before, Idle;
      var groupUsage := if ri.name != "" then Used(usage, ri.name) else 0.0;
      var active := FilterIdle(subsIn);
      idle, names := active, Names(active);
      FilteredNames(subsIn, active, all);
      if |active| == 0 {
        env := SpinEnv(spin, groupUsage, 1.0, 1.0, TotalFor(ri));
        NothingOrdered();
        return [], env, 0.0, active, names;
      }
      assert Sane() by { ValidIsSane(); }
      var maxPrio, nf := CalculateNormalizationFactor(active, prio);
      env := SpinEnv(spin, groupUsage, maxPrio, nf, TotalFor(ri));
      EnvMade(env, active);
      pie, subs := CalculatePieLeft(active, ri, env, names);
      if spin == 1 {
        var stamped := subs;
        subs := SortSubmitters(stamped);
        SameNames(stamped, subs, all);
        SameNames(stamped, subs, names);
      }
    }

    lemma ValidIsSane()
      requires Valid()
      ensures Sane()
    {
    }

    lemma SameNames(before: seq<Submitter>, after: seq<Submitter>, names: seq<string>)
      requires multiset(before) == multiset(after) && NamesIn(before, names)
      ensures |before| == |after| && NamesIn(after, names)
    {
      assert |multiset(before)| == |multiset(after)|;
      forall s | s in after ensures s in before {
        assert s in multiset(after);
      }
      FilteredNames(before, after, names);
    }

    /** One spin, and whether another is worth it. A spin that is followed by another removed a submitter or used up
        a credit. */
    method OneSpin(ri: RoundInfo, subs: seq<Submitter>, spin: nat, ghost all: seq<string>, ghost w: real,
                   ghost top: real)
      returns (next: seq<Submitter>, again: bool)
      requires Valid() && Weighed(w, top) && NamesIn(subs, all)
      modifies this
      ensures Valid() && Grew(old(usage), usage) && NamesIn(next, all)
      ensures again ==> |next| > 0 && !ri.isFloor
      ensures again ==>
                |next| + Credits(all, TotalFor(ri), w, usage) < |subs| + Credits(all, TotalFor(ri), w, old(usage))
    {
      hide Credits, Sum, EnvFor, Progress, LimitsOf, Idle, Ordered, Before, LiveWeights, AllStatic;
      if QuotaMet(ri) {
        return subs, false;
      }
      var env, pieLeftOrig;
      ghost var names, idle;
      next, env, pieLeftOrig, idle, names := PrepareSpin(ri, subs, spin, all);
      if |next| == 0 || pieLeftOrig <= 0.0 {
        return next, false;
      }
      pieLeft := pieLeftOrig;
      var origCount := |next|;
      next := SpinOnce(ri, next, env, names, all, w, top);
      ProgressMade(all, TotalFor(ri), w, top, old(usage), pieLeftOrig, usage, pieLeft);
      var progressed := pieLeft < pieLeftOrig || |next| < origCount;
      var poolEmpty: bool := forall i :: 0 <= i < |live| ==> !live[i];
      again := progressed && |next| > 0 && !poolEmpty && !ri.isFloor;
    }

    /** Spin until no progress is made. The number of spins is bounded without any help from the clocks: each
        spin but the last removes a submitter or charges one of them a slot it had credit for. */
    method NegotiateWithGroup(ri: RoundInfo, submitters: seq<Submitter>, ghost w: real, ghost top: real)
      returns (spins: nat)
      requires Valid() && Weighed(w, top)
      modifies this
      ensures Valid() && Grew(old(usage), usage)
      ensures spins <= |submitters| + |Names(submitters)| * Credit(TotalFor(ri), w, 0.0) + 1
      ensures ri.isFloor ==> spins <= 1
    {
      hide Credits, Credit;
      var subs := submitters;
      ghost var all, total := Names(submitters), TotalFor(ri);
      CreditsBound(all, total, w, usage);
      spins := 0;
      var again := true;
      while again
        invariant Valid() && Grew(old(usage), usage) && NamesIn(subs, all)
        invariant again ==>
                    spins + |subs| + Credits(all, total, w, usage) <= |submitters| + Credits(all, total, w, old(usage))
        invariant spins <= |submitters| + Credits(all, total, w, old(usage)) + 1
        invariant ri.isFloor ==> spins <= if again then 0 else 1
        decreases again, |subs| + Credits(all, total, w, usage)
      {
        var cancelled: bool := *;
        if cancelled {
          return;
        }
        spins := spins + 1;
        subs, again := OneSpin(ri, subs, spins, all, w, top);
      }
    }

    lemma FilteredNames(before: seq<Submitter>, after: seq<Submitter>, names: seq<string>)
      requires NamesIn(before, names) && forall s :: s in after ==> s in before
      ensures NamesIn(after, names)
    {
      forall i | 0 <= i < |after| ensures after[i].name in names {
        assert after[i] in after;
        var k :| 0 <= k < |before| && before[k] == after[i];
      }
    }

    lemma EnvMade(env: SpinEnv, subs: seq<Submitter>)
      requires Sane() && |subs| > 0
      requires env.maxPrio > 0.0 && env.normalFactor == Sum(Terms(Names(subs), env.maxPrio, prio))
      ensures EnvFor(env, Names(subs)) && NamesIn(subs, Names(subs))
    {
      assert subs[0].name in Names(subs);
    }

    lemma ProgressMade(names: seq<string>, total: real, w: real, top: real, u: Usage, pie: real, v: Usage, pie': real)
      requires w > 0.0 && Progress(names, total, w, top, u, pie, v, pie')
      ensures Grew(u, v) && Credits(names, total, w, v) <= Credits(names, total, w, u)
      ensures pie' < pie ==> Credits(names, total, w, v) < Credits(names, total, w, u)
    {
    }
  }

  /** The remainder of Go's truncated division. */
  function Remainder(a: int, b: int): int
    requires b > 0
  {
    if a >= 0 then a % b else -((-a) % b)
  }

  /** math.MaxFloat32, the starvation ratio of a submitter with nothing allocated. */
  const MAX_FLOAT32 := 340282346638528859811704183484516925440.0

  /** The part of its allowance a submitter already uses. */
  function StarvationRatio(used: real, allocation: real): real {
    if allocation > 0.0 then used / allocation else MAX_FLOAT32
  }

  lemma LimitBound(share: real, total: real, used: real, limit: real)
    requires 0.0 < share <= 1.0 && used >= 0.0
    requires limit <= Max(0.0, share * total - used)
    ensures limit > 0.0 ==> used + limit <= total
  {
    if total >= 0.0 {
      ProductMonotone(share, 1.0, total);
    } else {
      assert share * (-total) > 0.0;
      assert share * total == -(share * (-total));
    }
  }
}
