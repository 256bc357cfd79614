/** One reconnect-managed connection: concurrent callers share a single dial behind a backoff gate. Each method is
    one critical section; any sequence of them is an interleaving of callers, dials, drops and a close. */
module DialLane {
  import opened Options
  import opened RealSums

  // ----- backoff -----

  /** Durations in nanoseconds. */
  datatype RetryPolicy = RetryPolicy(initial: int, max: int, multiplier: real)

  /** A duration made from a number drops its fraction. */
  function Truncated(x: real): int {
    if x >= 0.0 then x.Floor else -((-x).Floor)
  }

  /** A duration multiplied. */
  function Times(d: int, m: real): int {
    Truncated(Stretched(d, m))
  }

  function Stretched(d: int, m: real): real {
    (d as real) * m
  }

  lemma TimesNothing(m: real)
    ensures Times(0, m) == 0
  {
  }

  lemma TimesSmaller(d: int, m: real)
    requires d > 0
    ensures Times(d, m) < d <==> m < 1.0
  {
    hide Truncated, Stretched;
    StretchedBelow(d, m);
    TruncatedBelow(d, Stretched(d, m));
  }

  lemma StretchedBelow(d: int, m: real)
    requires d > 0
    ensures Stretched(d, m) < d as real <==> m < 1.0
  {
    var x := d as real;
    if m < 1.0 {
      ProductPositive(x, 1.0 - m);
      assert x * (1.0 - m) == x - x * m;
    } else {
      ProductNonneg(x, m - 1.0);
      assert x * (m - 1.0) == x * m - x;
    }
  }

  lemma TruncatedBelow(n: int, y: real)
    requires n > 0
    ensures Truncated(y) < n <==> y < n as real
  {
  }

  /** The next backoff: multiplied, capped, and `initial` to begin with. */
  function Grow(d: int, policy: RetryPolicy): int {
    var next := Times(d, policy.multiplier);
    if next > policy.max then policy.max else if next <= 0 then policy.initial else next
  }

  /** The backoff after `n` failures in a row. */
  ghost function BackoffAfter(n: nat, policy: RetryPolicy): int {
    if n == 0 then 0 else Grow(BackoffAfter(n - 1, policy), policy)
  }

  lemma BackoffStep(n: nat, policy: RetryPolicy)
    ensures BackoffAfter(0, policy) == 0 && BackoffAfter(n + 1, policy) == Grow(BackoffAfter(n, policy), policy)
  {
  }

  lemma GrowBounds(d: int, policy: RetryPolicy)
    ensures policy.initial <= policy.max ==> Grow(d, policy) <= policy.max
    ensures 0 < policy.initial <= policy.max ==> 0 < Grow(d, policy)
    ensures policy.multiplier >= 1.0 && 0 <= d <= policy.max && 0 <= policy.initial ==> d <= Grow(d, policy)
  {
    hide Times;
    if d > 0 {
      TimesSmaller(d, policy.multiplier);
    }
  }

  lemma FirstBackoff(policy: RetryPolicy)
    ensures BackoffAfter(0, policy) == 0
    ensures BackoffAfter(1, policy) == if policy.max >= 0 then policy.initial else policy.max
  {
    hide Times;
    TimesNothing(policy.multiplier);
    assert BackoffAfter(1, policy) == Grow(0, policy);
  }

  /** Whatever the policy, the backoff never exceeds the maximum if and only if that is not negative and no smaller
      than the initial backoff. */
  lemma {:induction false} BackoffWithinMax(policy: RetryPolicy)
    ensures (forall n: nat :: BackoffAfter(n, policy) <= policy.max) <==>
              0 <= policy.max && policy.initial <= policy.max
  {
    hide Grow;
    FirstBackoff(policy);
    if 0 <= policy.max && policy.initial <= policy.max {
      forall n: nat ensures BackoffAfter(n, policy) <= policy.max {
        if n > 0 {
          GrowBounds(BackoffAfter(n - 1, policy), policy);
        }
      }
    } else {
      assert BackoffAfter(1, policy) > policy.max || BackoffAfter(0, policy) > policy.max;
    }
  }

  /** The first backoff multiplied comes to nothing, so that every backoff starts over. */
  ghost predicate StartsOver(policy: RetryPolicy) {
    Times(policy.initial, policy.multiplier) <= 0
  }

  /** Neither figure is negative, and a first backoff that is not zero either starts over for ever or has a maximum to
      grow to and a multiplier to grow by. */
  ghost predicate Steady(policy: RetryPolicy) {
    && 0 <= policy.initial && 0 <= policy.max
    && (policy.initial == 0 || (policy.initial <= policy.max && policy.multiplier >= 1.0) || StartsOver(policy))
  }

  /** Where every backoff starts over, all are the initial one. */
  lemma {:induction false} Flat(n: nat, policy: RetryPolicy)
    requires 0 <= policy.max && (policy.initial == 0 || StartsOver(policy))
    ensures BackoffAfter(n, policy) == if n == 0 then 0 else policy.initial
  {
    hide Times;
    FirstBackoff(policy);
    TimesNothing(policy.multiplier);
    if n > 1 {
      Flat(n - 1, policy);
    }
  }

  /** With a maximum to grow to and a multiplier to grow by, the backoff grows from the initial one to the maximum. */
  lemma {:induction false} Climbs(n: nat, policy: RetryPolicy)
    requires 0 <= policy.initial <= policy.max && policy.multiplier >= 1.0
    ensures 0 <= BackoffAfter(n, policy) <= BackoffAfter(n + 1, policy) <= policy.max
    ensures BackoffAfter(n + 1, policy) >= policy.initial
  {
    hide Grow;
    FirstBackoff(policy);
    if n > 0 {
      Climbs(n - 1, policy);
      BackoffStep(n, policy);
      GrowBounds(BackoffAfter(n, policy), policy);
    }
  }

  /** While the database is down the backoff of a steady policy does not shrink, and after the first failure it is at
      least the initial one. Under any policy it stays within the maximum if the initial one does. */
  lemma {:induction false} BackoffBounds(m: nat, n: nat, policy: RetryPolicy)
    requires m <= n
    ensures Steady(policy) ==> 0 <= BackoffAfter(m, policy) <= BackoffAfter(n, policy)
    ensures Steady(policy) && n > 0 ==> BackoffAfter(n, policy) >= policy.initial
    ensures 0 <= policy.max && policy.initial <= policy.max ==> BackoffAfter(n, policy) <= policy.max
    decreases n
  {
    hide Grow, StartsOver;
    BackoffWithinMax(policy);
    if Steady(policy) && n > 0 {
      BackoffBounds(if m < n then m else n - 1, n - 1, policy);
      if policy.initial <= policy.max && policy.multiplier >= 1.0 {
        Climbs(n - 1, policy);
      } else {
        Flat(n - 1, policy);
        Flat(n, policy);
      }
    }
  }

  /** The second backoff is below the first unless the policy starts over or has room and reason to grow. */
  lemma SecondBackoff(policy: RetryPolicy)
    requires 0 < policy.initial && 0 <= policy.max
    ensures BackoffAfter(2, policy) >= BackoffAfter(1, policy) <==> Steady(policy)
  {
    hide Times;
    FirstBackoff(policy);
    BackoffStep(1, policy);
    TimesSmaller(policy.initial, policy.multiplier);
  }

  /** Under every policy: the backoff never shrinks if and only if the policy is steady. */
  lemma {:induction false} BackoffNeverShrinks(policy: RetryPolicy)
    ensures (forall m: nat, n: nat :: m <= n ==> BackoffAfter(m, policy) <= BackoffAfter(n, policy)) <==> Steady(policy)
  {
    hide Grow, StartsOver;
    if Steady(policy) {
      forall m: nat, n: nat | m <= n ensures BackoffAfter(m, policy) <= BackoffAfter(n, policy) {
        BackoffBounds(m, n, policy);
      }
    } else {
      FirstBackoff(policy);
      if 0 < policy.initial && 0 <= policy.max {
        SecondBackoff(policy);
        assert !(BackoffAfter(1, policy) <= BackoffAfter(2, policy));
      } else {
        assert !(BackoffAfter(0, policy) <= BackoffAfter(1, policy));
      }
    }
  }

  /** Two policies whose second backoff is half the first: one has no room to grow, the other shrinks by itself. */
  lemma BackoffShrinks()
    ensures var p := RetryPolicy(10, 5, 2.0); BackoffAfter(1, p) == 10 && BackoffAfter(2, p) == 5
    ensures var p := RetryPolicy(10, 50, 0.5); BackoffAfter(1, p) == 10 && BackoffAfter(2, p) == 5
  {
    var p, q := RetryPolicy(10, 5, 2.0), RetryPolicy(10, 50, 0.5);
    FirstBackoff(p);
    FirstBackoff(q);
    BackoffStep(1, p);
    BackoffStep(1, q);
    assert Times(10, 2.0) == 20 && Times(10, 0.5) == 5;
  }

  // ----- what happened on a lane -----

  datatype Event = Started(time: int) | Failed(time: int, until: int) | Succeeded(time: int)

  ghost predicate Running(history: seq<Event>) {
    |history| > 0 && history[|history| - 1].Started?
  }

  /** No dial before this time. */
  ghost function Gate(history: seq<Event>): int {
    if |history| == 0 then 0
    else
      match history[|history| - 1]
      case Started(_) => Gate(history[..|history| - 1])
      case Failed(_, until) => until
      case Succeeded(_) => 0
  }

  ghost function LastTime(history: seq<Event>): int {
    if |history| == 0 then 0 else history[|history| - 1].time
  }

  /** Dials run one at a time, in order of time, and never before the gate opens. */
  ghost predicate Proper(history: seq<Event>) {
    |history| > 0 ==>
      var front, last := history[..|history| - 1], history[|history| - 1];
      && Proper(front) && LastTime(front) <= last.time
      && Running(front) == !last.Started?
      && (last.Started? ==> last.time >= Gate(front))
      && (last.Failed? ==> last.until >= last.time)
  }

  lemma {:induction false} ProperPrefix(history: seq<Event>, n: nat)
    requires Proper(history) && n <= |history|
    ensures Proper(history[..n])
  {
    if n < |history| {
      ProperPrefix(history[..|history| - 1], n);
      assert history[..|history| - 1][..n] == history[..n];
    } else {
      assert history[..n] == history;
    }
  }

  /** Between any two dials the first one completed. */
  lemma SingleFlight(history: seq<Event>, i: nat, j: nat)
    requires Proper(history) && i < j < |history| && history[i].Started? && history[j].Started?
    ensures exists k :: i < k < j && !history[k].Started?
  {
    ProperPrefix(history, j + 1);
    assert history[..j + 1][..j] == history[..j];
    assert !history[j - 1].Started?;
    assert i < j - 1;
  }

  /** After a failure, and until some dial succeeds, no dial starts before that failure's gate. */
  lemma {:induction false} GateHolds(history: seq<Event>, i: nat, j: nat)
    requires Proper(history) && i < j < |history| && history[i].Failed?
    requires forall k :: i < k <= j ==> !history[k].Succeeded?
    ensures history[j].time >= history[i].until
    decreases j
  {
    ProperPrefix(history, j + 1);
    var front := history[..j];
    assert history[..j + 1][..j] == front;
    if j == i + 1 {
    } else {
      GateHolds(history, i, j - 1);
      assert front[|front| - 1] == history[j - 1];
    }
  }

  // ----- the lane -----

  /** What the first half of a call ends in. */
  datatype Entered = Closed | Client(id: nat) | Held(until: int) | Waiting(chan: nat)

  /** What a call that waited for a dial returns. */
  datatype Woken = WasClosed | GotClient(id: nat) | DialFailed

  /** What happened on a lane so far. */
  datatype Past = Past(
    history: seq<Event>,
    failures: nat,        // failed dials in a row
    running: set<nat>,    // dials in flight, by channel
    woken: set<nat>,      // channels that have been closed
    open: set<nat>,       // connections not yet closed
    late: bool)           // a dial succeeded after the lane was closed

  class Lane {
    const policy: RetryPolicy

    var closed: bool
    var client: Option<nat>
    var dialing: Option<nat>       // the channel callers wait on while a dial is in flight
    var dialFailed: bool           // dialErr is set
    var nextDialAt: int
    var dialBackoff: int

    var nextId: nat                // names for new channels and clients
    ghost var past: Past

    constructor (policy: RetryPolicy)
      ensures Valid() && !closed && client.None? && dialing.None? && past.history == []
    {
      this.policy := policy;
      closed, client, dialing, dialFailed, nextDialAt, dialBackoff, nextId := false, None, None, false, 0, 0, 0;
      past := Past([], 0, {}, {}, {}, false);
    }

    /** At most one dial is in flight, exactly while `dialing` is set; it only runs while there is no client; and
        the one open connection is the current client. */
    ghost predicate Valid()
      reads this
    {
      && Proper(past.history) && Running(past.history) == dialing.Some? && nextDialAt == Gate(past.history)
      && past.running == (if dialing.Some? then {dialing.value} else {})
      && past.open == (if client.Some? then {client.value} else {})
      && (dialing.Some? ==> client.None? && dialing.value !in past.woken)
      && (closed && client.Some? ==> past.late)
      && dialBackoff == BackoffAfter(past.failures, policy)
      && Named(dialing, nextId) && Named(client, nextId) && forall n :: n in past.woken ==> n < nextId
    }

    /** Closed with nothing in flight and nothing open. */
    ghost predicate Sealed()
      reads this
    {
      closed && dialing.None? && past.open == {}
    }

    /** A caller's channel is closed already, or belongs to the dial in flight: it will be. */
    ghost predicate WillWake(chan: nat)
      reads this
    {
      chan in past.woken || dialing == Some(chan)
    }

    /** The first critical section of a call at time `now`. */
    method Enter(now: int) returns (r: Entered)
      requires Valid() && now >= LastTime(past.history)
      modifies this
      ensures Valid() && closed == old(closed) && client == old(client) && past.woken == old(past.woken)
      ensures r.Closed? <==> closed
      ensures r.Client? <==> !closed && client.Some?
      ensures r.Client? ==> client == Some(r.id) && r.id in past.open
      ensures r.Held? ==> now < r.until == nextDialAt
      ensures r.Waiting? ==> dialing == Some(r.chan) && now >= old(nextDialAt)
      ensures past.history == if r.Waiting? && old(dialing).None? then old(past.history) + [Started(now)]
              else old(past.history)
      ensures old(dialing).Some? ==> dialing == old(dialing)
      ensures old(dialing).None? && !r.Waiting? ==> dialing.None?
    {
      hide Proper, Gate, BackoffAfter;
      if closed {
        return Closed;
      }
      if client.Some? {
        return Client(client.value);
      }
      if now < nextDialAt {
        return Held(nextDialAt);
      }
      if dialing.None? {
        dialing := Some(nextId);
        Extend(past.history, Started(now));
        past := past.(running := past.running + {nextId}, history := past.history + [Started(now)]);
        nextId := nextId + 1;
      }
      return Waiting(dialing.value);
    }

    /** The second critical section of a call whose channel was closed. */
    method Wake(chan: nat) returns (r: Woken)
      requires Valid() && chan in past.woken
      ensures r.WasClosed? <==> closed
      ensures r.GotClient? ==> !closed && client == Some(r.id) && r.id in past.open
      ensures r.DialFailed? ==> !closed && client.None?
    {
      if closed {
        return WasClosed;
      }
      if client.Some? {
        return GotClient(client.value);
      }
      return DialFailed;
    }

    /** The dial in flight connected. */
    method Succeed(now: int)
      requires Valid() && dialing.Some? && now >= LastTime(past.history)
      modifies this
      ensures Valid() && dialing.None? && closed == old(closed) && past.woken == old(past.woken) + {old(dialing).value}
      ensures client.Some? && client.value !in old(past.open) && !dialFailed && nextDialAt == 0 && dialBackoff == 0
      ensures past.history == old(past.history) + [Succeeded(now)]
    {
      hide Proper, Gate, BackoffAfter, LastTime, Running;
      Extend(past.history, Succeeded(now));
      BackoffStep(0, policy);
      past := Past(past.history + [Succeeded(now)], 0, {}, past.woken + {dialing.value}, past.open + {nextId},
                   past.late || closed);
      client, nextId, dialFailed, dialBackoff, nextDialAt := Some(nextId), nextId + 1, false, 0, 0;
      dialing := None;
    }

    /** The dial in flight failed; `wait` is the backoff with jitter. */
    method Fail(now: int, wait: nat)
      requires Valid() && dialing.Some? && now >= LastTime(past.history)
      modifies this
      ensures Valid() && dialing.None? && closed == old(closed) && past.woken == old(past.woken) + {old(dialing).value}
      ensures client.None? && dialFailed && nextDialAt == now + wait && dialBackoff == Grow(old(dialBackoff), policy)
      ensures past.history == old(past.history) + [Failed(now, now + wait)]
    {
      hide Proper, Gate, BackoffAfter, LastTime, Running, Grow;
      Extend(past.history, Failed(now, now + wait));
      BackoffStep(past.failures, policy);
      dialFailed, dialBackoff, nextDialAt := true, Grow(dialBackoff, policy), now + wait;
      past := past.(failures := past.failures + 1, history := past.history + [Failed(now, now + wait)],
                    woken := past.woken + {dialing.value}, running := {});
      dialing := None;
    }

    /** Discard a client that failed, unless it has been replaced. */
    method Drop(id: nat)
      requires Valid()
      modifies this`client, this`past
      ensures Valid()
      ensures client == if old(client) == Some(id) then None else old(client)
      ensures past == old(past).(open := old(past.open) - {id})
    {
      if client.Some? && client.value == id {
        past := past.(open := past.open - {id});
        client := None;
      }
    }

    /** Tear the lane down. */
    method Close()
      requires Valid()
      modifies this`closed, this`client, this`past
      ensures Valid() && closed && client.None? && past == old(past).(open := {})
    {
      closed := true;
      if client.Some? {
        past := past.(open := past.open - {client.value});
        client := None;
      }
    }
  }

  /** A name that has been given out. */
  predicate Named(n: Option<nat>, nextId: nat) {
    n.Some? ==> n.value < nextId
  }

  lemma Extend(history: seq<Event>, e: Event)
    requires Proper(history) && LastTime(history) <= e.time && Running(history) == !e.Started?
    requires e.Started? ==> e.time >= Gate(history)
    requires e.Failed? ==> e.until >= e.time
    ensures Proper(history + [e]) && Running(history + [e]) == e.Started?
    ensures Gate(history + [e]) == if e.Started? then Gate(history) else if e.Failed? then e.until else 0
  {
    assert (history + [e])[..|history|] == history;
  }

  // ----- interleavings -----

  /** Where a caller is. */
  datatype Caller = Idle | Sleeping(until: int) | Blocked(chan: nat) | Returned(client: Option<nat>)

  /** One step of the system. */
  datatype Step =
    | Call(caller: nat)          // begin, or retry after sleeping at the gate
    | WakeUp(caller: nat)        // the channel the caller waits on was closed
    | Cancel(caller: nat)        // the caller's context ended while it slept or waited
    | Dialed(ok: bool, wait: nat)
    | DropStep(id: nat)
    | CloseStep

  /** How a call ended, and whether the lane was closed by then. */
  datatype Outcome = Outcome(laneClosed: bool, client: Option<nat>)

  /** One step at a given time. */
  method TakeStep(lane: Lane, waiting: map<nat, Caller>, step: Step, now: int)
    returns (callers: map<nat, Caller>, ended: seq<Outcome>)
    requires lane.Valid() && LastTime(lane.past.history) <= now
    requires forall c :: c in waiting && waiting[c].Blocked? ==> lane.WillWake(waiting[c].chan)
    modifies lane
    ensures lane.Valid() && LastTime(lane.past.history) <= now
    ensures forall c :: c in callers && callers[c].Blocked? ==> lane.WillWake(callers[c].chan)
    ensures forall o :: o in ended && o.laneClosed ==> o.client.None?
    ensures (old(lane.closed) ==> lane.closed) && (old(lane.Sealed()) ==> lane.Sealed())
  {
    hide Proper, Gate, BackoffAfter, Grow;
    callers, ended := waiting, [];
    match step {
      case Call(c) =>
        if c !in callers || !callers[c].Blocked? {
          var r := lane.Enter(now);
          callers := callers[c := Arrived(r)];
          if callers[c].Returned? {
            ended := [Outcome(lane.closed, callers[c].client)];
          }
        }
      case WakeUp(c) =>
        if c in callers && callers[c].Blocked? && lane.dialing != Some(callers[c].chan) {
          var r := lane.Wake(callers[c].chan);
          callers := callers[c := Returned(if r.GotClient? then Some(r.id) else None)];
          ended := [Outcome(lane.closed, callers[c].client)];
        }
      case Cancel(c) =>
        if c in callers && (callers[c].Blocked? || callers[c].Sleeping?) {
          callers := callers[c := Returned(None)];
          ended := [Outcome(lane.closed, None)];
        }
      case Dialed(ok, wait) =>
        if lane.dialing.Some? {
          if ok {
            lane.Succeed(now);
          } else {
            lane.Fail(now, wait);
          }
        }
      case DropStep(id) => lane.Drop(id);
      case CloseStep => lane.Close();
    }
  }

  /** From any valid state on, whatever the order of steps: the lane is valid; a blocked caller's channel has been
      closed or will be by the dial in flight; no call that ends after the close returns a client; and a lane that is
      sealed stays sealed. */
  method Interleave(lane: Lane, waiting: map<nat, Caller>, steps: seq<Step>, times: seq<int>)
    returns (callers: map<nat, Caller>, outcomes: seq<Outcome>)
    requires lane.Valid() && forall c :: c in waiting && waiting[c].Blocked? ==> lane.WillWake(waiting[c].chan)
    requires |times| == |steps| && forall i, j :: 0 <= i <= j < |times| ==>
               LastTime(lane.past.history) <= times[i] <= times[j]
    modifies lane
    ensures lane.Valid()
    ensures forall c :: c in callers && callers[c].Blocked? ==> lane.WillWake(callers[c].chan)
    ensures forall o :: o in outcomes && o.laneClosed ==> o.client.None?
    ensures (old(lane.closed) ==> lane.closed) && (old(lane.Sealed()) ==> lane.Sealed())
  {
    hide *;
    callers, outcomes := waiting, [];
    ghost var now := LastTime(lane.past.history);
    for n := 0 to |steps|
      invariant lane.Valid() && LastTime(lane.past.history) <= now && (n < |times| ==> now <= times[n])
      invariant forall c :: c in callers && callers[c].Blocked? ==> lane.WillWake(callers[c].chan)
      invariant forall o :: o in outcomes && o.laneClosed ==> o.client.None?
      invariant (old(lane.closed) ==> lane.closed) && (old(lane.Sealed()) ==> lane.Sealed())
    {
      var ended;
      callers, ended := TakeStep(lane, callers, steps[n], times[n]);
      outcomes := outcomes + ended;
      now := times[n];
    }
  }

  function Arrived(r: Entered): Caller {
    match r
    case Closed => Returned(None)
    case Client(id) => Returned(Some(id))
    case Held(until) => Sleeping(until)
    case Waiting(chan) => Blocked(chan)
  }

  // ----- closing -----

  /** With no dial in flight at the close, no continuation ever leaves a connection open. */
  method CloseIdle(lane: Lane, waiting: map<nat, Caller>, steps: seq<Step>, times: seq<int>)
    requires lane.Valid() && forall c :: c in waiting && waiting[c].Blocked? ==> lane.WillWake(waiting[c].chan)
    requires |times| == |steps| && forall i, j :: 0 <= i <= j < |times| ==>
               LastTime(lane.past.history) <= times[i] <= times[j]
    modifies lane
    ensures lane.Valid() && lane.closed
    ensures old(lane.dialing).None? ==> lane.past.open == {}
  {
    hide Proper, Gate, BackoffAfter, Grow;
    lane.Close();
    var callers, outcomes := Interleave(lane, waiting, steps, times);
  }

  /** With a dial in flight at the close, the continuation in which it connects leaves its connection open. */
  method CloseDuringDial(lane: Lane, now: int)
    requires lane.Valid() && lane.dialing.Some? && LastTime(lane.past.history) <= now
    modifies lane
    ensures lane.Valid() && lane.closed && lane.client.Some? && lane.past.open == {lane.client.value}
  {
    hide Proper, Gate, BackoffAfter, Grow;
    lane.Close();
    lane.Succeed(now);
  }
}
