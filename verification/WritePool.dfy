/** Committing several units at once: each waits for a lane of the write pool, commits on it, and reports its
    first failure, which stops the rest. A unit that sees the context over while it waits goes away quietly. */
module WritePool {
  import opened Options

  /** A caller's context: one that never ends, one that still may, or one that has. */
  datatype Context = Background | Live | Ended

  ghost predicate Later(was: Context, now: Context) {
    match was
    case Background => now.Background?
    case Live => !now.Background?
    case Ended => now.Ended?
  }

  /** Time passes. */
  method Wait(was: Context) returns (now: Context)
    ensures Later(was, now)
  {
    var over: bool := *;
    now := if over && was.Live? then Ended else was;
  }

  /** Where one unit is. */
  datatype Phase = Waiting | Running | Committed | Failed | GaveUp

  datatype Pool = Pool(phases: seq<Phase>, lanes: nat, err: bool, ctx: Context)

  datatype Step = Take(unit: nat) | GiveUp(unit: nat) | Finish(unit: nat, ok: bool) | End

  function Busy(phases: seq<Phase>): nat {
    if |phases| == 0 then 0
    else Busy(phases[..|phases| - 1]) + if phases[|phases| - 1].Running? then 1 else 0
  }

  /** A free lane lets a waiting unit in. Once the context is over, or another unit has failed, it may just as
      well leave, even with a lane free. */
  predicate Enabled(p: Pool, s: Step) {
    match s
    case Take(i) => i < |p.phases| && p.phases[i].Waiting? && Busy(p.phases) < p.lanes
    case GiveUp(i) => i < |p.phases| && p.phases[i].Waiting? && (p.ctx.Ended? || p.err)
    case Finish(i, _) => i < |p.phases| && p.phases[i].Running?
    case End => p.ctx.Live?
  }

  function Next(p: Pool, s: Step): Pool
    requires Enabled(p, s)
  {
    match s
    case Take(i) => p.(phases := p.phases[i := Running])
    case GiveUp(i) => p.(phases := p.phases[i := GaveUp])
    case Finish(i, ok) => p.(phases := p.phases[i := if ok then Committed else Failed], err := p.err || !ok)
    case End => p.(ctx := Ended)
  }

  /** Where a schedule leads, if every step of it can be taken. */
  ghost function After(p: Pool, steps: seq<Step>): Option<Pool> {
    if |steps| == 0 then Some(p)
    else
      var q := After(p, steps[..|steps| - 1]);
      if q.Some? && Enabled(q.value, steps[|steps| - 1]) then Some(Next(q.value, steps[|steps| - 1])) else None
  }

  lemma AfterOneMore(p: Pool, steps: seq<Step>, s: Step)
    requires After(p, steps).Some? && Enabled(After(p, steps).value, s)
    ensures After(p, steps + [s]) == Some(Next(After(p, steps).value, s))
  {
    assert (steps + [s])[..|steps|] == steps;
  }

  predicate Over(phase: Phase) {
    phase.Committed? || phase.Failed? || phase.GaveUp?
  }

  predicate Finished(p: Pool) {
    forall i :: 0 <= i < |p.phases| ==> Over(p.phases[i])
  }

  ghost predicate AllCommitted(p: Pool) {
    forall i :: 0 <= i < |p.phases| ==> p.phases[i].Committed?
  }

  function Start(n: nat, lanes: nat, ctx: Context): Pool {
    Pool(seq(n, _ => Waiting), lanes, false, ctx)
  }

  /** A unit that failed left an error behind; one that gave up had a reason. */
  ghost predicate Explained(p: Pool) {
    forall i :: 0 <= i < |p.phases| ==>
      && (p.phases[i].Failed? ==> p.err)
      && (p.phases[i].GaveUp? ==> p.err || p.ctx.Ended?)
  }

  /** Every schedule keeps the explanation, the number of units and the first error. */
  lemma {:induction false} RunIsExplained(p: Pool, steps: seq<Step>)
    requires Explained(p) && After(p, steps).Some?
    ensures var q := After(p, steps).value;
            Explained(q) && |q.phases| == |p.phases| && Later(p.ctx, q.ctx) && (p.err ==> q.err)
  {
    if |steps| > 0 {
      RunIsExplained(p, steps[..|steps| - 1]);
    }
  }

  /** If the call ended without an error and the context had not ended, everything was committed. */
  lemma QuietEndIsComplete(p: Pool)
    requires Explained(p) && Finished(p) && !p.err && !p.ctx.Ended?
    ensures AllCommitted(p)
  {
    forall i | 0 <= i < |p.phases| ensures p.phases[i].Committed? {
      assert Over(p.phases[i]);
    }
  }

  // ----- no schedule gets stuck -----

  predicate Ready(p: Pool, i: nat) {
    i < |p.phases| && (p.phases[i].Running? ||
                       (p.phases[i].Waiting? && (Busy(p.phases) < p.lanes || p.ctx.Ended? || p.err)))
  }

  lemma {:induction false} NoneBusy(phases: seq<Phase>)
    requires forall i :: 0 <= i < |phases| ==> !phases[i].Running?
    ensures Busy(phases) == 0
  {
    if |phases| > 0 {
      NoneBusy(phases[..|phases| - 1]);
    }
  }

  lemma SomeReady(p: Pool)
    requires p.lanes >= 1 && !Finished(p)
    ensures exists i :: 0 <= i < |p.phases| && Ready(p, i)
  {
    var i :| 0 <= i < |p.phases| && !Over(p.phases[i]);
    if j :| 0 <= j < |p.phases| && p.phases[j].Running? {
      assert Ready(p, j);
    } else {
      NoneBusy(p.phases);
      assert Ready(p, i);
    }
  }

  ghost function Ahead(phase: Phase): nat {
    if phase.Waiting? then 2 else if phase.Running? then 1 else 0
  }

  ghost function Remaining(phases: seq<Phase>): nat {
    if |phases| == 0 then 0 else Remaining(phases[..|phases| - 1]) + Ahead(phases[|phases| - 1])
  }

  /** A unit that moves on leaves less to do. */
  lemma {:induction false} LessRemains(phases: seq<Phase>, i: nat, phase: Phase)
    requires i < |phases| && Ahead(phase) < Ahead(phases[i])
    ensures Remaining(phases[i := phase]) < Remaining(phases)
  {
    var n := |phases| - 1;
    if i == n {
      assert phases[i := phase][..n] == phases[..n];
    } else {
      assert phases[i := phase][..n] == phases[..n][i := phase];
      LessRemains(phases[..n], i, phase);
    }
  }

  // ----- when a call can report success without having committed everything -----

  /** A schedule that ends without an error and leaves a unit out. */
  ghost predicate Loses(p: Pool, steps: seq<Step>) {
    var q := After(p, steps);
    q.Some? && Finished(q.value) && !q.value.err && !AllCommitted(q.value)
  }

  ghost predicate CanLose(p: Pool) {
    exists steps :: Loses(p, steps)
  }

  /** Some unit has not taken a lane. */
  ghost predicate Unplaced(p: Pool) {
    exists i :: 0 <= i < |p.phases| && (p.phases[i].Waiting? || p.phases[i].GaveUp?)
  }

  lemma {:induction false} StaysPlaced(p: Pool, steps: seq<Step>)
    requires !Unplaced(p) && After(p, steps).Some?
    ensures !Unplaced(After(p, steps).value)
  {
    if |steps| > 0 {
      StaysPlaced(p, steps[..|steps| - 1]);
    }
  }

  /** The schedule in which every waiting unit leaves and every running one commits. */
  lemma Abandon(p: Pool, i: nat) returns (steps: seq<Step>)
    requires Explained(p) && p.ctx.Ended? && !p.err
    requires i < |p.phases| && (p.phases[i].Waiting? || p.phases[i].GaveUp?)
    ensures Loses(p, steps)
  {
    hide Remaining;
    steps := [];
    var q := p;
    while !Finished(q)
      invariant After(p, steps) == Some(q) && Explained(q) && q.ctx.Ended? && !q.err
      invariant |q.phases| == |p.phases| && (q.phases[i].Waiting? || q.phases[i].GaveUp?)
      decreases Remaining(q.phases)
    {
      var j :| 0 <= j < |q.phases| && !Over(q.phases[j]);
      var s := if q.phases[j].Waiting? then GiveUp(j) else Finish(j, true);
      LessRemains(q.phases, j, Next(q, s).phases[j]);
      AfterOneMore(p, steps, s);
      steps, q := steps + [s], Next(q, s);
    }
    assert Over(q.phases[i]);
  }

  /** When the context ends and nothing has failed, the call can report success without having committed
      everything exactly if a unit has not taken its lane yet. */
  lemma LossWhenEnded(p: Pool)
    requires Explained(p) && p.ctx.Ended? && !p.err
    ensures CanLose(p) <==> Unplaced(p)
  {
    if i :| 0 <= i < |p.phases| && (p.phases[i].Waiting? || p.phases[i].GaveUp?) {
      var steps := Abandon(p, i);
    }
    if steps :| Loses(p, steps) {
      var q := After(p, steps).value;
      RunIsExplained(p, steps);
      assert forall i :: 0 <= i < |q.phases| ==> Over(q.phases[i]);
      if !Unplaced(p) {
        StaysPlaced(p, steps);
        assert false;
      }
    }
  }

  /** From the start, it can exactly if there are units and the context is one that ends. */
  lemma LossFromStart(n: nat, lanes: nat, ctx: Context)
    requires n > 0
    ensures CanLose(Start(n, lanes, ctx)) <==> !ctx.Background?
  {
    var p := Start(n, lanes, ctx);
    var ended := p.(ctx := Ended);
    if ctx.Background? {
      if steps :| Loses(p, steps) {
        RunIsExplained(p, steps);
        QuietEndIsComplete(After(p, steps).value);
      }
    } else {
      assert ended.phases[0].Waiting?;
      var steps := Abandon(ended, 0);
      if ctx.Ended? {
        assert p == ended;
      } else {
        assert After(p, [End]) == Some(ended) by { AfterOneMore(p, [], End); }
        AfterBoth(p, [End], steps);
        assert Loses(p, [End] + steps);
      }
    }
  }

  lemma {:induction false} AfterBoth(p: Pool, first: seq<Step>, second: seq<Step>)
    requires After(p, first).Some?
    ensures After(p, first + second) == After(After(p, first).value, second)
  {
    hide Enabled, Next;
    if |second| == 0 {
      assert first + second == first;
    } else {
      var n := |second| - 1;
      assert (first + second)[..|first| + n] == first + second[..n];
      AfterBoth(p, first, second[..n]);
    }
  }
}
