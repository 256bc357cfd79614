/** The batch writer of the remote ad database: group by table, split into units, commit the units. */
module RpcBackend {
  import opened Options
  import opened Updates
  import opened WritePool
  import opened CommitUnits

  /** Why the database turned an update down: it cannot be parsed, or it failed all alone in a transaction. */
  datatype Cause = Unparsable | FailedAlone(transaction: nat)

  /** What became of an update the database did not take: it was turned down on its own account, or its unit went
      away before it was sent. */
  datatype Verdict = Refused(entry: Entry, cause: Cause) | Abandoned(entry: Entry)

  /** Some transaction of these numbers failed. */
  ghost predicate AnyFailed(fails: nat -> bool, from: nat, to: nat) {
    exists n :: from <= n < to && fails(n)
  }

  lemma FailedEither(fails: nat -> bool, from: nat, between: nat, to: nat)
    requires from <= between <= to
    ensures AnyFailed(fails, from, to) <==> AnyFailed(fails, from, between) || AnyFailed(fails, between, to)
  {
  }

  lemma FailedOne(fails: nat -> bool, n: nat)
    ensures AnyFailed(fails, n, n + 1) <==> fails(n)
    ensures !AnyFailed(fails, n, n)
  {
  }

  /** The verdicts passed since. */
  ghost function Since(was: seq<Verdict>, now: seq<Verdict>): seq<Verdict>
    requires was <= now
  {
    now[|was|..]
  }

  ghost predicate Landed(store: Table, e: Entry, recent: seq<Verdict>) {
    Holds(store, e) || Refused(e, Unparsable) in recent
  }

  /** Everything the committed units carried has landed. */
  ghost predicate Recorded(store: Table, units: seq<Unit>, phases: seq<Phase>, recent: seq<Verdict>) {
    && |phases| == |units|
    && forall i, e :: 0 <= i < |units| && phases[i].Committed? && e in units[i].items ==> Landed(store, e, recent)
  }

  ghost predicate From(units: seq<Unit>, batch: seq<Entry>) {
    forall i, e :: 0 <= i < |units| && e in units[i].items ==> e in batch
  }

  lemma UnitAgrees(units: seq<Unit>, i: nat, batch: seq<Entry>)
    requires i < |units| && From(units, batch) && Agree(batch)
    ensures Agree(units[i].items) && forall e :: e in units[i].items ==> e in batch
  {
  }

  lemma StaysLanded(was: Table, now: Table, items: seq<Entry>, e: Entry, before: seq<Verdict>, after: seq<Verdict>,
                    rejects: PendingUpdate -> bool)
    requires Agree(items) && e in items && Wrote(was, now, items, rejects) && Landed(was, e, before) && before <= after
    ensures Landed(now, e, after)
  {
    if Holds(was, e) {
      StillHolds(was, now, items, e, rejects);
    }
  }

  /** The entries of the units that gave up. */
  ghost function LeftOut(units: seq<Unit>, phases: seq<Phase>): seq<Entry>
    requires |units| == |phases|
  {
    if |units| == 0 then []
    else
      var n := |units| - 1;
      LeftOut(units[..n], phases[..n]) + if phases[n].GaveUp? then units[n].items else []
  }

  lemma {:induction false} InLeftOut(units: seq<Unit>, phases: seq<Phase>, e: Entry)
    requires |units| == |phases|
    ensures e in LeftOut(units, phases) <==> exists i :: 0 <= i < |units| && phases[i].GaveUp? && e in units[i].items
  {
    if |units| > 0 {
      var n := |units| - 1;
      InLeftOut(units[..n], phases[..n], e);
      if i :| 0 <= i < |units| && phases[i].GaveUp? && e in units[i].items {
        assert i < n ==> phases[..n][i].GaveUp? && e in units[..n][i].items;
      }
    }
  }

  ghost function AsAbandoned(items: seq<Entry>): (vs: seq<Verdict>)
    ensures |vs| == |items| && forall i :: 0 <= i < |items| ==> vs[i] == Abandoned(items[i])
  {
    seq(|items|, i requires 0 <= i < |items| => Abandoned(items[i]))
  }

  // ----- grouping by table -----

  /** The items of one table, in order. */
  ghost function OfTable(items: seq<Entry>, t: nat): seq<Entry> {
    if |items| == 0 then []
    else OfTable(items[..|items| - 1], t) + if items[|items| - 1].key.adType == t then [items[|items| - 1]] else []
  }

  lemma {:induction false} InOfTable(items: seq<Entry>, t: nat, e: Entry)
    ensures e in OfTable(items, t) <==> e in items && e.key.adType == t
  {
    if |items| > 0 {
      var n := |items| - 1;
      assert items == items[..n] + [items[n]];
      InOfTable(items[..n], t, e);
    }
  }

  ghost predicate Grouped(byTable: map<nat, seq<Entry>>, items: seq<Entry>) {
    && (forall t :: t in byTable ==> byTable[t] == OfTable(items, t))
    && forall e :: e in items ==> e.key.adType in byTable
  }

  method GroupByTable(items: seq<Entry>) returns (byTable: map<nat, seq<Entry>>)
    ensures Grouped(byTable, items)
  {
    byTable := map[];
    for i := 0 to |items|
      invariant Grouped(byTable, items[..i])
    {
      var t := items[i].key.adType;
      var before := if t in byTable then byTable[t] else [];
      GroupOne(byTable, items, i);
      byTable := byTable[t := before + [items[i]]];
    }
    assert items[..|items|] == items;
  }

  lemma GroupOne(byTable: map<nat, seq<Entry>>, items: seq<Entry>, i: nat)
    requires i < |items| && Grouped(byTable, items[..i])
    ensures var t := items[i].key.adType;
            Grouped(byTable[t := (if t in byTable then byTable[t] else []) + [items[i]]], items[..i + 1])
  {
    var t := items[i].key.adType;
    assert items[..i + 1][..i] == items[..i];
    if t !in byTable {
      if |OfTable(items[..i], t)| > 0 {
        InOfTable(items[..i], t, OfTable(items[..i], t)[0]);
      }
      assert OfTable(items[..i], t) == [];
    }
    assert items[..i + 1] == items[..i] + [items[i]];
  }

  lemma {:induction false} InItemsFor(units: seq<Unit>, t: nat, e: Entry)
    ensures e in ItemsFor(units, t) <==> exists i :: 0 <= i < |units| && units[i].table == t && e in units[i].items
  {
    if |units| > 0 {
      var n := |units| - 1;
      InItemsFor(units[..n], t, e);
      if i :| 0 <= i < |units| && units[i].table == t && e in units[i].items {
        assert i < n ==> units[..n][i].table == t && e in units[..n][i].items;
      }
    }
  }

  lemma UnitsHoldItems(units: seq<Unit>, byTable: map<nat, seq<Entry>>, items: seq<Entry>)
    requires Grouped(byTable, items)
    requires forall t :: ItemsFor(units, t) == if t in byTable then byTable[t] else []
    ensures From(units, items)
  {
    hide ItemsFor, OfTable;
    forall i, e | 0 <= i < |units| && e in units[i].items ensures e in items {
      InItemsFor(units, units[i].table, e);
      InOfTable(items, units[i].table, e);
    }
  }

  /** Each item is in some unit, and the units hold nothing else. */
  lemma UnitsCover(units: seq<Unit>, byTable: map<nat, seq<Entry>>, items: seq<Entry>)
    requires Grouped(byTable, items)
    requires forall t :: ItemsFor(units, t) == if t in byTable then byTable[t] else []
    ensures From(units, items)
    ensures forall e :: e in items ==> exists i :: 0 <= i < |units| && e in units[i].items
    ensures |units| == 0 ==> items == []
  {
    hide ItemsFor, OfTable, From;
    UnitsHoldItems(units, byTable, items);
    forall e | e in items ensures exists i :: 0 <= i < |units| && e in units[i].items {
      InOfTable(items, e.key.adType, e);
      InItemsFor(units, e.key.adType, e);
    }
    if |items| > 0 {
      assert items[0] in items;
    }
  }

  /** The batch makes one unit: one table, and few updates or one lane. */
  ghost predicate SingleUnit(items: seq<Entry>, lanes: nat) {
    && (forall e, f :: e in items && f in items ==> e.key.adType == f.key.adType)
    && (lanes <= 1 || |items| <= ADAPTIVE_FANOUT_CHUNK)
  }

  lemma {:induction false} AllOfTable(items: seq<Entry>, t: nat)
    requires forall e :: e in items ==> e.key.adType == t
    ensures OfTable(items, t) == items
  {
    if |items| > 0 {
      var n := |items| - 1;
      assert items == items[..n] + [items[n]];
      AllOfTable(items[..n], t);
    }
  }

  lemma AtMostOne(s: set<nat>, a: nat, b: nat)
    requires |s| <= 1 && a in s && b in s
    ensures a == b
  {
    assert |s - {a}| == |s| - 1;
    assert b !in s - {a};
  }

  lemma NoMoreThanOne(s: set<nat>)
    requires forall a, b :: a in s && b in s ==> a == b
    ensures |s| <= 1
  {
    if a :| a in s {
      assert s == {a};
    }
  }

  /** Grouping and splitting makes one unit of exactly those batches. */
  lemma SingleUnitIsOneUnit(items: seq<Entry>, byTable: map<nat, seq<Entry>>, lanes: nat)
    requires Grouped(byTable, items)
    ensures SingleUnit(items, lanes) <==> OneUnit(byTable, lanes)
  {
    hide OfTable;
    var names := NonEmpty(byTable);
    forall t | t in names ensures exists e :: e in items && e.key.adType == t {
      InOfTable(items, t, byTable[t][0]);
    }
    forall e | e in items ensures e.key.adType in names {
      InOfTable(items, e.key.adType, e);
    }
    if forall e, f :: e in items && f in items ==> e.key.adType == f.key.adType {
      NoMoreThanOne(names);
      SameSizes(items, byTable);
    } else {
      var e, f :| e in items && f in items && e.key.adType != f.key.adType;
      if |names| <= 1 {
        AtMostOne(names, e.key.adType, f.key.adType);
      }
    }
  }

  lemma SameSizes(items: seq<Entry>, byTable: map<nat, seq<Entry>>)
    requires Grouped(byTable, items) && forall e, f :: e in items && f in items ==> e.key.adType == f.key.adType
    ensures forall t :: t in byTable ==> |byTable[t]| <= |items|
    ensures |items| > 0 ==> exists t :: t in byTable && |byTable[t]| == |items|
  {
    hide OfTable;
    if |items| > 0 {
      AllOfTable(items, items[0].key.adType);
      assert items[0].key.adType in byTable;
    }
    forall t | t in byTable ensures |byTable[t]| <= |items| {
      if |byTable[t]| > 0 {
        InOfTable(items, t, byTable[t][0]);
        AllOfTable(items, t);
      }
    }
  }

  /** A call can report success without having stored or refused everything exactly if the batch makes several units
      and the caller's context is one that ends. */
  lemma SilentLossExact(items: seq<Entry>, byTable: map<nat, seq<Entry>>, units: seq<Unit>, lanes: nat, ctx: Context)
    requires Grouped(byTable, items) && (|units| <= 1 <==> OneUnit(byTable, lanes))
    ensures |units| > 1 && CanLose(Start(|units|, lanes, ctx)) <==> !SingleUnit(items, lanes) && !ctx.Background?
  {
    hide OneUnit, SingleUnit, CanLose;
    SingleUnitIsOneUnit(items, byTable, lanes);
    if |units| > 1 {
      LossFromStart(|units|, lanes, ctx);
    }
  }

  lemma TwoUnits(e: Entry, f: Entry, lanes: nat)
    requires e.key.adType != f.key.adType
    ensures !SingleUnit([e, f], lanes)
  {
    assert e in [e, f] && f in [e, f];
  }

  /** Two tables and a context that is over: both units may leave, and the call reports success. */
  lemma {:induction false} NothingWritten(e: Entry, f: Entry, lanes: nat)
    requires e.key.adType != f.key.adType
    ensures !SingleUnit([e, f], lanes)
    ensures var p := Start(2, lanes, Ended);
            Loses(p, [GiveUp(0), GiveUp(1)]) && !After(p, [GiveUp(0), GiveUp(1)]).value.phases[0].Committed?
            && !After(p, [GiveUp(0), GiveUp(1)]).value.phases[1].Committed?
  {
    hide SingleUnit;
    TwoUnits(e, f, lanes);
    var p := Start(2, lanes, Ended);
    AfterOneMore(p, [], GiveUp(0));
    AfterOneMore(p, [GiveUp(0)], GiveUp(1));
    assert [] + [GiveUp(0)] == [GiveUp(0)] && [GiveUp(0)] + [GiveUp(1)] == [GiveUp(0), GiveUp(1)];
    assert After(p, [GiveUp(0), GiveUp(1)]).value.phases[0] == GaveUp;
  }

  class Database {
    const rejects: PendingUpdate -> bool // updates the store cannot parse
    const fails: nat -> bool             // transactions, by number, that end in an error
    const lanes: nat                     // connections for writing

    var store: Table
    var sent: seq<seq<Entry>>            // the transactions so far
    ghost var verdicts: seq<Verdict>

    constructor (rejects: PendingUpdate -> bool, fails: nat -> bool, writeConns: nat, store: Table)
      ensures this.store == store && sent == [] && verdicts == [] && Valid()
      ensures this.rejects == rejects && this.fails == fails
    {
      this.rejects, this.fails, lanes := rejects, fails, if writeConns < 1 then 1 else writeConns;
      this.store, sent, verdicts := store, [], [];
    }

    /** There is a lane, and every refusal had its cause. */
    ghost predicate Valid()
      reads this
    {
      lanes >= 1 && forall v :: v in verdicts ==> Caused(v, sent, 0)
    }

    /** What justifies a refusal: the update cannot be parsed, or a transaction of nothing else failed, one of those
        from `from` on. */
    ghost predicate Caused(v: Verdict, sent: seq<seq<Entry>>, from: nat) {
      v.Refused? ==>
        match v.cause
        case Unparsable => rejects(v.entry.update)
        case FailedAlone(n) => from <= n < |sent| && sent[n] == [v.entry] && fails(n)
    }

    lemma StillCaused(v: Verdict, was: seq<seq<Entry>>, now: seq<seq<Entry>>, from: nat, from': nat)
      requires Caused(v, was, from) && was <= now && from' <= from
      ensures Caused(v, now, from')
    {
    }

    /** Only updates the store cannot parse were turned down. */
    ghost predicate Ruled(was: seq<Verdict>, now: seq<Verdict>, items: seq<Entry>) {
      && was <= now
      && forall v :: v in Since(was, now) ==>
           v.Refused? && v.cause.Unparsable? && v.entry in items && rejects(v.entry.update)
    }

    lemma RuledNothing(verdicts: seq<Verdict>, items: seq<Entry>)
      ensures Ruled(verdicts, verdicts, items)
    {
    }

    lemma RuledOn(first: seq<Verdict>, second: seq<Verdict>, third: seq<Verdict>, items: seq<Entry>)
      requires Ruled(first, second, items) && Ruled(second, third, items)
      ensures Ruled(first, third, items) && Since(first, third) == Since(first, second) + Since(second, third)
    {
      SinceSince(first, second, third);
    }

    /** One transaction, with its retries. An error leaves open whether it was committed. */
    method PutBatch(items: seq<Entry>) returns (err: bool)
      requires Agree(items)
      modifies this
      ensures Wrote(old(store), store, items, rejects) && Ruled(old(verdicts), verdicts, items)
      ensures !err ==> forall e :: e in items ==> Landed(store, e, Since(old(verdicts), verdicts))
      ensures sent == old(sent) + [items] && err == fails(|old(sent)|)
    {
      hide Agree, Landed, Wrote, Ruled, Since;
      err := fails(|sent|);
      sent := sent + [items];
      WroteNothing(store, items, rejects);
      RuledNothing(verdicts, items);
      var reached: bool := *;
      if err && !reached {
        return;
      }
      for i := 0 to |items|
        invariant Wrote(old(store), store, items, rejects) && Ruled(old(verdicts), verdicts, items)
        invariant old(verdicts) <= verdicts
        invariant forall j :: 0 <= j < i ==> Landed(store, items[j], Since(old(verdicts), verdicts))
        modifies this`store, this`verdicts
      {
        ghost var was, ruled := store, verdicts;
        if rejects(items[i].update) {
          OneRefused(old(verdicts), verdicts, items, i);
          verdicts := verdicts + [Refused(items[i], Unparsable)];
        } else {
          store := store[items[i].key := items[i].update];
        }
        OneApplied(old(store), was, store, items, i, old(verdicts), ruled, verdicts);
        forall j | 0 <= j < i ensures Landed(store, items[j], Since(old(verdicts), verdicts)) {
          StaysLanded(was, store, items, items[j], Since(old(verdicts), ruled), Since(old(verdicts), verdicts),
                      rejects);
        }
      }
    }

    lemma OneRefused(was: seq<Verdict>, now: seq<Verdict>, items: seq<Entry>, i: nat)
      requires i < |items| && Ruled(was, now, items) && rejects(items[i].update)
      ensures Ruled(was, now + [Refused(items[i], Unparsable)], items)
    {
      assert Since(was, now + [Refused(items[i], Unparsable)]) == Since(was, now) + [Refused(items[i], Unparsable)];
    }

    /** One update of a transaction is applied or, if it cannot be parsed, refused. */
    lemma {:induction false} OneApplied(start: Table, was: Table, now: Table, items: seq<Entry>, i: nat,
                                        first: seq<Verdict>, before: seq<Verdict>, after: seq<Verdict>)
      requires i < |items| && Wrote(start, was, items, rejects) && first <= before
      requires if rejects(items[i].update) then now == was && after == before + [Refused(items[i], Unparsable)]
               else now == was[items[i].key := items[i].update] && after == before
      ensures Wrote(start, now, items, rejects) && Wrote(was, now, items, rejects)
      ensures Since(first, before) <= Since(first, after) && Landed(now, items[i], Since(first, after))
    {
      if rejects(items[i].update) {
        assert Since(first, after)[|Since(first, after)| - 1] == Refused(items[i], Unparsable);
      }
    }

    /** One unit moves on: it leaves, takes a lane, or commits on the lane it has. */
    method Advance(p: Pool, units: seq<Unit>, ghost batch: seq<Entry>) returns (s: Step)
      requires p.lanes >= 1 && !Finished(p) && |p.phases| == |units| && Agree(batch) && From(units, batch)
      modifies this
      ensures Enabled(p, s) && Remaining(Next(p, s).phases) < Remaining(p.phases)
      ensures Wrote(old(store), store, batch, rejects) && Ruled(old(verdicts), verdicts, batch)
      ensures s.Finish? && s.ok ==>
                forall e :: e in units[s.unit].items ==> Landed(store, e, Since(old(verdicts), verdicts))
      ensures old(sent) <= sent
      ensures (s.Finish? && !s.ok) <==> AnyFailed(fails, |old(sent)|, |sent|)
    {
      hide Agree, From, Landed, Remaining, Busy;
      SomeReady(p);
      var i :| 0 <= i < |p.phases| && Ready(p, i);
      WroteNothing(store, batch, rejects);
      if p.phases[i].Running? {
        UnitAgrees(units, i, batch);
        var err := PutBatch(units[i].items);
        s := Finish(i, !err);
        FailedOne(fails, |old(sent)|);
        WroteAgain(old(store), old(store), store, batch, units[i].items, rejects);
      } else {
        var leave: bool := *;
        s := if (p.ctx.Ended? || p.err) && (leave || Busy(p.phases) >= p.lanes) then GiveUp(i) else Take(i);
      }
      LessRemains(p.phases, i, Next(p, s).phases[i]);
    }

    /** Units commit side by side, at most one per lane. Some schedule of the pool explains the outcome: what the
        committed units carried is stored or refused, and a unit that gave up was told to. */
    method CommitUnitsConcurrent(ctx: Context, units: seq<Unit>, ghost batch: seq<Entry>)
      returns (err: bool, now: Context, ghost steps: seq<Step>, ghost end: Pool)
      requires lanes >= 1 && Agree(batch) && From(units, batch)
      modifies this
      ensures After(Start(|units|, lanes, ctx), steps) == Some(end) && Finished(end) && Explained(end)
      ensures end.err == err && end.ctx == now && Later(ctx, now)
      ensures Wrote(old(store), store, batch, rejects) && Ruled(old(verdicts), verdicts, batch)
      ensures Recorded(store, units, end.phases, Since(old(verdicts), verdicts))
      ensures old(sent) <= sent && (err <==> AnyFailed(fails, |old(sent)|, |sent|))
    {
      hide Enabled, Next, Agree, From, Wrote, Landed, Recorded, Remaining, Explained, Later, After, Since,
           AnyFailed;
      var start := Start(|units|, lanes, ctx);
      var p := start;
      steps := [];
      NothingYet(|units|, lanes, ctx, units, store, verdicts);
      WroteNothing(store, batch, rejects);
      RuledNothing(verdicts, batch);
      RunIsExplained(start, steps);
      FailedOne(fails, |sent|);
      while !Finished(p)
        invariant After(start, steps) == Some(p) && |p.phases| == |units| && p.lanes == lanes
        invariant Wrote(old(store), store, batch, rejects) && Ruled(old(verdicts), verdicts, batch)
        invariant Recorded(store, units, p.phases, Since(old(verdicts), verdicts))
        invariant old(sent) <= sent && (p.err <==> AnyFailed(fails, |old(sent)|, |sent|))
        decreases Remaining(p.phases)
      {
        var later := Wait(p.ctx);
        if later != p.ctx {
          CanEnd(p, later);
          AfterOneMore(start, steps, End);
          steps, p := steps + [End], Next(p, End);
        }
        ghost var was, ruled, before := store, verdicts, |sent|;
        var s := Advance(p, units, batch);
        FailedEither(fails, |old(sent)|, before, |sent|);
        AfterOneMore(start, steps, s);
        StepShape(p, s);
        RuledOn(old(verdicts), ruled, verdicts, batch);
        WroteAgain(old(store), was, store, batch, batch, rejects);
        RecordedStep(was, store, units, p, s, batch, Since(old(verdicts), ruled), Since(ruled, verdicts), rejects);
        steps, p := steps + [s], Next(p, s);
      }
      RunIsExplained(start, steps);
      err, now, end := p.err, p.ctx, p;
    }

    /** Why updates were not taken. An update was refused because the store cannot parse it. It was abandoned only
        where the call reports success, the context has ended and the batch made several units. */
    ghost predicate Justified(recent: seq<Verdict>, items: seq<Entry>, err: bool, now: Context) {
      forall v :: v in recent ==>
        && v.entry in items
        && (v.Refused? ==> v.cause.Unparsable? && rejects(v.entry.update))
        && (v.Abandoned? ==> !err && now.Ended? && !SingleUnit(items, lanes))
    }

    /** Write a batch. It fails exactly if one of its transactions does. On success each update is stored or has a
        verdict; on failure any part may be stored. */
    method UpdateBatch(ctx: Context, items: seq<Entry>) returns (err: bool, now: Context)
      requires lanes >= 1 && Distinct(items)
      modifies this
      ensures Later(ctx, now) && Wrote(old(store), store, items, rejects) && old(verdicts) <= verdicts
      ensures Justified(Since(old(verdicts), verdicts), items, err, now)
      ensures !err ==> forall e :: e in items ==> Answered(store, e, Since(old(verdicts), verdicts))
      ensures old(sent) <= sent && (err <==> AnyFailed(fails, |old(sent)|, |sent|))
      ensures |items| == 1 ==> sent == old(sent) + [items]
    {
      hide Agree, From, Wrote, Landed, Recorded, Explained, After, Since, SingleUnit, OneUnit, ItemsFor, Answered,
           Grouped, AnyFailed;
      var byTable := GroupByTable(items);
      var units := BuildCommitUnits(byTable, lanes);
      UnitsCover(units, byTable, items);
      SingleUnitIsOneUnit(items, byTable, lanes);
      DistinctAgree(items);
      WroteNothing(store, items, rejects);
      RuledNothing(verdicts, items);
      NoVerdict(verdicts);
      FailedOne(fails, |sent|);
      if |units| == 0 {
        return false, ctx;
      }
      if |units| == 1 {
        now := Wait(ctx);
        UnitAgrees(units, 0, items);
        OnlyUnit(units, byTable, items);
        err := PutBatch(units[0].items);
        now := Wait(now);
        WroteAgain(old(store), old(store), store, items, units[0].items, rejects);
        AllAnswered(store, items, units[0].items, err, Since(old(verdicts), verdicts));
        return;
      }
      err, now := Spread(ctx, units, items);
      NotAlone(items, lanes);
    }

    /** Several units: those that gave up in a call without an error are what it does not tell the caller. */
    method Spread(ctx: Context, units: seq<Unit>, ghost items: seq<Entry>) returns (err: bool, now: Context)
      requires lanes >= 1 && Agree(items) && From(units, items) && !SingleUnit(items, lanes)
      requires forall e :: e in items ==> exists i :: 0 <= i < |units| && e in units[i].items
      modifies this
      ensures Later(ctx, now) && Wrote(old(store), store, items, rejects) && old(verdicts) <= verdicts
      ensures Justified(Since(old(verdicts), verdicts), items, err, now)
      ensures !err ==> forall e :: e in items ==> Answered(store, e, Since(old(verdicts), verdicts))
      ensures old(sent) <= sent && (err <==> AnyFailed(fails, |old(sent)|, |sent|))
    {
      hide Agree, From, Wrote, Landed, Explained, After, Since, SingleUnit, Answered, AnyFailed;
      ghost var steps, end;
      err, now, steps, end := CommitUnitsConcurrent(ctx, units, items);
      if !err {
        ghost var gone := AsAbandoned(LeftOut(units, end.phases));
        Excuse(store, units, end, items, Since(old(verdicts), verdicts), gone);
        SinceSince(old(verdicts), verdicts, verdicts + gone);
        Appended(verdicts, gone);
        verdicts := verdicts + gone;
      }
    }
  }

  lemma NothingYet(n: nat, lanes: nat, ctx: Context, units: seq<Unit>, store: Table, verdicts: seq<Verdict>)
    requires n == |units|
    ensures After(Start(n, lanes, ctx), []) == Some(Start(n, lanes, ctx)) && Explained(Start(n, lanes, ctx))
    ensures Recorded(store, units, Start(n, lanes, ctx).phases, Since(verdicts, verdicts))
  {
  }

  /** What was recorded stays recorded while other units go on. */
  lemma RecordedStep(was: Table, now: Table, units: seq<Unit>, p: Pool, s: Step, batch: seq<Entry>,
                     before: seq<Verdict>, recent: seq<Verdict>, rejects: PendingUpdate -> bool)
    requires Agree(batch) && From(units, batch) && Wrote(was, now, batch, rejects)
    requires Recorded(was, units, p.phases, before) && Enabled(p, s)
    requires s.Finish? && s.ok ==> forall e :: e in units[s.unit].items ==> Landed(now, e, recent)
    ensures Recorded(now, units, Next(p, s).phases, before + recent)
  {
    hide Agree, Wrote, Landed, Busy;
    var q := Next(p, s);
    forall i, e | 0 <= i < |units| && q.phases[i].Committed? && e in units[i].items
      ensures Landed(now, e, before + recent)
    {
      if p.phases[i].Committed? {
        StaysLanded(was, now, batch, e, before, before + recent, rejects);
      } else {
        LandedInAll(now, e, before, recent);
      }
    }
  }

  lemma LandedInAll(store: Table, e: Entry, before: seq<Verdict>, recent: seq<Verdict>)
    requires Landed(store, e, recent)
    ensures Landed(store, e, before + recent)
  {
  }

  lemma LandedBefore(store: Table, e: Entry, recent: seq<Verdict>, more: seq<Verdict>)
    requires Landed(store, e, recent)
    ensures Landed(store, e, recent + more)
  {
  }

  lemma SinceSince(first: seq<Verdict>, second: seq<Verdict>, third: seq<Verdict>)
    requires first <= second <= third
    ensures Since(first, third) == Since(first, second) + Since(second, third)
  {
  }

  lemma CanEnd(p: Pool, later: Context)
    requires Later(p.ctx, later) && later != p.ctx
    ensures Enabled(p, End) && Next(p, End).phases == p.phases && Next(p, End).lanes == p.lanes
    ensures Next(p, End).err == p.err
  {
  }

  lemma StepShape(p: Pool, s: Step)
    requires Enabled(p, s)
    ensures |Next(p, s).phases| == |p.phases| && Next(p, s).lanes == p.lanes
    ensures Next(p, s).err <==> p.err || (s.Finish? && !s.ok)
  {
  }

  /** There is a verdict on the update. */
  ghost predicate Judged(verdicts: seq<Verdict>, e: Entry) {
    exists v :: v in verdicts && v.entry == e
  }

  ghost predicate Answered(store: Table, e: Entry, recent: seq<Verdict>) {
    Landed(store, e, recent) || Abandoned(e) in recent
  }

  /** A single update is a single unit. */
  lemma NotAlone(items: seq<Entry>, lanes: nat)
    requires !SingleUnit(items, lanes)
    ensures |items| != 1
  {
  }

  lemma NoVerdict(verdicts: seq<Verdict>)
    ensures Since(verdicts, verdicts) == []
  {
  }

  lemma Appended(verdicts: seq<Verdict>, more: seq<Verdict>)
    ensures Since(verdicts, verdicts + more) == more
  {
  }

  /** A batch of one update is one transaction of that update. */
  lemma {:induction false} OnlyUnit(units: seq<Unit>, byTable: map<nat, seq<Entry>>, items: seq<Entry>)
    requires |units| == 1 && Grouped(byTable, items)
    requires forall t :: ItemsFor(units, t) == if t in byTable then byTable[t] else []
    requires units[0].items != []
    ensures |items| == 1 ==> units[0].items == items
  {
    hide ItemsFor, OfTable;
    ItemsOfOne(units);
    if |items| == 1 {
      TableOfOne(items, units[0].table);
    }
  }

  lemma ItemsOfOne(units: seq<Unit>)
    requires |units| == 1
    ensures ItemsFor(units, units[0].table) == units[0].items
  {
    assert units[..0] == [];
  }

  lemma TableOfOne(items: seq<Entry>, t: nat)
    requires |items| == 1
    ensures OfTable(items, t) == if items[0].key.adType == t then items else []
  {
    assert items[..0] == [];
  }

  lemma AllAnswered(store: Table, items: seq<Entry>, unit: seq<Entry>, err: bool, recent: seq<Verdict>)
    requires forall e :: e in items ==> e in unit
    requires !err ==> forall e :: e in unit ==> Landed(store, e, recent)
    ensures !err ==> forall e :: e in items ==> Answered(store, e, recent)
  {
  }

  /** A pool that ended without an error has an answer for every update. */
  lemma {:induction false} Excuse(store: Table, units: seq<Unit>, end: Pool, items: seq<Entry>, recent: seq<Verdict>,
                                  gone: seq<Verdict>)
    requires Recorded(store, units, end.phases, recent) && Finished(end) && Explained(end) && !end.err
    requires From(units, items) && forall e :: e in items ==> exists i :: 0 <= i < |units| && e in units[i].items
    requires gone == AsAbandoned(LeftOut(units, end.phases))
    ensures forall e :: e in items ==> Answered(store, e, recent + gone)
    ensures forall v :: v in gone ==> v.Abandoned? && v.entry in items && end.ctx.Ended?
  {
    hide LeftOut;
    forall e | e in items ensures Answered(store, e, recent + gone) {
      var i :| 0 <= i < |units| && e in units[i].items;
      assert Over(end.phases[i]);
      if end.phases[i].GaveUp? {
        InLeftOut(units, end.phases, e);
        var j :| 0 <= j < |LeftOut(units, end.phases)| && LeftOut(units, end.phases)[j] == e;
        assert (recent + gone)[|recent| + j] == Abandoned(e);
      } else {
        assert Landed(store, e, recent);
        LandedBefore(store, e, recent, gone);
      }
    }
    forall v | v in gone ensures v.Abandoned? && v.entry in items && end.ctx.Ended? {
      InLeftOut(units, end.phases, v.entry);
    }
  }
}
