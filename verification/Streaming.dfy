/** Streaming one table through the retry loop: transient failures are retried, but rows that were handed to the
    consumer must not be handed to it again. */
module Streaming {
  import opened Options

  const MAX_CONFLICT_RETRIES := 100

  /** How an operation can fail. */
  datatype Failure = Conflict | NoSuchTxn | Server | Transport

  /** What one attempt meets: whether a connection could be had, the rows that arrive before the stream ends, how it
      ends, and whether the context or the retry budget has run out by then. */
  datatype Attempt = Attempt(connected: bool, rows: seq<string>, failure: Option<Failure>, ctxEnded: bool,
                             budgetSpent: bool)

  /** A row as the consumer got it. */
  datatype Delivery = Delivery(attempt: nat, row: string)

  /** An error of the streaming operation: once rows were delivered it is marked as not to be replayed. */
  datatype OpError = OpError(cause: Failure, noReplay: bool)

  /** A conflict is recognised through the mark. */
  predicate IsConflict(e: OpError) {
    e.cause.Conflict?
  }

  predicate IsPermanent(e: OpError) {
    e.noReplay || e.cause.Server?
  }

  /** The first `n` rows of an attempt, as deliveries. */
  ghost function Delivered(attempt: nat, rows: seq<string>): (ds: seq<Delivery>)
    ensures |ds| == |rows| && forall i :: 0 <= i < |rows| ==> ds[i] == Delivery(attempt, rows[i])
  {
    seq(|rows|, i requires 0 <= i < |rows| => Delivery(attempt, rows[i]))
  }

  /** Nothing was delivered by the first `n` attempts. */
  ghost predicate Silent(script: seq<Attempt>, n: nat) {
    n <= |script| && forall k :: 0 <= k < n ==> !Delivers(script[k])
  }

  /** The attempt failed in a way that is worth repeating. */
  ghost predicate Transient(a: Attempt) {
    && !a.ctxEnded && !a.budgetSpent
    && (!a.connected || a.failure == Some(NoSuchTxn) || a.failure == Some(Transport))
  }

  /** An attempt that handed rows on. */
  predicate Delivers(a: Attempt) {
    a.connected && a.rows != []
  }

  /** The first `cuts[k]` rows of each attempt `k`. */
  ghost predicate Cuts(script: seq<Attempt>, cuts: seq<nat>) {
    |cuts| <= |script| && forall k :: 0 <= k < |cuts| ==> cuts[k] <= |script[k].rows|
  }

  ghost function Pieces(script: seq<Attempt>, cuts: seq<nat>): seq<Delivery>
    requires Cuts(script, cuts)
  {
    if |cuts| == 0 then []
    else
      var n := |cuts| - 1;
      Pieces(script, cuts[..n]) + if script[n].connected then Delivered(n, script[n].rows[..cuts[n]]) else []
  }

  lemma PiecesStep(script: seq<Attempt>, cuts: seq<nat>, cut: nat)
    requires Cuts(script, cuts) && |cuts| < |script| && cut <= |script[|cuts|].rows|
    ensures Cuts(script, cuts + [cut])
    ensures var a := script[|cuts|];
            Pieces(script, cuts + [cut]) == Pieces(script, cuts)
              + if a.connected then Delivered(|cuts|, a.rows[..cut]) else []
  {
    assert (cuts + [cut])[..|cuts|] == cuts;
  }

  lemma {:induction false} SilentPieces(script: seq<Attempt>, cuts: seq<nat>)
    requires Cuts(script, cuts) && forall k :: 0 <= k < |cuts| ==> !Delivers(script[k])
    ensures Pieces(script, cuts) == []
  {
    if |cuts| > 0 {
      SilentPieces(script, cuts[..|cuts| - 1]);
    }
  }

  ghost function ConflictsIn(script: seq<Attempt>, n: nat): nat
    requires n <= |script|
  {
    if n == 0 then 0
    else ConflictsIn(script, n - 1) + if script[n - 1].connected &&
      script[n - 1].failure == Some(Conflict) then 1 else 0
  }

  /** The loop makes another attempt after attempt `k`: a conflict within the retry budget for those; otherwise, with
      time left, a dial that failed or, as long as no row was handed on, a transient failure. */
  ghost predicate Repeats(script: seq<Attempt>, k: nat)
    requires k < |script|
  {
    var a := script[k];
    if a.connected && a.failure == Some(Conflict) then ConflictsIn(script, k + 1) <= MAX_CONFLICT_RETRIES
    else
      && !a.ctxEnded && !a.budgetSpent
      && (!a.connected || (Silent(script, k + 1) && (a.failure == Some(NoSuchTxn) || a.failure == Some(Transport))))
  }

  /** A delivering attempt and all those between are repeated, and a later one delivers. */
  ghost predicate Replays(script: seq<Attempt>) {
    exists i, j :: ReplaysFrom(script, i, j)
  }

  ghost predicate ReplaysFrom(script: seq<Attempt>, i: int, j: int) {
    && 0 <= i < j < |script| && Delivers(script[i]) && Delivers(script[j])
    && forall k :: 0 <= k < j ==> Repeats(script, k)
  }

  /** After a delivery only conflicts within their budget and failed dials are followed by another attempt. */
  lemma RepeatsAfterDelivery(script: seq<Attempt>, i: nat, k: nat)
    requires i <= k < |script| && Delivers(script[i]) && Repeats(script, k)
    ensures var a := script[k];
            || (a.connected && a.failure == Some(Conflict) && ConflictsIn(script, k + 1) <= MAX_CONFLICT_RETRIES)
            || (!a.connected && !a.ctxEnded && !a.budgetSpent)
    ensures k == i ==> script[k].failure == Some(Conflict)
  {
    assert !Silent(script, k + 1);
  }

  /** Rows of two attempts. */
  ghost predicate Mixed(got: seq<Delivery>) {
    exists d, e :: d in got && e in got && d.attempt != e.attempt
  }

  lemma {:induction false} InPieces(script: seq<Attempt>, cuts: seq<nat>, k: nat)
    requires Cuts(script, cuts)
    ensures (exists d :: d in Pieces(script, cuts) && d.attempt == k) <==>
              k < |cuts| && script[k].connected && cuts[k] > 0
  {
    if |cuts| > 0 {
      var n := |cuts| - 1;
      var a, front, last := script[n], Pieces(script, cuts[..n]), Delivered(n, script[n].rows[..cuts[n]]);
      InPieces(script, cuts[..n], k);
      if k == n && a.connected && cuts[n] > 0 {
        assert last[0] in Pieces(script, cuts);
      }
      if d :| d in front && d.attempt == k {
        assert d in Pieces(script, cuts);
      }
    }
  }

  /** The consumer got rows of two attempts exactly if two of those made delivered. */
  lemma {:induction false} MixedExactly(script: seq<Attempt>, cuts: seq<nat>)
    requires Cuts(script, cuts)
    requires forall k :: 0 <= k < |cuts| && Delivers(script[k]) ==> cuts[k] > 0
    requires forall k :: 0 <= k < |cuts| - 1 ==> Repeats(script, k)
    requires 0 < |cuts| < |script| ==> !Repeats(script, |cuts| - 1)
    requires script != [] ==> cuts != []
    ensures Mixed(Pieces(script, cuts)) <==> Replays(script)
  {
    hide Repeats, Pieces;
    var got := Pieces(script, cuts);
    forall k: nat | k < |cuts|
      ensures (exists d :: d in got && d.attempt == k) <==> Delivers(script[k])
    {
      InPieces(script, cuts, k);
    }
    if d, e :| d in got && e in got && d.attempt != e.attempt {
      InPieces(script, cuts, d.attempt);
      InPieces(script, cuts, e.attempt);
      assert ReplaysFrom(script, d.attempt, e.attempt) || ReplaysFrom(script, e.attempt, d.attempt);
    }
    if i, j :| ReplaysFrom(script, i, j) {
      assert j < |cuts|;
      var d :| d in got && d.attempt == i;
      var e :| e in got && e.attempt == j;
    }
  }

  class Consumer {
    const wants: nat             // how many rows it takes before it stops the stream
    var got: seq<Delivery>

    constructor (wants: nat)
      ensures got == [] && this.wants == wants
    {
      this.wants, got := wants, [];
    }

    /** Take a row; false asks for no more. */
    method Yield(d: Delivery) returns (more: bool)
      modifies this
      ensures got == old(got) + [d] && more == (|got| < wants)
    {
      got := got + [d];
      more := |got| < wants;
    }
  }

  /** One attempt's rows go to the consumer until it stops or the stream ends. */
  method Relay(c: Consumer, attempt: nat, rows: seq<string>) returns (delivered: bool, stopped: bool, ghost cut: nat)
    modifies c
    ensures cut <= |rows| && c.got == old(c.got) + Delivered(attempt, rows[..cut])
    ensures delivered <==> rows != []
    ensures if stopped then |c.got| >= c.wants else cut == |rows|
    ensures rows != [] ==> cut > 0
  {
    delivered, stopped := false, false;
    var i := 0;
    while i < |rows|
      invariant 0 <= i <= |rows| && !stopped
      invariant c.got == old(c.got) + Delivered(attempt, rows[..i])
      invariant delivered <==> i > 0
    {
      delivered := true;
      var more := c.Yield(Delivery(attempt, rows[i]));
      assert Delivered(attempt, rows[..i + 1]) == Delivered(attempt, rows[..i]) + [Delivery(attempt, rows[i])];
      i := i + 1;
      if !more {
        return true, true, i;
      }
    }
    cut := |rows|;
  }

  /** The next attempt's rows, if it gets that far. */
  method RelayAttempt(c: Consumer, script: seq<Attempt>, ghost cuts: seq<nat>, n: nat)
    returns (delivered: bool, stopped: bool, ghost cuts': seq<nat>)
    requires n == |cuts| < |script| && Cuts(script, cuts) && c.got == Pieces(script, cuts)
    modifies c
    ensures |cuts'| == n + 1 && cuts'[..n] == cuts && Cuts(script, cuts') && c.got == Pieces(script, cuts')
    ensures (delivered <==> Delivers(script[n])) && (delivered ==> script[n].connected)
    ensures |c.got| >= |old(c.got)| && if stopped then |c.got| >= c.wants else cuts'[n] == |script[n].rows|
    ensures Delivers(script[n]) ==> cuts'[n] > 0
  {
    hide Pieces, Delivered;
    var a := script[n];
    if a.connected {
      ghost var cut;
      delivered, stopped, cut := Relay(c, n, a.rows);
      PiecesStep(script, cuts, cut);
      cuts' := cuts + [cut];
    } else {
      PiecesStep(script, cuts, |a.rows|);
      delivered, stopped, cuts' := false, false, cuts + [|a.rows|];
    }
  }

  /** What the retry loop does after an attempt. */
  datatype Verdict = Success | GiveUp | Again

  /** `delivered`: rows have been handed on. `conflicts`: how many there were before. */
  function Classify(a: Attempt, delivered: bool, conflicts: nat): Verdict {
    if a.connected && a.failure.None? then Success
    else if a.connected && IsConflict(OpError(a.failure.value, delivered)) then
      if conflicts + 1 > MAX_CONFLICT_RETRIES then GiveUp else Again
    else if a.connected && IsPermanent(OpError(a.failure.value, delivered)) then GiveUp
    else if a.ctxEnded || a.budgetSpent then GiveUp
    else Again
  }

  /** What the classification of attempt `k` means for the script. */
  lemma Classified(script: seq<Attempt>, k: nat, delivered: bool, conflicts: nat)
    requires k < |script| && (delivered <==> !Silent(script, k + 1))
    requires conflicts == ConflictsIn(script, k) <= MAX_CONFLICT_RETRIES
    ensures var a, v := script[k], Classify(script[k], delivered, conflicts);
            && (v.Again? <==> Repeats(script, k)) && (v.Success? ==> a.connected && a.failure.None?)
            && (v.Again? && Delivers(a) ==> a.failure == Some(Conflict))
            && (!v.Again? && !delivered ==> !Transient(a))
            && ConflictsIn(script, k + 1) == conflicts + (if a.connected && a.failure == Some(Conflict) then 1 else 0)
            && (v.Again? ==> ConflictsIn(script, k + 1) <= MAX_CONFLICT_RETRIES)
            && (!v.Again? && a.connected && a.failure == Some(Conflict) ==>
                  ConflictsIn(script, k + 1) > MAX_CONFLICT_RETRIES)
  {
  }

  lemma NoneYet(script: seq<Attempt>)
    ensures Silent(script, 0) && ConflictsIn(script, 0) == 0
  {
  }

  lemma SilentStep(script: seq<Attempt>, k: nat)
    requires k < |script|
    ensures Silent(script, k + 1) <==> Silent(script, k) && !Delivers(script[k])
  {
  }

  /** Stream one table, attempt after attempt as the script has them; a run ends with the script at the latest. The
      consumer gets a prefix of each attempt's rows. Only an attempt that failed with a conflict is followed by
      another after it delivered rows, and as long as nothing was delivered, transient failures are retried. Which
      attempts are made is a matter of the script alone, and so is whether rows of two of them are mixed. */
  method StreamTable(c: Consumer, script: seq<Attempt>)
    returns (used: nat, stopped: bool, err: bool, ghost cuts: seq<nat>)
    requires c.got == []
    modifies c
    ensures used == |cuts| && Cuts(script, cuts) && c.got == Pieces(script, cuts)
    ensures if stopped then |c.got| >= c.wants else forall k :: 0 <= k < used ==> cuts[k] == |script[k].rows|
    ensures script != [] ==> used > 0
    ensures forall k :: 0 <= k < used - 1 && Delivers(script[k]) ==> script[k].failure == Some(Conflict)
    ensures 0 < used < |script| && Silent(script, used) ==> !Transient(script[used - 1])
    ensures 0 < used < |script| && script[used - 1].connected && script[used - 1].failure == Some(Conflict) ==>
              ConflictsIn(script, used) > MAX_CONFLICT_RETRIES
    ensures !err ==> used > 0 && script[used - 1].connected && script[used - 1].failure.None?
    ensures forall k :: 0 <= k < used - 1 ==> Repeats(script, k)
    ensures 0 < used < |script| ==> !Repeats(script, used - 1)
    ensures Mixed(c.got) <==> Replays(script)
  {
    hide Pieces, Delivers, Mixed, Replays, Repeats, Classify, Silent, Transient, ConflictsIn;
    used, stopped, err, cuts := 0, false, true, [];
    SilentPieces(script, cuts);
    NoneYet(script);
    var delivered := false;
    var conflicts := 0;
    while used < |script|
      invariant used == |cuts| && Cuts(script, cuts) && c.got == Pieces(script, cuts)
      invariant if stopped then |c.got| >= c.wants else forall k :: 0 <= k < used ==> cuts[k] == |script[k].rows|
      invariant err && conflicts == ConflictsIn(script, used) <= MAX_CONFLICT_RETRIES
      invariant delivered <==> !Silent(script, used)
      invariant forall k :: 0 <= k < used && Delivers(script[k]) ==> script[k].failure == Some(Conflict)
      invariant forall k :: 0 <= k < used ==> Repeats(script, k)
      invariant forall k :: 0 <= k < used && Delivers(script[k]) ==> cuts[k] > 0
    {
      var a := script[used];
      var came, stop;
      came, stop, cuts := RelayAttempt(c, script, cuts, used);
      delivered, stopped := delivered || came, stopped || stop;
      SilentStep(script, used);
      Classified(script, used, delivered, conflicts);
      used := used + 1;
      var v := Classify(a, delivered, conflicts);
      if v != Again {
        err := v != Success;
        MixedExactly(script, cuts);
        return;
      }
      if a.connected && a.failure == Some(Conflict) {
        conflicts := conflicts + 1;
      }
    }
    MixedExactly(script, cuts);
  }

  /** Reads raise no write conflicts, so all rows of a table come from its last attempt. */
  method StreamRead(c: Consumer, script: seq<Attempt>) returns (used: nat, stopped: bool, err: bool)
    requires c.got == [] && forall k :: 0 <= k < |script| ==> script[k].failure != Some(Conflict)
    modifies c
    ensures used <= |script| && (script != [] ==> used > 0)
    ensures c.got != [] ==> used > 0 && c.got <= Delivered(used - 1, script[used - 1].rows)
    ensures !err ==> used > 0 && script[used - 1].connected && script[used - 1].failure.None?
    ensures !stopped && !err ==> c.got == Delivered(used - 1, script[used - 1].rows)
    ensures 0 < used < |script| && Silent(script, used) ==> !Transient(script[used - 1])
  {
    hide Pieces, Silent, Transient;
    ghost var cuts;
    used, stopped, err, cuts := StreamTable(c, script);
    LastAttempt(script, cuts);
  }

  lemma LastAttempt(script: seq<Attempt>, cuts: seq<nat>)
    requires Cuts(script, cuts)
    requires forall k :: 0 <= k < |cuts| - 1 ==> !Delivers(script[k])
    ensures if cuts == [] || !script[|cuts| - 1].connected then Pieces(script, cuts) == []
            else
              && Pieces(script, cuts) <= Delivered(|cuts| - 1, script[|cuts| - 1].rows)
              && |Pieces(script, cuts)| == cuts[|cuts| - 1]
  {
    if |cuts| > 0 {
      SilentPieces(script, cuts[..|cuts| - 1]);
    }
  }

  /** A conflict reported after rows were delivered makes the loop replay them. */
  method ConflictReplays(row: string) returns (got: seq<Delivery>)
    ensures got == [Delivery(0, row), Delivery(1, row)]
  {
    var c := new Consumer(3);
    var script := [Attempt(true, [row], Some(Conflict), false, false), Attempt(true, [row], None, false, false)];
    ghost var cuts;
    var used, stopped, err;
    used, stopped, err, cuts := StreamTable(c, script);
    assert ConflictsIn(script, 1) <= 1;
    assert used == 2;
    assert |Pieces(script, cuts)| <= 2 by { assert |Pieces(script, cuts[..1])| <= 1; }
    assert cuts == [1, 1];
    assert cuts[..1] == [1] && cuts[..0] == [];
    assert Pieces(script, cuts[..1]) == [Delivery(0, row)];
    got := c.got;
  }
}
