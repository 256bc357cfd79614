/** Concurrency limits within one cycle: the gate in front of the match scan, and the tracker it reads, which is
    seeded lazily from the accountant's counts and must stay in step with them. */
module Concurrency {
  import opened Accounting
  import opened Holds
  import opened Ledger
  import opened Options

  /** Every token of a parsed list has a positive weight. */
  ghost predicate Parsed(uses: seq<LimitUse>) {
    forall i :: 0 <= i < |uses| ==> uses[i].weight > 0.0
  }

  ghost predicate NamedOnce(uses: seq<LimitUse>) {
    forall i, j :: 0 <= i < j < |uses| ==> uses[i].name != uses[j].name
  }

  ghost predicate Names(uses: seq<LimitUse>, l: string) {
    exists i :: 0 <= i < |uses| && uses[i].name == l
  }

  /** What the gate checks: each token on its own fits. */
  ghost predicate Admitted(uses: seq<LimitUse>, count: string -> real, max: string -> real) {
    forall i :: 0 <= i < |uses| ==>
      0.0 <= count(uses[i].name) && count(uses[i].name) + uses[i].weight <= max(uses[i].name)
  }

  /** What the limits are for: with the whole list charged, none is passed. */
  ghost predicate Respected(uses: seq<LimitUse>, count: string -> real, max: string -> real) {
    forall l :: Names(uses, l) ==> count(l) + UseOf(uses, l) <= max(l)
  }

  lemma {:induction false} UseOfUnnamed(uses: seq<LimitUse>, l: string)
    requires !Names(uses, l)
    ensures UseOf(uses, l) == 0.0
  {
    if |uses| > 0 {
      var front := uses[..|uses| - 1];
      assert uses[|uses| - 1].name != l;
      assert forall i :: 0 <= i < |front| ==> front[i] == uses[i];
      UseOfUnnamed(front, l);
    }
  }

  lemma {:induction false} UseOfNonneg(uses: seq<LimitUse>, l: string)
    requires Parsed(uses)
    ensures UseOf(uses, l) >= 0.0
  {
    if |uses| > 0 {
      UseOfNonneg(uses[..|uses| - 1], l);
    }
  }

  /** Without repetition, a list uses of a limit what its one token says. */
  lemma {:induction false} UseOfNamedOnce(uses: seq<LimitUse>, i: nat)
    requires NamedOnce(uses) && i < |uses|
    ensures UseOf(uses, uses[i].name) == uses[i].weight
  {
    var n := |uses| - 1;
    var front := uses[..n];
    if i == n {
      assert !Names(front, uses[n].name);
      UseOfUnnamed(front, uses[n].name);
    } else {
      assert front[i] == uses[i];
      UseOfNamedOnce(front, i);
    }
  }

  /** Two tokens of the same name are used together. */
  lemma {:induction false} UseOfTwo(uses: seq<LimitUse>, i: nat, j: nat)
    requires Parsed(uses) && i < j < |uses| && uses[i].name == uses[j].name
    ensures UseOf(uses, uses[i].name) >= uses[i].weight + uses[j].weight
  {
    var n := |uses| - 1;
    var front := uses[..n];
    assert forall k :: 0 <= k < n ==> front[k] == uses[k];
    if j == n {
      UseOfOne(front, i);
    } else {
      UseOfTwo(front, i, j);
    }
  }

  lemma {:induction false} UseOfOne(uses: seq<LimitUse>, i: nat)
    requires Parsed(uses) && i < |uses|
    ensures UseOf(uses, uses[i].name) >= uses[i].weight
  {
    var n := |uses| - 1;
    var front := uses[..n];
    assert forall k :: 0 <= k < n ==> front[k] == uses[k];
    if i == n {
      UseOfNonneg(front, uses[n].name);
    } else {
      UseOfOne(front, i);
    }
  }

  /** A list that names each limit once never passes one it was admitted under. */
  lemma AdmittedIsRespected(uses: seq<LimitUse>, count: string -> real, max: string -> real)
    requires NamedOnce(uses) && Admitted(uses, count, max)
    ensures Respected(uses, count, max)
  {
    hide UseOf;
    forall l | Names(uses, l) ensures count(l) + UseOf(uses, l) <= max(l) {
      var i :| 0 <= i < |uses| && uses[i].name == l;
      UseOfNamedOnce(uses, i);
    }
  }

  /** The gate looks at each token alone, so a list that repeats a name can be admitted and pass the limit. */
  lemma RepeatedNamePasses(uses: seq<LimitUse>, i: nat, j: nat) returns (count: string -> real, max: string -> real)
    requires Parsed(uses) && i < j < |uses| && uses[i].name == uses[j].name
    ensures Admitted(uses, count, max) && !Respected(uses, count, max)
  {
    hide UseOf;
    var twice := uses[i].name;
    var step := if uses[i].weight < uses[j].weight then uses[i].weight else uses[j].weight;
    count := n => 0.0;
    max := n => if n == twice then UseOf(uses, n) - step else UseOf(uses, n);
    forall k | 0 <= k < |uses| ensures count(uses[k].name) + uses[k].weight <= max(uses[k].name) {
      UseOfOne(uses, k);
      if uses[k].name == twice {
        UseOfTwo(uses, if k <= i then k else i, if k < i then i else if k == i then j else k);
      }
    }
    assert Names(uses, twice);
  }

  /** Lists are safe under every count and maximum if and only if they name each limit at most once. */
  lemma SafeExactlyWhenNamedOnce(uses: seq<LimitUse>)
    requires Parsed(uses)
    ensures NamedOnce(uses) <==>
              forall count: string -> real, max: string -> real :: Admitted(uses, count, max) ==>
                Respected(uses, count, max)
  {
    hide Admitted, Respected;
    if NamedOnce(uses) {
      forall count: string -> real, max: string -> real | Admitted(uses, count, max)
        ensures Respected(uses, count, max) {
        AdmittedIsRespected(uses, count, max);
      }
    } else {
      var i, j :| 0 <= i < j < |uses| && uses[i].name == uses[j].name;
      var count, max := RepeatedNamePasses(uses, i, j);
      assert !(Admitted(uses, count, max) ==> Respected(uses, count, max));
    }
  }

  /** The cycle's view of limit usage. */
  class Tracker {
    const acct: Accountant
    const max: string -> real
    var usage: map<string, real>

    constructor (acct: Accountant, max: string -> real)
      ensures this.acct == acct && this.max == max && usage == map[]
      ensures InStep()
    {
      this.acct, this.max, usage := acct, max, map[];
    }

    /** Every limit the tracker has touched stands at the accountant's live count. */
    ghost predicate InStep()
      reads this, acct
    {
      forall l :: l in usage ==> usage[l] == Limit(acct.limits, l)
    }

    /** No limit is passed. */
    ghost predicate WithinMax()
      reads acct
    {
      forall l :: Limit(acct.limits, l) <= max(l)
    }

    /** Read a limit, seeding it from the accountant at the first touch. */
    method Usage(name: string) returns (count: real)
      modifies this`usage
      ensures name in usage && count == usage[name] && usage.Keys == old(usage).Keys + {name}
      ensures forall l :: l in old(usage) ==> usage[l] == old(usage)[l]
      ensures name !in old(usage) ==> count == Limit(acct.limits, name)
      ensures old(InStep()) ==> InStep() && count == Limit(acct.limits, name)
    {
      if name !in usage {
        usage := usage[name := Limit(acct.limits, name)];
      }
      count := usage[name];
    }

    /** The gate. An admitted list has every limit it names seeded. */
    method Rejects(uses: seq<LimitUse>) returns (reject: bool)
      requires InStep()
      modifies this`usage
      ensures InStep()
      ensures !reject <==> Admitted(uses, l => Limit(old(acct.limits), l), max)
      ensures !reject ==> forall l :: Names(uses, l) ==> l in usage
    {
      hide InStep;
      for i := 0 to |uses|
        invariant InStep()
        invariant Admitted(uses[..i], l => Limit(old(acct.limits), l), max)
        invariant forall k :: 0 <= k < i ==> uses[k].name in usage
      {
        var count := Usage(uses[i].name);
        if count < 0.0 || count + uses[i].weight > max(uses[i].name) {
          return true;
        }
      }
      return false;
    }

    /** Charge a committed match's list; a limit not touched before is seeded from the accountant first. */
    method Add(uses: seq<LimitUse>)
      modifies this`usage
      ensures forall l :: l in usage <==> l in old(usage) || Names(uses, l)
      ensures forall l :: l in usage ==>
                usage[l] == (if l in old(usage) then old(usage)[l] else Limit(acct.limits, l)) + UseOf(uses, l)
    {
      hide UseOf, Names;
      NamesNone(uses);
      for i := 0 to |uses|
        invariant forall l :: l in usage <==> l in old(usage) || Names(uses[..i], l)
        invariant forall l :: l in usage ==>
                    usage[l] == (if l in old(usage) then old(usage)[l] else Limit(acct.limits, l)) + UseOf(uses[..i], l)
      {
        NamesMore(uses, i);
        var count := Usage(uses[i].name);
        usage := usage[uses[i].name := count + uses[i].weight];
      }
      assert uses[..|uses|] == uses;
    }

    lemma NamesNone(uses: seq<LimitUse>)
      ensures forall l :: !Names(uses[..0], l) && UseOf(uses[..0], l) == 0.0
    {
    }

    lemma NamesMore(uses: seq<LimitUse>, i: nat)
      requires i < |uses|
      ensures forall l :: Names(uses[..i + 1], l) <==> Names(uses[..i], l) || l == uses[i].name
      ensures forall l ::
                UseOf(uses[..i + 1], l) == UseOf(uses[..i], l) + if l == uses[i].name then uses[i].weight else 0.0
      ensures forall l :: !Names(uses[..i], l) ==> UseOf(uses[..i], l) == 0.0
    {
      assert uses[..i + 1][..i] == uses[..i];
      assert uses[..i + 1] == uses[..i] + [uses[i]];
      forall l ensures !Names(uses[..i], l) ==> UseOf(uses[..i], l) == 0.0 {
        if !Names(uses[..i], l) {
          UseOfUnnamed(uses[..i], l);
        }
      }
      forall l ensures Names(uses[..i + 1], l) <==> Names(uses[..i], l) || l == uses[i].name {
        var short, long := uses[..i], uses[..i + 1];
        assert long[i] == uses[i];
        if j :| 0 <= j < i && short[j].name == l {
          assert long[j].name == l;
        }
        if j :| 0 <= j < i && long[j].name == l {
          assert short[j].name == l;
        }
      }
    }

    /** One request: the gate, the scan (which may find nothing), and the commit. The accountant charges the
        request's list, or the slot's own if the request has none; the tracker charges the request's. */
    method TryMatch(customer: string, resource: string, weight: real, uses: Option<seq<LimitUse>>,
                    slotUses: Option<seq<LimitUse>>, t: int)
      returns (matched: bool)
      requires acct.Valid() && InStep() && weight >= 0.0 && Parsed(Listed(uses))
      modifies this`usage, acct
      ensures acct.Valid()
      ensures matched ==> Admitted(Listed(uses), l => Limit(old(acct.limits), l), max)
      ensures !matched ==> acct.limits == old(acct.limits) && InStep()
      // In step again exactly if the slot brought no touched limit of its own.
      ensures matched ==> (InStep() <==> uses.Some? || forall l :: l in usage ==> UseOf(Listed(slotUses), l) == 0.0)
      ensures old(WithinMax()) && NamedOnce(Listed(uses)) && (uses.Some? || Listed(slotUses) == []) ==> WithinMax()
    {
      hide UseOf, NamedOnce, Admitted, AllMoved, RaisedBy, AllBalanced, AllWeightBalanced, AllRolled, Linked, Honest,
           Over;
      var tokens := Listed(uses);
      var reject := Rejects(tokens);
      var found: bool := *;
      if reject || !found {
        return false;
      }
      ghost var before := acct.limits;
      acct.AddMatch(customer, resource, weight, if uses.Some? then uses else slotUses, t);
      Add(tokens);
      if uses.None? {
        NothingUsed();
      }
      if NamedOnce(tokens) {
        StillWithin(before, acct.limits, tokens);
      }
      return true;
    }

    lemma NothingUsed()
      ensures forall l :: UseOf([], l) == 0.0
    {
    }

    lemma StillWithin(before: map<string, real>, after: map<string, real>, uses: seq<LimitUse>)
      requires NamedOnce(uses) && Admitted(uses, l => Limit(before, l), max)
      ensures (forall l :: Limit(before, l) <= max(l)) &&
              (forall l :: Limit(after, l) == Limit(before, l) + UseOf(uses, l)) ==>
                forall l :: Limit(after, l) <= max(l)
    {
      hide UseOf;
      var count := l => Limit(before, l);
      AdmittedIsRespected(uses, count, max);
      forall l ensures Limit(before, l) <= max(l) ==> Limit(before, l) + UseOf(uses, l) <= max(l) {
        if Names(uses, l) {
          assert count(l) + UseOf(uses, l) <= max(l);
        } else {
          UseOfUnnamed(uses, l);
        }
      }
    }
  }
}
