/** Who held which slot, from when until when: the history the accountant's counters are measured against. */
module Holds {
  import opened GroupNodes
  import opened Options

  /** The position of the last `c` in `s`, or -1. */
  function LastIndex(s: string, c: char): (i: int)
    ensures -1 <= i < |s|
    ensures i >= 0 ==> s[i] == c
    ensures forall k :: i < k < |s| ==> s[k] != c
  {
    if |s| == 0 then -1
    else if s[|s| - 1] == c then |s| - 1
    else LastIndex(s[..|s| - 1], c)
  }

  /** The accounting group of a submitter: what precedes the last dot of the part before the last '@'. */
  function AssignedGroupName(name: string): string {
    var at := LastIndex(name, '@');
    if at < 0 then ROOT_GROUP_NAME
    else
      var dot := LastIndex(name[..at], '.');
      if dot >= 0 then name[..dot] else ROOT_GROUP_NAME
  }

  /** A group and its dotted ancestors, deepest first. */
  function AncestorChain(group: string): (chain: seq<string>)
    ensures forall x :: x in chain ==> |x| <= |group|
    decreases |group|
  {
    if group == "" then []
    else
      var dot := LastIndex(group, '.');
      [group] + AncestorChain(if dot >= 0 then group[..dot] else "")
  }

  /** One match: a slot of some weight held by a customer. `lost` is the part of its time that the accountant
      never charges (or, when negative, charges twice). */
  datatype Hold = Hold(customer: string, weight: real, start: int, end: Option<int>, lost: int)

  /** What a name is charged for a hold: once as the customer and once as its group, per slot or by weight;
      or, over its subtree, the weight held by its descendants. */
  datatype Measure = Count | Weight | Subtree

  function Rate(h: Hold, m: Measure): real {
    if m.Count? then 1.0 else h.weight
  }

  function Over(rate: real, seconds: int): real {
    rate * (seconds as real)
  }

  function Part(customer: string, x: string, m: Measure, v: real): real {
    var group := AssignedGroupName(customer);
    if m.Subtree? then (if x in AncestorChain(group) then v else 0.0)
    else (if customer == x then v else 0.0) + (if group == x then v else 0.0)
  }

  ghost function OpenTerm(h: Hold, x: string, m: Measure): real {
    Part(h.customer, x, m, if h.end.None? then Rate(h, m) else 0.0)
  }

  /** What is held now. */
  ghost function InUse(hs: seq<Hold>, x: string, m: Measure): real {
    if |hs| == 0 then 0.0 else InUse(hs[..|hs| - 1], x, m) + OpenTerm(hs[|hs| - 1], x, m)
  }

  /** How long a hold lasted by time `t`. */
  function Age(h: Hold, t: int): int {
    (if h.end.Some? then h.end.value else t) - h.start
  }

  ghost function PaidTerm(h: Hold, x: string, m: Measure, t: int): real {
    Part(h.customer, x, m, Over(Rate(h, m), Age(h, t) - h.lost))
  }

  /** Time held by `t`, less what was lost. */
  ghost function Paid(hs: seq<Hold>, x: string, m: Measure, t: int): real {
    if |hs| == 0 then 0.0 else Paid(hs[..|hs| - 1], x, m, t) + PaidTerm(hs[|hs| - 1], x, m, t)
  }

  ghost function HeldTerm(h: Hold, x: string, m: Measure, t: int): real {
    Part(h.customer, x, m, Over(Rate(h, m), Age(h, t)))
  }

  /** The total time held by `t`. */
  ghost function Held(hs: seq<Hold>, x: string, m: Measure, t: int): real {
    if |hs| == 0 then 0.0 else Held(hs[..|hs| - 1], x, m, t) + HeldTerm(hs[|hs| - 1], x, m, t)
  }

  ghost function LostTerm(h: Hold, x: string, m: Measure): real {
    Part(h.customer, x, m, Over(Rate(h, m), h.lost))
  }

  ghost function Lost(hs: seq<Hold>, x: string, m: Measure): real {
    if |hs| == 0 then 0.0 else Lost(hs[..|hs| - 1], x, m) + LostTerm(hs[|hs| - 1], x, m)
  }

  // ----- how the sums move -----

  lemma HoldAdded(hs: seq<Hold>, h: Hold, x: string, m: Measure, t: int)
    ensures InUse(hs + [h], x, m) == InUse(hs, x, m) + OpenTerm(h, x, m)
    ensures Paid(hs + [h], x, m, t) == Paid(hs, x, m, t) + PaidTerm(h, x, m, t)
  {
    assert (hs + [h])[..|hs|] == hs;
  }

  lemma {:induction false} HoldReplaced(hs: seq<Hold>, k: nat, h: Hold, x: string, m: Measure, t: int)
    requires k < |hs|
    ensures InUse(hs[k := h], x, m) == InUse(hs, x, m) - OpenTerm(hs[k], x, m) + OpenTerm(h, x, m)
    ensures Paid(hs[k := h], x, m, t) == Paid(hs, x, m, t) - PaidTerm(hs[k], x, m, t) + PaidTerm(h, x, m, t)
  {
    hide OpenTerm, PaidTerm;
    var n := |hs| - 1;
    if k == n {
      assert hs[k := h][..n] == hs[..n];
    } else {
      assert hs[k := h][..n] == hs[..n][k := h];
      HoldReplaced(hs[..n], k, h, x, m, t);
    }
  }

  lemma Distribute(rate: real, a: int, d: int)
    ensures Over(rate, a + d) == Over(rate, a) + Over(rate, d)
  {
  }

  lemma ZeroTimes(rate: real)
    ensures Over(rate, 0) == 0.0
  {
  }

  lemma PartAdds(customer: string, x: string, m: Measure, a: real, b: real)
    ensures Part(customer, x, m, a + b) == Part(customer, x, m, a) + Part(customer, x, m, b)
  {
    hide AssignedGroupName, AncestorChain;
  }

  lemma PartOfNothing(customer: string, x: string, m: Measure)
    ensures Part(customer, x, m, 0.0) == 0.0
  {
  }

  lemma PartScales(customer: string, x: string, m: Measure, rate: real, d: int)
    ensures Part(customer, x, m, Over(rate, d)) == (d as real) * Part(customer, x, m, rate)
  {
    hide AssignedGroupName, AncestorChain;
  }

  lemma PaidTermLater(h: Hold, x: string, m: Measure, t: int, d: int)
    ensures PaidTerm(h, x, m, t + d) == PaidTerm(h, x, m, t) + (d as real) * OpenTerm(h, x, m)
  {
    hide Part, Rate, Over;
    var rate := Rate(h, m);
    if h.end.None? {
      Distribute(rate, Age(h, t) - h.lost, d);
      PartAdds(h.customer, x, m, Over(rate, Age(h, t) - h.lost), Over(rate, d));
      PartScales(h.customer, x, m, rate, d);
      assert Age(h, t + d) - h.lost == Age(h, t) - h.lost + d;
    } else {
      PartOfNothing(h.customer, x, m);
    }
  }

  /** A tick pays every open hold for the time since the last one. */
  lemma {:induction false} PaidLater(hs: seq<Hold>, x: string, m: Measure, t: int, d: int)
    ensures Paid(hs, x, m, t + d) == Paid(hs, x, m, t) + (d as real) * InUse(hs, x, m)
  {
    hide PaidTerm, OpenTerm;
    if |hs| > 0 {
      var n := |hs| - 1;
      PaidLater(hs[..n], x, m, t, d);
      PaidTermLater(hs[n], x, m, t, d);
    }
  }

  /** The clock going back `d` seconds makes the accountant charge those seconds again. */
  ghost function Rewound(hs: seq<Hold>, d: int): (out: seq<Hold>)
    ensures |out| == |hs|
    ensures forall k :: 0 <= k < |hs| ==> out[k] == if hs[k].end.None? then hs[k].(lost := hs[k].lost - d) else hs[k]
  {
    seq(|hs|, k requires 0 <= k < |hs| => if hs[k].end.None? then hs[k].(lost := hs[k].lost - d) else hs[k])
  }

  lemma RewoundTerm(h: Hold, x: string, m: Measure, t: int, d: int)
    ensures h.end.None? ==> PaidTerm(h.(lost := h.lost - d), x, m, t - d) == PaidTerm(h, x, m, t)
    ensures h.end.None? ==> OpenTerm(h.(lost := h.lost - d), x, m) == OpenTerm(h, x, m)
    ensures h.end.Some? ==> PaidTerm(h, x, m, t - d) == PaidTerm(h, x, m, t)
  {
    hide Part, Over;
    var r := h.(lost := h.lost - d);
    assert Rate(r, m) == Rate(h, m);
    assert h.end.None? ==> Age(r, t - d) - r.lost == Age(h, t) - h.lost;
  }

  lemma {:induction false} RewoundIsPaid(hs: seq<Hold>, x: string, m: Measure, t: int, d: int)
    ensures Paid(Rewound(hs, d), x, m, t - d) == Paid(hs, x, m, t)
    ensures InUse(Rewound(hs, d), x, m) == InUse(hs, x, m)
  {
    hide PaidTerm, OpenTerm;
    if |hs| > 0 {
      var n := |hs| - 1;
      assert Rewound(hs, d)[..n] == Rewound(hs[..n], d);
      RewoundIsPaid(hs[..n], x, m, t, d);
      RewoundTerm(hs[n], x, m, t, d);
    }
  }

  ghost predicate Weighty(hs: seq<Hold>) {
    forall k :: 0 <= k < |hs| ==> hs[k].weight >= 0.0
  }

  lemma {:induction false} InUseNonneg(hs: seq<Hold>, x: string, m: Measure)
    requires Weighty(hs)
    ensures InUse(hs, x, m) >= 0.0
  {
    if |hs| > 0 {
      InUseNonneg(hs[..|hs| - 1], x, m);
    }
  }

  /** An open hold is part of what is in use. */
  lemma InUseAtLeast(hs: seq<Hold>, k: nat, x: string, m: Measure)
    requires k < |hs| && Weighty(hs)
    ensures InUse(hs, x, m) >= OpenTerm(hs[k], x, m)
  {
    var closed := hs[k].(end := Some(0));
    HoldReplaced(hs, k, closed, x, m, 0);
    InUseNonneg(hs[k := closed], x, m);
  }

  /** Nothing counted, nothing weighed. */
  lemma {:induction false} NothingInUse(hs: seq<Hold>, x: string)
    requires InUse(hs, x, Count) == 0.0 && Weighty(hs)
    ensures InUse(hs, x, Weight) == 0.0
  {
    if |hs| > 0 {
      var n := |hs| - 1;
      InUseNonneg(hs[..n], x, Count);
      NothingInUse(hs[..n], x);
    }
  }

  lemma PaidTermIsHeldLessLost(h: Hold, x: string, m: Measure, t: int)
    ensures PaidTerm(h, x, m, t) == HeldTerm(h, x, m, t) - LostTerm(h, x, m)
  {
    hide Part, Rate, Over;
    var rate := Rate(h, m);
    Distribute(rate, Age(h, t) - h.lost, h.lost);
    assert Age(h, t) - h.lost + h.lost == Age(h, t);
    PartAdds(h.customer, x, m, Over(rate, Age(h, t) - h.lost), Over(rate, h.lost));
  }

  lemma {:induction false} PaidIsHeldLessLost(hs: seq<Hold>, x: string, m: Measure, t: int)
    ensures Paid(hs, x, m, t) == Held(hs, x, m, t) - Lost(hs, x, m)
  {
    hide PaidTerm, HeldTerm, LostTerm;
    if |hs| > 0 {
      PaidIsHeldLessLost(hs[..|hs| - 1], x, m, t);
      PaidTermIsHeldLessLost(hs[|hs| - 1], x, m, t);
    }
  }

  // ----- histories in which nothing went wrong -----

  /** By time `t`: every hold has a positive weight, ended no earlier than it began, and lost nothing. */
  ghost predicate Honest(hs: seq<Hold>, t: int) {
    forall k :: 0 <= k < |hs| ==>
      hs[k].weight > 0.0 && hs[k].lost == 0 && Age(hs[k], t) >= 0 && hs[k].start <= t
  }

  lemma TermsAgree(h: Hold, x: string, t: int)
    requires h.weight > 0.0 && h.lost == 0 && Age(h, t) >= 0
    ensures PaidTerm(h, x, Count, t) >= 0.0 && PaidTerm(h, x, Weight, t) >= 0.0
    ensures PaidTerm(h, x, Count, t) == 0.0 <==> PaidTerm(h, x, Weight, t) == 0.0
  {
    var age := Age(h, t) as real;
    if age > 0.0 {
      assert h.weight * age > 0.0;
    }
  }

  /** In an honest history no time was charged by count exactly if none was charged by weight. */
  lemma {:induction false} PaidAgree(hs: seq<Hold>, x: string, t: int)
    requires Honest(hs, t)
    ensures Paid(hs, x, Count, t) >= 0.0 && Paid(hs, x, Weight, t) >= 0.0
    ensures Paid(hs, x, Count, t) == 0.0 <==> Paid(hs, x, Weight, t) == 0.0
  {
    hide PaidTerm;
    if |hs| > 0 {
      var n := |hs| - 1;
      PaidAgree(hs[..n], x, t);
      TermsAgree(hs[n], x, t);
    }
  }

  lemma {:induction false} HonestLosesNothing(hs: seq<Hold>, x: string, m: Measure, t: int)
    requires Honest(hs, t)
    ensures Lost(hs, x, m) == 0.0
  {
    hide AssignedGroupName, AncestorChain, Rate;
    if |hs| > 0 {
      HonestLosesNothing(hs[..|hs| - 1], x, m, t);
      ZeroTimes(Rate(hs[|hs| - 1], m));
    }
  }
}
