/** The pie spin: dividing one group's pie of slot weight among its submitters, preemption off. */
module PieSpin {
  import opened RealSums

  // ----- fair shares -----

  /** A submitter as the spin sees it; `starvation` is stamped anew each spin. */
  datatype Submitter = Submitter(name: string, idleJobs: int, lastHeard: int, origIdx: int, starvation: real)

  /** The names of the submitters, each once, in order of first appearance. */
  ghost function Names(subs: seq<Submitter>): (names: seq<string>)
    ensures forall i :: 0 <= i < |subs| ==> subs[i].name in names
    ensures forall n :: n in names ==> exists i :: 0 <= i < |subs| && subs[i].name == n
    ensures forall i, j :: 0 <= i < j < |names| ==> names[i] != names[j]
  {
    if |subs| == 0 then []
    else
      var front, last := Names(subs[..|subs| - 1]), subs[|subs| - 1].name;
      if last in front then front else front + [last]
  }

  /** maxPrio / prio for each name: its weight in the division of the pie. */
  ghost function Terms(names: seq<string>, maxPrio: real, prio: string -> real): (ts: seq<real>)
    requires forall n :: prio(n) > 0.0
    ensures |ts| == |names| && forall i :: 0 <= i < |ts| ==> ts[i] == maxPrio / prio(names[i])
  {
    seq(|names|, i requires 0 <= i < |names| => maxPrio / prio(names[i]))
  }

  function Share(maxPrio: real, normalFactor: real, prio: real): real
    requires Divisor(prio, normalFactor) != 0.0
  {
    maxPrio / Divisor(prio, normalFactor)
  }

  /** What a share is divided by. */
  function Divisor(prio: real, normalFactor: real): real {
    prio * normalFactor
  }

  lemma DivisorPositive(prio: real, normalFactor: real)
    requires prio > 0.0 && normalFactor > 0.0
    ensures Divisor(prio, normalFactor) > 0.0
  {
  }

  lemma ShareIsScaledTerm(maxPrio: real, nf: real, prio: real)
    requires prio > 0.0 && nf > 0.0
    ensures Divisor(prio, nf) > 0.0
    ensures Share(maxPrio, nf, prio) == (1.0 / nf) * (maxPrio / prio)
  {
    DivisorPositive(prio, nf);
    assert maxPrio / (prio * nf) == (maxPrio / prio) / nf;
    assert (1.0 / nf) * (maxPrio / prio) == (maxPrio / prio) / nf;
  }

  lemma TermsPositive(names: seq<string>, maxPrio: real, prio: string -> real)
    requires (forall n :: prio(n) > 0.0) && maxPrio > 0.0
    ensures forall i :: 0 <= i < |names| ==> Terms(names, maxPrio, prio)[i] > 0.0
  {
    forall i | 0 <= i < |names| ensures Terms(names, maxPrio, prio)[i] > 0.0 {
      QuotientPositive(maxPrio, prio(names[i]));
    }
  }

  /** The shares of the distinct names. */
  ghost function Shares(names: seq<string>, maxPrio: real, nf: real, prio: string -> real): (ss: seq<real>)
    requires (forall n :: prio(n) > 0.0) && nf > 0.0
    ensures |ss| == |names|
    ensures forall i :: 0 <= i < |ss| ==>
              Divisor(prio(names[i]), nf) != 0.0 && ss[i] == Share(maxPrio, nf, prio(names[i]))
  {
    DivisorsPositive(prio, nf);
    seq(|names|, i requires 0 <= i < |names| => Share(maxPrio, nf, prio(names[i])))
  }

  lemma DivisorsPositive(prio: string -> real, nf: real)
    requires (forall n :: prio(n) > 0.0) && nf > 0.0
    ensures forall n :: Divisor(prio(n), nf) > 0.0
  {
    hide Divisor;
    forall n ensures Divisor(prio(n), nf) > 0.0 { DivisorPositive(prio(n), nf); }
  }

  lemma TermWithinFactor(term: real, nf: real)
    requires 0.0 < term <= nf
    ensures 0.0 < (1.0 / nf) * term <= 1.0
  {
    var rate := 1.0 / nf;
    assert rate > 0.0 && rate * nf == 1.0;
    assert rate * (nf - term) >= 0.0;
    assert rate * (nf - term) == rate * nf - rate * term;
    assert rate * term > 0.0;
  }

  /** The whole pie and nothing but the pie: shares of distinct names add up to one, and none exceeds it. */
  lemma SharesAddUpToOne(names: seq<string>, maxPrio: real, nf: real, prio: string -> real)
    requires (forall n :: prio(n) > 0.0) && maxPrio > 0.0 && |names| > 0
    requires nf == Sum(Terms(names, maxPrio, prio))
    ensures nf > 0.0
    ensures Sum(Shares(names, maxPrio, nf, prio)) == 1.0
    ensures forall i :: 0 <= i < |names| ==> 0.0 < Shares(names, maxPrio, nf, prio)[i] <= 1.0
  {
    hide Sum, Scaled, Share;
    var ts := Terms(names, maxPrio, prio);
    TermsPositive(names, maxPrio, prio);
    SumNonneg(ts);
    assert ts[0] <= nf;
    var ss, rate := Shares(names, maxPrio, nf, prio), 1.0 / nf;
    forall i | 0 <= i < |names| ensures ss[i] == Scaled(ts, rate)[i] && 0.0 < ss[i] <= 1.0 {
      ShareAt(names, maxPrio, nf, prio, i);
    }
    assert ss == Scaled(ts, rate);
    ScaledSum(ts, rate);
    RateTimesTotal(1.0, nf);
  }

  lemma ShareAt(names: seq<string>, maxPrio: real, nf: real, prio: string -> real, i: nat)
    requires (forall n :: prio(n) > 0.0) && nf > 0.0 && i < |names|
    requires 0.0 < Terms(names, maxPrio, prio)[i] <= nf
    ensures Shares(names, maxPrio, nf, prio)[i] == Scaled(Terms(names, maxPrio, prio), 1.0 / nf)[i]
    ensures 0.0 < Shares(names, maxPrio, nf, prio)[i] <= 1.0
  {
    hide Scaled, Share;
    ShareIsScaledTerm(maxPrio, nf, prio(names[i]));
    ScaledAt(Terms(names, maxPrio, prio), 1.0 / nf, i);
    TermWithinFactor(Terms(names, maxPrio, prio)[i], nf);
  }

  /** maxPrio is the worst effective priority; every name counts once towards the factor, however many
      schedds it flocks from. */
  method CalculateNormalizationFactor(subs: seq<Submitter>, prio: string -> real) returns (maxPrio: real, nf: real)
    requires forall n :: prio(n) > 0.0
    requires |subs| > 0
    ensures forall i :: 0 <= i < |subs| ==> prio(subs[i].name) <= maxPrio
    ensures exists i :: 0 <= i < |subs| && prio(subs[i].name) == maxPrio
    ensures maxPrio > 0.0 && nf == Sum(Terms(Names(subs), maxPrio, prio))
  {
    hide Sum;
    maxPrio := prio(subs[0].name);
    for i := 0 to |subs|
      invariant forall k :: 0 <= k < i ==> prio(subs[k].name) <= maxPrio
      invariant exists k :: 0 <= k < |subs| && prio(subs[k].name) == maxPrio
    {
      if prio(subs[i].name) > maxPrio {
        maxPrio := prio(subs[i].name);
      }
    }
    var seen: set<string> := {};
    nf := 0.0;
    SumEmpty();
    assert Terms([], maxPrio, prio) == [];
    for i := 0 to |subs|
      invariant forall n :: n in seen <==> n in Names(subs[..i])
      invariant nf == Sum(Terms(Names(subs[..i]), maxPrio, prio))
    {
      var name := subs[i].name;
      ghost var front := Names(subs[..i]);
      assert subs[..i + 1][..i] == subs[..i];
      if name !in seen {
        seen := seen + {name};
        assert Terms(front + [name], maxPrio, prio) == Terms(front, maxPrio, prio) + [maxPrio / prio(name)];
        SumAppend(Terms(front, maxPrio, prio), maxPrio / prio(name));
        nf := nf + maxPrio / prio(name);
      }
    }
    assert subs[..|subs|] == subs;
  }

  // ----- how many more matches a submitter can make -----

  /** With usage `u` below `total`, at most this many further slots of weight `w` or more can be charged
      before usage reaches `total`: ceil((total - u) / w). */
  function Credit(total: real, w: real, u: real): (c: nat)
    requires w > 0.0
  {
    if u >= total then 0 else
    CreditNonneg(total, w, u);
    -((u - total) / w).Floor
  }

  lemma CreditNonneg(total: real, w: real, u: real)
    requires w > 0.0 && u < total
    ensures ((u - total) / w).Floor <= -1
  {
    QuotientPositive(total - u, w);
    assert (u - total) / w == -((total - u) / w);
  }

  lemma CreditMonotone(total: real, w: real, u: real, v: real)
    requires w > 0.0 && u <= v
    ensures Credit(total, w, v) <= Credit(total, w, u)
  {
    if v < total {
      QuotientMonotone(u - total, v - total, w);
      FloorMonotone((u - total) / w, (v - total) / w);
    }
  }

  lemma CreditDrops(total: real, w: real, u: real, v: real)
    requires w > 0.0 && u < total && u + w <= v
    ensures Credit(total, w, v) < Credit(total, w, u)
  {
    CreditNonneg(total, w, u);
    if v < total {
      QuotientMonotone(u - total + w, v - total, w);
      QuotientPlusOne(u - total, w);
      FloorMonotone((u - total) / w + 1.0, (v - total) / w);
      FloorPlusOne((u - total) / w);
    }
  }

  lemma QuotientPlusOne(x: real, w: real)
    requires w > 0.0
    ensures (x + w) / w == x / w + 1.0
  {
    var r := x / w + 1.0;
    assert r * w == x + w;
    Undone(r, w);
  }

  lemma Undone(r: real, w: real)
    requires w > 0.0
    ensures r * w / w == r
  {
  }

  lemma FloorPlusOne(x: real)
    ensures (x + 1.0).Floor == x.Floor + 1
  {
  }

  type Usage = map<string, real>

  function Used(usage: Usage, name: string): real {
    if name in usage then usage[name] else 0.0
  }

  ghost function Credits(names: seq<string>, total: real, w: real, usage: Usage): nat
    requires w > 0.0
  {
    if |names| == 0 then 0
    else Credits(names[..|names| - 1], total, w, usage) + Credit(total, w, Used(usage, names[|names| - 1]))
  }

  ghost predicate Grew(u: Usage, v: Usage) {
    forall n :: Used(u, n) <= Used(v, n)
  }

  lemma {:induction false} CreditsMonotone(names: seq<string>, total: real, w: real, u: Usage, v: Usage)
    requires w > 0.0 && Grew(u, v)
    ensures Credits(names, total, w, v) <= Credits(names, total, w, u)
  {
    if |names| > 0 {
      CreditsMonotone(names[..|names| - 1], total, w, u, v);
      CreditMonotone(total, w, Used(u, names[|names| - 1]), Used(v, names[|names| - 1]));
    }
  }

  lemma {:induction false} CreditsDrop(names: seq<string>, total: real, w: real, u: Usage, v: Usage, n: string)
    requires w > 0.0 && Grew(u, v)
    requires n in names && Used(u, n) < total && Used(u, n) + w <= Used(v, n)
    ensures Credits(names, total, w, v) < Credits(names, total, w, u)
  {
    hide Credit;
    var front, last := names[..|names| - 1], names[|names| - 1];
    if n == last {
      CreditsMonotone(front, total, w, u, v);
      CreditDrops(total, w, Used(u, last), Used(v, last));
    } else {
      assert n in front;
      CreditsDrop(front, total, w, u, v, n);
      CreditMonotone(total, w, Used(u, last), Used(v, last));
    }
  }

  lemma {:induction false} CreditsBound(names: seq<string>, total: real, w: real, usage: Usage)
    requires w > 0.0 && forall n :: n in usage ==> usage[n] >= 0.0
    ensures Credits(names, total, w, usage) <= |names| * Credit(total, w, 0.0)
  {
    hide Credit;
    if |names| > 0 {
      CreditsBound(names[..|names| - 1], total, w, usage);
      CreditMonotone(total, w, 0.0, Used(usage, names[|names| - 1]));
    }
  }
}
