/** Finding the best candidate slot for one request: the candidate order, the per-candidate pipeline, and
    the serial and sharded scans. */
module Matchmaking {
  import opened Options

  /** A matchable slot with its rank tuple. */
  datatype Candidate = Candidate(
    slot: nat,
    preJobRank: real,
    rank: real,
    postJobRank: real,
    preemptTier: int,
    preemptRank: real,
    scanIndex: int)

  /** More is better, field by field; equal tuples go to the candidate seen first. */
  predicate Better(c: Candidate, o: Candidate) {
    if c.preJobRank != o.preJobRank then c.preJobRank > o.preJobRank
    else if c.rank != o.rank then c.rank > o.rank
    else if c.postJobRank != o.postJobRank then c.postJobRank > o.postJobRank
    else if c.preemptTier != o.preemptTier then c.preemptTier > o.preemptTier
    else if c.preemptRank != o.preemptRank then c.preemptRank > o.preemptRank
    else c.scanIndex < o.scanIndex
  }

  lemma BetterIsStrictOrder(a: Candidate, b: Candidate, c: Candidate)
    ensures !Better(a, a)
    ensures Better(a, b) ==> !Better(b, a)
    ensures Better(a, b) && Better(b, c) ==> Better(a, c)
    ensures a.scanIndex != b.scanIndex ==> Better(a, b) || Better(b, a)
  {
  }

  const PRIO_PREEMPTION := 0
  const RANK_PREEMPTION := 1
  const NO_PREEMPTION := 2

  /** -math.MaxFloat32, the preemption rank of a match that preempts nobody. */
  const PREEMPT_RANK_DEFAULT := -340282346638528859811704183484516925440.0

  /** One live slot, with what its ad and the request's ad evaluate to against each other. */
  datatype Offer = Offer(
    idx: int,
    slot: nat,
    requirements: bool,      // both Requirements expressions hold
    overLimit: bool,         // the request's ConcurrencyLimits, evaluated against this slot, exceed a maximum
    remoteUser: string,      // "" when unclaimed
    prefersStrictly: bool,   // MY.Rank > MY.CurrentRank
    prefersWeakly: bool,     // MY.Rank >= MY.CurrentRank
    preemptionAllowed: bool, // PREEMPTION_REQUIREMENTS
    weight: real,
    preJobRank: real,
    rank: real,
    postJobRank: real,
    preemptionRank: real)

  datatype Config = Config(considerPreemption: bool, hasPreemptionRequirements: bool)

  datatype Limits = Limits(
    submitterLimit: real,
    limitUsed: real,
    submitterLimitUnclaimed: real,
    limitUsedUnclaimed: real,
    onlyForStartdRank: bool,
    submitterName: string)

  datatype Counters = Counters(submitterLimit: nat, preemptPolicy: nat, preemptRank: nat, concurrency: nat)

  const NONE := Counters(0, 0, 0, 0)

  function Plus(a: Counters, b: Counters): Counters {
    Counters(a.submitterLimit + b.submitterLimit, a.preemptPolicy + b.preemptPolicy,
             a.preemptRank + b.preemptRank, a.concurrency + b.concurrency)
  }

  /** The match stays within the limit, or nothing is used yet and some share is left: then one slot may go over. */
  predicate SubmitterLimitPermits(used: real, allowed: real, cost: real) {
    used + cost <= allowed || (used <= 0.0 && allowed > 0.0)
  }

  /** The outcome of one stage of the pipeline: go on, or drop the candidate and count why. */
  datatype Outcome<T> = Pass(value: T) | Drop(why: Counters)

  function ClassifyPreemption(cfg: Config, o: Offer, limits: Limits): Outcome<int> {
    if limits.onlyForStartdRank then
      if o.remoteUser == "" || !o.prefersStrictly then Drop(NONE) else Pass(RANK_PREEMPTION)
    else if o.remoteUser == "" then Pass(NO_PREEMPTION)
    else if o.prefersStrictly then Pass(RANK_PREEMPTION)
    else if o.remoteUser == limits.submitterName then Drop(NONE)
    else if cfg.hasPreemptionRequirements && !o.preemptionAllowed then Drop(NONE.(preemptPolicy := 1))
    else if !o.prefersWeakly then Drop(NONE.(preemptRank := 1))
    else Pass(PRIO_PREEMPTION)
  }

  predicate SubmitterLimitGate(cfg: Config, tier: int, limits: Limits, cost: real) {
    if !cfg.considerPreemption then SubmitterLimitPermits(limits.limitUsed, limits.submitterLimit, cost)
    else if tier == RANK_PREEMPTION then true
    else if tier == PRIO_PREEMPTION then SubmitterLimitPermits(limits.limitUsed, limits.submitterLimit, cost)
    else SubmitterLimitPermits(limits.limitUsedUnclaimed, limits.submitterLimitUnclaimed, cost)
  }

  /** The full pipeline for one offer. */
  function EvalCandidate(cfg: Config, o: Offer, limits: Limits, matchConc: bool): Outcome<Candidate> {
    if !o.requirements then Drop(NONE)
    else if matchConc && o.overLimit then Drop(NONE.(concurrency := 1))
    else
      var classified := if cfg.considerPreemption then ClassifyPreemption(cfg, o, limits) else Pass(NO_PREEMPTION);
      match classified
      case Drop(why) => Drop(why)
      case Pass(tier) =>
        if !SubmitterLimitGate(cfg, tier, limits, o.weight) then Drop(NONE.(submitterLimit := 1))
        else
          Pass(Candidate(o.slot, o.preJobRank, o.rank, o.postJobRank, tier,
                         if tier != NO_PREEMPTION then o.preemptionRank else PREEMPT_RANK_DEFAULT, o.idx))
  }

  /** With preemption off, a matched slot passed the submitter-limit gate and preempts nobody. */
  lemma MatchedWithinLimit(cfg: Config, o: Offer, limits: Limits, matchConc: bool)
    requires !cfg.considerPreemption && EvalCandidate(cfg, o, limits, matchConc).Pass?
    ensures SubmitterLimitPermits(limits.limitUsed, limits.submitterLimit, o.weight)
    ensures EvalCandidate(cfg, o, limits, matchConc).value.preemptTier == NO_PREEMPTION
  {
  }

  /** The inputs of one scan that do not vary from candidate to candidate. */
  datatype Scan = Scan(cfg: Config, limits: Limits, matchConc: bool) {
    function Eval(o: Offer): (r: Outcome<Candidate>)
      ensures r.Pass? ==> r.value.scanIndex == o.idx && r.value.slot == o.slot
    {
      EvalCandidate(cfg, o, limits, matchConc)
    }
  }

  // ----- what a scan is for -----

  /** `b` is the match of some offer, and beats or is the match of every other. */
  ghost predicate Wins(s: Scan, cands: seq<Offer>, b: Candidate) {
    && (exists i :: 0 <= i < |cands| && s.Eval(cands[i]) == Pass(b))
    && forall i :: 0 <= i < |cands| && s.Eval(cands[i]).Pass? ==>
         s.Eval(cands[i]).value == b || Better(b, s.Eval(cands[i]).value)
  }

  ghost predicate IsBest(s: Scan, cands: seq<Offer>, best: Option<Candidate>) {
    match best
    case None => forall i :: 0 <= i < |cands| ==> s.Eval(cands[i]).Drop?
    case Some(b) => Wins(s, cands, b)
  }

  ghost function Rejections(s: Scan, cands: seq<Offer>): Counters {
    if |cands| == 0 then NONE
    else
      var last := s.Eval(cands[|cands| - 1]);
      Plus(Rejections(s, cands[..|cands| - 1]), if last.Drop? then last.why else NONE)
  }

  /** There is only one best candidate. */
  lemma BestIsUnique(s: Scan, cands: seq<Offer>, a: Option<Candidate>, b: Option<Candidate>)
    requires IsBest(s, cands, a) && IsBest(s, cands, b)
    ensures a == b
  {
    if a.Some? && b.Some? && a != b {
      BetterIsStrictOrder(a.value, b.value, a.value);
    }
  }

  lemma {:induction false} RejectionsConcat(s: Scan, xs: seq<Offer>, ys: seq<Offer>)
    ensures Rejections(s, xs + ys) == Plus(Rejections(s, xs), Rejections(s, ys))
  {
    hide EvalCandidate, Rejections;
    if |ys| == 0 {
      assert ys == [] && xs + ys == xs;
      NothingScanned(s);
    } else {
      var front, last := ys[..|ys| - 1], ys[|ys| - 1];
      RejectionsConcat(s, xs, front);
      assert ys == front + [last] && xs + ys == (xs + front) + [last];
      RejectionsSnoc(s, front, last);
      RejectionsSnoc(s, xs + front, last);
    }
  }

  lemma RejectionsSnoc(s: Scan, xs: seq<Offer>, o: Offer)
    ensures Rejections(s, xs + [o]) == Plus(Rejections(s, xs), if s.Eval(o).Drop? then s.Eval(o).why else NONE)
  {
    hide EvalCandidate;
    assert (xs + [o])[..|xs|] == xs;
  }

  /** The better of two winners. */
  ghost function BetterOf(a: Option<Candidate>, b: Option<Candidate>): Option<Candidate> {
    if b.None? then a else if a.None? || Better(b.value, a.value) then b else a
  }

  lemma BestOfBoth(s: Scan, xs: seq<Offer>, ys: seq<Offer>, a: Option<Candidate>, b: Option<Candidate>)
    requires DistinctIndices(xs + ys)
    requires IsBest(s, xs, a) && IsBest(s, ys, b)
    ensures IsBest(s, xs + ys, BetterOf(a, b))
  {
    hide EvalCandidate;
    var all, best := xs + ys, BetterOf(a, b);
    forall i | 0 <= i < |all|
      ensures best.None? ==> s.Eval(all[i]).Drop?
      ensures best.Some? && s.Eval(all[i]).Pass? ==>
                s.Eval(all[i]).value == best.value || Better(best.value, s.Eval(all[i]).value)
    {
      assert all[i] == if i < |xs| then xs[i] else ys[i - |xs|];
      if a.Some? && b.Some? && s.Eval(all[i]).Pass? {
        BetterIsStrictOrder(a.value, b.value, s.Eval(all[i]).value);
        BetterIsStrictOrder(b.value, a.value, s.Eval(all[i]).value);
        var p :| 0 <= p < |xs| && s.Eval(xs[p]) == Pass(a.value);
        var q :| 0 <= q < |ys| && s.Eval(ys[q]) == Pass(b.value);
        assert all[p] == xs[p] && all[|xs| + q] == ys[q];
      }
    }
    if best.Some? {
      if best == a {
        var p :| 0 <= p < |xs| && s.Eval(xs[p]) == Pass(a.value);
        assert all[p] == xs[p];
      } else {
        var q :| 0 <= q < |ys| && s.Eval(ys[q]) == Pass(b.value);
        assert all[|xs| + q] == ys[q];
      }
    }
  }

  ghost predicate DistinctIndices(cands: seq<Offer>) {
    forall i, j :: 0 <= i < j < |cands| ==> cands[i].idx != cands[j].idx
  }

  // ----- the scans -----

  /** Evaluate a contiguous range, keeping the running best and the reject counters. */
  method ScanRange(s: Scan, cands: seq<Offer>) returns (best: Option<Candidate>, rej: Counters)
    requires DistinctIndices(cands)
    ensures IsBest(s, cands, best)
    ensures rej == Rejections(s, cands)
  {
    hide EvalCandidate, IsBest, Rejections;
    best, rej := None, NONE;
    NothingScanned(s);
    assert cands[..0] == [];
    for i := 0 to |cands|
      invariant IsBest(s, cands[..i], best)
      invariant rej == Rejections(s, cands[..i])
    {
      ghost var before := best;
      assert cands[..i + 1] == cands[..i] + [cands[i]];
      RejectionsSnoc(s, cands[..i], cands[i]);
      match s.Eval(cands[i]) {
        case Drop(why) =>
          rej := Plus(rej, why);
        case Pass(cand) =>
          if best.None? || Better(cand, best.value) {
            best := Some(cand);
          }
      }
      BestOfOne(s, cands[i]);
      BestOfBoth(s, cands[..i], [cands[i]], before, MatchOf(s, cands[i]));
    }
    assert cands[..|cands|] == cands;
  }

  ghost function MatchOf(s: Scan, o: Offer): Option<Candidate> {
    match s.Eval(o) case Drop(_) => None case Pass(cand) => Some(cand)
  }

  lemma BestOfOne(s: Scan, o: Offer)
    ensures IsBest(s, [o], MatchOf(s, o))
  {
    hide EvalCandidate;
    if s.Eval(o).Pass? {
      assert s.Eval([o][0]) == Pass(s.Eval(o).value);
    }
  }

  /** Where shard `w` starts when every shard has `base` candidates and the first `extra` one more. */
  ghost function ShardStart(base: nat, extra: nat, w: nat): nat {
    w * base + (if w < extra then w else extra)
  }

  lemma ShardStep(base: nat, extra: nat, w: nat)
    ensures ShardStart(base, extra, 0) == 0
    ensures ShardStart(base, extra, w + 1) == ShardStart(base, extra, w) + base + (if w < extra then 1 else 0)
  {
  }

  lemma {:induction false} ShardsAscend(base: nat, extra: nat, v: nat, w: nat)
    requires v <= w
    ensures ShardStart(base, extra, v) <= ShardStart(base, extra, w)
  {
    hide ShardStart;
    if v < w {
      ShardsAscend(base, extra, v, w - 1);
      ShardStep(base, extra, w - 1);
    }
  }

  /** Balanced shards cover all candidates: n / nw each, and n % nw of them one more. */
  lemma ShardsCover(n: nat, nw: nat)
    requires nw > 0
    ensures ShardStart(n / nw, n % nw, nw) == n
  {
  }

  datatype ShardResult = ShardResult(best: Option<Candidate>, rej: Counters)

  /** Scan every shard of the partition. The shards share nothing, so the order in which the workers run
      does not matter: each leaves its own range's best and counters. */
  method ScanShards(s: Scan, cands: seq<Offer>, nw: nat) returns (results: array<ShardResult>)
    requires DistinctIndices(cands) && nw > 0
    ensures fresh(results) && results.Length == nw
    ensures forall w :: 0 <= w < nw ==> ShardDone(s, cands, |cands| / nw, |cands| % nw, w, results[w])
  {
    hide EvalCandidate, ShardStart, IsBest, Rejections;
    results := new ShardResult[nw](_ => ShardResult(None, NONE));
    var n := |cands|;
    var base, extra, start := n / nw, n % nw, 0;
    ShardsCover(n, nw);
    ShardStep(base, extra, 0);
    for w := 0 to nw
      invariant start == ShardStart(base, extra, w)
      invariant forall v :: 0 <= v < w ==> ShardDone(s, cands, base, extra, v, results[v])
    {
      ShardStep(base, extra, w);
      ShardsAscend(base, extra, w + 1, nw);
      var size := if w < extra then base + 1 else base;
      var lo, hi := start, start + size;
      start := hi;
      var best, rej := ScanRange(s, cands[lo..hi]);
      results[w] := ShardResult(best, rej);
    }
  }

  ghost predicate ShardDone(s: Scan, cands: seq<Offer>, base: nat, extra: nat, w: nat, r: ShardResult) {
    var lo, hi := ShardStart(base, extra, w), ShardStart(base, extra, w + 1);
    && lo <= hi <= |cands|
    && IsBest(s, cands[lo..hi], r.best) && r.rej == Rejections(s, cands[lo..hi])
  }

  /** The sharded scan. Its winner and its counters are those of a serial scan of all candidates,
      whatever the number of workers. */
  method ParallelScan(s: Scan, cands: seq<Offer>, workers: nat) returns (best: Option<Candidate>, rej: Counters)
    requires DistinctIndices(cands)
    ensures IsBest(s, cands, best)
    ensures rej == Rejections(s, cands)
  {
    hide EvalCandidate, Rejections, IsBest, ShardStart;
    var n := |cands|;
    if n == 0 {
      best, rej := ScanRange(s, cands);
      return;
    }
    var nw := if workers > n then n else workers;
    if nw <= 1 {
      best, rej := ScanRange(s, cands);
      return;
    }
    var results := ScanShards(s, cands, nw);
    best, rej := None, NONE;
    ghost var base, extra := n / nw, n % nw;
    ShardsCover(n, nw);
    ShardStep(base, extra, 0);
    NothingScanned(s);
    assert cands[..0] == [];
    for w := 0 to nw
      invariant 0 <= ShardStart(base, extra, w) <= n
      invariant forall v :: 0 <= v < nw ==> ShardDone(s, cands, base, extra, v, results[v])
      invariant IsBest(s, cands[..ShardStart(base, extra, w)], best)
      invariant rej == Rejections(s, cands[..ShardStart(base, extra, w)])
    {
      ghost var lo, hi := ShardStart(base, extra, w), ShardStart(base, extra, w + 1);
      assert ShardDone(s, cands, base, extra, w, results[w]);
      assert cands[..hi] == cands[..lo] + cands[lo..hi];
      RejectionsConcat(s, cands[..lo], cands[lo..hi]);
      BestOfBoth(s, cands[..lo], cands[lo..hi], best, results[w].best);
      rej := Plus(rej, results[w].rej);
      if results[w].best.Some? {
        if best.None? || Better(results[w].best.value, best.value) {
          best := results[w].best;
        }
      }
    }
    assert cands[..n] == cands;
  }

  lemma NothingScanned(s: Scan)
    ensures IsBest(s, [], None) && Rejections(s, []) == NONE
  {
  }
}
