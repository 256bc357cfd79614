/** Importing the accountant's C++ ClassAdLog journal. Records are taken as parsed. */
module Journal {
  import opened Options

  /** A scalar; a float that is not finite cannot be written to the native log. */
  datatype Value = Int(i: int) | Float(f: real) | NotFinite | Str(s: string)

  type Attrs = map<string, Value>
  type Ads = map<string, Attrs>

  /** A mutation of the journal; an undefined value sets nothing. */
  datatype Mutation =
    | NewAd(key: string)
    | Destroy(key: string)
    | SetAttr(key: string, attr: string, value: Option<Value>)
    | DeleteAttr(key: string, attr: string)

  /** One line of the journal. A bad one cannot be parsed, or is longer than the reader takes. */
  datatype Line = Begin | End | SeqNum | Bad(tooLong: bool) | Mut(m: Mutation)

  function ApplyMut(ads: Ads, m: Mutation): Ads {
    match m
    case NewAd(k) => if k in ads then ads else ads[k := map[]]
    case Destroy(k) => ads - {k}
    case SetAttr(k, a, v) =>
      var attrs := if k in ads then ads[k] else map[];
      ads[k := if v.Some? then attrs[a := v.value] else attrs]
    case DeleteAttr(k, a) => if k in ads then ads[k := ads[k] - {a}] else ads
  }

  /** The state after a sequence of mutations. */
  ghost function State(ms: seq<Mutation>): Ads {
    if |ms| == 0 then map[] else ApplyMut(State(ms[..|ms| - 1]), ms[|ms| - 1])
  }

  /** All mutations of a journal, committed or not. */
  ghost function Muts(log: seq<Line>): seq<Mutation> {
    if |log| == 0 then []
    else
      var last := log[|log| - 1];
      Muts(log[..|log| - 1]) + if last.Mut? then [last.m] else []
  }

  /** Position `n` is inside a transaction: one began and has not ended since. */
  ghost predicate InTxn(log: seq<Line>, n: nat)
    requires n <= |log|
  {
    exists b :: 0 <= b < n && log[b].Begin? && NoEnd(log, b, n)
  }

  ghost predicate NoEnd(log: seq<Line>, b: nat, n: nat)
    requires b <= n <= |log|
  {
    forall j :: b <= j < n ==> !log[j].End?
  }

  /** The part in front of the first unreadable line. */
  ghost predicate IsReadable(log: seq<Line>, n: nat) {
    n <= |log| && (forall j :: 0 <= j < n ==> !log[j].Bad?) && (n < |log| ==> log[n].Bad?)
  }

  /** The length of the readable part. */
  ghost function Readable(log: seq<Line>): (n: nat)
    ensures IsReadable(log, n)
  {
    if |log| == 0 || log[0].Bad? then 0 else 1 + Readable(log[1..])
  }

  /** The first line that cannot be read is one the reader does not take. */
  ghost predicate Overlong(log: seq<Line>) {
    Readable(log) < |log| && log[Readable(log)].tooLong
  }

  /** The last boundary at or before `n`. */
  ghost function BoundaryBefore(log: seq<Line>, n: nat): (c: nat)
    requires n <= |log|
    ensures c <= n && !InTxn(log, c) && forall d :: c < d <= n ==> InTxn(log, d)
  {
    if !InTxn(log, n) then n else BoundaryBefore(log, n - 1)
  }

  /** What a journal holds: the state at the last commit boundary of its readable part. */
  ghost function Committed(log: seq<Line>): Ads {
    State(Muts(log[..BoundaryBefore(log, Readable(log))]))
  }

  lemma MutsStep(log: seq<Line>, n: nat)
    requires n < |log|
    ensures Muts(log[..n + 1]) == Muts(log[..n]) + if log[n].Mut? then [log[n].m] else []
  {
    assert log[..n + 1][..n] == log[..n];
  }

  lemma StateStep(ms: seq<Mutation>, m: Mutation)
    ensures State(ms + [m]) == ApplyMut(State(ms), m)
  {
    assert (ms + [m])[..|ms|] == ms;
  }

  /** Where the reader stands after `n` lines: outside a transaction everything so far is applied; inside, only what
      precedes the transaction, and the rest is pending. */
  ghost predicate Reading(log: seq<Line>, n: nat, ads: Ads, inTxn: bool, pending: seq<Mutation>, b: nat)
    requires n <= |log|
  {
    && b <= n && !InTxn(log, b) && ads == State(Muts(log[..b])) && Muts(log[..n]) == Muts(log[..b]) + pending
    && (if inTxn then b < n && log[b].Begin? && NoEnd(log, b, n) else b == n)
  }

  lemma ReadStart(log: seq<Line>)
    ensures Reading(log, 0, map[], false, [], 0)
  {
    assert log[..0] == [];
  }

  /** A line that changes nothing, or joins the open transaction. */
  lemma ReadInside(log: seq<Line>, n: nat, ads: Ads, pending: seq<Mutation>, b: nat, next: seq<Mutation>)
    requires n < |log| && Reading(log, n, ads, true, pending, b) && !log[n].End?
    requires next == pending + if log[n].Mut? then [log[n].m] else []
    ensures Reading(log, n + 1, ads, true, next, b)
  {
    hide State, Muts;
    MutsStep(log, n);
  }

  lemma ReadOutside(log: seq<Line>, n: nat, ads: Ads, next: Ads)
    requires n < |log| && Reading(log, n, ads, false, [], n) && !log[n].Begin?
    requires next == if log[n].Mut? then ApplyMut(ads, log[n].m) else ads
    ensures Reading(log, n + 1, next, false, [], n + 1)
  {
    hide State, Muts, ApplyMut;
    MutsStep(log, n);
    if log[n].Mut? {
      StateStep(Muts(log[..n]), log[n].m);
    }
    StillOutside(log, n);
  }

  lemma StillOutside(log: seq<Line>, n: nat)
    requires n < |log| && !InTxn(log, n) && !log[n].Begin?
    ensures !InTxn(log, n + 1)
  {
    if b :| 0 <= b < n + 1 && log[b].Begin? && NoEnd(log, b, n + 1) {
      assert NoEnd(log, b, n);
    }
  }

  lemma JustEnded(log: seq<Line>, n: nat)
    requires n < |log| && log[n].End?
    ensures !InTxn(log, n + 1)
  {
  }

  lemma ReadBegin(log: seq<Line>, n: nat, ads: Ads)
    requires n < |log| && Reading(log, n, ads, false, [], n) && log[n].Begin?
    ensures Reading(log, n + 1, ads, true, [], n)
  {
    hide State, Muts;
    MutsStep(log, n);
  }

  lemma ReadEnd(log: seq<Line>, n: nat, ads: Ads, pending: seq<Mutation>, b: nat, next: Ads)
    requires n < |log| && Reading(log, n, ads, true, pending, b) && log[n].End?
    requires next == State(Muts(log[..b]) + pending)
    ensures Reading(log, n + 1, next, false, [], n + 1)
  {
    hide State, Muts;
    MutsStep(log, n);
    JustEnded(log, n);
    assert Muts(log[..n + 1]) == Muts(log[..b]) + pending;
  }

  /** Read a journal. The result is the state at the last commit boundary of its readable part: every mutation up to
      there in order, and nothing of a transaction that was cut off. A line that cannot be parsed ends the reading; one
      that is too long fails it. */
  method ImportLog(log: seq<Line>) returns (ads: Ads, err: bool)
    ensures err <==> Overlong(log)
    ensures !err ==> ads == Committed(log)
  {
    hide State, Muts, ApplyMut, Reading, InTxn;
    ads := map[];
    var inTxn := false;
    var pending: seq<Mutation> := [];
    ghost var b := 0;
    var i := 0;
    ReadStart(log);
    while i < |log| && !log[i].Bad?
      invariant b <= i <= |log| && Reading(log, i, ads, inTxn, pending, b) && (!inTxn ==> pending == [] && b == i)
      invariant forall j :: 0 <= j < i ==> !log[j].Bad?
    {
      match log[i] {
        case Begin =>
          if inTxn { ReadInside(log, i, ads, pending, b, pending); } else { ReadBegin(log, i, ads); }
          inTxn := true;
        case End =>
          if inTxn {
            ghost var start := ads;
            Applied(log, i, ads, pending, b);
            for k := 0 to |pending|
              invariant ads == State(Muts(log[..b]) + pending[..k])
            {
              Extend(Muts(log[..b]), pending, k);
              ads := ApplyMut(ads, pending[k]);
            }
            assert pending[..|pending|] == pending;
            ReadEnd(log, i, start, pending, b, ads);
          } else {
            ReadOutside(log, i, ads, ads);
          }
          pending, inTxn, b := [], false, i + 1;
        case Mut(m) =>
          if inTxn {
            ReadInside(log, i, ads, pending, b, pending + [m]);
            pending := pending + [m];
          } else {
            ReadOutside(log, i, ads, ApplyMut(ads, m));
            ads, b := ApplyMut(ads, m), i + 1;
          }
        case SeqNum =>
          if inTxn { ReadInside(log, i, ads, pending, b, pending); } else { ReadOutside(log, i, ads, ads); b := i + 1; }
      }
      i := i + 1;
    }
    Finish(log, i, ads, inTxn, pending, b);
    err := i < |log| && log[i].tooLong;
    if err {
      ads := map[];
    }
  }

  lemma Applied(log: seq<Line>, n: nat, ads: Ads, pending: seq<Mutation>, b: nat)
    requires n <= |log| && Reading(log, n, ads, true, pending, b)
    ensures ads == State(Muts(log[..b]) + pending[..0])
  {
    assert Muts(log[..b]) + pending[..0] == Muts(log[..b]);
  }

  lemma Extend(ms: seq<Mutation>, pending: seq<Mutation>, k: nat)
    requires k < |pending|
    ensures State(ms + pending[..k + 1]) == ApplyMut(State(ms + pending[..k]), pending[k])
  {
    assert ms + pending[..k + 1] == (ms + pending[..k]) + [pending[k]];
    StateStep(ms + pending[..k], pending[k]);
  }

  lemma Finish(log: seq<Line>, n: nat, ads: Ads, inTxn: bool, pending: seq<Mutation>, b: nat)
    requires n <= |log| && Reading(log, n, ads, inTxn, pending, b) && IsReadable(log, n)
    ensures ads == Committed(log) && n == Readable(log)
  {
    hide State, Muts;
    assert n == Readable(log);
    OneBoundary(log, n, b, BoundaryBefore(log, n), inTxn);
  }

  lemma OneBoundary(log: seq<Line>, n: nat, b: nat, c: nat, inTxn: bool)
    requires b <= n <= |log| && c <= n && !InTxn(log, b) && !InTxn(log, c)
    requires if inTxn then b < n && log[b].Begin? && NoEnd(log, b, n) else b == n
    requires forall d :: c < d <= n ==> InTxn(log, d)
    ensures b == c
  {
    if b < c {
      assert log[b].Begin? && NoEnd(log, b, c);
    }
  }

  /** Wherever inside a transaction the log is cut off, or a line of it cannot be read, what is imported is what was
      there before it began. */
  lemma {:induction false} CutInsideTransaction(log: seq<Line>, b: nat, cut: nat)
    requires b < cut <= |log| && !InTxn(log, b) && log[b].Begin? && NoEnd(log, b, cut)
    ensures Committed(log[..cut]) == Committed(log[..b])
  {
    hide State, Muts, InTxn, Readable;
    var short, long := log[..b], log[..cut];
    var r := Readable(long);
    if r <= b {
      assert IsReadable(short, r);
      SameBoundary(short, long, r);
    } else {
      SameTxn(log, cut, b);
      SameTxn(log, b, b);
      assert Readable(short) == b;
      OneBoundary(long, r, b, BoundaryBefore(long, r), true);
      assert long[..b] == short[..b];
    }
  }

  /** Logs that agree as far as they can be read hold the same. */
  lemma SameBoundary(short: seq<Line>, long: seq<Line>, r: nat)
    requires r <= |short| <= |long| && long[..|short|] == short && IsReadable(short, r) && IsReadable(long, r)
    ensures Committed(short) == Committed(long)
  {
    hide State, Muts, InTxn, Readable;
    assert Readable(short) == r && Readable(long) == r;
    forall d: nat | d <= r ensures InTxn(short, d) <==> InTxn(long, d) {
      SameTxn(long, |short|, d);
    }
    assert BoundaryBefore(short, r) == BoundaryBefore(long, r);
    assert short[..BoundaryBefore(short, r)] == long[..BoundaryBefore(long, r)];
  }

  lemma SameTxn(log: seq<Line>, n: nat, c: nat)
    requires c <= n <= |log|
    ensures InTxn(log[..n], c) <==> InTxn(log, c)
  {
    var read := log[..n];
    if b :| 0 <= b < c && log[b].Begin? && NoEnd(log, b, c) {
      assert read[b].Begin? && NoEnd(read, b, c);
    }
    if b :| 0 <= b < c && read[b].Begin? && NoEnd(read, b, c) {
      assert log[b].Begin? && NoEnd(log, b, c);
    }
  }

  /** A mutation outside any transaction takes effect at once, unless an unreadable line keeps it from being read. */
  lemma {:induction false} BareMutation(log: seq<Line>, m: Mutation)
    requires !InTxn(log, |log|)
    ensures Committed(log + [Mut(m)]) ==
              if exists j :: 0 <= j < |log| && log[j].Bad? then Committed(log) else ApplyMut(Committed(log), m)
  {
    hide State, Muts, ApplyMut, InTxn;
    var next := log + [Mut(m)];
    assert next[..|log|] == log && log[..|log|] == log && next[..|log| + 1] == next;
    if exists j :: 0 <= j < |log| && log[j].Bad? {
      assert IsReadable(next, Readable(log));
      SameBoundary(log, next, Readable(log));
      return;
    }
    SameTxn(next, |log|, |log|);
    StillOutside(next, |log|);
    assert Readable(next) == |log| + 1 && Readable(log) == |log|;
    MutsStep(next, |log|);
    StateStep(Muts(log), m);
  }
}
