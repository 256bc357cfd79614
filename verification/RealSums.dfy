/** Sums of real sequences and the few nonlinear facts the allocators rest on. */
module RealSums {
  function PowerOfTwo(n: nat): real {
    if n == 0 then 1.0 else 2.0 * PowerOfTwo(n - 1)
  }

  /** math.MaxFloat64, the largest finite float64. */
  const MAX_FLOAT64: real := 9007199254740991.0 * PowerOfTwo(971)

  function Min(x: real, y: real): real {
    if x <= y then x else y
  }

  function Max(x: real, y: real): real {
    if x <= y then y else x
  }

  ghost function Sum(s: seq<real>): real {
    if |s| == 0 then 0.0 else Sum(s[..|s| - 1]) + s[|s| - 1]
  }

  lemma SumEmpty()
    ensures Sum([]) == 0.0
  {
  }

  /** A loop that has consumed `k` elements extends its running sum by one element. */
  lemma SumPrefix(s: seq<real>, k: nat)
    requires k < |s|
    ensures Sum(s[..k + 1]) == Sum(s[..k]) + s[k]
    ensures k + 1 == |s| ==> Sum(s) == Sum(s[..k]) + s[k]
  {
    assert s[..k + 1][..k] == s[..k];
  }

  lemma {:induction false} SumPointwiseAdd(a: seq<real>, b: seq<real>, c: seq<real>)
    requires |a| == |b| == |c|
    requires forall j :: 0 <= j < |a| ==> c[j] == a[j] + b[j]
    ensures Sum(c) == Sum(a) + Sum(b)
  {
    var n := |a|;
    if n > 0 {
      SumPointwiseAdd(a[..n - 1], b[..n - 1], c[..n - 1]);
    }
  }

  lemma {:induction false} SumMonotone(a: seq<real>, b: seq<real>)
    requires |a| == |b|
    requires forall j :: 0 <= j < |a| ==> a[j] <= b[j]
    ensures Sum(a) <= Sum(b)
  {
    var n := |a|;
    if n > 0 {
      SumMonotone(a[..n - 1], b[..n - 1]);
    }
  }

  /** Equal totals and pointwise order leave no room for a difference. */
  lemma {:induction false} SumSqueeze(a: seq<real>, b: seq<real>, j: nat)
    requires |a| == |b| && j < |a|
    requires forall i :: 0 <= i < |a| ==> a[i] <= b[i]
    requires Sum(a) >= Sum(b)
    ensures a[j] == b[j]
  {
    var n := |a|;
    SumMonotone(a[..n - 1], b[..n - 1]);
    if j < n - 1 {
      SumSqueeze(a[..n - 1], b[..n - 1], j);
    }
  }

  lemma {:induction false} SumNonneg(a: seq<real>)
    requires forall j :: 0 <= j < |a| ==> a[j] >= 0.0
    ensures Sum(a) >= 0.0
    ensures forall j :: 0 <= j < |a| ==> a[j] <= Sum(a)
  {
    var n := |a|;
    if n > 0 {
      SumNonneg(a[..n - 1]);
      forall j | 0 <= j < n ensures a[j] <= Sum(a) {
        if j < n - 1 { assert a[j] == a[..n - 1][j]; }
      }
    }
  }

  lemma {:induction false} SumNonpos(a: seq<real>)
    requires forall j :: 0 <= j < |a| ==> a[j] <= 0.0
    ensures Sum(a) <= 0.0
  {
    if |a| > 0 {
      SumNonpos(a[..|a| - 1]);
    }
  }

  /** Every element times `d`. Recursive rather than a comprehension, so that proofs meet a product
      only where they ask for one with ScaledAt. */
  ghost function Scaled(a: seq<real>, d: real): (b: seq<real>)
    ensures |b| == |a|
  {
    if |a| == 0 then [] else Scaled(a[..|a| - 1], d) + [d * a[|a| - 1]]
  }

  lemma {:induction false} ScaledAt(a: seq<real>, d: real, j: nat)
    requires j < |a|
    ensures Scaled(a, d)[j] == d * a[j]
  {
    if j < |a| - 1 {
      ScaledAt(a[..|a| - 1], d, j);
    }
  }

  lemma {:induction false} ScaledSum(a: seq<real>, d: real)
    ensures Sum(Scaled(a, d)) == d * Sum(a)
  {
    hide Sum, Scaled;
    if |a| == 0 {
      NothingScaled(a, d);
    } else {
      var front := a[..|a| - 1];
      ScaledSum(front, d);
      ScaledLast(a, d);
      ProductOfSum(d, Sum(front), a[|a| - 1], Sum(a), Sum(Scaled(front, d)), Sum(Scaled(a, d)));
    }
  }

  lemma NothingScaled(a: seq<real>, d: real)
    requires |a| == 0
    ensures Sum(Scaled(a, d)) == Sum(a) == 0.0
  {
  }

  lemma ScaledLast(a: seq<real>, d: real)
    requires |a| > 0
    ensures Sum(a) == Sum(a[..|a| - 1]) + a[|a| - 1]
    ensures Sum(Scaled(a, d)) == Sum(Scaled(a[..|a| - 1], d)) + d * a[|a| - 1]
  {
    assert Scaled(a, d)[..|a| - 1] == Scaled(a[..|a| - 1], d);
  }

  lemma ProductOfSum(d: real, x: real, y: real, xy: real, dx: real, dxy: real)
    requires xy == x + y && dx == d * x && dxy == dx + d * y
    ensures dxy == d * xy
  {
  }

  lemma ScaledNonneg(a: seq<real>, d: real)
    requires forall j :: 0 <= j < |a| ==> a[j] >= 0.0
    requires d >= 0.0
    ensures forall j :: 0 <= j < |a| ==> Scaled(a, d)[j] >= 0.0
  {
    forall j | 0 <= j < |a| ensures Scaled(a, d)[j] >= 0.0 {
      ScaledAt(a, d, j);
      ProductNonneg(d, a[j]);
    }
  }

  lemma ScaledMonotone(a: seq<real>, d: real, e: real)
    requires forall j :: 0 <= j < |a| ==> a[j] >= 0.0
    requires d <= e
    ensures forall j :: 0 <= j < |a| ==> Scaled(a, d)[j] <= Scaled(a, e)[j]
  {
    forall j | 0 <= j < |a| ensures Scaled(a, d)[j] <= Scaled(a, e)[j] {
      ScaledAt(a, d, j);
      ScaledAt(a, e, j);
      ProductMonotone(d, e, a[j]);
    }
  }

  lemma ScaledAdd(a: seq<real>, d: real, e: real)
    ensures forall j :: 0 <= j < |a| ==> Scaled(a, d + e)[j] == Scaled(a, d)[j] + Scaled(a, e)[j]
  {
    forall j | 0 <= j < |a| ensures Scaled(a, d + e)[j] == Scaled(a, d)[j] + Scaled(a, e)[j] {
      ScaledAt(a, d, j);
      ScaledAt(a, e, j);
      ScaledAt(a, d + e, j);
      assert (d + e) * a[j] == d * a[j] + e * a[j];
    }
  }

  lemma {:induction false} SumUpdate(s: seq<real>, j: nat, x: real)
    requires j < |s|
    ensures Sum(s[j := x]) == Sum(s) - s[j] + x
  {
    var n := |s|;
    if j < n - 1 {
      SumUpdate(s[..n - 1], j, x);
      assert s[j := x][..n - 1] == s[..n - 1][j := x];
    } else {
      assert s[j := x][..n - 1] == s[..n - 1];
    }
  }

  lemma SumAppend(a: seq<real>, x: real)
    ensures Sum(a + [x]) == Sum(a) + x
  {
    assert (a + [x])[..|a|] == a;
  }

  /** surplus * (weight / total) is one rate times the weight. */
  lemma ShareIsRate(s: real, n: real, z: real)
    requires z > 0.0
    ensures s * (n / z) == (s / z) * n
  {
    assert s * (n / z) == s * n / z;
    assert (s / z) * n == s * n / z;
  }

  lemma RateTimesTotal(s: real, z: real)
    requires z > 0.0
    ensures (s / z) * z == s
  {
  }

  lemma ProductNonneg(x: real, y: real)
    requires x >= 0.0 && y >= 0.0
    ensures x * y >= 0.0
  {
  }

  lemma ProductPositive(x: real, y: real)
    requires x > 0.0 && y > 0.0
    ensures x * y > 0.0
  {
  }

  lemma QuotientPositive(x: real, y: real)
    requires x > 0.0 && y > 0.0
    ensures x / y > 0.0
  {
  }

  lemma QuotientNonneg(x: real, y: real)
    requires x >= 0.0 && y > 0.0
    ensures x / y >= 0.0
  {
  }

  lemma QuotientMonotone(x: real, y: real, w: real)
    requires x <= y && w > 0.0
    ensures x / w <= y / w
  {
  }

  lemma FloorMonotone(x: real, y: real)
    requires x <= y
    ensures x.Floor <= y.Floor
  {
  }

  lemma ProductMonotone(x: real, y: real, w: real)
    requires x <= y && w >= 0.0
    ensures x * w <= y * w
  {
    assert (y - x) * w >= 0.0;
  }
}
