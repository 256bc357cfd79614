/** Real numbers that are whole, as slot counts are. */
module Wholes {
  import opened RealSums

  ghost predicate Whole(x: real) {
    x == x.Floor as real
  }

  ghost predicate AllWhole(s: seq<real>) {
    forall j :: 0 <= j < |s| ==> Whole(s[j])
  }

  lemma WholeInt(i: int, x: real)
    requires x == i as real
    ensures Whole(x) && x.Floor == i
  {
  }

  lemma WholeAdd(a: real, b: real)
    requires Whole(a) && Whole(b)
    ensures Whole(a + b) && Whole(a - b)
  {
    WholeInt(a.Floor + b.Floor, a + b);
    WholeInt(a.Floor - b.Floor, a - b);
  }

  lemma WholePositive(a: real)
    requires Whole(a) && a > 0.0
    ensures a >= 1.0
  {
  }

  lemma FloorBetween(x: real, i: int)
    requires i as real <= x < (i + 1) as real
    ensures x.Floor == i
  {
    var f := x.Floor;
    assert f as real <= x < (f + 1) as real;
    assert f + 1 <= i ==> (f + 1) as real <= i as real;
  }

  lemma FloorIsWhole(x: real, w: real)
    requires Whole(w) && 0.0 <= x - w < 1.0
    ensures x.Floor as real == w
  {
    FloorBetween(x, w.Floor);
  }

  lemma FloorAtLeast(x: real, w: real)
    requires Whole(w) && w <= x
    ensures w <= x.Floor as real
  {
  }

  lemma FloorDrops(a: real, b: real)
    requires b <= a - 1.0
    ensures b.Floor < a.Floor
  {
  }

  lemma {:induction false} WholeSum(s: seq<real>)
    requires AllWhole(s)
    ensures Whole(Sum(s))
  {
    hide Whole;
    if |s| == 0 {
      WholeInt(0, Sum(s));
    } else {
      WholeSum(s[..|s| - 1]);
      WholeAdd(Sum(s[..|s| - 1]), s[|s| - 1]);
    }
  }
}
