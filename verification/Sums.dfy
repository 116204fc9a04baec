/** Sums of a measure over a sequence of processes, and counting by distinct indices. */
module Sums {

  ghost function Sum<T>(ws: seq<T>, f: T -> int): int
    decreases |ws|
  {
    if ws == [] then 0 else f(ws[0]) + Sum(ws[1..], f)
  }

  lemma {:induction false} SumUpdate<T>(ws: seq<T>, f: T -> int, w: nat, v: T)
    requires w < |ws|
    ensures Sum(ws[w := v], f) == Sum(ws, f) - f(ws[w]) + f(v)
    decreases |ws|
  {
    if w > 0 {
      SumUpdate(ws[1..], f, w - 1, v);
      assert ws[w := v][1..] == ws[1..][w - 1 := v];
    } else {
      assert ws[w := v][1..] == ws[1..];
    }
  }

  lemma {:induction false} SumAtLeast<T(!new)>(ws: seq<T>, f: T -> int, w: nat)
    requires w < |ws| && forall v :: f(v) >= 0
    ensures Sum(ws, f) >= f(ws[w]) && Sum(ws, f) >= 0
    decreases |ws|
  {
    SumNatural(ws[1..], f);
    if w > 0 {
      SumAtLeast(ws[1..], f, w - 1);
    }
  }

  lemma {:induction false} SumNatural<T(!new)>(ws: seq<T>, f: T -> int)
    requires forall v :: f(v) >= 0
    ensures Sum(ws, f) >= 0
    decreases |ws|
  {
    if ws != [] {
      SumNatural(ws[1..], f);
    }
  }

  lemma {:induction false} SumOfEach<T>(ws: seq<T>, f: T -> int)
    requires forall w | w in ws :: f(w) == 0
    ensures Sum(ws, f) == 0
    decreases |ws|
  {
    if ws != [] {
      SumOfEach(ws[1..], f);
    }
  }

  ghost predicate AllDistinct(q: seq<int>) {
    forall a, b | 0 <= a < b < |q| :: q[a] != q[b]
  }

  /** A list of distinct positions that each weigh at least one weighs no more than the whole. */
  lemma {:induction false} SumCountsDistinct<T(!new)>(ws: seq<T>, f: T -> int, q: seq<int>, zero: T)
    requires AllDistinct(q) && f(zero) == 0 && forall v :: f(v) >= 0
    requires forall a | 0 <= a < |q| :: 0 <= q[a] < |ws| && f(ws[q[a]]) >= 1
    ensures Sum(ws, f) >= |q|
    decreases |q|
  {
    if q == [] {
      SumNatural(ws, f);
    } else {
      SumUpdate(ws, f, q[0], zero);
      SumCountsDistinct(ws[q[0] := zero], f, q[1..], zero);
    }
  }

  ghost function Below(bound: nat): (s: set<int>)
    ensures forall x :: x in s <==> 0 <= x < bound
    ensures |s| == bound
  {
    if bound == 0 then {} else Below(bound - 1) + {bound - 1}
  }

  /** Distinct naturals below a bound, none of them in `used`, leave room for `used`. */
  lemma {:induction false} DistinctBelow(q: seq<int>, bound: nat, used: set<int>)
    requires AllDistinct(q)
    requires forall a | 0 <= a < |q| :: 0 <= q[a] < bound && q[a] !in used
    requires forall x | x in used :: 0 <= x < bound
    ensures |q| + |used| <= bound
    decreases |q|
  {
    if q == [] {
      var all := Below(bound);
      assert all == used + (all - used);
    } else {
      DistinctBelow(q[1..], bound, used + {q[0]});
    }
  }
}
