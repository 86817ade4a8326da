/** Sorting latencies and the interpolated percentile every tool shares. */
module OrderStatistics {
  import opened Sequences

  predicate IsSorted(s: seq<real>) {
    forall i, j :: 0 <= i < j < |s| ==> s[i] <= s[j]
  }

  function Insert(x: real, s: seq<real>): (r: seq<real>)
    ensures |r| == |s| + 1
  {
    if s == [] || x <= s[0] then [x] + s else [s[0]] + Insert(x, s[1..])
  }

  function Sorted(s: seq<real>): (r: seq<real>)
    ensures |r| == |s|
  {
    if s == [] then [] else Insert(s[0], Sorted(s[1..]))
  }

  lemma {:induction false} InsertPermutes(x: real, s: seq<real>)
    ensures multiset(Insert(x, s)) == multiset(s) + multiset{x}
  {
    if s == [] || x <= s[0] {
      ConsContents(x, s);
    } else {
      InsertPermutes(x, s[1..]);
      UnconsContents(s);
      ConsContents(s[0], Insert(x, s[1..]));
    }
  }

  lemma ConsSorted(x: real, s: seq<real>)
    requires IsSorted(s) && (s != [] ==> x <= s[0])
    ensures IsSorted([x] + s)
  {
    forall j | 0 <= j < |s|
      ensures x <= s[j]
    {
      assert j > 0 ==> s[0] <= s[j];
    }
  }

  lemma {:induction false} InsertSorts(x: real, s: seq<real>)
    requires IsSorted(s)
    ensures IsSorted(Insert(x, s))
  {
    if s == [] || x <= s[0] {
      ConsSorted(x, s);
    } else {
      InsertSorts(x, s[1..]);
      ConsSorted(s[0], Insert(x, s[1..]));
    }
  }

  lemma {:induction false} SortedSorts(s: seq<real>)
    ensures IsSorted(Sorted(s)) && multiset(Sorted(s)) == multiset(s)
  {
    if s != [] {
      SortedSorts(s[1..]);
      InsertSorts(s[0], Sorted(s[1..]));
      InsertPermutes(s[0], Sorted(s[1..]));
      UnconsContents(s);
    }
  }

  lemma {:induction false} SortedIsItself(c: seq<real>)
    requires IsSorted(c)
    ensures Sorted(c) == c
  {
    if c != [] {
      SortedIsItself(c[1..]);
    }
  }

  /** How many values are at most `t`. */
  function CountLe(s: seq<real>, t: real): (n: nat)
    ensures n <= |s|
  {
    if s == [] then 0 else (if s[0] <= t then 1 else 0) + CountLe(s[1..], t)
  }

  lemma {:induction false} CountLeConcat(a: seq<real>, b: seq<real>, t: real)
    ensures CountLe(a + b, t) == CountLe(a, t) + CountLe(b, t)
  {
    if a == [] {
      assert a + b == b;
    } else {
      CountLeConcat(a[1..], b, t);
      assert (a + b)[1..] == a[1..] + b;
    }
  }

  lemma {:induction false} CountLeInsert(x: real, s: seq<real>, t: real)
    ensures CountLe(Insert(x, s), t) == CountLe(s, t) + if x <= t then 1 else 0
  {
    if s == [] || x <= s[0] {
      CountLeConcat([x], s, t);
      assert CountLe([x], t) == if x <= t then 1 else 0;
    } else {
      CountLeInsert(x, s[1..], t);
    }
  }

  lemma {:induction false} CountLeSorted(s: seq<real>, t: real)
    ensures CountLe(Sorted(s), t) == CountLe(s, t)
  {
    if s != [] {
      CountLeSorted(s[1..], t);
      CountLeInsert(s[0], Sorted(s[1..]), t);
    }
  }

  /** The order statistic at `k` is at most `t` exactly when more than `k` values are. */
  lemma {:induction false} RankIff(s: seq<real>, k: nat, t: real)
    requires IsSorted(s) && k < |s|
    ensures s[k] <= t <==> CountLe(s, t) >= k + 1
  {
    if s[0] > t {
      NoneLe(s, t);
    } else if k > 0 {
      RankIff(s[1..], k - 1, t);
    }
  }

  lemma {:induction false} NoneLe(s: seq<real>, t: real)
    requires forall i :: 0 <= i < |s| ==> s[i] > t
    ensures CountLe(s, t) == 0
  {
    if s != [] {
      NoneLe(s[1..], t);
    }
  }

  lemma {:induction false} CountLeMonotone(a: seq<real>, b: seq<real>, t: real)
    requires |a| == |b| && forall i :: 0 <= i < |a| ==> a[i] <= b[i]
    ensures CountLe(b, t) <= CountLe(a, t)
  {
    if a != [] {
      CountLeMonotone(a[1..], b[1..], t);
    }
  }

  /** Making every latency no larger makes every order statistic no larger. */
  lemma SortedMonotone(a: seq<real>, b: seq<real>)
    requires |a| == |b| && forall i :: 0 <= i < |a| ==> a[i] <= b[i]
    ensures forall k :: 0 <= k < |a| ==> Sorted(a)[k] <= Sorted(b)[k]
  {
    forall k | 0 <= k < |a|
      ensures Sorted(a)[k] <= Sorted(b)[k]
    {
      var t := Sorted(b)[k];
      SortedSorts(a);
      SortedSorts(b);
      RankIff(Sorted(b), k, t);
      CountLeSorted(b, t);
      CountLeMonotone(a, b, t);
      CountLeSorted(a, t);
      RankIff(Sorted(a), k, t);
    }
  }

  // ----- the percentile -----

  predicate IsPercent(p: real) {
    0.0 <= p <= 100.0
  }

  /** The fractional rank of a percentile among `n` values. */
  function Rank(n: nat, p: real): (k: real)
    requires n > 0 && IsPercent(p)
    ensures 0.0 <= k <= (n - 1) as real
  {
    var w := p / 100.0;
    ScaleBounds((n - 1) as real, w);
    ((n - 1) as real) * w
  }

  lemma ScaleBounds(x: real, w: real)
    requires 0.0 <= x && 0.0 <= w <= 1.0
    ensures 0.0 <= x * w <= x
  {
    assert x * w <= x * 1.0;
  }

  function Min(a: int, b: int): int {
    if a <= b then a else b
  }

  function Blend(lo: real, hi: real, w: real): real {
    lo + (hi - lo) * w
  }

  /** The percentile of already sorted values: linear between the two neighbouring ranks. */
  function Pct(s: seq<real>, p: real): real
    requires IsPercent(p)
  {
    if s == [] then 0.0 else
    var k := Rank(|s|, p);
    var lo := k.Floor;
    var hi := Min(lo + 1, |s| - 1);
    Blend(s[lo], s[hi], k - lo as real)
  }

  /** The percentile from the two ranks its own rank lies between. */
  lemma PctAt(s: seq<real>, p: real, lo: nat, w: real)
    requires IsPercent(p) && lo + 1 < |s| && 0.0 <= w < 1.0
    requires Rank(|s|, p) == lo as real + w
    ensures Pct(s, p) == Blend(s[lo], s[lo + 1], w)
  {
    assert Rank(|s|, p).Floor == lo;
  }

  /** Between two neighbouring ranks the percentile runs in a straight line from the one value to the
      other: at a rank a share of the way from `lo` to `lo + 1`, it is that share of the way from
      `s[lo]` to `s[lo + 1]`. */
  lemma PctIsLinear(s: seq<real>, p: real, lo: nat)
    requires IsPercent(p) && lo + 1 < |s|
    requires lo as real <= (|s| - 1) as real * (p / 100.0) <= (lo + 1) as real
    ensures var share := (|s| - 1) as real * (p / 100.0) - lo as real;
            Pct(s, p) - s[lo] == share * (s[lo + 1] - s[lo])
  {
    var k := Rank(|s|, p);
    if k == (lo + 1) as real {
      assert k.Floor == lo + 1 && k - k.Floor as real == 0.0;
    } else {
      assert k.Floor == lo;
    }
  }

  /** With one value, or at 100 percent, it is the last value; with none, zero. */
  lemma PctAtTheEnd(s: seq<real>, p: real)
    requires IsPercent(p)
    ensures s == [] ==> Pct(s, p) == 0.0
    ensures s != [] && (|s| == 1 || p == 100.0) ==> Pct(s, p) == s[|s| - 1]
  {
    if s != [] && (|s| == 1 || p == 100.0) {
      assert Rank(|s|, p) == (|s| - 1) as real;
      assert Rank(|s|, p).Floor == |s| - 1;
    }
  }

  /** Between two neighbouring ranks the percentile's step depends on the step in percent alone. */
  lemma PctStepsEvenly(s: seq<real>, lo: nat, a: real, b: real)
    requires IsPercent(a) && IsPercent(b) && lo + 1 < |s|
    requires lo as real <= (|s| - 1) as real * (a / 100.0) <= (lo + 1) as real
    requires lo as real <= (|s| - 1) as real * (b / 100.0) <= (lo + 1) as real
    ensures Pct(s, b) - Pct(s, a) == (|s| - 1) as real * ((b - a) / 100.0) * (s[lo + 1] - s[lo])
  {
    PctIsLinear(s, a, lo);
    PctIsLinear(s, b, lo);
    SharesStep((|s| - 1) as real, s[lo + 1] - s[lo], a, b, lo as real);
  }

  lemma SharesStep(n: real, step: real, a: real, b: real, lo: real)
    ensures (n * (b / 100.0) - lo) * step - (n * (a / 100.0) - lo) * step == n * ((b - a) / 100.0) * step
  {
    assert n * (b / 100.0) - n * (a / 100.0) == n * ((b - a) / 100.0);
  }

  /** Halfway between 0 and 100; and 99 percent of the way from 0 to 150. */
  lemma PctExamples()
    ensures Pct([0.0, 100.0], 50.0) == 50.0
    ensures Pct([0.0, 150.0], 99.0) == 148.5
  {
    PctIsLinear([0.0, 100.0], 50.0, 0);
    PctIsLinear([0.0, 150.0], 99.0, 0);
  }

  lemma BlendMonotone(a: real, b: real, c: real, d: real, w: real)
    requires a <= c && b <= d && 0.0 <= w <= 1.0
    ensures Blend(a, b, w) <= Blend(c, d, w)
  {
    ScaleBounds(c - a, 1.0 - w);
    ScaleBounds(d - b, w);
    assert Blend(c, d, w) - Blend(a, b, w) == (c - a) * (1.0 - w) + (d - b) * w;
  }

  lemma BlendBetween(a: real, b: real, w: real)
    requires a <= b && 0.0 <= w <= 1.0
    ensures a <= Blend(a, b, w) <= b
  {
    var d := b - a;
    ScaleBounds(d, w);
    assert Blend(a, b, w) == a + d * w;
  }

  lemma BlendInWeight(a: real, b: real, w: real, v: real)
    requires a <= b && 0.0 <= w <= v <= 1.0
    ensures Blend(a, b, w) <= Blend(a, b, v)
  {
    ScaleBounds(b - a, v - w);
    assert Blend(a, b, v) - Blend(a, b, w) == (b - a) * (v - w);
  }

  lemma PctPointwise(a: seq<real>, b: seq<real>, p: real)
    requires IsPercent(p) && |a| == |b| && forall i :: 0 <= i < |a| ==> a[i] <= b[i]
    ensures Pct(a, p) <= Pct(b, p)
  {
    if a != [] {
      var k := Rank(|a|, p);
      var lo := k.Floor;
      var hi := Min(lo + 1, |a| - 1);
      BlendMonotone(a[lo], a[hi], b[lo], b[hi], k - lo as real);
    }
  }

  /** A percentile cannot get worse when no latency does. */
  lemma PctMonotone(a: seq<real>, b: seq<real>, p: real)
    requires IsPercent(p) && |a| == |b| && forall i :: 0 <= i < |a| ==> a[i] <= b[i]
    ensures Pct(Sorted(a), p) <= Pct(Sorted(b), p)
  {
    SortedMonotone(a, b);
    PctPointwise(Sorted(a), Sorted(b), p);
  }

  lemma PctBetweenNeighbours(s: seq<real>, p: real)
    requires IsPercent(p) && IsSorted(s) && s != []
    ensures var lo := Rank(|s|, p).Floor; s[lo] <= Pct(s, p) <= s[Min(lo + 1, |s| - 1)]
  {
    var k := Rank(|s|, p);
    var lo := k.Floor;
    BlendBetween(s[lo], s[Min(lo + 1, |s| - 1)], k - lo as real);
  }

  lemma PctRises(t: seq<real>, p: real, q: real)
    requires IsPercent(p) && IsPercent(q) && p <= q && IsSorted(t) && t != []
    ensures Pct(t, p) <= Pct(t, q)
  {
    RankOrdered(|t|, p, q);
    var k, l := Rank(|t|, p), Rank(|t|, q);
    if k.Floor == l.Floor {
      BlendInWeight(t[k.Floor], t[Min(k.Floor + 1, |t| - 1)], k - k.Floor as real, l - l.Floor as real);
    } else {
      PctBetweenNeighbours(t, p);
      PctBetweenNeighbours(t, q);
      assert Min(k.Floor + 1, |t| - 1) <= l.Floor;
    }
  }

  /** Percentiles lie between the extremes and never decrease with the percentage. */
  lemma PctOrdered(s: seq<real>, p: real, q: real)
    requires IsPercent(p) && IsPercent(q) && p <= q && s != []
    ensures var t := Sorted(s); t[0] <= Pct(t, p) <= Pct(t, q) <= t[|t| - 1]
  {
    var t := Sorted(s);
    SortedSorts(s);
    PctBetweenNeighbours(t, p);
    PctBetweenNeighbours(t, q);
    PctRises(t, p, q);
  }

  lemma RankOrdered(n: nat, p: real, q: real)
    requires n > 0 && IsPercent(p) && IsPercent(q) && p <= q
    ensures Rank(n, p) <= Rank(n, q)
  {
    var m, w, v := (n - 1) as real, p / 100.0, q / 100.0;
    assert w <= v;
    assert m * (v - w) >= 0.0;
    assert m * v - m * w == m * (v - w);
  }

  /** When the p99 rank is an integer, p99 is one order statistic: it is at most `t` exactly when at
      most a hundredth of the other requests exceed `t`. */
  lemma P99IntegerRank(s: seq<real>, t: real)
    requires s != [] && (|s| - 1) % 100 == 0
    ensures Pct(Sorted(s), 99.0) <= t <==> |s| - CountLe(s, t) <= (|s| - 1) / 100
  {
    var q := (|s| - 1) / 100;
    assert |s| - 1 == 100 * q;
    var k := Rank(|s|, 99.0);
    assert k == ((100 * q) as real) * (99.0 / 100.0) == (99 * q) as real;
    assert k.Floor == 99 * q;
    SortedSorts(s);
    RankIff(Sorted(s), 99 * q, t);
    CountLeSorted(s, t);
  }
}
