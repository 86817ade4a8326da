/** The greedy optimiser is exact for n requests exactly when the p99 rank of n values is an integer.
    For every other n: inputs on which it gives up although an assignment meets the threshold, and
    inputs on which it returns more energy than needed. */
module OracleLimits {
  import opened OrderStatistics
  import opened OracleMix
  import opened OracleOptimality

  ghost predicate GivesUpRightly(n: nat) {
    forall E, L, T :: WellFormed(E, L, n) ==>
      (Feasible(L, T, Initial(E, L, T, n)) <==> exists b :: IsAssignment(E, b, n) && Feasible(L, T, b))
  }

  ghost predicate FindsOptimum(n: nat) {
    forall E, L, T, run, b ::
      WellFormed(E, L, n) && GreedyRun(E, L, T, n, run) && IsAssignment(E, b, n) && Feasible(L, T, b) ==>
        Energy(E, run[|run| - 1]) <= Energy(E, b)
  }

  // ----- p99 between two ranks -----

  function Lower(n: nat): nat
    requires n > 0
  {
    99 * (n - 1) / 100
  }

  function Weight(n: nat): real
    requires n > 0
  {
    (99 * (n - 1) % 100) as real / 100.0
  }

  lemma Multiples(m: nat)
    ensures 99 * m % 100 == 0 ==> m % 100 == 0
  {
    var q := 99 * m / 100;
    assert 99 * m == 100 * q + 99 * m % 100;
    if 99 * m % 100 == 0 {
      assert m == 100 * (m - q);
    }
  }

  lemma RankSplits(n: nat)
    requires n > 0 && !IntegerRank(n)
    ensures Lower(n) + 2 <= n
    ensures 0.0 < Weight(n) <= 0.99
    ensures Rank(n, 99.0).Floor == Lower(n) && Rank(n, 99.0) - Lower(n) as real == Weight(n)
  {
    var m := n - 1;
    assert 99 * m == 100 * (99 * m / 100) + 99 * m % 100;
    assert Rank(n, 99.0) == (m as real) * (99.0 / 100.0) == (99 * m) as real / 100.0;
    Multiples(m);
  }

  lemma P99At(s: seq<real>, n: nat)
    requires |s| == n > 0 && !IntegerRank(n)
    ensures Lower(n) + 2 <= n
    ensures Pct(s, 99.0) == Blend(s[Lower(n)], s[Lower(n) + 1], Weight(n))
  {
    RankSplits(n);
    PctAt(s, 99.0, Lower(n), Weight(n));
  }

  lemma {:induction false} CountLeBelow(c: seq<real>, t: real, m: nat)
    requires m <= |c| && forall i :: m <= i < |c| ==> c[i] > t
    ensures CountLe(c, t) <= m
    ensures (exists x :: 0 <= x < m && c[x] > t) ==> CountLe(c, t) < m
  {
    if m == 0 {
      NoneLe(c, t);
    } else {
      CountLeBelow(c[1..], t, m - 1);
      if x :| 0 <= x < m && c[x] > t {
        assert x > 0 ==> c[1..][x - 1] > t;
      }
    }
  }

  lemma BlendAbove(a: real, b: real, w: real)
    requires a >= 100.0 && b > 100.0 && 0.0 < w < 1.0
    ensures Blend(a, b, w) > 100.0
  {
    BlendMonotone(100.0, b, a, b, w);
    var d := b - 100.0;
    assert d * w > 0.0;
    assert Blend(100.0, b, w) == 100.0 + d * w;
  }

  /** Too few zeros and too few values within 100 push the blended p99 over 100. */
  lemma TooSlow(c: seq<real>)
    requires |c| > 0 && !IntegerRank(|c|)
    requires forall i :: 0 <= i < |c| ==> c[i] == 0.0 || c[i] >= 100.0
    requires CountLe(c, 0.0) <= Lower(|c|) && CountLe(c, 100.0) <= Lower(|c|) + 1
    ensures Pct(Sorted(c), 99.0) > 100.0
  {
    var n := |c|;
    P99At(Sorted(c), n);
    RankSplits(n);
    SlowRanks(c, Lower(n));
    BlendAbove(Sorted(c)[Lower(n)], Sorted(c)[Lower(n) + 1], Weight(n));
  }

  lemma SlowRanks(c: seq<real>, lo: nat)
    requires lo + 1 < |c|
    requires forall i :: 0 <= i < |c| ==> c[i] == 0.0 || c[i] >= 100.0
    requires CountLe(c, 0.0) <= lo && CountLe(c, 100.0) <= lo + 1
    ensures Sorted(c)[lo] >= 100.0 && Sorted(c)[lo + 1] > 100.0
  {
    var s := Sorted(c);
    SortedSorts(c);
    CountLeSorted(c, 0.0);
    CountLeSorted(c, 100.0);
    RankIff(s, lo, 0.0);
    RankIff(s, lo + 1, 100.0);
    assert s[lo] in multiset(c);
  }

  /** Latencies 0 up to the lower rank, `flex` and `next` at the two ranks, 1000 above. */
  function Column(n: nat, flex: real, next: real): (c: seq<real>)
    requires n > 0
    ensures |c| == n
  {
    var lo := Lower(n);
    seq(n, i => if i < lo then 0.0 else if i == lo then flex else if i == lo + 1 then next else 1000.0)
  }

  lemma ColumnTooSlow(n: nat, flex: real, next: real)
    requires n > 0 && !IntegerRank(n) && flex >= 100.0 && next >= 100.0 && (flex > 100.0 || next > 100.0)
    ensures Pct(Sorted(Column(n, flex, next)), 99.0) > 100.0
  {
    RankSplits(n);
    var c, lo := Column(n, flex, next), Lower(n);
    CountLeBelow(c, 0.0, lo);
    CountLeBelow(c, 100.0, lo + 2);
    assert c[lo] > 100.0 || c[lo + 1] > 100.0;
    TooSlow(c);
  }

  lemma ColumnSorted(n: nat, flex: real, next: real)
    requires n > 0 && !IntegerRank(n) && 0.0 <= flex <= next <= 1000.0
    ensures Pct(Sorted(Column(n, flex, next)), 99.0) == Blend(flex, next, Weight(n))
  {
    var c := Column(n, flex, next);
    P99At(Sorted(c), n);
    SortedIsItself(c);
  }

  /** Two points: the request at the lower rank can be at 0 for more energy, or at the threshold;
      the one above it misses the threshold either way. */
  lemma GivesUpWrongly(n: nat)
    requires n > 0 && !IntegerRank(n)
    ensures !GivesUpRightly(n)
  {
    TwoFirstPicks(n);
    var L, a := TwoPoints(n), Initial(TWO, TwoPoints(n), 100.0, n);
    ColumnTooSlow(n, 100.0, 101.0);
    var b := a[Lower(n) := 0];
    ColumnSorted(n, 0.0, 101.0);
    TwoColumn(n, a);
    TwoColumn(n, b);
    assert IsAssignment(TWO, b, n) && Feasible(L, 100.0, b) && !Feasible(L, 100.0, a);
  }

  lemma TwoColumn(n: nat, a: seq<nat>)
    requires n > 0 && !IntegerRank(n) && Lower(n) < n && IsAssignment(TWO, a, n)
    ensures Cur(TwoPoints(n), a) == Column(n, if a[Lower(n)] == 1 then 100.0 else 0.0, 101.0)
  {
  }

  const TWO := [2.0, 1.0]

  function TwoPoints(n: nat): (L: seq<seq<real>>)
    requires n > 0
    ensures WellFormed(TWO, L, n)
  {
    [Column(n, 0.0, 101.0), Column(n, 100.0, 101.0)]
  }

  lemma TwoFirstPicks(n: nat)
    requires n > 0 && !IntegerRank(n)
    ensures Lower(n) < n && Initial(TWO, TwoPoints(n), 100.0, n)[Lower(n)] == 1
  {
    RankSplits(n);
    assert OrderFrom(TWO, 1) == InsertPoint(TWO, 1, OrderFrom(TWO, 2)) == [1];
    assert Order(TWO) == [1, 0];
  }

  lemma {:induction false} EnergyUpdate(E: seq<real>, a: seq<nat>, i: nat, j: nat)
    requires (forall k :: 0 <= k < |a| ==> a[k] < |E|) && i < |a| && j < |E|
    ensures Energy(E, a[i := j]) == Energy(E, a) - E[a[i]] + E[j]
  {
    if i == 0 {
      assert a[i := j][1..] == a[1..];
    } else {
      assert a[i := j][1..] == a[1..][i - 1 := j];
      EnergyUpdate(E, a[1..], i - 1, j);
    }
  }

  const THREE := [10.0, 9.0, 1.0]

  /** Three points, cheapest last; only the two requests at the ranks depend on the point. */
  function ThreePoints(n: nat): (L: seq<seq<real>>)
    requires n > 0
    ensures WellFormed(THREE, L, n)
  {
    [Column(n, 0.0, 100.0), Column(n, 100.0, 1000.0), Column(n, 1000.0, 101.0)]
  }

  function Rest(n: nat, flex: nat, next: nat): (a: seq<nat>)
    requires n > 0 && flex < 3 && next < 3
    ensures IsAssignment(THREE, a, n)
  {
    seq(n, i => if i == Lower(n) then flex else if i == Lower(n) + 1 then next else 2)
  }

  lemma RestColumn(n: nat, flex: nat, next: nat)
    requires n > 0 && flex < 3 && next < 3
    ensures Cur(ThreePoints(n), Rest(n, flex, next)) ==
            Column(n, [0.0, 100.0, 1000.0][flex], [100.0, 1000.0, 101.0][next])
  {
  }

  lemma ThreeOrder()
    ensures Order(THREE) == [2, 1, 0] && Order(THREE)[1..] == [1, 0] && [1, 0][1..] == [0]
  {
    assert OrderFrom(THREE, 2) == InsertPoint(THREE, 2, OrderFrom(THREE, 3)) == [2];
    assert InsertPoint(THREE, 1, [2]) == [2] + InsertPoint(THREE, 1, [2][1..]) == [2, 1];
    assert OrderFrom(THREE, 1) == [2, 1];
    assert [2, 1][1..] == [1];
    assert InsertPoint(THREE, 0, [2, 1]) == [2] + InsertPoint(THREE, 0, [1]) == [2, 1, 0];
  }

  lemma ThreeInitial(n: nat)
    requires n > 0 && !IntegerRank(n)
    ensures Initial(THREE, ThreePoints(n), 100.0, n) == Rest(n, 1, 0)
  {
    RankSplits(n);
    ThreeOrder();
    var L := ThreePoints(n);
    forall i | 0 <= i < n
      ensures Pick(THREE, L, 100.0, i) == Rest(n, 1, 0)[i]
    {
      assert PickFrom([1, 0], L, 100.0, i, 2) ==
             (if L[1][i] <= 100.0 then 1 else if L[0][i] <= 100.0 then 0 else PickFrom([0][1..], L, 100.0, i, 2));
    }
  }

  /** No single demotion from the first picks meets the threshold. */
  lemma ThreeStuck(n: nat)
    requires n > 0 && !IntegerRank(n)
    ensures Stuck(THREE, ThreePoints(n), 100.0, Rest(n, 1, 0))
  {
    RankSplits(n);
    var L, a, lo := ThreePoints(n), Rest(n, 1, 0), Lower(n);
    forall i: nat, j: nat
      ensures !Candidate(THREE, L, 100.0, a, i, j)
    {
      if i == lo && j == 2 {
        assert a[i := j] == Rest(n, 2, 0);
        RestColumn(n, 2, 0);
        ColumnTooSlow(n, 1000.0, 100.0);
      } else if i == lo + 1 && (j == 1 || j == 2) {
        assert a[i := j] == Rest(n, 1, j);
        RestColumn(n, 1, j);
        ColumnTooSlow(n, 100.0, if j == 1 then 1000.0 else 101.0);
      }
    }
  }

  /** The search ends where it starts. */
  lemma ThreeRun(n: nat)
    requires n > 0 && !IntegerRank(n)
    ensures GreedyRun(THREE, ThreePoints(n), 100.0, n, [Rest(n, 1, 0)])
  {
    RankSplits(n);
    ThreeInitial(n);
    ThreeStuck(n);
    RestColumn(n, 1, 0);
    ColumnSorted(n, 100.0, 100.0);
  }

  /** Moving both requests at once is feasible and cheaper. */
  lemma ThreeCheaper(n: nat)
    requires n > 0 && !IntegerRank(n)
    ensures Feasible(ThreePoints(n), 100.0, Rest(n, 0, 2))
    ensures Energy(THREE, Rest(n, 0, 2)) < Energy(THREE, Rest(n, 1, 0))
  {
    RankSplits(n);
    var a, lo := Rest(n, 1, 0), Lower(n);
    RestColumn(n, 0, 2);
    ColumnSorted(n, 0.0, 101.0);
    assert Rest(n, 0, 2) == a[lo := 0][lo + 1 := 2];
    EnergyUpdate(THREE, a, lo, 0);
    EnergyUpdate(THREE, a[lo := 0], lo + 1, 2);
  }

  /** Paying more for the request at the lower rank would let the next one be demoted. */
  lemma MissesOptimum(n: nat)
    requires n > 0 && !IntegerRank(n)
    ensures !FindsOptimum(n)
  {
    ThreeRun(n);
    ThreeCheaper(n);
    var run := [Rest(n, 1, 0)];
    assert run[|run| - 1] == Rest(n, 1, 0);
  }

  /** A caller can tell from the number of requests alone. */
  lemma ExactIffIntegerRank(n: nat)
    requires n > 0
    ensures GivesUpRightly(n) <==> IntegerRank(n)
    ensures FindsOptimum(n) <==> IntegerRank(n)
  {
    if IntegerRank(n) {
      forall E, L, T | WellFormed(E, L, n)
        ensures Feasible(L, T, Initial(E, L, T, n)) <==> exists b :: IsAssignment(E, b, n) && Feasible(L, T, b)
      {
        NoneIffImpossible(E, L, T, n);
      }
      forall E, L, T, run, b |
        WellFormed(E, L, n) && GreedyRun(E, L, T, n, run) && IsAssignment(E, b, n) && Feasible(L, T, b)
        ensures Energy(E, run[|run| - 1]) <= Energy(E, b)
      {
        GreedyIsOptimal(E, L, T, n, run, b);
      }
    } else {
      GivesUpWrongly(n);
      MissesOptimum(n);
    }
  }
}
