/** When the p99 rank is an integer, the greedy demotion finds a least-energy assignment among all
    that meet the threshold. For every other number of requests it does not always. */
module OracleOptimality {
  import opened OrderStatistics
  import opened OracleMix

  // ----- the constraint counts misses -----

  lemma {:induction false} CountLeUpdate(c: seq<real>, i: nat, x: real, t: real)
    requires i < |c|
    ensures CountLe(c[i := x], t) == CountLe(c, t) - (if c[i] <= t then 1 else 0) + (if x <= t then 1 else 0)
  {
    if i == 0 {
      assert c[0 := x][1..] == c[1..];
    } else {
      assert c[i := x][1..] == c[1..][i - 1 := x];
      CountLeUpdate(c[1..], i - 1, x, t);
    }
  }

  function Misses(L: seq<seq<real>>, T: real, a: seq<nat>): nat
    requires forall i :: 0 <= i < |a| ==> a[i] < |L| && |L[a[i]]| == |a|
  {
    |a| - CountLe(Cur(L, a), T)
  }

  predicate IntegerRank(n: nat) {
    n > 0 && (n - 1) % 100 == 0
  }

  function Allowed(n: nat): nat
    requires n > 0
  {
    (n - 1) / 100
  }

  lemma FeasibleIffFewMisses(L: seq<seq<real>>, T: real, a: seq<nat>)
    requires forall i :: 0 <= i < |a| ==> a[i] < |L| && |L[a[i]]| == |a|
    requires IntegerRank(|a|)
    ensures Feasible(L, T, a) <==> Misses(L, T, a) <= Allowed(|a|)
  {
    P99IntegerRank(Cur(L, a), T);
  }

  /** Changing one request from a point that meets the threshold to one that does not. */
  lemma OneMoreMiss(L: seq<seq<real>>, T: real, a: seq<nat>, i: nat, j: nat)
    requires forall k :: 0 <= k < |a| ==> a[k] < |L| && |L[a[k]]| == |a|
    requires i < |a| && j < |L| && |L[j]| == |a|
    requires L[a[i]][i] <= T < L[j][i]
    ensures Misses(L, T, a[i := j]) == Misses(L, T, a) + 1
  {
    assert Cur(L, a[i := j]) == Cur(L, a)[i := L[j][i]];
    CountLeUpdate(Cur(L, a), i, L[j][i], T);
  }

  // ----- what the greedy assignments look like -----

  /** What demoting a request all the way would save. */
  function FullSaving(E: seq<real>, L: seq<seq<real>>, T: real, n: nat, i: nat): real
    requires WellFormed(E, L, n) && i < n
  {
    E[Pick(E, L, T, i)] - E[Cheapest(E)]
  }

  /** A request that has been moved missed nothing before, misses now, and costs the least. */
  predicate Demoted(E: seq<real>, L: seq<seq<real>>, T: real, n: nat, a: seq<nat>, i: nat)
    requires WellFormed(E, L, n) && IsAssignment(E, a, n) && i < n
  {
    && E[a[i]] == E[Cheapest(E)]
    && L[Pick(E, L, T, i)][i] <= T < L[a[i]][i]
    && FullSaving(E, L, T, n, i) > 0.0
  }

  predicate Shape(E: seq<real>, L: seq<seq<real>>, T: real, n: nat, a: seq<nat>)
    requires WellFormed(E, L, n) && IsAssignment(E, a, n)
  {
    && (forall i :: 0 <= i < n ==> a[i] == Pick(E, L, T, i) || Demoted(E, L, T, n, a, i))
    && (forall i, j :: 0 <= i < n && 0 <= j < n && a[i] != Pick(E, L, T, i) && a[j] == Pick(E, L, T, j) ==>
          FullSaving(E, L, T, n, j) <= FullSaving(E, L, T, n, i))
  }

  /** A strictly cheaper point is there only for a request still at its first pick, which meets the
      threshold; and the cheaper point does not. */
  lemma CheaperMeansMiss(E: seq<real>, L: seq<seq<real>>, T: real, n: nat, a: seq<nat>, i: nat, j: nat)
    requires WellFormed(E, L, n) && IsAssignment(E, a, n) && Shape(E, L, T, n, a)
    requires i < n && j < |E| && E[j] < E[a[i]]
    ensures a[i] == Pick(E, L, T, i) && L[a[i]][i] <= T < L[j][i]
    ensures Misses(L, T, a[i := j]) == Misses(L, T, a) + 1
  {
    CheapestIsCheapest(E, j);
    PickIsCheapest(E, L, T, n, i);
    OneMoreMiss(L, T, a, i, j);
  }

  /** Demoting any request to the cheapest point is feasible whenever some demotion is. */
  lemma FullDemotionIsCandidate(E: seq<real>, L: seq<seq<real>>, T: real, n: nat, a: seq<nat>, i: nat, j: nat, k: nat)
    requires WellFormed(E, L, n) && IsAssignment(E, a, n) && Shape(E, L, T, n, a) && IntegerRank(n)
    requires Candidate(E, L, T, a, i, j)
    requires k < n && E[Cheapest(E)] < E[a[k]]
    ensures Candidate(E, L, T, a, k, Cheapest(E))
  {
    CheaperMeansMiss(E, L, T, n, a, i, j);
    CheaperMeansMiss(E, L, T, n, a, k, Cheapest(E));
    FeasibleIffFewMisses(L, T, a[i := j]);
    FeasibleIffFewMisses(L, T, a[k := Cheapest(E)]);
  }

  lemma MoveKeepsShape(E: seq<real>, L: seq<seq<real>>, T: real, n: nat, a: seq<nat>, i: nat, p: nat)
    requires WellFormed(E, L, n) && IsAssignment(E, a, n) && Shape(E, L, T, n, a) && IntegerRank(n)
    requires BestMove(E, L, T, a, i, p)
    ensures Shape(E, L, T, n, a[i := Order(E)[p]])
  {
    var j, c := Order(E)[p], Cheapest(E);
    var b := a[i := j];
    CheaperMeansMiss(E, L, T, n, a, i, j);
    CheapestIsCheapest(E, j);
    assert Order(E)[0] == c;
    FullDemotionIsCandidate(E, L, T, n, a, i, j, i);
    assert Saving(E, a, i, c) <= Saving(E, a, i, j);
    forall k | 0 <= k < n && b[k] == Pick(E, L, T, k)
      ensures FullSaving(E, L, T, n, k) <= FullSaving(E, L, T, n, i)
    {
      if k != i && E[c] < E[a[k]] {
        FullDemotionIsCandidate(E, L, T, n, a, i, j, k);
        assert Saving(E, a, k, Order(E)[0]) <= Saving(E, a, i, j);
      }
    }
    assert forall k :: 0 <= k < n && k != i ==> b[k] == a[k];
    forall k | 0 <= k < n
      ensures b[k] == Pick(E, L, T, k) || Demoted(E, L, T, n, b, k)
    {
      if k != i && a[k] != Pick(E, L, T, k) {
        assert Demoted(E, L, T, n, a, k);
      }
    }
  }

  lemma {:induction false} RunHasShape(E: seq<real>, L: seq<seq<real>>, T: real, n: nat, run: seq<seq<nat>>, k: nat)
    requires WellFormed(E, L, n) && GreedyPrefix(E, L, T, n, run) && IntegerRank(n) && k < |run|
    ensures Shape(E, L, T, n, run[k])
  {
    if k > 0 {
      RunHasShape(E, L, T, n, run, k - 1);
      assert Demotes(E, L, T, run[k - 1], run[k]);
      var i: nat, p: nat :| BestMove(E, L, T, run[k - 1], i, p) && run[k] == run[k - 1][i := Order(E)[p]];
      MoveKeepsShape(E, L, T, n, run[k - 1], i, p);
    }
  }

  // ----- the exchange -----

  /** The largest full saving among requests still at their first pick, or zero. */
  function Threshold(E: seq<real>, L: seq<seq<real>>, T: real, n: nat, a: seq<nat>, m: nat): (theta: real)
    requires WellFormed(E, L, n) && IsAssignment(E, a, n) && m <= n
    ensures theta >= 0.0
    ensures forall j :: 0 <= j < m && a[j] == Pick(E, L, T, j) ==> FullSaving(E, L, T, n, j) <= theta
    ensures theta == 0.0 || exists j :: 0 <= j < m && a[j] == Pick(E, L, T, j) && theta == FullSaving(E, L, T, n, j)
  {
    if m == 0 then 0.0 else
    var rest := Threshold(E, L, T, n, a, m - 1);
    var saving := FullSaving(E, L, T, n, m - 1);
    if a[m - 1] == Pick(E, L, T, m - 1) && saving > rest then saving else rest
  }

  function Miss(x: real, T: real): int {
    if x > T then 1 else 0
  }

  /** Request by request, the greedy result costs no more than another assignment, up to the price
      `theta` of one miss. */
  lemma Pointwise(E: seq<real>, L: seq<seq<real>>, T: real, n: nat, a: seq<nat>, b: seq<nat>, theta: real, i: nat)
    requires WellFormed(E, L, n) && IsAssignment(E, a, n) && IsAssignment(E, b, n) && Shape(E, L, T, n, a) && i < n
    requires theta >= 0.0
    requires a[i] == Pick(E, L, T, i) ==> FullSaving(E, L, T, n, i) <= theta
    requires a[i] != Pick(E, L, T, i) ==> theta <= FullSaving(E, L, T, n, i)
    ensures E[a[i]] <= E[b[i]] + Worth(theta, Miss(L[b[i]][i], T) - Miss(L[a[i]][i], T))
  {
    CheapestIsCheapest(E, b[i]);
    PickIsCheapest(E, L, T, n, i);
  }

  /** What `d` more misses are worth at a price of `theta` each. */
  function Worth(theta: real, d: int): real {
    theta * (d as real)
  }

  lemma WorthAdds(theta: real, x: int, d: int)
    ensures Worth(theta, x + d) == Worth(theta, x) + Worth(theta, d)
  {
    assert (x + d) as real == x as real + d as real;
  }

  lemma WorthNothing(theta: real, d: int)
    requires theta >= 0.0 && (theta == 0.0 || d <= 0)
    ensures Worth(theta, d) <= 0.0
  {
  }

  lemma {:induction false} SumBound(
      E: seq<real>, a: seq<nat>, b: seq<nat>, ca: seq<real>, cb: seq<real>, T: real, theta: real)
    requires |a| == |b| == |ca| == |cb|
    requires forall i :: 0 <= i < |a| ==> a[i] < |E| && b[i] < |E|
    requires forall i :: 0 <= i < |a| ==> E[a[i]] <= E[b[i]] + Worth(theta, Miss(cb[i], T) - Miss(ca[i], T))
    ensures Energy(E, a) <= Energy(E, b) + Worth(theta, CountLe(ca, T) - CountLe(cb, T))
  {
    if a == [] {
      assert Worth(theta, 0) == 0.0;
    } else {
      SumBound(E, a[1..], b[1..], ca[1..], cb[1..], T, theta);
      WorthAdds(theta, CountLe(ca[1..], T) - CountLe(cb[1..], T), Miss(cb[0], T) - Miss(ca[0], T));
    }
  }

  /** While misses are left over, any request that is not at the least energy can be demoted. */
  lemma RoomMakesCandidate(E: seq<real>, L: seq<seq<real>>, T: real, n: nat, a: seq<nat>, i: nat)
    requires WellFormed(E, L, n) && IsAssignment(E, a, n) && Shape(E, L, T, n, a) && IntegerRank(n)
    requires Misses(L, T, a) < Allowed(n) && i < n && E[Cheapest(E)] < E[a[i]]
    ensures Candidate(E, L, T, a, i, Cheapest(E))
  {
    CheaperMeansMiss(E, L, T, n, a, i, Cheapest(E));
    FeasibleIffFewMisses(L, T, a[i := Cheapest(E)]);
  }

  /** A price that fits every request: nothing while misses are left over, else the largest saving
      that was not taken. */
  lemma FairPrice(E: seq<real>, L: seq<seq<real>>, T: real, n: nat, a: seq<nat>) returns (theta: real)
    requires WellFormed(E, L, n) && IsAssignment(E, a, n) && Shape(E, L, T, n, a) && IntegerRank(n)
    requires Stuck(E, L, T, a)
    ensures theta >= 0.0
    ensures Misses(L, T, a) < Allowed(n) ==> theta == 0.0
    ensures forall i :: 0 <= i < n && a[i] == Pick(E, L, T, i) ==> FullSaving(E, L, T, n, i) <= theta
    ensures forall i :: 0 <= i < n && a[i] != Pick(E, L, T, i) ==> theta <= FullSaving(E, L, T, n, i)
  {
    theta := 0.0;
    if Misses(L, T, a) >= Allowed(n) {
      theta := Threshold(E, L, T, n, a, n);
    }
    forall i | 0 <= i < n && a[i] == Pick(E, L, T, i)
      ensures FullSaving(E, L, T, n, i) <= theta
    {
      if Misses(L, T, a) < Allowed(n) && FullSaving(E, L, T, n, i) > 0.0 {
        RoomMakesCandidate(E, L, T, n, a, i);
        assert false;
      }
    }
  }

  lemma Exchange(E: seq<real>, L: seq<seq<real>>, T: real, n: nat, a: seq<nat>, b: seq<nat>)
    requires WellFormed(E, L, n) && IsAssignment(E, a, n) && Shape(E, L, T, n, a) && IntegerRank(n)
    requires Stuck(E, L, T, a) && Misses(L, T, a) <= Allowed(n)
    requires IsAssignment(E, b, n) && Misses(L, T, b) <= Allowed(n)
    ensures Energy(E, a) <= Energy(E, b)
  {
    var theta := FairPrice(E, L, T, n, a);
    var ca, cb := Cur(L, a), Cur(L, b);
    forall i | 0 <= i < n
      ensures E[a[i]] <= E[b[i]] + Worth(theta, Miss(cb[i], T) - Miss(ca[i], T))
    {
      Pointwise(E, L, T, n, a, b, theta, i);
    }
    SumBound(E, a, b, ca, cb, T, theta);
    var d := CountLe(ca, T) - CountLe(cb, T);
    assert d == Misses(L, T, b) - Misses(L, T, a);
    WorthNothing(theta, d);
  }

  /** With an integer rank the greedy result costs no more than any assignment that meets the
      threshold. */
  lemma GreedyIsOptimal(E: seq<real>, L: seq<seq<real>>, T: real, n: nat, run: seq<seq<nat>>, b: seq<nat>)
    requires WellFormed(E, L, n) && GreedyRun(E, L, T, n, run) && IntegerRank(n)
    requires IsAssignment(E, b, n) && Feasible(L, T, b)
    ensures Energy(E, run[|run| - 1]) <= Energy(E, b)
  {
    var a := run[|run| - 1];
    RunHasShape(E, L, T, n, run, |run| - 1);
    EnergyFalls(E, L, T, n, run, 0, |run| - 1);
    FeasibleIffFewMisses(L, T, a);
    FeasibleIffFewMisses(L, T, b);
    Exchange(E, L, T, n, a, b);
  }

  /** With an integer rank the optimiser gives up exactly when no assignment meets the threshold. */
  lemma NoneIffImpossible(E: seq<real>, L: seq<seq<real>>, T: real, n: nat)
    requires WellFormed(E, L, n) && IntegerRank(n)
    ensures Feasible(L, T, Initial(E, L, T, n)) <==> exists b :: IsAssignment(E, b, n) && Feasible(L, T, b)
  {
    var a := Initial(E, L, T, n);
    if exists b :: IsAssignment(E, b, n) && Feasible(L, T, b) {
      var b :| IsAssignment(E, b, n) && Feasible(L, T, b);
      forall i | 0 <= i < n
        ensures Cur(L, b)[i] <= T ==> Cur(L, a)[i] <= T
      {
        PickIsCheapest(E, L, T, n, i);
      }
      MeetsAsOften(Cur(L, a), Cur(L, b), T);
      FeasibleIffFewMisses(L, T, a);
      FeasibleIffFewMisses(L, T, b);
    }
  }

  lemma {:induction false} MeetsAsOften(a: seq<real>, b: seq<real>, t: real)
    requires |a| == |b| && forall i :: 0 <= i < |a| ==> b[i] <= t ==> a[i] <= t
    ensures CountLe(b, t) <= CountLe(a, t)
  {
    if a != [] {
      MeetsAsOften(a[1..], b[1..], t);
    }
  }
}
