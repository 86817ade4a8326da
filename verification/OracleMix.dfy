/** The per-request oracle: give each request a clock so that the summed energy is least while the
    interpolated p99 stays within a threshold, by greedy demotion. */
module OracleMix {
  import opened GuardTypes
  import opened OrderStatistics

  /** `E[j]` is the energy of point `j`; `L[j][i]` the latency of request `i` at point `j`. */
  predicate WellFormed(E: seq<real>, L: seq<seq<real>>, n: nat) {
    |E| > 0 && |L| == |E| && forall j :: 0 <= j < |L| ==> |L[j]| == n
  }

  predicate IsAssignment(E: seq<real>, a: seq<nat>, n: nat) {
    |a| == n && forall i :: 0 <= i < n ==> a[i] < |E|
  }

  // ----- points, cheapest first -----

  function InsertPoint(E: seq<real>, j: nat, s: seq<nat>): (r: seq<nat>)
    requires j < |E| && forall k :: 0 <= k < |s| ==> s[k] < |E|
    ensures |r| == |s| + 1 && forall k :: 0 <= k < |r| ==> r[k] < |E|
  {
    if s == [] || E[j] <= E[s[0]] then [j] + s else [s[0]] + InsertPoint(E, j, s[1..])
  }

  function OrderFrom(E: seq<real>, j: nat): (r: seq<nat>)
    requires j <= |E|
    ensures |r| == |E| - j && forall k :: 0 <= k < |r| ==> r[k] < |E|
    decreases |E| - j
  {
    if j == |E| then [] else InsertPoint(E, j, OrderFrom(E, j + 1))
  }

  /** The point indices sorted by energy, ties in their given order. */
  function Order(E: seq<real>): (r: seq<nat>)
    ensures |r| == |E| && forall k :: 0 <= k < |r| ==> r[k] < |E|
  {
    OrderFrom(E, 0)
  }

  predicate Ascending(E: seq<real>, s: seq<nat>) {
    && (forall k :: 0 <= k < |s| ==> s[k] < |E|)
    && forall k, l :: 0 <= k < l < |s| ==> E[s[k]] <= E[s[l]]
  }

  lemma {:induction false} InsertPointOrders(E: seq<real>, j: nat, s: seq<nat>)
    requires j < |E| && Ascending(E, s)
    ensures Ascending(E, InsertPoint(E, j, s))
    ensures forall x :: x in InsertPoint(E, j, s) <==> x == j || x in s
  {
    if s != [] && E[j] > E[s[0]] {
      InsertPointOrders(E, j, s[1..]);
      var r := InsertPoint(E, j, s[1..]);
      forall k | 0 <= k < |r|
        ensures E[s[0]] <= E[r[k]]
      {
        assert r[k] in r;
      }
      assert s == [s[0]] + s[1..];
    }
  }

  lemma {:induction false} OrderFromOrders(E: seq<real>, j: nat)
    requires j <= |E|
    ensures Ascending(E, OrderFrom(E, j))
    ensures forall x :: x in OrderFrom(E, j) <==> j <= x < |E|
    decreases |E| - j
  {
    if j < |E| {
      OrderFromOrders(E, j + 1);
      InsertPointOrders(E, j, OrderFrom(E, j + 1));
    }
  }

  /** Points of equal energy stay in the order they were given in. */
  predicate Stable(E: seq<real>, s: seq<nat>)
    requires Ascending(E, s)
  {
    forall k, l :: 0 <= k < l < |s| ==> Goes(E, s[k], s[l])
  }

  /** Point `j` is cheaper than `k`, or as cheap and given first. */
  predicate Goes(E: seq<real>, j: nat, k: nat)
    requires j < |E| && k < |E|
  {
    E[j] < E[k] || (E[j] == E[k] && j < k)
  }

  lemma {:induction false} InsertPointStable(E: seq<real>, j: nat, s: seq<nat>)
    requires j < |E| && Ascending(E, s) && Stable(E, s) && forall k :: 0 <= k < |s| ==> j < s[k]
    ensures Ascending(E, InsertPoint(E, j, s)) && Stable(E, InsertPoint(E, j, s))
  {
    InsertPointOrders(E, j, s);
    if s == [] || E[j] <= E[s[0]] {
      forall k | 0 <= k < |s|
        ensures Goes(E, j, s[k])
      {
        assert k > 0 ==> Goes(E, s[0], s[k]);
      }
    } else {
      var r := InsertPoint(E, j, s[1..]);
      InsertPointStable(E, j, s[1..]);
      InsertPointOrders(E, j, s[1..]);
      forall k | 0 <= k < |r|
        ensures Goes(E, s[0], r[k])
      {
        assert r[k] in r;
        assert r[k] == j || r[k] in s[1..];
      }
    }
  }

  lemma LaterPoints(E: seq<real>, j: nat)
    requires j <= |E|
    ensures forall k :: 0 <= k < |OrderFrom(E, j)| ==> j <= OrderFrom(E, j)[k]
  {
    OrderFromOrders(E, j);
    forall k | 0 <= k < |OrderFrom(E, j)|
      ensures j <= OrderFrom(E, j)[k]
    {
      assert OrderFrom(E, j)[k] in OrderFrom(E, j);
    }
  }

  lemma {:induction false} OrderFromStable(E: seq<real>, j: nat)
    requires j <= |E|
    ensures Ascending(E, OrderFrom(E, j)) && Stable(E, OrderFrom(E, j))
    decreases |E| - j
  {
    if j < |E| {
      OrderFromStable(E, j + 1);
      LaterPoints(E, j + 1);
      InsertPointStable(E, j, OrderFrom(E, j + 1));
    }
  }

  /** The scan order is the sort by energy, in which equals keep their given order; so the cheapest point
      is the first of the cheapest. */
  lemma OrderIsStable(E: seq<real>)
    ensures forall k, l :: 0 <= k < l < |E| ==> Goes(E, Order(E)[k], Order(E)[l])
    ensures forall j :: 0 <= j < |E| ==> j in Order(E)
    ensures forall j :: 0 <= j < |E| && j != Cheapest(E) ==> Goes(E, Cheapest(E), j)
  {
    OrderFromStable(E, 0);
    OrderFromOrders(E, 0);
    forall j | 0 <= j < |E| && j != Cheapest(E)
      ensures Goes(E, Cheapest(E), j)
    {
      assert j in Order(E);
      var k :| 0 <= k < |Order(E)| && Order(E)[k] == j;
    }
  }

  function Cheapest(E: seq<real>): (j: nat)
    requires |E| > 0
    ensures j < |E|
  {
    Order(E)[0]
  }

  lemma CheapestIsCheapest(E: seq<real>, j: nat)
    requires j < |E|
    ensures E[Cheapest(E)] <= E[j]
  {
    OrderFromOrders(E, 0);
    assert j in Order(E);
  }

  // ----- the objective and the constraint -----

  function Energy(E: seq<real>, a: seq<nat>): real
    requires forall i :: 0 <= i < |a| ==> a[i] < |E|
  {
    if a == [] then 0.0 else E[a[0]] + Energy(E, a[1..])
  }

  function Cur(L: seq<seq<real>>, a: seq<nat>): (c: seq<real>)
    requires forall i :: 0 <= i < |a| ==> a[i] < |L| && |L[a[i]]| == |a|
    ensures |c| == |a| && forall i :: 0 <= i < |a| ==> c[i] == L[a[i]][i]
  {
    seq(|a|, i requires 0 <= i < |a| => L[a[i]][i])
  }

  function P99(L: seq<seq<real>>, a: seq<nat>): real
    requires forall i :: 0 <= i < |a| ==> a[i] < |L| && |L[a[i]]| == |a|
  {
    Pct(Sorted(Cur(L, a)), 99.0)
  }

  predicate Feasible(L: seq<seq<real>>, T: real, a: seq<nat>)
    requires forall i :: 0 <= i < |a| ==> a[i] < |L| && |L[a[i]]| == |a|
  {
    P99(L, a) <= T
  }

  // ----- where the search starts -----

  function PickFrom(order: seq<nat>, L: seq<seq<real>>, T: real, i: nat, fallback: nat): (j: nat)
    requires forall k :: 0 <= k < |order| ==> order[k] < |L| && i < |L[order[k]]|
    ensures j == fallback || j in order
  {
    if order == [] then fallback
    else if L[order[0]][i] <= T then order[0]
    else PickFrom(order[1..], L, T, i, fallback)
  }

  /** The cheapest point at which the request meets the threshold, else the cheapest point. */
  function Pick(E: seq<real>, L: seq<seq<real>>, T: real, i: nat): (j: nat)
    requires |E| > 0 && |L| == |E| && forall j :: 0 <= j < |L| ==> i < |L[j]|
    ensures j < |E|
  {
    PickFrom(Order(E), L, T, i, Cheapest(E))
  }

  function Initial(E: seq<real>, L: seq<seq<real>>, T: real, n: nat): (a: seq<nat>)
    requires WellFormed(E, L, n)
    ensures IsAssignment(E, a, n)
  {
    seq(n, i requires 0 <= i < n => Pick(E, L, T, i))
  }

  lemma {:induction false} PickFromIsCheapest(
      E: seq<real>, order: seq<nat>, L: seq<seq<real>>, T: real, i: nat, fallback: nat)
    requires Ascending(E, order)
    requires forall k :: 0 <= k < |order| ==> order[k] < |L| && i < |L[order[k]]|
    requires fallback < |E| && fallback < |L| && i < |L[fallback]|
    ensures var p := PickFrom(order, L, T, i, fallback);
            && (L[p][i] > T || p == fallback || p in order)
            && (forall j :: j in order && L[j][i] <= T ==> L[p][i] <= T && E[p] <= E[j])
            && ((forall j :: j in order ==> L[j][i] > T) ==> p == fallback)
  {
    if order != [] && L[order[0]][i] > T {
      PickFromIsCheapest(E, order[1..], L, T, i, fallback);
      assert order == [order[0]] + order[1..];
    } else if order != [] {
      forall j | j in order
        ensures E[order[0]] <= E[j]
      {
        var k :| 0 <= k < |order| && order[k] == j;
      }
      assert order[0] in order;
    }
  }

  /** A request's first pick meets the threshold if any point does, at the least energy that does;
      a request that cannot meet it is put at the cheapest point. */
  lemma PickIsCheapest(E: seq<real>, L: seq<seq<real>>, T: real, n: nat, i: nat)
    requires WellFormed(E, L, n) && i < n
    ensures var p := Pick(E, L, T, i);
            && (forall j :: 0 <= j < |E| && L[j][i] <= T ==> L[p][i] <= T && E[p] <= E[j])
            && (L[p][i] > T ==> p == Cheapest(E))
  {
    OrderFromOrders(E, 0);
    PickFromIsCheapest(E, Order(E), L, T, i, Cheapest(E));
    var p := Pick(E, L, T, i);
    if L[p][i] > T {
      forall j | j in Order(E)
        ensures L[j][i] > T
      {
      }
    }
    forall j | 0 <= j < |E| && L[j][i] <= T
      ensures L[p][i] <= T && E[p] <= E[j]
    {
      assert j in Order(E);
    }
  }

  // ----- demotions -----

  /** Of several points that meet the threshold at the least energy, the first pick is the one given
      first. */
  lemma PickIsFirst(E: seq<real>, L: seq<seq<real>>, T: real, n: nat, i: nat, j: nat)
    requires WellFormed(E, L, n) && i < n
    requires j < |E| && L[j][i] <= T && j != Pick(E, L, T, i)
    ensures Goes(E, Pick(E, L, T, i), j)
  {
    OrderIsStable(E);
    PickFromIsFirst(E, Order(E), L, T, i, Cheapest(E), j);
  }

  lemma {:induction false} PickFromIsFirst(
      E: seq<real>, order: seq<nat>, L: seq<seq<real>>, T: real, i: nat, fallback: nat, j: nat)
    requires Ascending(E, order) && Stable(E, order)
    requires forall k :: 0 <= k < |order| ==> order[k] < |L| && i < |L[order[k]]|
    requires j in order && L[j][i] <= T
    ensures var p := PickFrom(order, L, T, i, fallback);
            p in order && (p == j || Goes(E, p, j))
  {
    var k :| 0 <= k < |order| && order[k] == j;
    if L[order[0]][i] > T {
      assert order[1..][k - 1] == j;
      PickFromIsFirst(E, order[1..], L, T, i, fallback, j);
    }
  }

  /** Moving request `i` to the strictly cheaper point `j` keeps p99 within the threshold. */
  predicate Candidate(E: seq<real>, L: seq<seq<real>>, T: real, a: seq<nat>, i: nat, j: nat)
    requires WellFormed(E, L, |a|) && IsAssignment(E, a, |a|)
  {
    i < |a| && j < |E| && E[j] < E[a[i]] && Feasible(L, T, a[i := j])
  }

  function Saving(E: seq<real>, a: seq<nat>, i: nat, j: nat): real
    requires i < |a| && j < |E| && a[i] < |E|
  {
    E[a[i]] - E[j]
  }

  predicate Before(i': nat, p': nat, i: nat, p: nat) {
    i' < i || (i' == i && p' < p)
  }

  /** The demotion taken: no other saves more, and none that is scanned earlier saves as much. */
  ghost predicate BestMove(E: seq<real>, L: seq<seq<real>>, T: real, a: seq<nat>, i: nat, p: nat)
    requires WellFormed(E, L, |a|) && IsAssignment(E, a, |a|)
  {
    && p < |E|
    && Candidate(E, L, T, a, i, Order(E)[p])
    && (forall i': nat, p': nat :: p' < |E| && Candidate(E, L, T, a, i', Order(E)[p']) ==>
          Saving(E, a, i', Order(E)[p']) <= Saving(E, a, i, Order(E)[p]))
    && (forall i': nat, p': nat ::
          p' < |E| && Before(i', p', i, p) && Candidate(E, L, T, a, i', Order(E)[p']) ==>
          Saving(E, a, i', Order(E)[p']) < Saving(E, a, i, Order(E)[p]))
  }

  ghost predicate Stuck(E: seq<real>, L: seq<seq<real>>, T: real, a: seq<nat>)
    requires WellFormed(E, L, |a|) && IsAssignment(E, a, |a|)
  {
    forall i: nat, j: nat :: !Candidate(E, L, T, a, i, j)
  }

  /** The assignments the search goes through, from the initial one to one it cannot leave. */
  ghost predicate GreedyRun(E: seq<real>, L: seq<seq<real>>, T: real, n: nat, run: seq<seq<nat>>)
    requires WellFormed(E, L, n)
  {
    && GreedyPrefix(E, L, T, n, run)
    && Stuck(E, L, T, run[|run| - 1])
  }

  ghost predicate GreedyPrefix(E: seq<real>, L: seq<seq<real>>, T: real, n: nat, run: seq<seq<nat>>)
    requires WellFormed(E, L, n)
  {
    && run != []
    && run[0] == Initial(E, L, T, n)
    && Feasible(L, T, run[0])
    && (forall k :: 0 <= k < |run| ==> IsAssignment(E, run[k], n))
    && forall k :: 0 <= k < |run| - 1 ==> Demotes(E, L, T, run[k], run[k + 1])
  }

  ghost predicate Demotes(E: seq<real>, L: seq<seq<real>>, T: real, a: seq<nat>, b: seq<nat>)
    requires WellFormed(E, L, |a|) && IsAssignment(E, a, |a|)
  {
    exists i: nat, p: nat :: BestMove(E, L, T, a, i, p) && b == a[i := Order(E)[p]]
  }

  // ----- termination -----

  /** How many points are strictly cheaper than `x`. */
  function CheaperThan(E: seq<real>, x: real): nat {
    if E == [] then 0 else (if E[0] < x then 1 else 0) + CheaperThan(E[1..], x)
  }

  lemma {:induction false} CheaperThanGrows(E: seq<real>, x: real, y: real)
    requires x <= y
    ensures CheaperThan(E, x) <= CheaperThan(E, y)
    ensures x < y && x in E ==> CheaperThan(E, x) < CheaperThan(E, y)
  {
    if E != [] {
      CheaperThanGrows(E[1..], x, y);
      assert E == [E[0]] + E[1..];
    }
  }

  /** Each demotion strictly lowers this, whatever the energies are. */
  function StepsLeft(E: seq<real>, a: seq<nat>): nat
    requires forall i :: 0 <= i < |a| ==> a[i] < |E|
  {
    if a == [] then 0 else CheaperThan(E, E[a[0]]) + StepsLeft(E, a[1..])
  }

  /** A demotion lowers both the measure and the energy, the latter by the saving. */
  lemma {:induction false} DemotionLowers(E: seq<real>, a: seq<nat>, i: nat, j: nat)
    requires forall k :: 0 <= k < |a| ==> a[k] < |E|
    requires i < |a| && j < |E| && E[j] < E[a[i]]
    ensures StepsLeft(E, a[i := j]) < StepsLeft(E, a)
    ensures Energy(E, a[i := j]) == Energy(E, a) - Saving(E, a, i, j)
  {
    var b := a[i := j];
    if i == 0 {
      assert b[1..] == a[1..];
      assert E[j] in E;
      CheaperThanGrows(E, E[j], E[a[0]]);
    } else {
      assert b[1..] == a[1..][i - 1 := j];
      DemotionLowers(E, a[1..], i - 1, j);
    }
  }

  // ----- the search -----

  datatype Result = Infeasible | Undefined | Plan(p99: real, energy: real, above: nat, used: set<nat>)

  function CountAbove(a: seq<nat>, cheapest: nat): nat {
    if a == [] then 0 else (if a[0] != cheapest then 1 else 0) + CountAbove(a[1..], cheapest)
  }

  function Used(a: seq<nat>): set<nat> {
    set i | 0 <= i < |a| :: a[i]
  }

  lemma MeanTimesCount(sum: real, n: real)
    requires n > 0.0
    ensures sum / n * n == sum
  {
  }

  function Mean(sum: real, n: nat): (m: real)
    requires n > 0
    ensures m * (n as real) == sum
  {
    MeanTimesCount(sum, n as real);
    sum / (n as real)
  }

  /** What the program reports about its final assignment; the mean over no requests is undefined. */
  function Report(E: seq<real>, L: seq<seq<real>>, a: seq<nat>): Result
    requires WellFormed(E, L, |a|) && IsAssignment(E, a, |a|)
  {
    if |a| == 0 then Undefined
    else Plan(P99(L, a), Mean(Energy(E, a), |a|), CountAbove(a, Cheapest(E)), Used(a))
  }

  /** The summed energy, one request at a time. */
  lemma {:induction false} EnergyIsSum(E: seq<real>, a: seq<nat>, j: nat)
    requires (forall i :: 0 <= i < |a| ==> a[i] < |E|) && j < |E|
    ensures Energy(E, []) == 0.0 && Energy(E, a + [j]) == Energy(E, a) + E[j]
  {
    if a == [] {
      assert ([] + [j])[1..] == [];
    } else {
      EnergyIsSum(E, a[1..], j);
      assert (a + [j])[1..] == a[1..] + [j];
    }
  }

  /** The requests that are not at this point. */
  function Away(a: seq<nat>, point: nat): set<nat> {
    set i | 0 <= i < |a| && a[i] != point
  }

  lemma {:induction false} AboveCounts(a: seq<nat>, cheapest: nat)
    ensures CountAbove(a, cheapest) == |Away(a, cheapest)|
    decreases |a|
  {
    if a != [] {
      var init, n := a[..|a| - 1], |a| - 1;
      AboveCounts(init, cheapest);
      CountAboveLast(a, cheapest);
      assert Away(a, cheapest) == Away(init, cheapest) + if a[n] != cheapest then {n} else {};
    }
  }

  lemma {:induction false} CountAboveLast(a: seq<nat>, cheapest: nat)
    requires a != []
    ensures CountAbove(a, cheapest) == CountAbove(a[..|a| - 1], cheapest) + if a[|a| - 1] != cheapest then 1 else 0
  {
    if |a| > 1 {
      CountAboveLast(a[1..], cheapest);
      assert a[1..][..|a| - 2] == a[..|a| - 1][1..];
    }
  }

  /** What is reported of an assignment: its p99, its mean energy, how many requests are not at the first
      of the cheapest points, and which points it uses; over no requests there is no mean. */
  lemma ReportMeans(E: seq<real>, L: seq<seq<real>>, a: seq<nat>)
    requires WellFormed(E, L, |a|) && IsAssignment(E, a, |a|)
    ensures a == [] <==> Report(E, L, a) == Undefined
    ensures a != [] ==>
              var r := Report(E, L, a);
              && r.Plan? && r.p99 == Pct(Sorted(Cur(L, a)), 99.0)
              && r.energy == Mean(Energy(E, a), |a|)
              && r.above == |Away(a, Cheapest(E))|
              && SamePoints(r.used, a)
  {
    if a != [] {
      AboveCounts(a, Cheapest(E));
      UsedAreThere(a);
      assert P99(L, a) == Pct(Sorted(Cur(L, a)), 99.0);
    }
  }

  predicate SamePoints(used: set<nat>, a: seq<nat>) {
    && (forall j :: j in used ==> j in a)
    && forall i :: 0 <= i < |a| ==> a[i] in used
  }

  lemma UsedAreThere(a: seq<nat>)
    ensures SamePoints(Used(a), a)
  {
  }

  /** The candidate at a position of the scan. */
  predicate CandidateAt(E: seq<real>, L: seq<seq<real>>, T: real, a: seq<nat>, i: nat, p: nat)
    requires WellFormed(E, L, |a|) && IsAssignment(E, a, |a|)
  {
    p < |E| && Candidate(E, L, T, a, i, Order(E)[p])
  }

  function SavingAt(E: seq<real>, a: seq<nat>, i: nat, p: nat): real
    requires IsAssignment(E, a, |a|)
  {
    if i < |a| && p < |E| then Saving(E, a, i, Order(E)[p]) else 0.0
  }

  /** What a scan that has reached request `i`, position `p` knows about its best so far. */
  ghost predicate ScannedTo(
      E: seq<real>, L: seq<seq<real>>, T: real, a: seq<nat>, i: nat, p: nat, best: Option<(nat, nat)>)
    requires WellFormed(E, L, |a|) && IsAssignment(E, a, |a|)
  {
    match best
    case None => forall x: nat, y: nat :: Before(x, y, i, p) ==> !CandidateAt(E, L, T, a, x, y)
    case Some((bi, bp)) =>
      && Before(bi, bp, i, p) && CandidateAt(E, L, T, a, bi, bp)
      && (forall x: nat, y: nat :: Before(x, y, i, p) && CandidateAt(E, L, T, a, x, y) ==>
            SavingAt(E, a, x, y) <= SavingAt(E, a, bi, bp))
      && (forall x: nat, y: nat :: Before(x, y, bi, bp) && CandidateAt(E, L, T, a, x, y) ==>
            SavingAt(E, a, x, y) < SavingAt(E, a, bi, bp))
  }

  lemma ScanOne(E: seq<real>, L: seq<seq<real>>, T: real, a: seq<nat>, i: nat, p: nat, best: Option<(nat, nat)>,
      best': Option<(nat, nat)>)
    requires WellFormed(E, L, |a|) && IsAssignment(E, a, |a|)
    requires ScannedTo(E, L, T, a, i, p, best)
    requires best' == best || best' == Some((i, p))
    requires best' == Some((i, p)) ==>
               CandidateAt(E, L, T, a, i, p) &&
                   (best.Some? ==> SavingAt(E, a, best.value.0, best.value.1) < SavingAt(E, a, i, p))
    requires best' == best ==>
               CandidateAt(E, L, T, a, i, p) ==>
                   best.Some? && SavingAt(E, a, i, p) <= SavingAt(E, a, best.value.0, best.value.1)
    ensures ScannedTo(E, L, T, a, i, p + 1, best')
  {
    forall x: nat, y: nat | Before(x, y, i, p + 1)
      ensures Before(x, y, i, p) || (x == i && y == p)
    {
    }
  }

  lemma ScanRow(E: seq<real>, L: seq<seq<real>>, T: real, a: seq<nat>, i: nat, best: Option<(nat, nat)>)
    requires WellFormed(E, L, |a|) && IsAssignment(E, a, |a|)
    requires ScannedTo(E, L, T, a, i, |E|, best)
    ensures ScannedTo(E, L, T, a, i + 1, 0, best)
  {
    forall x: nat, y: nat | Before(x, y, i + 1, 0) && CandidateAt(E, L, T, a, x, y)
      ensures Before(x, y, i, |E|)
    {
    }
  }

  lemma PositionOf(E: seq<real>, j: nat) returns (p: nat)
    requires j < |E|
    ensures p < |E| && Order(E)[p] == j
  {
    OrderFromOrders(E, 0);
    assert j in Order(E);
    p :| p < |Order(E)| && Order(E)[p] == j;
  }

  lemma ScanDone(E: seq<real>, L: seq<seq<real>>, T: real, a: seq<nat>, best: Option<(nat, nat)>)
    requires WellFormed(E, L, |a|) && IsAssignment(E, a, |a|)
    requires ScannedTo(E, L, T, a, |a|, 0, best)
    ensures best.Some? ==> BestMove(E, L, T, a, best.value.0, best.value.1)
    ensures best.None? ==> Stuck(E, L, T, a)
  {
    match best
    case None =>
      forall i: nat, j: nat
        ensures !Candidate(E, L, T, a, i, j)
      {
        if i < |a| && j < |E| {
          var p := PositionOf(E, j);
          assert Before(i, p, |a|, 0);
        }
      }
    case Some((bi, bp)) =>
      forall x: nat, y: nat | y < |E| && Candidate(E, L, T, a, x, Order(E)[y])
        ensures Saving(E, a, x, Order(E)[y]) <= Saving(E, a, bi, Order(E)[bp])
        ensures Before(x, y, bi, bp) ==> Saving(E, a, x, Order(E)[y]) < Saving(E, a, bi, Order(E)[bp])
      {
        assert CandidateAt(E, L, T, a, x, y) && Before(x, y, |a|, 0);
      }
  }

  /** Replacing one latency is what moving one request does. */
  lemma CurMoves(E: seq<real>, L: seq<seq<real>>, a: seq<nat>, i: nat, j: nat)
    requires WellFormed(E, L, |a|) && IsAssignment(E, a, |a|) && i < |a| && j < |E|
    ensures Cur(L, a[i := j]) == Cur(L, a)[i := L[j][i]]
  {
  }

  lemma TrialMeets(E: seq<real>, L: seq<seq<real>>, T: real, a: seq<nat>, i: nat, j: nat)
    requires WellFormed(E, L, |a|) && IsAssignment(E, a, |a|) && i < |a| && j < |E|
    ensures Pct(Sorted(Cur(L, a)[i := L[j][i]]), 99.0) <= T <==> Feasible(L, T, a[i := j])
  {
    CurMoves(E, L, a, i, j);
  }

  /** One pass of the nested loops: the best demotion, or none at all. */
  method FindBest(E: seq<real>, L: seq<seq<real>>, T: real, a: seq<nat>, cur: seq<real>)
    returns (best: Option<(nat, nat)>)
    requires WellFormed(E, L, |a|) && IsAssignment(E, a, |a|) && cur == Cur(L, a)
    ensures best.Some? ==> BestMove(E, L, T, a, best.value.0, best.value.1)
    ensures best.None? ==> Stuck(E, L, T, a)
  {
    var order := Order(E);
    best := None;
    for i := 0 to |a|
      invariant ScannedTo(E, L, T, a, i, 0, best)
    {
      for p := 0 to |order|
        invariant ScannedTo(E, L, T, a, i, p, best)
      {
        ghost var before := best;
        var j := order[p];
        if E[j] < E[a[i]] {
          var saving := E[a[i]] - E[j];
          if best.None? || saving > E[a[best.value.0]] - E[order[best.value.1]] {
            var trial := cur[i := L[j][i]];
            TrialMeets(E, L, T, a, i, j);
            if Pct(Sorted(trial), 99.0) <= T {
              best := Some((i, p));
            }
          }
        }
        ScanOne(E, L, T, a, i, p, before, best);
      }
      ScanRow(E, L, T, a, i, best);
    }
    ScanDone(E, L, T, a, best);
  }

  method FirstPicks(E: seq<real>, L: seq<seq<real>>, T: real, n: nat) returns (assign: seq<nat>)
    requires WellFormed(E, L, n)
    ensures assign == Initial(E, L, T, n)
    ensures forall i, j :: 0 <= i < n && 0 <= j < |E| && L[j][i] <= T ==> L[assign[i]][i] <= T && E[assign[i]] <= E[j]
    ensures forall i, j :: 0 <= i < n && 0 <= j < |E| && L[assign[i]][i] > T ==> E[assign[i]] <= E[j]
  {
    assign := [];
    for i := 0 to n
      invariant |assign| == i
      invariant forall k :: 0 <= k < i ==> assign[k] == Pick(E, L, T, k)
      invariant forall k, j :: 0 <= k < i && 0 <= j < |E| && L[j][k] <= T ==>
              L[assign[k]][k] <= T && E[assign[k]] <= E[j]
      invariant forall k, j :: 0 <= k < i && 0 <= j < |E| && L[assign[k]][k] > T ==> E[assign[k]] <= E[j]
    {
      PickIsCheapest(E, L, T, n, i);
      forall j | 0 <= j < |E|
        ensures E[Cheapest(E)] <= E[j]
      {
        CheapestIsCheapest(E, j);
      }
      assign := assign + [Pick(E, L, T, i)];
    }
  }

  lemma GreedyExtends(E: seq<real>, L: seq<seq<real>>, T: real, n: nat, run: seq<seq<nat>>, i: nat, p: nat)
    requires WellFormed(E, L, n) && GreedyPrefix(E, L, T, n, run)
    requires BestMove(E, L, T, run[|run| - 1], i, p)
    ensures var a := run[|run| - 1];
            var b := a[i := Order(E)[p]];
            && GreedyPrefix(E, L, T, n, run + [b])
            && StepsLeft(E, b) < StepsLeft(E, a)
            && Cur(L, b) == Cur(L, a)[i := L[Order(E)[p]][i]]
  {
    var a := run[|run| - 1];
    var b := a[i := Order(E)[p]];
    DemotionLowers(E, a, i, Order(E)[p]);
    CurMoves(E, L, a, i, Order(E)[p]);
    assert Demotes(E, L, T, a, b);
    var longer := run + [b];
    forall k | 0 <= k < |longer| - 1
      ensures Demotes(E, L, T, longer[k], longer[k + 1])
    {
      if k < |run| - 1 {
        assert Demotes(E, L, T, run[k], run[k + 1]);
      }
    }
  }

  /** The whole optimiser: None exactly when the first picks miss the threshold, and otherwise the
      end of the greedy run that starts from them. */
  method Optimise(E: seq<real>, L: seq<seq<real>>, T: real)
    returns (r: Result, assign: seq<nat>, ghost run: seq<seq<nat>>)
    requires |L| > 0 && WellFormed(E, L, |L[0]|)
    ensures r.Infeasible? <==> !Feasible(L, T, Initial(E, L, T, |L[0]|))
    ensures !r.Infeasible? ==>
              && GreedyRun(E, L, T, |L[0]|, run)
              && assign == run[|run| - 1]
              && r == Report(E, L, assign)
  {
    var n := |L[0]|;
    assign := FirstPicks(E, L, T, n);
    run := [assign];
    var cur := Cur(L, assign);
    if Pct(Sorted(cur), 99.0) > T {
      return Infeasible, assign, run;
    }
    while true
      invariant GreedyPrefix(E, L, T, n, run) && assign == run[|run| - 1]
      invariant cur == Cur(L, assign)
      decreases StepsLeft(E, assign)
    {
      var best := FindBest(E, L, T, assign, cur);
      if best.None? {
        break;
      }
      var (i, p) := best.value;
      var j := Order(E)[p];
      GreedyExtends(E, L, T, n, run, i, p);
      cur := cur[i := L[j][i]];
      assign := assign[i := j];
      run := run + [assign];
    }
    r := Report(E, L, assign);
  }

  // ----- what holds for every number of requests -----

  /** Along the run every assignment meets the threshold and each costs strictly less than the one
      before. */
  lemma {:induction false} EnergyFalls(
      E: seq<real>, L: seq<seq<real>>, T: real, n: nat, run: seq<seq<nat>>, k: nat, l: nat)
    requires WellFormed(E, L, n) && GreedyPrefix(E, L, T, n, run) && k <= l < |run|
    ensures Feasible(L, T, run[l])
    ensures Energy(E, run[l]) <= Energy(E, run[k])
    ensures k < l ==> Energy(E, run[l]) < Energy(E, run[k])
    decreases l
  {
    if l > 0 {
      assert Demotes(E, L, T, run[l - 1], run[l]);
      var i: nat, p: nat :| BestMove(E, L, T, run[l - 1], i, p) && run[l] == run[l - 1][i := Order(E)[p]];
      DemotionLowers(E, run[l - 1], i, Order(E)[p]);
      if k < l {
        EnergyFalls(E, L, T, n, run, k, l - 1);
      }
    }
  }

  /** The result meets the threshold, costs no more than the first picks, and no single request can
      be moved to a strictly cheaper point. */
  lemma ResultIsLocallyOptimal(E: seq<real>, L: seq<seq<real>>, T: real, n: nat, run: seq<seq<nat>>)
    requires WellFormed(E, L, n) && GreedyRun(E, L, T, n, run)
    ensures var a := run[|run| - 1];
            && Feasible(L, T, a)
            && Energy(E, a) <= Energy(E, Initial(E, L, T, n))
            && forall i: nat, j: nat :: i < n && j < |E| && E[j] < E[a[i]] ==> !Feasible(L, T, a[i := j])
  {
    EnergyFalls(E, L, T, n, run, 0, |run| - 1);
    StuckIsLocal(E, L, T, run[|run| - 1]);
  }

  lemma StuckIsLocal(E: seq<real>, L: seq<seq<real>>, T: real, a: seq<nat>)
    requires WellFormed(E, L, |a|) && IsAssignment(E, a, |a|) && Stuck(E, L, T, a)
    ensures forall i: nat, j: nat :: i < |a| && j < |E| && E[j] < E[a[i]] ==> !Feasible(L, T, a[i := j])
  {
    forall i: nat, j: nat | i < |a| && j < |E| && E[j] < E[a[i]]
      ensures !Feasible(L, T, a[i := j])
    {
      assert !Candidate(E, L, T, a, i, j);
    }
  }
}
