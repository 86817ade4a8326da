/** From arrivals to the clock timeline: what the compiled plan does, and exactly when it does it. */
module IdleTimeline {
  import opened OrderStatistics
  import opened IdleOracle
  import opened ClockPlan

  predicate FromZero(arrivals: seq<real>) {
    forall i :: 0 <= i < |arrivals| ==> arrivals[i] >= 0.0
  }

  function BurstsOf(arrivals: seq<real>, quiet: real): seq<Window> {
    Bursts(Sorted(arrivals), quiet)
  }

  /** The clock that the sorted events put in force. */
  function CompiledClock(arrivals: seq<real>, quiet: real, low: int, high: int, lead: real, drain: real, t: real): int {
    ClockAt(SortEvents(Events(BurstsOf(arrivals, quiet), low, high, lead, drain)), high, t)
  }

  ghost function IntendedClock(
      arrivals: seq<real>, quiet: real, low: int, high: int, lead: real, drain: real, t: real): int {
    if LowAt(BurstsOf(arrivals, quiet), lead, drain, t) then low else high
  }

  lemma BurstsOfArrivals(arrivals: seq<real>, quiet: real, gap: real)
    requires FromZero(arrivals) && gap <= quiet
    ensures Apart(BurstsOf(arrivals, quiet), gap)
    ensures arrivals != [] ==> BurstsOf(arrivals, quiet) != [] && BurstsOf(arrivals, quiet)[0].0 >= 0.0
  {
    SortedSorts(arrivals);
    BurstsApart(Sorted(arrivals), quiet);
    if arrivals != [] {
      assert Sorted(arrivals)[0] in multiset(arrivals);
    }
  }

  /** With a quiet threshold of at least `lead + drain` the compiled clock is the intended one. */
  lemma CompiledIsIntended(arrivals: seq<real>, quiet: real, low: int, high: int, lead: real, drain: real, t: real)
    requires FromZero(arrivals) && lead >= 0.0 && drain > 0.0 && quiet >= lead + drain
    ensures CompiledClock(arrivals, quiet, low, high, lead, drain, t) ==
            IntendedClock(arrivals, quiet, low, high, lead, drain, t)
  {
    var ws := BurstsOf(arrivals, quiet);
    BurstsOfArrivals(arrivals, quiet, lead + drain);
    RoomyMeansIntended(ws, low, high, lead, drain, t);
  }

  /** The intended clock is high at every arrival. */
  lemma IntendedIsHighAtArrivals(arrivals: seq<real>, quiet: real, low: int, high: int, lead: real, drain: real, k: nat)
    requires FromZero(arrivals) && lead >= 0.0 && drain > 0.0 && quiet >= 0.0 && k < |arrivals|
    ensures IntendedClock(arrivals, quiet, low, high, lead, drain, arrivals[k]) == high
  {
    var ts, ws, t := Sorted(arrivals), BurstsOf(arrivals, quiet), arrivals[k];
    SortedSorts(arrivals);
    assert t in multiset(arrivals);
    assert t in ts;
    var j :| 0 <= j < |ts| && ts[j] == t;
    BurstsSplitAtQuiet(ts, quiet);
    assert Placed(ts, quiet, ws, j);
    var w := QuietBefore(ts, quiet, j);
    BurstsOfArrivals(arrivals, quiet, 0.0);
    WindowsRise(ws, 0.0);
    forall i
      ensures !LowAfter(ws, lead, drain, t, i)
    {
      if 0 <= i < w {
        assert ws[i + 1].0 <= ws[w].0;
      }
    }
  }

  /** The whole oracle plan. */
  method Compile(arrivals: seq<real>, quiet: real, low: int, high: int, lead: real, drain: real, horizon: real)
    returns (plan: seq<Transition>)
    requires FromZero(arrivals) && lead >= 0.0 && drain > 0.0 && quiet >= lead + drain
    ensures Alternates(plan) && InOrder(plan) && forall i :: 0 <= i < |plan| ==> plan[i].0 <= horizon
    ensures forall t :: t <= horizon ==>
            ClockAt(plan, high, t) == IntendedClock(arrivals, quiet, low, high, lead, drain, t)
    ensures forall k :: 0 <= k < |arrivals| && arrivals[k] <= horizon ==> ClockAt(plan, high, arrivals[k]) == high
  {
    var windows := BurstWindows(arrivals, quiet);
    plan := PlanTransitions(windows, low, high, lead, drain, horizon);
    forall t | t <= horizon
      ensures ClockAt(plan, high, t) == IntendedClock(arrivals, quiet, low, high, lead, drain, t)
    {
      CompiledIsIntended(arrivals, quiet, low, high, lead, drain, t);
    }
    forall k | 0 <= k < |arrivals| && arrivals[k] <= horizon
      ensures ClockAt(plan, high, arrivals[k]) == high
    {
      IntendedIsHighAtArrivals(arrivals, quiet, low, high, lead, drain, k);
    }
  }

  // ----- exactly when -----

  ghost predicate AlwaysIntended(quiet: real, lead: real, drain: real) {
    forall arrivals, low: int, high: int, t: real ::
      FromZero(arrivals) ==>
        CompiledClock(arrivals, quiet, low, high, lead, drain, t)
            == IntendedClock(arrivals, quiet, low, high, lead, drain, t)
  }

  /** Two windows closer than `lead + drain`: the rise for the second is due before the first has
      drained, so from then on the clock stays low until the second has drained. */
  lemma EagerWindows(lead: real, drain: real, g: real, b: real, t: real)
    requires lead >= 0.0 && drain > 0.0 && 0.0 < g < lead + drain && g <= b && drain <= t < b + drain
    ensures ClockAt(SortEvents(Events([(0.0, 0.0), (g, b)], 0, 1, lead, drain)), 1, t) == 0
  {
    var ws := [(0.0, 0.0), (g, b)];
    ClockOfWindows(ws, 0, 1, lead, drain, t);
    assert StillLow(ws, 0, 1, lead, drain, t, 0);
  }

  lemma TwoArrivals(quiet: real, g: real)
    requires g > quiet && g >= 0.0
    ensures BurstsOf([0.0, g], quiet) == [(0.0, 0.0), (g, g)]
  {
    var ts := [0.0, g];
    SortedIsItself(ts);
    BurstsNext(ts, quiet, 1);
    assert ts[..1] == [0.0] && ts[..2] == ts;
  }

  lemma ThreeArrivals(quiet: real, g: real)
    requires g > quiet > 0.0
    ensures BurstsOf([0.0, g, g + quiet], quiet) == [(0.0, 0.0), (g, g + quiet)]
  {
    var ts := [0.0, g, g + quiet];
    SortedIsItself(ts);
    BurstsNext(ts, quiet, 1);
    BurstsNext(ts, quiet, 2);
    assert ts[..1] == [0.0] && ts[..3] == ts;
    assert Grown([(0.0, 0.0), (g, g)], g + quiet, false) == [(0.0, 0.0), (g, g + quiet)];
  }

  /** One schedule: the compiled clock is the intended one at every time exactly when no two of its
      bursts are closer than `lead + drain`. */
  lemma IntendedIff(arrivals: seq<real>, quiet: real, low: int, high: int, lead: real, drain: real)
    requires FromZero(arrivals) && lead >= 0.0 && drain > 0.0 && quiet >= 0.0 && low < high
    ensures (forall t :: CompiledClock(arrivals, quiet, low, high, lead, drain, t) ==
                         IntendedClock(arrivals, quiet, low, high, lead, drain, t)) <==>
            Roomy(BurstsOf(arrivals, quiet), lead + drain)
  {
    var ws := BurstsOf(arrivals, quiet);
    BurstsOfArrivals(arrivals, quiet, 0.0);
    if Roomy(ws, lead + drain) {
      forall t
        ensures CompiledClock(arrivals, quiet, low, high, lead, drain, t) ==
                IntendedClock(arrivals, quiet, low, high, lead, drain, t)
      {
        RoomyMeansIntended(ws, low, high, lead, drain, t);
      }
    } else {
      var t := TightIsLow(ws, low, high, lead, drain);
      assert CompiledClock(arrivals, quiet, low, high, lead, drain, t) == low;
      assert IntendedClock(arrivals, quiet, low, high, lead, drain, t) == high;
    }
  }

  /** Two arrivals further apart than `quiet` but closer than `lead + drain`. */
  lemma TooEager(quiet: real, lead: real, drain: real)
    requires lead >= 0.0 && drain > 0.0 && quiet < lead + drain
    ensures !AlwaysIntended(quiet, lead, drain)
  {
    var g := (NotNegative(quiet) + lead + drain) / 2.0;
    TwoArrivals(quiet, g);
    var ws := [(0.0, 0.0), (g, g)];
    assert !(ws[0].1 + (lead + drain) <= ws[1].0);
    var t := TightIsLow(ws, 0, 1, lead, drain);
    assert FromZero([0.0, g]);
    assert CompiledClock([0.0, g], quiet, 0, 1, lead, drain, t) == 0;
    assert IntendedClock([0.0, g], quiet, 0, 1, lead, drain, t) == 1;
  }

  /** The timeline is the intended one for every schedule exactly when the quiet threshold covers the
      lead and the drain. */
  lemma AlwaysIntendedIff(quiet: real, lead: real, drain: real)
    requires lead >= 0.0 && drain > 0.0
    ensures AlwaysIntended(quiet, lead, drain) <==> quiet >= lead + drain
  {
    if quiet >= lead + drain {
      forall arrivals, low: int, high: int, t: real | FromZero(arrivals)
        ensures CompiledClock(arrivals, quiet, low, high, lead, drain, t)
                == IntendedClock(arrivals, quiet, low, high, lead, drain, t)
      {
        CompiledIsIntended(arrivals, quiet, low, high, lead, drain, t);
      }
    } else {
      TooEager(quiet, lead, drain);
    }
  }

  // ----- high at every arrival -----

  /** The clock in force when arrival `k` comes. */
  function ClockAtArrival(arrivals: seq<real>, quiet: real, low: int, high: int, lead: real, drain: real, k: nat): int
    requires k < |arrivals|
  {
    CompiledClock(arrivals, quiet, low, high, lead, drain, arrivals[k])
  }

  ghost predicate AlwaysHighAtArrivals(quiet: real, lead: real, drain: real) {
    forall arrivals, low: int, high: int, k: nat ::
      FromZero(arrivals) && low < high && k < |arrivals| ==>
        ClockAtArrival(arrivals, quiet, low, high, lead, drain, k) == high
  }

  /** One schedule: every arrival meets the high clock exactly when, at each arrival, a rise has come
      since each burst that has drained by then. */
  lemma HighAtArrivalsIff(arrivals: seq<real>, quiet: real, low: int, high: int, lead: real, drain: real)
    requires low < high
    ensures var ws := BurstsOf(arrivals, quiet);
            (forall k :: 0 <= k < |arrivals| ==>
               ClockAtArrival(arrivals, quiet, low, high, lead, drain, k) == high) <==>
            (forall k, i :: 0 <= k < |arrivals| && 0 <= i < |ws| && Fall(ws[i], drain) <= arrivals[k] ==>
               RisenSince(ws, lead, drain, arrivals[k], i))
  {
    var ws := BurstsOf(arrivals, quiet);
    forall k | 0 <= k < |arrivals|
      ensures ClockAtArrival(arrivals, quiet, low, high, lead, drain, k) == high <==>
              forall i :: 0 <= i < |ws| && Fall(ws[i], drain) <= arrivals[k] ==>
                  RisenSince(ws, lead, drain, arrivals[k], i)
    {
      HighIff(ws, low, high, lead, drain, arrivals[k]);
    }
  }

  /** Without a quiet threshold every arrival time opens a window of its own. */
  lemma {:induction false} OpensWindow(ts: seq<real>, quiet: real, k: nat) returns (w: nat)
    requires IsSorted(ts) && k < |ts| && quiet <= 0.0
    ensures w < |Bursts(ts, quiet)| && Bursts(ts, quiet)[w].0 == ts[k]
    decreases k
  {
    if k > 0 && ts[k - 1] == ts[k] {
      w := OpensWindow(ts, quiet, k - 1);
    } else {
      BurstsSplitAtQuiet(ts, quiet);
      assert Placed(ts, quiet, Bursts(ts, quiet), k);
      assert k > 0 ==> ts[k - 1] <= ts[k];
      w := QuietBefore(ts, quiet, k);
    }
  }

  /** The same for an arrival of an unsorted schedule. */
  lemma OpensWindowAt(arrivals: seq<real>, quiet: real, k: nat) returns (w: nat)
    requires k < |arrivals| && quiet <= 0.0
    ensures w < |BurstsOf(arrivals, quiet)| && BurstsOf(arrivals, quiet)[w].0 == arrivals[k]
  {
    var ts := Sorted(arrivals);
    SortedSorts(arrivals);
    assert arrivals[k] in multiset(arrivals);
    assert arrivals[k] in ts;
    var j :| 0 <= j < |ts| && ts[j] == arrivals[k];
    w := OpensWindow(ts, quiet, j);
  }

  /** Rises at the arrivals themselves are never overridden, however close the windows are. */
  lemma HighWithoutLead(arrivals: seq<real>, quiet: real, low: int, high: int, drain: real, k: nat)
    requires FromZero(arrivals) && low < high && k < |arrivals| && quiet <= 0.0 && drain > 0.0
    ensures ClockAtArrival(arrivals, quiet, low, high, 0.0, drain, k) == high
  {
    var w := OpensWindowAt(arrivals, quiet, k);
    HighIff(BurstsOf(arrivals, quiet), low, high, 0.0, drain, arrivals[k]);
    assert Rise(BurstsOf(arrivals, quiet)[w], 0.0) == arrivals[k];
  }

  /** A schedule with an arrival at the low clock. */
  lemma LowAtAnArrival(quiet: real, lead: real, drain: real)
    requires lead >= 0.0 && drain > 0.0 && quiet < lead + drain && (lead > 0.0 || quiet > 0.0)
    ensures !AlwaysHighAtArrivals(quiet, lead, drain)
  {
    var middle := (NotNegative(quiet) + lead + drain) / 2.0;
    if lead > 0.0 {
      var g := if middle >= drain then middle else drain;
      TwoArrivals(quiet, g);
      EagerWindows(lead, drain, g, g, g);
      assert FromZero([0.0, g]) && ClockAtArrival([0.0, g], quiet, 0, 1, lead, drain, 1) == 0;
    } else {
      var g := if middle >= drain - quiet then middle else drain - quiet;
      ThreeArrivals(quiet, g);
      EagerWindows(lead, drain, g, g + quiet, g + quiet);
      assert FromZero([0.0, g, g + quiet]) && ClockAtArrival([0.0, g, g + quiet], quiet, 0, 1, lead, drain, 2) == 0;
    }
  }

  /** Every arrival of every schedule meets the high clock exactly when the quiet threshold covers the
      lead and the drain, or there is neither a threshold nor a lead. */
  lemma AlwaysHighIff(quiet: real, lead: real, drain: real)
    requires lead >= 0.0 && drain > 0.0
    ensures AlwaysHighAtArrivals(quiet, lead, drain) <==> quiet >= lead + drain || (quiet <= 0.0 && lead == 0.0)
  {
    if quiet >= lead + drain || (quiet <= 0.0 && lead == 0.0) {
      forall arrivals, low: int, high: int, k: nat | FromZero(arrivals) && low < high && k < |arrivals|
        ensures ClockAtArrival(arrivals, quiet, low, high, lead, drain, k) == high
      {
        if quiet >= lead + drain {
          CompiledIsIntended(arrivals, quiet, low, high, lead, drain, arrivals[k]);
          IntendedIsHighAtArrivals(arrivals, quiet, low, high, lead, drain, k);
        } else {
          HighWithoutLead(arrivals, quiet, low, high, drain, k);
        }
      }
    } else {
      LowAtAnArrival(quiet, lead, drain);
    }
  }
}
