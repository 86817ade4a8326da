/** On/off arrival generation in integer time: bursts of draws separated by genuine idle gaps. */
module Arrivals {

  /** An on-period, an off-period, and how long to generate for. */
  datatype OnOff = OnOff(on: nat, off: nat, duration: nat)

  predicate Cycles(p: OnOff) {
    p.on + p.off > 0
  }

  function Cycle(p: OnOff): nat {
    p.on + p.off
  }

  predicate InOn(p: OnOff, t: nat)
    requires Cycles(p)
  {
    t % Cycle(p) < p.on
  }

  ghost predicate Positive(draw: nat -> int) {
    forall k :: draw(k) > 0
  }

  /** The times the draws land on, from time `t` with draw `k` next, and with each its draw. An
      off-phase is skipped to the start of the next cycle without a draw. */
  ghost function Landings(p: OnOff, draw: nat -> int, t: nat, k: nat): (ls: seq<nat>)
    requires Cycles(p) && Positive(draw)
    ensures forall i :: 0 <= i < |ls| ==> t < ls[i]
    ensures forall i, j :: 0 <= i < j < |ls| ==> ls[i] < ls[j]
    decreases p.duration - t
  {
    if t >= p.duration then []
    else if InOn(p, t) then [t + draw(k)] + Landings(p, draw, t + draw(k), k + 1)
    else Landings(p, draw, NextCycle(p, t), k)
  }

  /** The start of the next cycle. */
  function NextCycle(p: OnOff, t: nat): (u: nat)
    requires Cycles(p)
    ensures u > t && u % Cycle(p) == 0 && u - t <= Cycle(p)
  {
    var c, q := Cycle(p), t / Cycle(p);
    assert t + (c - t % c) == (q + 1) * c;
    MultipleMod(q + 1, c);
    t + (c - t % c)
  }

  lemma MultipleMod(q: nat, c: nat)
    requires c > 0
    ensures q * c % c == 0
    decreases q
  {
    if q > 0 {
      MultipleMod(q - 1, c);
      assert q * c == (q - 1) * c + c;
      ModStep((q - 1) * c, c);
    }
  }

  lemma ModStep(x: nat, c: nat)
    requires c > 0
    ensures (x + c) % c == x % c
  {
    var q, r := x / c, x % c;
    assert x + c == (q + 1) * c + r;
    QuotientIs(x + c, c, q + 1);
  }

  lemma Distribute(a: nat, n: nat, c: nat)
    ensures (a + 1 + n) * c == a * c + c + n * c
    ensures n * c >= 0
  {
  }

  lemma MultiplesApart(a: nat, b: nat, c: nat)
    ensures a < b ==> a * c + c <= b * c
  {
    if a < b {
      Distribute(a, b - a - 1, c);
    }
  }

  lemma QuotientIs(v: nat, c: nat, q: nat)
    requires c > 0 && q * c <= v < (q + 1) * c
    ensures v / c == q && v % c == v - q * c
  {
    var d, r := v / c, v % c;
    assert v == d * c + r;
    MultiplesApart(d, q, c);
    MultiplesApart(q, d, c);
  }

  // ----- when the loop ends -----

  /** One pass of the loop body at time `t`, with the next draw `d`, whatever the periods are. */
  function Pass(p: OnOff, t: nat, d: nat): nat {
    var phase := if Cycle(p) > 0 then t % Cycle(p) else 0;
    if phase < p.on then t + d else t + (Cycle(p) - phase)
  }

  lemma PassAdvances(p: OnOff, t: nat, d: nat)
    requires Cycles(p) && d > 0
    ensures Pass(p, t, d) == (if InOn(p, t) then t + d else NextCycle(p, t)) > t
  {
  }

  /** With neither an on- nor an off-period a pass leaves the time as it is. */
  lemma PassIsStuck(p: OnOff, t: nat, d: nat)
    requires !Cycles(p)
    ensures Pass(p, t, d) == t
  {
  }

  /** The time after `n` passes of the loop, whichever draws they take. */
  ghost function TimeAfter(p: OnOff, draws: nat -> int, n: nat): nat
    requires Positive(draws)
  {
    if n == 0 then 0 else
    var t := TimeAfter(p, draws, n - 1);
    if t >= p.duration then t else Pass(p, t, draws(n - 1))
  }

  /** The loop has ended by then. */
  ghost predicate OverAfter(p: OnOff, draws: nat -> int, n: nat)
    requires Positive(draws)
  {
    TimeAfter(p, draws, n) >= p.duration
  }

  lemma {:induction false} TimeGrows(p: OnOff, draws: nat -> int, n: nat)
    requires Positive(draws) && Cycles(p)
    ensures TimeAfter(p, draws, n) >= if n <= p.duration then n else p.duration
  {
    if n > 0 {
      TimeGrows(p, draws, n - 1);
      PassAdvances(p, TimeAfter(p, draws, n - 1), draws(n - 1));
    }
  }

  lemma {:induction false} TimeStandsStill(p: OnOff, draws: nat -> int, n: nat)
    requires Positive(draws) && !Cycles(p)
    ensures TimeAfter(p, draws, n) == 0
  {
    if n > 0 {
      TimeStandsStill(p, draws, n - 1);
      PassIsStuck(p, 0, draws(n - 1));
    }
  }

  /** The loop ends, for every stream of draws, exactly when there is an on- or an off-period or
      nothing to generate. */
  lemma EndsIff(p: OnOff, draws: nat -> int)
    requires Positive(draws)
    ensures (exists n: nat :: OverAfter(p, draws, n)) <==> Cycles(p) || p.duration == 0
  {
    if Cycles(p) {
      TimeGrows(p, draws, p.duration);
      assert OverAfter(p, draws, p.duration);
    } else {
      forall n: nat
        ensures OverAfter(p, draws, n) <==> p.duration == 0
      {
        TimeStandsStill(p, draws, n);
      }
      assert OverAfter(p, draws, 0) <==> p.duration == 0;
    }
  }

  // ----- what the loop keeps -----

  /** A landing is kept when it falls before the end and in an on-period. */
  predicate Kept(p: OnOff, t: nat)
    requires Cycles(p)
  {
    t < p.duration && InOn(p, t)
  }

  function Filter(p: OnOff, ls: seq<nat>): (out: seq<nat>)
    requires Cycles(p)
  {
    if ls == [] then [] else (if Kept(p, ls[0]) then [ls[0]] else []) + Filter(p, ls[1..])
  }

  lemma FilterCons(p: OnOff, out: seq<nat>, t: nat, rest: seq<nat>)
    requires Cycles(p)
    ensures out + Filter(p, [t] + rest) == (if Kept(p, t) then out + [t] else out) + Filter(p, rest)
  {
    assert ([t] + rest)[1..] == rest;
  }

  lemma DrawStep(p: OnOff, draw: nat -> int, t: nat, k: nat, out: seq<nat>)
    requires Cycles(p) && Positive(draw) && t < p.duration && InOn(p, t)
    ensures var u := t + draw(k);
            && u > t
            && out + Filter(p, Landings(p, draw, t, k)) ==
               (if Kept(p, u) then out + [u] else out) + Filter(p, Landings(p, draw, u, k + 1))
  {
    FilterCons(p, out, t + draw(k), Landings(p, draw, t + draw(k), k + 1));
  }

  lemma SkipStep(p: OnOff, draw: nat -> int, t: nat, k: nat)
    requires Cycles(p) && Positive(draw) && t < p.duration && !InOn(p, t)
    ensures Landings(p, draw, t, k) == Landings(p, draw, NextCycle(p, t), k)
  {
  }

  method OnOffArrivals(p: OnOff, draw: nat -> int) returns (out: seq<nat>)
    requires Cycles(p) && Positive(draw)
    ensures out == Filter(p, Landings(p, draw, 0, 0))
  {
    out := [];
    var t: nat, k: nat := 0, 0;
    ghost var all := Filter(p, Landings(p, draw, 0, 0));
    while t < p.duration
      invariant out + Filter(p, Landings(p, draw, t, k)) == all
      decreases p.duration - t
    {
      if InOn(p, t) {
        DrawStep(p, draw, t, k, out);
        t := t + draw(k);
        k := k + 1;
        if Kept(p, t) {
          out := out + [t];
        }
      } else {
        SkipStep(p, draw, t, k);
        t := NextCycle(p, t);
      }
    }
  }

  /** The arrivals are exactly the landings that fall in an on-period before the end, in order. */
  lemma {:induction false} FilterKeepsExactly(p: OnOff, ls: seq<nat>)
    requires Cycles(p) && forall i, j :: 0 <= i < j < |ls| ==> ls[i] < ls[j]
    ensures var out := Filter(p, ls);
            && (forall t :: t in out <==> t in ls && Kept(p, t))
            && (forall i, j :: 0 <= i < j < |out| ==> out[i] < out[j])
  {
    if ls != [] {
      FilterKeepsExactly(p, ls[1..]);
      assert ls == [ls[0]] + ls[1..];
      var rest := Filter(p, ls[1..]);
      forall j | 0 <= j < |rest|
        ensures ls[0] < rest[j]
      {
        assert rest[j] in rest;
      }
    }
  }

  lemma ArrivalsAreOnTime(p: OnOff, draw: nat -> int)
    requires Cycles(p) && Positive(draw)
    ensures var out := Filter(p, Landings(p, draw, 0, 0));
            && (forall i, j :: 0 <= i < j < |out| ==> out[i] < out[j])
            && (forall t :: t in out <==> t in Landings(p, draw, 0, 0) && t < p.duration && t % (p.on + p.off) < p.on)
  {
    FilterKeepsExactly(p, Landings(p, draw, 0, 0));
  }

  /** One draw from an on-period time that is the previous landing or starts a cycle. */
  ghost predicate DrawnFrom(p: OnOff, from: nat, landing: nat, d: int, prior: nat)
    requires Cycles(p)
  {
    InOn(p, from) && from < p.duration && landing == from + d && (from == prior || from % Cycle(p) == 0)
  }

  /** Every landing is one draw after an on-period time that is a landing itself or starts a cycle:
      idle gaps come from the schedule, not from long draws out of an off-period. */
  lemma {:induction false} LandingsStartInOn(p: OnOff, draw: nat -> int, t: nat, k: nat, i: nat)
    returns (from: nat)
    requires Cycles(p) && Positive(draw) && i < |Landings(p, draw, t, k)|
    ensures var ls := Landings(p, draw, t, k);
            DrawnFrom(p, from, ls[i], draw(k + i), if i == 0 then t else ls[i - 1])
    decreases p.duration - t
  {
    if InOn(p, t) {
      if i == 0 {
        from := t;
      } else {
        from := LandingsStartInOn(p, draw, t + draw(k), k + 1, i - 1);
      }
    } else {
      SkipStep(p, draw, t, k);
      from := LandingsStartInOn(p, draw, NextCycle(p, t), k, i);
    }
  }

  /** With no on-period nothing arrives. */
  lemma {:induction false} NoOnNoArrivals(p: OnOff, draw: nat -> int, t: nat, k: nat)
    requires Cycles(p) && Positive(draw) && p.on == 0
    ensures Landings(p, draw, t, k) == []
    decreases p.duration - t
  {
    if t < p.duration {
      NoOnNoArrivals(p, draw, NextCycle(p, t), k);
    }
  }

  /** The draws go on to the end: with an on-period, the last landing is at or after the end, or so is the
      next time at which a draw could start. */
  lemma {:induction false} LandingsReachEnd(p: OnOff, draw: nat -> int, t: nat, k: nat)
    requires Cycles(p) && Positive(draw) && p.on > 0 && t < p.duration
    ensures var ls := Landings(p, draw, t, k);
            && (ls == [] ==> !InOn(p, t) && NextCycle(p, t) >= p.duration)
            && (ls != [] ==>
                  var last := ls[|ls| - 1];
                  last >= p.duration || (!InOn(p, last) && NextCycle(p, last) >= p.duration))
    decreases p.duration - t
  {
    if InOn(p, t) {
      if t + draw(k) < p.duration {
        LandingsReachEnd(p, draw, t + draw(k), k + 1);
      }
    } else {
      SkipStep(p, draw, t, k);
      CycleStartsOn(p, t);
      if NextCycle(p, t) < p.duration {
        LandingsReachEnd(p, draw, NextCycle(p, t), k);
      }
    }
  }

  lemma CycleStartsOn(p: OnOff, t: nat)
    requires Cycles(p) && p.on > 0
    ensures InOn(p, NextCycle(p, t))
  {
  }
}
