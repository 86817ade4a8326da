/** Contiguous idle gaps from unevenly spaced samples, and how much of them a controller can use. */
module IdleFraction {
  import opened GuardTypes

  type Gap = (real, real)

  predicate Increasing(ts: seq<real>) {
    forall i, j :: 0 <= i < j < |ts| ==> ts[i] < ts[j]
  }

  /** Sample `k` says idle, and covers the time `t` up to the next sample. */
  predicate IdleBy(ts: seq<real>, idle: seq<bool>, k: int, t: real)
    requires |ts| == |idle|
  {
    0 <= k < |ts| - 1 && idle[k] && ts[k] <= t < ts[k + 1]
  }

  /** Idle at `t`, as far as the first `n` sample spans say. */
  ghost predicate IdleAt(ts: seq<real>, idle: seq<bool>, n: int, t: real)
    requires |ts| == |idle|
  {
    exists k :: k < n && IdleBy(ts, idle, k, t)
  }

  predicate Within(g: Gap, t: real) {
    g.0 <= t < g.1
  }

  ghost predicate InSome(gaps: seq<Gap>, t: real) {
    exists i :: 0 <= i < |gaps| && Within(gaps[i], t)
  }

  /** In order, none empty, and never touching. */
  predicate Separated(gaps: seq<Gap>) {
    && (forall i :: 0 <= i < |gaps| ==> gaps[i].0 < gaps[i].1)
    && forall i, j :: 0 <= i < j < |gaps| ==> gaps[i].1 < gaps[j].0
  }

  /** The summed length of the first `n` idle spans. */
  function IdleTime(ts: seq<real>, idle: seq<bool>, n: nat): real
    requires |ts| == |idle| && (n == 0 || n < |ts|)
  {
    if n == 0 then 0.0 else IdleTime(ts, idle, n - 1) + if idle[n - 1] then ts[n] - ts[n - 1] else 0.0
  }

  function Total(gaps: seq<Gap>): real {
    if gaps == [] then 0.0 else Total(gaps[..|gaps| - 1]) + (gaps[|gaps| - 1].1 - gaps[|gaps| - 1].0)
  }

  /** The gaps of the first `i` spans, the open one closed where the scan has got to. */
  ghost predicate GapsUpTo(ts: seq<real>, idle: seq<bool>, i: nat, gaps: seq<Gap>)
    requires |ts| == |idle| && i < |ts|
  {
    && Separated(gaps)
    && (gaps != [] ==> gaps[|gaps| - 1].1 <= ts[i])
    && Total(gaps) == IdleTime(ts, idle, i)
    && Cover(ts, idle, i, gaps)
  }

  lemma InSomeAppend(gaps: seq<Gap>, g: Gap, t: real)
    ensures InSome(gaps + [g], t) <==> InSome(gaps, t) || Within(g, t)
  {
    var all := gaps + [g];
    if i :| 0 <= i < |gaps| && Within(gaps[i], t) {
      assert Within(all[i], t);
    }
    if Within(g, t) {
      assert Within(all[|gaps|], t);
    }
  }

  lemma IdleAtNext(ts: seq<real>, idle: seq<bool>, i: nat, t: real)
    requires |ts| == |idle| && i + 1 < |ts|
    ensures IdleAt(ts, idle, i + 1, t) <==> IdleAt(ts, idle, i, t) || IdleBy(ts, idle, i, t)
  {
  }

  lemma TotalAppend(gaps: seq<Gap>, g: Gap)
    ensures Total(gaps + [g]) == Total(gaps) + (g.1 - g.0)
  {
    assert (gaps + [g])[..|gaps|] == gaps;
  }

  lemma SeparatedAppend(gaps: seq<Gap>, g: Gap)
    requires Separated(gaps) && g.0 < g.1 && (gaps != [] ==> gaps[|gaps| - 1].1 < g.0)
    ensures Separated(gaps + [g])
  {
    var all := gaps + [g];
    forall i, j | 0 <= i < j < |all|
      ensures all[i].1 < all[j].0
    {
      if j < |gaps| {
        assert all[i] == gaps[i] && all[j] == gaps[j];
      } else {
        assert all[i] == gaps[i] && all[j] == g;
        assert i < |gaps| - 1 ==> gaps[i].1 < gaps[|gaps| - 1].0 < gaps[|gaps| - 1].1;
      }
    }
  }

  /** The gaps cover the idle time of the first `i` spans. */
  ghost predicate Cover(ts: seq<real>, idle: seq<bool>, i: nat, gaps: seq<Gap>)
    requires |ts| == |idle|
  {
    forall t :: InSome(gaps, t) <==> IdleAt(ts, idle, i, t)
  }

  lemma CoverAppend(ts: seq<real>, idle: seq<bool>, i: nat, gaps: seq<Gap>)
    requires |ts| == |idle| && i + 1 < |ts| && idle[i] && Cover(ts, idle, i, gaps)
    ensures Cover(ts, idle, i + 1, gaps + [(ts[i], ts[i + 1])])
  {
    var g := (ts[i], ts[i + 1]);
    forall t
      ensures InSome(gaps + [g], t) <==> IdleAt(ts, idle, i + 1, t)
    {
      InSomeAppend(gaps, g, t);
      IdleAtNext(ts, idle, i, t);
    }
  }

  /** An idle span after a busy one opens a gap. */
  lemma Opens(ts: seq<real>, idle: seq<bool>, i: nat, gaps: seq<Gap>)
    requires |ts| == |idle| && i + 1 < |ts| && ts[i] < ts[i + 1] && GapsUpTo(ts, idle, i, gaps) && idle[i]
    requires gaps != [] ==> gaps[|gaps| - 1].1 < ts[i]
    ensures GapsUpTo(ts, idle, i + 1, gaps + [(ts[i], ts[i + 1])])
  {
    CoverAppend(ts, idle, i, gaps);
    SeparatedAppend(gaps, (ts[i], ts[i + 1]));
    TotalAppend(gaps, (ts[i], ts[i + 1]));
  }

  lemma CoverLengthens(ts: seq<real>, idle: seq<bool>, i: nat, init: seq<Gap>, from: real)
    requires |ts| == |idle| && i + 1 < |ts| && from < ts[i] < ts[i + 1] && idle[i]
    requires Cover(ts, idle, i, init + [(from, ts[i])])
    ensures Cover(ts, idle, i + 1, init + [(from, ts[i + 1])])
  {
    var before, after := (from, ts[i]), (from, ts[i + 1]);
    forall t
      ensures InSome(init + [after], t) <==> IdleAt(ts, idle, i + 1, t)
    {
      InSomeAppend(init, after, t);
      InSomeAppend(init, before, t);
      IdleAtNext(ts, idle, i, t);
    }
  }

  lemma SeparatedLengthens(init: seq<Gap>, g: Gap, end: real)
    requires Separated(init + [g]) && g.1 < end
    ensures Separated(init + [(g.0, end)])
  {
    var gaps := init + [g];
    assert gaps[|init|] == g && gaps[..|init|] == init;
    forall k | 0 <= k < |init|
      ensures init[k] == gaps[k]
    {
    }
    SeparatedAppend(init, (g.0, end));
  }

  /** An idle span after an idle one lengthens the gap that is open. */
  lemma Lengthens(ts: seq<real>, idle: seq<bool>, i: nat, init: seq<Gap>, from: real)
    requires |ts| == |idle| && i + 1 < |ts| && ts[i] < ts[i + 1] && GapsUpTo(ts, idle, i, init + [(from, ts[i])]) &&
            idle[i]
    ensures GapsUpTo(ts, idle, i + 1, init + [(from, ts[i + 1])])
  {
    var before, after := (from, ts[i]), (from, ts[i + 1]);
    assert (init + [before])[|init|] == before;
    SeparatedLengthens(init, before, ts[i + 1]);
    CoverLengthens(ts, idle, i, init, from);
    TotalAppend(init, before);
    TotalAppend(init, after);
  }

  /** A busy span leaves the gaps as they are, and closed. */
  lemma Closes(ts: seq<real>, idle: seq<bool>, i: nat, gaps: seq<Gap>)
    requires |ts| == |idle| && i + 1 < |ts| && ts[i] < ts[i + 1] && GapsUpTo(ts, idle, i, gaps) && !idle[i]
    ensures GapsUpTo(ts, idle, i + 1, gaps)
    ensures gaps != [] ==> gaps[|gaps| - 1].1 < ts[i + 1]
  {
    assert ts[i] < ts[i + 1];
    forall t
      ensures InSome(gaps, t) <==> IdleAt(ts, idle, i + 1, t)
    {
      IdleAtNext(ts, idle, i, t);
    }
  }

  /** The closed gaps with the open one, if any, closed at `t`. */
  function ClosedAt(out: seq<Gap>, start: Option<real>, t: real): seq<Gap> {
    if start.Some? then out + [(start.value, t)] else out
  }

  /** The loop's state: closed gaps that no busy span touches, and the start of the open one. */
  ghost predicate Scanned(ts: seq<real>, idle: seq<bool>, i: nat, out: seq<Gap>, start: Option<real>)
    requires |ts| == |idle| && i < |ts|
  {
    && GapsUpTo(ts, idle, i, ClosedAt(out, start, ts[i]))
    && (start.None? && out != [] ==> out[|out| - 1].1 < ts[i])
  }

  function NextOut(out: seq<Gap>, start: Option<real>, t0: real, idle: bool): seq<Gap> {
    if !idle && start.Some? then out + [(start.value, t0)] else out
  }

  function NextStart(start: Option<real>, t0: real, idle: bool): Option<real> {
    if !idle then None else if start.None? then Some(t0) else start
  }

  lemma SpanScanned(ts: seq<real>, idle: seq<bool>, i: nat, out: seq<Gap>, start: Option<real>)
    requires |ts| == |idle| && i + 1 < |ts| && ts[i] < ts[i + 1] && Scanned(ts, idle, i, out, start)
    ensures Scanned(ts, idle, i + 1, NextOut(out, start, ts[i], idle[i]), NextStart(start, ts[i], idle[i]))
  {
    if !idle[i] {
      Closes(ts, idle, i, ClosedAt(out, start, ts[i]));
    } else if start.None? {
      Opens(ts, idle, i, out);
    } else {
      Lengthens(ts, idle, i, out, start.value);
    }
  }

  /** Gaps are exactly the idle time: a time is in a gap exactly when the sample covering it says
      idle, the gaps are in order and never touch, and their lengths add up to the idle spans. */
  method GapsFrom(ts: seq<real>, idle: seq<bool>) returns (out: seq<Gap>)
    requires |ts| == |idle| && Increasing(ts)
    ensures Separated(out)
    ensures forall t :: InSome(out, t) <==> IdleAt(ts, idle, |ts| - 1, t)
    ensures Total(out) == IdleTime(ts, idle, if |ts| == 0 then 0 else |ts| - 1)
  {
    out := [];
    if |ts| == 0 {
      return;
    }
    var start: Option<real> := None;
    var i := 0;
    while i < |ts| - 1
      invariant 0 <= i <= |ts| - 1
      invariant Scanned(ts, idle, i, out, start)
    {
      SpanScanned(ts, idle, i, out, start);
      var t0 := ts[i];
      if idle[i] {
        if start.None? {
          start := Some(t0);
        }
      } else if start.Some? {
        out := out + [(start.value, t0)];
        start := None;
      }
      i := i + 1;
    }
    if start.Some? {
      out := out + [(start.value, ts[|ts| - 1])];
    }
  }

  // ----- what a controller with a reserve can use -----

  function Usable(gaps: seq<Gap>, tau: real): real {
    if gaps == [] then 0.0 else
    var left := gaps[|gaps| - 1].1 - gaps[|gaps| - 1].0 - tau;
    Usable(gaps[..|gaps| - 1], tau) + if left > 0.0 then left else 0.0
  }

  /** A longer reserve never makes more usable; no reserve leaves everything; a reserve costs at most
      itself per gap. */
  lemma {:induction false} UsableBounds(gaps: seq<Gap>, tau: real, longer: real)
    requires Separated(gaps) && 0.0 <= tau <= longer
    ensures 0.0 <= Usable(gaps, longer) <= Usable(gaps, tau) <= Total(gaps)
    ensures Usable(gaps, 0.0) == Total(gaps)
    ensures Usable(gaps, tau) >= Total(gaps) - tau * (|gaps| as real)
    decreases |gaps|
  {
    if gaps != [] {
      var init := gaps[..|gaps| - 1];
      UsableBounds(init, tau, longer);
      assert tau * (|gaps| as real) == tau * (|init| as real) + tau;
      assert gaps[|gaps| - 1].0 < gaps[|gaps| - 1].1;
    }
  }

  /** The gaps without their first `tau`, and none of those that are no longer than that. */
  function Late(gaps: seq<Gap>, tau: real): (r: seq<Gap>)
    ensures |r| <= |gaps|
  {
    if gaps == [] then [] else
    var g, rest := gaps[|gaps| - 1], Late(gaps[..|gaps| - 1], tau);
    if g.0 + tau < g.1 then rest + [(g.0 + tau, g.1)] else rest
  }

  /** At least `tau` into a gap. */
  ghost predicate LateInSome(gaps: seq<Gap>, tau: real, t: real) {
    exists i :: 0 <= i < |gaps| && gaps[i].0 + tau <= t < gaps[i].1
  }

  /** The usable time is exactly the time that is at least `tau` into a gap: it is the total of intervals
      that are apart and cover just that time. */
  lemma UsableIsLate(gaps: seq<Gap>, tau: real)
    requires Separated(gaps) && tau >= 0.0
    ensures Usable(gaps, tau) == Total(Late(gaps, tau))
    ensures Separated(Late(gaps, tau))
    ensures forall t :: InSome(Late(gaps, tau), t) <==> LateInSome(gaps, tau, t)
  {
    UsableIsTotal(gaps, tau);
    LateSeparated(gaps, tau);
    forall t
      ensures InSome(Late(gaps, tau), t) <==> LateInSome(gaps, tau, t)
    {
      LateCovers(gaps, tau, t);
    }
  }

  lemma {:induction false} UsableIsTotal(gaps: seq<Gap>, tau: real)
    ensures Usable(gaps, tau) == Total(Late(gaps, tau))
    decreases |gaps|
  {
    if gaps != [] {
      var g := gaps[|gaps| - 1];
      UsableIsTotal(gaps[..|gaps| - 1], tau);
      TotalAppend(Late(gaps[..|gaps| - 1], tau), (g.0 + tau, g.1));
    }
  }

  lemma {:induction false} LateSeparated(gaps: seq<Gap>, tau: real)
    requires Separated(gaps) && tau >= 0.0
    ensures Separated(Late(gaps, tau))
    ensures Late(gaps, tau) != [] ==> Late(gaps, tau)[|Late(gaps, tau)| - 1].1 <= gaps[|gaps| - 1].1
    decreases |gaps|
  {
    if gaps != [] {
      var n := |gaps| - 1;
      var init, g := gaps[..n], gaps[n];
      LateSeparated(init, tau);
      assert n > 0 ==> init[n - 1].1 < g.0;
      if g.0 + tau < g.1 {
        SeparatedAppend(Late(init, tau), (g.0 + tau, g.1));
      }
    }
  }

  lemma {:induction false} LateCovers(gaps: seq<Gap>, tau: real, t: real)
    ensures InSome(Late(gaps, tau), t) <==> LateInSome(gaps, tau, t)
    decreases |gaps|
  {
    if gaps != [] {
      var g := gaps[|gaps| - 1];
      LateCovers(gaps[..|gaps| - 1], tau, t);
      InSomeAppend(Late(gaps[..|gaps| - 1], tau), (g.0 + tau, g.1), t);
      LateInLast(gaps, tau, t);
    }
  }

  lemma LateInLast(gaps: seq<Gap>, tau: real, t: real)
    requires gaps != []
    ensures var n := |gaps| - 1;
            LateInSome(gaps, tau, t) <==>
            LateInSome(gaps[..n], tau, t) || gaps[n].0 + tau <= t < gaps[n].1
  {
    var n := |gaps| - 1;
    if i :| 0 <= i < |gaps| && gaps[i].0 + tau <= t < gaps[i].1 {
      assert i < n ==> gaps[..n][i] == gaps[i];
    }
    if i :| 0 <= i < n && gaps[..n][i].0 + tau <= t < gaps[..n][i].1 {
      assert gaps[i].0 + tau <= t < gaps[i].1;
    }
  }
}
