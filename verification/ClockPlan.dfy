/** Compiling bursts into a merged clock timeline, and when that timeline is the intended one. */
module ClockPlan {
  import opened Sequences
  import opened IdleOracle

  // ----- events, sorted as pairs -----

  predicate Leq(x: Transition, y: Transition) {
    x.0 < y.0 || (x.0 == y.0 && x.1 <= y.1)
  }

  predicate InOrder(es: seq<Transition>) {
    forall i, j :: 0 <= i < j < |es| ==> Leq(es[i], es[j])
  }

  function InsertEvent(e: Transition, es: seq<Transition>): (r: seq<Transition>)
    ensures |r| == |es| + 1
  {
    if es == [] || Leq(e, es[0]) then [e] + es else [es[0]] + InsertEvent(e, es[1..])
  }

  function SortEvents(es: seq<Transition>): (r: seq<Transition>)
    ensures |r| == |es|
  {
    if es == [] then [] else InsertEvent(es[0], SortEvents(es[1..]))
  }

  lemma {:induction false} InsertEventPermutes(e: Transition, es: seq<Transition>)
    ensures multiset(InsertEvent(e, es)) == multiset(es) + multiset{e}
  {
    if es == [] || Leq(e, es[0]) {
      ConsContents(e, es);
    } else {
      InsertEventPermutes(e, es[1..]);
      UnconsContents(es);
      ConsContents(es[0], InsertEvent(e, es[1..]));
    }
  }

  lemma ConsInOrder(e: Transition, es: seq<Transition>)
    requires InOrder(es) && (es != [] ==> Leq(e, es[0]))
    ensures InOrder([e] + es)
  {
    forall j | 0 <= j < |es|
      ensures Leq(e, es[j])
    {
      assert j > 0 ==> Leq(es[0], es[j]);
    }
  }

  lemma {:induction false} InsertEventSorts(e: Transition, es: seq<Transition>)
    requires InOrder(es)
    ensures InOrder(InsertEvent(e, es))
  {
    if es == [] || Leq(e, es[0]) {
      ConsInOrder(e, es);
    } else {
      InsertEventSorts(e, es[1..]);
      ConsInOrder(es[0], InsertEvent(e, es[1..]));
    }
  }

  lemma {:induction false} SortEventsSorts(es: seq<Transition>)
    ensures InOrder(SortEvents(es)) && multiset(SortEvents(es)) == multiset(es)
  {
    if es != [] {
      SortEventsSorts(es[1..]);
      InsertEventSorts(es[0], SortEvents(es[1..]));
      InsertEventPermutes(es[0], SortEvents(es[1..]));
      UnconsContents(es);
    }
  }

  // ----- what a timeline means -----

  /** The clock in force at `t`: that of the last transition up to `t`, else the one set before. */
  function ClockAt(plan: seq<Transition>, before: int, t: real): int {
    if plan == [] then before
    else if plan[|plan| - 1].0 <= t then plan[|plan| - 1].1
    else ClockAt(plan[..|plan| - 1], before, t)
  }

  lemma {:induction false} ClockAtAppendLater(plan: seq<Transition>, more: seq<Transition>, before: int, t: real)
    requires forall i :: 0 <= i < |more| ==> more[i].0 > t
    ensures ClockAt(plan + more, before, t) == ClockAt(plan, before, t)
    decreases |more|
  {
    if more == [] {
      assert plan + more == plan;
    } else {
      assert (plan + more)[..|plan + more| - 1] == plan + more[..|more| - 1];
      ClockAtAppendLater(plan, more[..|more| - 1], before, t);
    }
  }

  // ----- the compiler -----

  function NotNegative(x: real): real {
    if x >= 0.0 then x else 0.0
  }

  /** Up before a burst, from time zero on; down after it has drained. */
  function Rise(w: Window, lead: real): real {
    NotNegative(w.0 - lead)
  }

  function Fall(w: Window, drain: real): real {
    w.1 + drain
  }

  function Events(ws: seq<Window>, low: int, high: int, lead: real, drain: real): (es: seq<Transition>)
    ensures |es| == 2 * |ws|
  {
    if ws == [] then []
    else Events(ws[..|ws| - 1], low, high, lead, drain) +
         [(Rise(ws[|ws| - 1], lead), high), (Fall(ws[|ws| - 1], drain), low)]
  }

  lemma EventsOfNext(ws: seq<Window>, i: nat, low: int, high: int, lead: real, drain: real)
    requires i < |ws|
    ensures Events(ws[..i + 1], low, high, lead, drain) ==
            Events(ws[..i], low, high, lead, drain) + [(Rise(ws[i], lead), high), (Fall(ws[i], drain), low)]
  {
    assert ws[..i + 1][..i] == ws[..i];
  }

  predicate Alternates(plan: seq<Transition>) {
    forall i :: 0 <= i < |plan| - 1 ==> plan[i].1 != plan[i + 1].1
  }

  /** Dropping transitions to the clock already set, and all after the horizon, changes nothing up to
      the horizon; nothing else is dropped. */
  method PlanTransitions(ws: seq<Window>, low: int, high: int, lead: real, drain: real, horizon: real)
    returns (merged: seq<Transition>)
    ensures Alternates(merged) && InOrder(merged)
    ensures forall i :: 0 <= i < |merged| ==> merged[i].0 <= horizon
    ensures forall before, t :: t <= horizon ==>
              ClockAt(merged, before, t) == ClockAt(SortEvents(Events(ws, low, high, lead, drain)), before, t)
    ensures drain >= 0.0 && (forall w :: w in ws ==> w.1 >= 0.0) ==>
              forall i :: 0 <= i < |merged| ==> merged[i].0 >= 0.0
  {
    var events := CollectEvents(ws, low, high, lead, drain);
    SortEventsSorts(events);
    merged := MergeEvents(SortEvents(events), horizon);
    if drain >= 0.0 && forall w :: w in ws ==> w.1 >= 0.0 {
      NoEventBeforeZero(ws, low, high, lead, drain);
      forall i | 0 <= i < |merged|
        ensures merged[i].0 >= 0.0
      {
        assert merged[i] in multiset(SortEvents(events));
      }
    }
  }

  lemma {:induction false} NoEventBeforeZero(ws: seq<Window>, low: int, high: int, lead: real, drain: real)
    requires drain >= 0.0 && forall w :: w in ws ==> w.1 >= 0.0
    ensures forall e :: e in Events(ws, low, high, lead, drain) ==> e.0 >= 0.0
    decreases |ws|
  {
    if ws != [] {
      NoEventBeforeZero(ws[..|ws| - 1], low, high, lead, drain);
      assert ws[|ws| - 1] in ws;
    }
  }

  /** The first loop. */
  method CollectEvents(ws: seq<Window>, low: int, high: int, lead: real, drain: real) returns (events: seq<Transition>)
    ensures events == Events(ws, low, high, lead, drain)
  {
    events := [];
    for i := 0 to |ws|
      invariant events == Events(ws[..i], low, high, lead, drain)
    {
      var (a, b) := ws[i];
      events := events + [(NotNegative(a - lead), high)];
      events := events + [(b + drain, low)];
      EventsOfNext(ws, i, low, high, lead, drain);
    }
    assert ws[..|ws|] == ws;
  }

  /** The second loop, over the sorted events. */
  method MergeEvents(events: seq<Transition>, horizon: real) returns (merged: seq<Transition>)
    requires InOrder(events)
    ensures Alternates(merged) && InOrder(merged)
    ensures forall i :: 0 <= i < |merged| ==> merged[i].0 <= horizon && merged[i] in events
    ensures forall before, t :: t <= horizon ==> ClockAt(merged, before, t) == ClockAt(events, before, t)
  {
    merged := [];
    for i := 0 to |events|
      invariant Merges(events, i, merged, horizon)
    {
      var (t, c) := events[i];
      if merged != [] && merged[|merged| - 1].1 == c {
        SkipKeeps(events, i, merged, horizon);
        continue;
      }
      if t > horizon {
        LateTailKeeps(events, i, merged, horizon);
        return;
      }
      AppendKeeps(events, i, merged, horizon);
      merged := merged + [(t, c)];
    }
    assert events[..|events|] == events;
  }

  /** The merge loop after `i` events. */
  ghost predicate Merges(events: seq<Transition>, i: nat, merged: seq<Transition>, horizon: real)
    requires i <= |events|
  {
    && Alternates(merged) && InOrder(merged)
    && (forall k :: 0 <= k < |merged| ==> merged[k].0 <= horizon && merged[k] in events[..i])
    && (i > 0 && merged == [] ==> events[0].0 > horizon)
    && (forall before, t :: t <= horizon ==> ClockAt(merged, before, t) == ClockAt(events[..i], before, t))
  }

  lemma SkipKeeps(events: seq<Transition>, i: nat, merged: seq<Transition>, horizon: real)
    requires i < |events| && InOrder(events) && Merges(events, i, merged, horizon)
    requires merged != [] && merged[|merged| - 1].1 == events[i].1
    ensures Merges(events, i + 1, merged, horizon)
  {
    assert events[..i + 1][..i] == events[..i];
    var m := merged[|merged| - 1];
    assert m in events[..i];
    var k :| 0 <= k < i && events[k] == m;
    assert Leq(events[k], events[i]);
    forall x | x in events[..i]
      ensures x in events[..i + 1]
    {
      var j :| 0 <= j < i && events[j] == x;
      assert events[..i + 1][j] == x;
    }
  }

  lemma OneMore(plan: seq<Transition>, e: Transition, before: int, t: real)
    ensures ClockAt(plan + [e], before, t) == if e.0 <= t then e.1 else ClockAt(plan, before, t)
  {
    assert (plan + [e])[..|plan|] == plan;
  }

  lemma AppendInOrder(events: seq<Transition>, i: nat, merged: seq<Transition>)
    requires i < |events| && InOrder(events) && InOrder(merged)
    requires forall k :: 0 <= k < |merged| ==> merged[k] in events[..i]
    ensures InOrder(merged + [events[i]])
    ensures forall k :: 0 <= k < |merged| ==> merged[k] in events[..i + 1]
    ensures events[i] in events[..i + 1]
  {
    assert events[..i + 1][i] == events[i];
    forall k | 0 <= k < |merged|
      ensures merged[k] in events[..i + 1] && Leq(merged[k], events[i])
    {
      var j :| 0 <= j < i && events[..i][j] == merged[k];
      assert events[..i + 1][j] == merged[k] && Leq(events[j], events[i]);
    }
  }

  lemma AppendKeeps(events: seq<Transition>, i: nat, merged: seq<Transition>, horizon: real)
    requires i < |events| && InOrder(events) && Merges(events, i, merged, horizon)
    requires merged == [] || merged[|merged| - 1].1 != events[i].1
    requires events[i].0 <= horizon
    ensures Merges(events, i + 1, merged + [events[i]], horizon)
  {
    AppendInOrder(events, i, merged);
    assert events[..i + 1][..i] == events[..i];
    forall before, t | t <= horizon
      ensures ClockAt(merged + [events[i]], before, t) == ClockAt(events[..i + 1], before, t)
    {
      assert ClockAt(merged, before, t) == ClockAt(events[..i], before, t);
      OneMore(merged, events[i], before, t);
    }
  }

  lemma LateTailKeeps(events: seq<Transition>, i: nat, merged: seq<Transition>, horizon: real)
    requires i < |events| && InOrder(events) && Merges(events, i, merged, horizon)
    requires events[i].0 > horizon
    ensures forall before, t :: t <= horizon ==> ClockAt(merged, before, t) == ClockAt(events, before, t)
  {
    forall before, t | t <= horizon
      ensures ClockAt(merged, before, t) == ClockAt(events, before, t)
    {
      assert events == events[..i] + events[i..];
      forall k | 0 <= k < |events[i..]|
        ensures events[i..][k].0 > t
      {
        assert k > 0 ==> Leq(events[i], events[i + k]);
      }
      ClockAtAppendLater(events[..i], events[i..], before, t);
    }
  }

  // ----- the intended timeline -----

  // ----- the clock that compiled windows put in force -----

  /** The last transition up to `t`. */
  lemma {:induction false} InForce(es: seq<Transition>, before: int, t: real) returns (k: int)
    requires InOrder(es)
    ensures -1 <= k < |es|
    ensures forall i :: 0 <= i < |es| ==> (es[i].0 <= t <==> i <= k)
    ensures ClockAt(es, before, t) == if k == -1 then before else es[k].1
    decreases |es|
  {
    var n := |es| - 1;
    if n < 0 {
      k := -1;
    } else if es[n].0 <= t {
      k := n;
      assert forall i :: 0 <= i < n ==> Leq(es[i], es[n]);
    } else {
      k := InForce(es[..n], before, t);
      assert forall i :: 0 <= i < n ==> es[..n][i] == es[i];
    }
  }

  /** A fall at `x` that no rise up to `t` comes after. */
  ghost predicate Stays(es: seq<Transition>, low: int, high: int, t: real, x: real) {
    (x, low) in es && x <= t && forall y :: (y, high) in es && y <= t ==> !Leq((x, low), (y, high))
  }

  lemma NoneLater(es: seq<Transition>, k: int, t: real, e: Transition)
    requires InOrder(es) && -1 <= k < |es| && forall i :: 0 <= i < |es| ==> (es[i].0 <= t <==> i <= k)
    requires e in es && e.0 <= t
    ensures k >= 0 && Leq(e, es[k])
  {
    var j :| 0 <= j < |es| && es[j] == e;
    assert j == k || Leq(es[j], es[k]);
  }

  lemma ClockOfSorted(es: seq<Transition>, low: int, high: int, t: real)
    requires InOrder(es) && forall e :: e in es ==> e.1 == low || e.1 == high
    ensures ClockAt(es, high, t) == if exists x :: Stays(es, low, high, t, x) then low else high
  {
    var k := InForce(es, high, t);
    forall e | e in es && e.0 <= t
      ensures k >= 0 && Leq(e, es[k])
    {
      NoneLater(es, k, t, e);
    }
    if k >= 0 {
      assert es[k] in es && es[k] == (es[k].0, es[k].1);
      assert es[k].1 == low && low != high ==> Stays(es, low, high, t, es[k].0);
    }
  }

  predicate IsEventOf(e: Transition, w: Window, low: int, high: int, lead: real, drain: real) {
    e == (Rise(w, lead), high) || e == (Fall(w, drain), low)
  }

  lemma {:induction false} EventsAre(ws: seq<Window>, low: int, high: int, lead: real, drain: real, e: Transition)
    ensures e in Events(ws, low, high, lead, drain) <==>
            exists i :: 0 <= i < |ws| && IsEventOf(e, ws[i], low, high, lead, drain)
    decreases |ws|
  {
    var n := |ws| - 1;
    if n >= 0 {
      EventsAre(ws[..n], low, high, lead, drain, e);
      var last := [(Rise(ws[n], lead), high), (Fall(ws[n], drain), low)];
      assert e in last <==> IsEventOf(e, ws[n], low, high, lead, drain);
      assert forall i :: 0 <= i < n ==> ws[..n][i] == ws[i];
    }
  }

  /** Window `i` has drained by `t`, and no rise has come since. */
  predicate StillLow(ws: seq<Window>, low: int, high: int, lead: real, drain: real, t: real, i: int) {
    && 0 <= i < |ws| && Fall(ws[i], drain) <= t
    && forall m :: 0 <= m < |ws| && Rise(ws[m], lead) <= t ==>
         !Leq((Fall(ws[i], drain), low), (Rise(ws[m], lead), high))
  }

  /** For any windows, however close: the clock is low exactly when some window has drained and no
      rise has come since. */
  lemma ClockOfWindows(ws: seq<Window>, low: int, high: int, lead: real, drain: real, t: real)
    ensures ClockAt(SortEvents(Events(ws, low, high, lead, drain)), high, t) ==
            if exists i :: StillLow(ws, low, high, lead, drain, t, i) then low else high
  {
    var es := Events(ws, low, high, lead, drain);
    var sorted := SortEvents(es);
    SortEventsSorts(es);
    forall e
      ensures e in sorted <==> exists i :: 0 <= i < |ws| && IsEventOf(e, ws[i], low, high, lead, drain)
    {
      assert e in sorted <==> e in multiset(sorted);
      assert e in es <==> e in multiset(es);
      EventsAre(ws, low, high, lead, drain, e);
    }
    ClockOfSorted(sorted, low, high, t);
    if low != high {
      StaysIff(ws, sorted, low, high, lead, drain, t);
    }
  }

  lemma StaysIff(ws: seq<Window>, es: seq<Transition>, low: int, high: int, lead: real, drain: real, t: real)
    requires low != high
    requires forall e :: e in es <==> exists i :: 0 <= i < |ws| && IsEventOf(e, ws[i], low, high, lead, drain)
    ensures (exists x :: Stays(es, low, high, t, x)) <==> exists i :: StillLow(ws, low, high, lead, drain, t, i)
  {
    if x :| Stays(es, low, high, t, x) {
      var i :| 0 <= i < |ws| && IsEventOf((x, low), ws[i], low, high, lead, drain);
      forall m | 0 <= m < |ws| && Rise(ws[m], lead) <= t
        ensures !Leq((x, low), (Rise(ws[m], lead), high))
      {
        assert IsEventOf((Rise(ws[m], lead), high), ws[m], low, high, lead, drain);
      }
      assert StillLow(ws, low, high, lead, drain, t, i);
    }
    if i :| StillLow(ws, low, high, lead, drain, t, i) {
      var x := Fall(ws[i], drain);
      assert IsEventOf((x, low), ws[i], low, high, lead, drain);
      forall y | (y, high) in es && y <= t
        ensures !Leq((x, low), (y, high))
      {
        var m :| 0 <= m < |ws| && IsEventOf((y, high), ws[m], low, high, lead, drain);
      }
      assert Stays(es, low, high, t, x);
    }
  }

  /** A rise has come since window `i` had drained. */
  ghost predicate RisenSince(ws: seq<Window>, lead: real, drain: real, t: real, i: int)
    requires 0 <= i < |ws|
  {
    exists m :: 0 <= m < |ws| && Fall(ws[i], drain) <= Rise(ws[m], lead) <= t
  }

  lemma StillLowIff(ws: seq<Window>, low: int, high: int, lead: real, drain: real, t: real, i: int)
    requires low < high && 0 <= i < |ws|
    ensures StillLow(ws, low, high, lead, drain, t, i) <==>
            Fall(ws[i], drain) <= t && !RisenSince(ws, lead, drain, t, i)
  {
    if m :| 0 <= m < |ws| && Fall(ws[i], drain) <= Rise(ws[m], lead) <= t {
      assert Leq((Fall(ws[i], drain), low), (Rise(ws[m], lead), high));
    }
  }

  /** For any windows: the clock is high exactly when a rise has come since each window that has
      drained. */
  lemma HighIff(ws: seq<Window>, low: int, high: int, lead: real, drain: real, t: real)
    requires low < high
    ensures ClockAt(SortEvents(Events(ws, low, high, lead, drain)), high, t) == high <==>
            forall i :: 0 <= i < |ws| && Fall(ws[i], drain) <= t ==> RisenSince(ws, lead, drain, t, i)
  {
    ClockOfWindows(ws, low, high, lead, drain, t);
    forall i | 0 <= i < |ws|
      ensures StillLow(ws, low, high, lead, drain, t, i) <==>
              Fall(ws[i], drain) <= t && !RisenSince(ws, lead, drain, t, i)
    {
      StillLowIff(ws, low, high, lead, drain, t, i);
    }
  }

  // ----- and when that is the intended one -----

  /** Low from `drain` after a burst until `lead` before the next one, and after the last. */
  ghost predicate LowAt(ws: seq<Window>, lead: real, drain: real, t: real) {
    exists i :: LowAfter(ws, lead, drain, t, i)
  }

  /** Low by virtue of burst `i`. */
  predicate LowAfter(ws: seq<Window>, lead: real, drain: real, t: real, i: int) {
    0 <= i < |ws| && ws[i].1 + drain <= t && (i + 1 < |ws| ==> t < ws[i + 1].0 - lead)
  }

  /** Between any two windows there is room to go down and up again. */
  predicate Roomy(ws: seq<Window>, gap: real) {
    forall i :: 0 <= i < |ws| - 1 ==> ws[i].1 + gap <= ws[i + 1].0
  }

  predicate FromZeroOn(ws: seq<Window>) {
    ws != [] ==> ws[0].0 >= 0.0
  }

  lemma StillLowIsLow(ws: seq<Window>, low: int, high: int, lead: real, drain: real, t: real, i: int)
    requires lead >= 0.0 && drain > 0.0 && Apart(ws, 0.0) && FromZeroOn(ws) && Roomy(ws, lead + drain)
    requires low < high || Apart(ws, lead + drain)
    ensures StillLow(ws, low, high, lead, drain, t, i) <==> LowAfter(ws, lead, drain, t, i)
  {
    if 0 <= i < |ws| {
      WindowsRise(ws, 0.0);
      assert 0.0 <= ws[0].0 <= ws[i].0 <= ws[i].1;
      if i + 1 < |ws| {
        assert ws[i].1 + (lead + drain) <= ws[i + 1].0;
      }
      forall m | 0 <= m < |ws|
        ensures m <= i ==> Rise(ws[m], lead) < Fall(ws[i], drain)
        ensures m > i ==> Rise(ws[m], lead) >= ws[i + 1].0 - lead
      {
        assert m <= i ==> ws[m].0 <= ws[i].0;
        assert m > i ==> ws[i + 1].0 <= ws[m].0;
      }
    }
  }

  /** With room between the windows the clock is low in exactly the intended intervals. */
  lemma RoomyMeansIntended(ws: seq<Window>, low: int, high: int, lead: real, drain: real, t: real)
    requires lead >= 0.0 && drain > 0.0 && Apart(ws, 0.0) && FromZeroOn(ws) && Roomy(ws, lead + drain)
    requires low < high || Apart(ws, lead + drain)
    ensures ClockAt(SortEvents(Events(ws, low, high, lead, drain)), high, t) ==
            if LowAt(ws, lead, drain, t) then low else high
  {
    ClockOfWindows(ws, low, high, lead, drain, t);
    forall i
      ensures StillLow(ws, low, high, lead, drain, t, i) <==> LowAfter(ws, lead, drain, t, i)
    {
      StillLowIsLow(ws, low, high, lead, drain, t, i);
    }
  }

  /** The last gap that is too narrow. */
  lemma {:induction false} LastTight(ws: seq<Window>, gap: real, n: nat) returns (i: nat)
    requires n < |ws| && !Roomy(ws[..n + 1], gap)
    requires forall j :: n <= j < |ws| - 1 ==> ws[j].1 + gap <= ws[j + 1].0
    ensures i + 1 < |ws| && ws[i].1 + gap > ws[i + 1].0
    ensures forall j :: i < j < |ws| - 1 ==> ws[j].1 + gap <= ws[j + 1].0
  {
    if ws[n - 1].1 + gap > ws[n].0 {
      i := n - 1;
    } else {
      i := LastTight(ws, gap, n - 1);
    }
  }

  /** The last gap that is too narrow: no rise comes at the time its window has drained. */
  lemma NoRiseAtFall(ws: seq<Window>, lead: real, drain: real, i: nat, m: nat)
    requires lead >= 0.0 && drain > 0.0 && Apart(ws, 0.0) && FromZeroOn(ws)
    requires i + 1 < |ws| && m < |ws| && ws[i].1 + (lead + drain) > ws[i + 1].0
    requires forall j :: i < j < |ws| - 1 ==> ws[j].1 + (lead + drain) <= ws[j + 1].0
    ensures Rise(ws[m], lead) != Fall(ws[i], drain)
  {
    WindowsRiseTo(ws, 0.0, 0, i);
    if m <= i {
      WindowsRiseTo(ws, 0.0, m, i);
    } else if m > i + 1 {
      assert ws[m - 1].1 + (lead + drain) <= ws[m].0;
      assert ws[i].1 < ws[i + 1].0;
      WindowsRiseTo(ws, 0.0, i + 1, m - 1);
    }
  }

  lemma NotYetLow(ws: seq<Window>, lead: real, drain: real, i: nat, j: int)
    requires lead >= 0.0 && drain > 0.0 && Apart(ws, 0.0)
    requires i + 1 < |ws| && ws[i].1 + (lead + drain) > ws[i + 1].0
    ensures !LowAfter(ws, lead, drain, Fall(ws[i], drain), j)
  {
    if 0 <= j < i {
      WindowsRiseTo(ws, 0.0, j + 1, i);
    } else if i < j < |ws| {
      assert ws[i].1 < ws[i + 1].0;
      WindowsRiseTo(ws, 0.0, i + 1, j);
    }
  }

  /** Just after the last gap that is too narrow to have drained, the clock is low and was meant to be
      high. */
  lemma TightIsLow(ws: seq<Window>, low: int, high: int, lead: real, drain: real) returns (t: real)
    requires lead >= 0.0 && drain > 0.0 && Apart(ws, 0.0) && FromZeroOn(ws) && !Roomy(ws, lead + drain) && low < high
    ensures ClockAt(SortEvents(Events(ws, low, high, lead, drain)), high, t) == low && !LowAt(ws, lead, drain, t)
  {
    assert ws[..|ws|] == ws;
    var i := LastTight(ws, lead + drain, |ws| - 1);
    t := Fall(ws[i], drain);
    if RisenSince(ws, lead, drain, t, i) {
      var m :| 0 <= m < |ws| && Fall(ws[i], drain) <= Rise(ws[m], lead) <= t;
      NoRiseAtFall(ws, lead, drain, i, m);
    }
    StillLowIff(ws, low, high, lead, drain, t, i);
    ClockOfWindows(ws, low, high, lead, drain, t);
    forall j
      ensures !LowAfter(ws, lead, drain, t, j)
    {
      NotYetLow(ws, lead, drain, i, j);
    }
  }

  lemma WindowsRise(ws: seq<Window>, gap: real)
    requires gap >= 0.0 && Apart(ws, gap)
    ensures forall i, j :: 0 <= i <= j < |ws| ==> ws[i].0 <= ws[j].0 && ws[i].1 <= ws[j].1
  {
    forall i, j | 0 <= i <= j < |ws|
      ensures ws[i].0 <= ws[j].0 && ws[i].1 <= ws[j].1
    {
      WindowsRiseTo(ws, gap, i, j);
    }
  }

  lemma {:induction false} WindowsRiseTo(ws: seq<Window>, gap: real, i: nat, j: nat)
    requires gap >= 0.0 && Apart(ws, gap) && i <= j < |ws|
    ensures ws[i].0 <= ws[j].0 && ws[i].1 <= ws[j].1
    decreases j
  {
    if i < j {
      WindowsRiseTo(ws, gap, i, j - 1);
      assert ws[j - 1].1 + gap < ws[j - 1 + 1].0;
    }
  }
}
