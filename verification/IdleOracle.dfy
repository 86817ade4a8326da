/** The idle-gap oracle: cluster a schedule's arrivals into bursts, and compile the bursts into one
    clock timeline for the whole card. */
module IdleOracle {
  import opened OrderStatistics

  type Window = (real, real)
  type Transition = (real, int)

  // ----- bursts -----

  /** The clusters of sorted arrivals, built one arrival at a time. */
  function Bursts(ts: seq<real>, quiet: real): (ws: seq<Window>)
    ensures ts == [] <==> ws == []
    ensures ts != [] ==> ws[|ws| - 1].1 == ts[|ts| - 1]
  {
    if ts == [] then []
    else if |ts| == 1 then [(ts[0], ts[0])]
    else
      var ws := Bursts(ts[..|ts| - 1], quiet);
      var t := ts[|ts| - 1];
      Grown(ws, t, t - ts[|ts| - 2] > quiet)
  }

  /** One arrival more opens a window or lengthens the last one. */
  function Grown(ws: seq<Window>, t: real, apart: bool): (grown: seq<Window>)
    requires ws != []
    ensures grown != [] && grown[|grown| - 1].1 == t
  {
    if apart then ws + [(t, t)] else ws[..|ws| - 1] + [(ws[|ws| - 1].0, t)]
  }

  lemma GrownKeeps(ws: seq<Window>, t: real, apart: bool, w: nat)
    requires w < |ws|
    ensures w < |Grown(ws, t, apart)| && Grown(ws, t, apart)[w].0 == ws[w].0
    ensures w < |ws| - 1 || apart ==> Grown(ws, t, apart)[w] == ws[w]
    ensures w == |ws| - 1 && !apart ==> Grown(ws, t, apart)[w].1 == t
  {
  }

  lemma BurstsNext(ts: seq<real>, quiet: real, k: nat)
    requires 0 < k < |ts|
    ensures var ws := Bursts(ts[..k], quiet);
            && ws != [] && ws[|ws| - 1].1 == ts[k - 1]
            && Bursts(ts[..k + 1], quiet) == Grown(ws, ts[k], ts[k] - ts[k - 1] > quiet)
  {
    assert ts[..k + 1][..k] == ts[..k];
  }

  method BurstWindows(arrivals: seq<real>, quiet: real) returns (out: seq<Window>)
    ensures out == Bursts(Sorted(arrivals), quiet)
  {
    var ts := Sorted(arrivals);
    if ts == [] {
      return [];
    }
    var start, prev := ts[0], ts[0];
    out := [];
    for k := 1 to |ts|
      invariant prev == ts[k - 1]
      invariant out + [(start, prev)] == Bursts(ts[..k], quiet)
    {
      BurstsNext(ts, quiet, k);
      var t := ts[k];
      if t - prev > quiet {
        out := out + [(start, prev)];
        start := t;
      }
      prev := t;
    }
    assert ts[..|ts|] == ts;
    out := out + [(start, prev)];
  }

  /** How many quiet gaps precede arrival `k`. */
  function QuietBefore(ts: seq<real>, quiet: real, k: nat): nat
    requires k < |ts|
  {
    if k == 0 then 0 else QuietBefore(ts, quiet, k - 1) + if ts[k] - ts[k - 1] > quiet then 1 else 0
  }

  lemma {:induction false} QuietBeforePrefix(ts: seq<real>, quiet: real, n: nat, k: nat)
    requires k < n <= |ts|
    ensures QuietBefore(ts[..n], quiet, k) == QuietBefore(ts, quiet, k)
  {
    if k > 0 {
      QuietBeforePrefix(ts, quiet, n, k - 1);
    }
  }

  /** Where arrival `k` is: in the window numbered by the quiet gaps before it, which it opens if a
      quiet gap (or nothing) precedes it and closes if a quiet gap (or nothing) follows it. */
  predicate Placed(ts: seq<real>, quiet: real, ws: seq<Window>, k: nat)
    requires k < |ts|
  {
    var w := QuietBefore(ts, quiet, k);
    && w < |ws|
    && ws[w].0 <= ts[k] <= ws[w].1
    && (k == 0 || ts[k] - ts[k - 1] > quiet ==> ws[w].0 == ts[k])
    && (k == |ts| - 1 || ts[k + 1] - ts[k] > quiet ==> ws[w].1 == ts[k])
  }

  lemma {:induction false} QuietBeforeGrows(ts: seq<real>, quiet: real, j: nat, k: nat)
    requires j <= k < |ts|
    ensures QuietBefore(ts, quiet, j) <= QuietBefore(ts, quiet, k)
    decreases k
  {
    if j < k {
      QuietBeforeGrows(ts, quiet, j, k - 1);
    }
  }

  /** One arrival more leaves every earlier arrival in its place. */
  lemma PlaceStays(ts: seq<real>, quiet: real, ws: seq<Window>, k: nat)
    requires IsSorted(ts) && k + 1 < |ts|
    requires |ws| == QuietBefore(ts[..|ts| - 1], quiet, |ts| - 2) + 1 && ws[|ws| - 1].1 == ts[|ts| - 2]
    requires Placed(ts[..|ts| - 1], quiet, ws, k)
    ensures Placed(ts, quiet, Grown(ws, ts[|ts| - 1], ts[|ts| - 1] - ts[|ts| - 2] > quiet), k)
  {
    var n := |ts| - 1;
    var before := ts[..n];
    QuietBeforePrefix(ts, quiet, n, k);
    QuietBeforePrefix(ts, quiet, n, n - 1);
    GrownKeeps(ws, ts[n], ts[n] - ts[n - 1] > quiet, QuietBefore(ts, quiet, k));
    assert before[k] == ts[k] <= ts[n];
    assert k > 0 ==> before[k - 1] == ts[k - 1];
    if k < n - 1 {
      assert before[k + 1] == ts[k + 1];
      QuietBeforeGrows(ts, quiet, k + 1, n - 1);
    }
  }

  lemma NewPlace(ts: seq<real>, quiet: real, ws: seq<Window>)
    requires IsSorted(ts) && |ts| > 1
    requires |ws| == QuietBefore(ts[..|ts| - 1], quiet, |ts| - 2) + 1
    requires Placed(ts[..|ts| - 1], quiet, ws, |ts| - 2)
    ensures var grown := Grown(ws, ts[|ts| - 1], ts[|ts| - 1] - ts[|ts| - 2] > quiet);
            |grown| == QuietBefore(ts, quiet, |ts| - 1) + 1 && Placed(ts, quiet, grown, |ts| - 1)
  {
    var n := |ts| - 1;
    QuietBeforePrefix(ts, quiet, n, n - 1);
    assert ts[..n][n - 1] == ts[n - 1] <= ts[n];
  }

  /** Bursts are split exactly at the quiet gaps. */
  lemma {:induction false} BurstsSplitAtQuiet(ts: seq<real>, quiet: real)
    requires IsSorted(ts) && ts != []
    ensures |Bursts(ts, quiet)| == QuietBefore(ts, quiet, |ts| - 1) + 1
    ensures forall k :: 0 <= k < |ts| ==> Placed(ts, quiet, Bursts(ts, quiet), k)
    decreases |ts|
  {
    var n := |ts| - 1;
    if n > 0 {
      var ws := Bursts(ts[..n], quiet);
      BurstsSplitAtQuiet(ts[..n], quiet);
      BurstsNext(ts, quiet, n);
      assert ts[..n + 1] == ts;
      assert Placed(ts[..n], quiet, ws, n - 1);
      NewPlace(ts, quiet, ws);
      forall k | 0 <= k < n
        ensures Placed(ts, quiet, Bursts(ts, quiet), k)
      {
        assert Placed(ts[..n], quiet, ws, k);
        PlaceStays(ts, quiet, ws, k);
      }
    }
  }

  /** Windows in order, each followed by a gap longer than `gap`. */
  predicate Apart(ws: seq<Window>, gap: real) {
    && (forall i :: 0 <= i < |ws| ==> ws[i].0 <= ws[i].1)
    && forall i :: 0 <= i < |ws| - 1 ==> ws[i].1 + gap < ws[i + 1].0
  }

  lemma ApartExtends(ws: seq<Window>, gap: real, t: real)
    requires Apart(ws, gap) && ws != [] && ws[|ws| - 1].1 <= t
    ensures Apart(Grown(ws, t, false), gap)
    ensures t - ws[|ws| - 1].1 > gap ==> Apart(Grown(ws, t, true), gap)
    ensures Grown(ws, t, false)[0].0 == Grown(ws, t, true)[0].0 == ws[0].0
  {
  }

  lemma {:induction false} BurstsApart(ts: seq<real>, quiet: real)
    requires IsSorted(ts)
    ensures Apart(Bursts(ts, quiet), quiet)
    ensures ts != [] ==> Bursts(ts, quiet)[0].0 == ts[0]
    decreases |ts|
  {
    var n := |ts| - 1;
    if n > 0 {
      BurstsApart(ts[..n], quiet);
      BurstsNext(ts, quiet, n);
      assert ts[..n + 1] == ts && ts[n - 1] <= ts[n];
      ApartExtends(Bursts(ts[..n], quiet), quiet, ts[n]);
    }
  }
}
