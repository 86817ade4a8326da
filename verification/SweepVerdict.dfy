/** Naming the best static point of a finished sweep, with the points it cannot be told apart from. */
module SweepVerdict {
  import opened GuardTypes

  /** A point's mean energy per token and its spread, if any run gave one. */
  datatype Summary = Summary(mean: Option<real>, stdev: real, meetsSlo: bool, verified: bool)

  const NOISE_FLOOR := 0.02

  /** A point counts when it has a figure, meets the threshold if there is one, and caps no power. */
  predicate Eligible(s: Summary, sloKnown: bool) {
    s.mean.Some? && (sloKnown ==> s.meetsSlo) && s.verified
  }

  /** How far above the best mean a point cannot be told apart from it. */
  function Band(best: Summary): real
    requires best.mean.Some?
  {
    if best.stdev >= best.mean.value * NOISE_FLOOR then best.stdev else best.mean.value * NOISE_FLOOR
  }

  predicate TiedWith(ss: seq<Summary>, sloKnown: bool, best: nat, i: int)
    requires best < |ss| && ss[best].mean.Some?
  {
    0 <= i < |ss| && i != best && Eligible(ss[i], sloKnown) && ss[i].mean.value <= ss[best].mean.value + Band(ss[best])
  }

  /** The cheapest eligible point, the first of equals; an aborted sweep names none. The tied points
      are exactly the other eligible ones within the band. */
  method PickBest(ss: seq<Summary>, sloKnown: bool, aborted: bool) returns (best: Option<nat>, tied: seq<nat>)
    ensures best.None? <==>
              aborted || forall i :: 0 <= i < |ss| ==>
                ss[i].mean.None? || (sloKnown && !ss[i].meetsSlo) || !ss[i].verified
    ensures best.Some? ==>
              && best.value < |ss| && ss[best.value].mean.Some?
              && (sloKnown ==> ss[best.value].meetsSlo) && ss[best.value].verified
    ensures best.Some? ==>
              var b := ss[best.value].mean.value;
              forall i :: 0 <= i < |ss| && ss[i].mean.Some? && (sloKnown ==> ss[i].meetsSlo) && ss[i].verified ==>
                b <= ss[i].mean.value && (i < best.value ==> b < ss[i].mean.value)
    ensures best.Some? ==>
              var b := ss[best.value];
              forall i: nat :: i in tied <==>
                && i < |ss| && i != best.value
                && ss[i].mean.Some? && (sloKnown ==> ss[i].meetsSlo) && ss[i].verified
                && (ss[i].mean.value - b.mean.value <= b.stdev || ss[i].mean.value <= b.mean.value * 1.02)
    ensures best.None? ==> tied == []
  {
    best, tied := None, [];
    if aborted {
      return;
    }
    for i := 0 to |ss|
      invariant best.None? <==> forall k :: 0 <= k < i ==> !Eligible(ss[k], sloKnown)
      invariant best.Some? ==>
                  && best.value < i && Eligible(ss[best.value], sloKnown)
                  && (forall k :: 0 <= k < i && Eligible(ss[k], sloKnown) ==>
                      ss[best.value].mean.value <= ss[k].mean.value)
                  && (forall k :: 0 <= k < best.value && Eligible(ss[k], sloKnown) ==>
                      ss[best.value].mean.value < ss[k].mean.value)
    {
      if Eligible(ss[i], sloKnown) && (best.None? || ss[i].mean.value < ss[best.value].mean.value) {
        best := Some(i);
      }
    }
    if best.None? {
      return;
    }
    for i := 0 to |ss|
      invariant forall k: nat :: k in tied <==> k < i && TiedWith(ss, sloKnown, best.value, k)
    {
      if TiedWith(ss, sloKnown, best.value, i) {
        tied := tied + [i];
      }
    }
  }
}
