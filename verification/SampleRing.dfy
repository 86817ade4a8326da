/** A driver's sample stream on a fixed grid, read through a bounded ring by a moving cursor. */
module SampleRing {

  /** A stream: its first sample time and its cadence, in microseconds. */
  datatype Grid = Grid(start: int, cadence: int)

  predicate Ticking(g: Grid) {
    g.cadence > 0
  }

  /** The time of sample `k`. */
  function Stamp(g: Grid, k: int): int {
    g.start + k * g.cadence
  }

  ghost predicate OnGrid(g: Grid, t: int) {
    exists k :: k >= 0 && t == Stamp(g, k)
  }

  function Max(a: int, b: int): int {
    if a >= b then a else b
  }

  /** The index of the first grid point after `cursor`, by ceiling division. */
  function FirstIndex(g: Grid, cursor: int): (k: int)
    requires Ticking(g)
    ensures k >= 0
    ensures k > 0 ==> Stamp(g, k - 1) <= cursor
    ensures Stamp(g, k) > cursor
  {
    var first := Max(cursor + 1, g.start);
    var k := -(-(first - g.start) / g.cadence);
    CeilDiv(first - g.start, g.cadence);
    k
  }

  /** The index of the last grid point up to `now`; -1 or less when there is none yet. */
  function LastIndex(g: Grid, now: int): (k: int)
    requires Ticking(g)
    ensures Stamp(g, k) <= now < Stamp(g, k + 1)
  {
    var k := (now - g.start) / g.cadence;
    FloorDiv(now - g.start, g.cadence);
    k
  }

  lemma FloorDiv(x: int, d: int)
    requires d > 0
    ensures x / d * d <= x < (x / d + 1) * d
  {
    var q := x / d;
    assert x == q * d + x % d;
    assert (q + 1) * d == q * d + d;
  }

  lemma CeilDiv(x: int, d: int)
    requires d > 0
    ensures var k := -(-x / d); (k - 1) * d < x <= k * d
    ensures x >= 0 ==> -(-x / d) >= 0
  {
    FloorDiv(-x, d);
    var q := -x / d;
    assert (-q - 1) * d == -(q * d) - d && -q * d == -(q * d) && (q + 1) * d == q * d + d;
  }

  /** The stamps with index from `k0` to `k1`. */
  function Points(g: Grid, k0: int, k1: int): (s: seq<int>)
    ensures |s| == Max(0, k1 + 1 - k0)
    ensures forall i :: 0 <= i < |s| ==> s[i] == Stamp(g, k0 + i)
  {
    seq(Max(0, k1 + 1 - k0), i => Stamp(g, k0 + i))
  }

  /** Every sample the driver takes after `a` and up to `b`, in order. */
  function Samples(g: Grid, a: int, b: int): seq<int>
    requires Ticking(g)
  {
    Points(g, FirstIndex(g, a), LastIndex(g, b))
  }

  /** Only the most recent `ring` samples survive; a ring of size 0 drops nothing, as a slice from
      minus zero keeps everything. */
  function Drained(g: Grid, ring: nat, cursor: int, now: int): (s: seq<int>)
    requires Ticking(g)
    ensures |s| <= |Samples(g, cursor, now)|
    ensures s == Samples(g, cursor, now)[|Samples(g, cursor, now)| - |s|..]
  {
    var stamps := Samples(g, cursor, now);
    if |stamps| > ring && ring > 0 then stamps[|stamps| - ring..] else stamps
  }

  lemma Multiple(n: nat, d: int)
    requires d > 0
    ensures n * d >= 0 && (n > 0 ==> n * d >= d)
  {
  }

  /** Multiples of a positive number are ordered as their factors are. */
  lemma OrderedMultiples(a: int, b: int, d: int)
    requires d > 0
    ensures a <= b <==> a * d <= b * d
    ensures a < b <==> a * d + d <= b * d
    ensures b < a <==> b * d + d <= a * d
  {
    assert (b - a) * d == b * d - a * d;
    assert (a - b) * d == a * d - b * d;
    if a <= b {
      Multiple(b - a, d);
    } else {
      Multiple(a - b, d);
    }
  }

  /** Samples come in the order of their indexes, at least a cadence apart. */
  lemma StampOrder(g: Grid, a: int, b: int)
    requires Ticking(g)
    ensures a <= b <==> Stamp(g, a) <= Stamp(g, b)
    ensures a < b <==> Stamp(g, a) + g.cadence <= Stamp(g, b)
    ensures b < a <==> Stamp(g, b) + g.cadence <= Stamp(g, a)
  {
    OrderedMultiples(a, b, g.cadence);
  }

  /** The first sample after `cursor` against the last one up to `now`. */
  lemma IndexOrder(g: Grid, cursor: int, now: int)
    requires Ticking(g)
    ensures FirstIndex(g, cursor) <= LastIndex(g, now) <==>
            cursor < Stamp(g, LastIndex(g, now)) && LastIndex(g, now) >= 0
    ensures g.start <= now <==> LastIndex(g, now) >= 0
  {
    var f, l := FirstIndex(g, cursor), LastIndex(g, now);
    StampOrder(g, f, l);
    StampOrder(g, f - 1, l);
    StampOrder(g, 0, l + 1);
  }

  /** The samples are exactly the grid points in the interval. */
  lemma SamplesAreThePoints(g: Grid, a: int, b: int, t: int)
    requires Ticking(g)
    ensures t in Samples(g, a, b) <==> a < t <= b && OnGrid(g, t)
  {
    var k0, k1 := FirstIndex(g, a), LastIndex(g, b);
    if t in Samples(g, a, b) {
      var i :| 0 <= i < |Samples(g, a, b)| && Samples(g, a, b)[i] == t;
      StampOrder(g, k0, k0 + i);
      StampOrder(g, k0 + i, k1);
      assert k0 + i >= 0 && t == Stamp(g, k0 + i);
    }
    if k :| k >= 0 && t == Stamp(g, k) && a < t <= b {
      StampOrder(g, k, k0 - 1);
      StampOrder(g, k1 + 1, k);
      assert Samples(g, a, b)[k - k0] == t;
    }
  }

  /** Indexes determine intervals: the first index after the last sample is the next one. */
  lemma FirstAfter(g: Grid, k: int)
    requires Ticking(g) && k >= -1
    ensures FirstIndex(g, Stamp(g, k)) == k + 1
  {
    var f := FirstIndex(g, Stamp(g, k));
    StampOrder(g, f, k);
    StampOrder(g, k, f - 1);
  }

  lemma LastOf(g: Grid, k: int)
    requires Ticking(g)
    ensures LastIndex(g, Stamp(g, k)) == k
  {
    var l := LastIndex(g, Stamp(g, k));
    StampOrder(g, l, k);
    StampOrder(g, k, l + 1);
  }

  lemma PointsJoin(g: Grid, k0: int, k: int, k1: int)
    requires k0 <= k + 1 <= k1
    ensures Points(g, k0, k) + Points(g, k + 1, k1) == Points(g, k0, k1)
  {
  }

  /** Reading up to the last stamp seen and going on from there misses and repeats nothing. */
  lemma SamplesJoin(g: Grid, a: int, b: int, now: int)
    requires Ticking(g) && a <= b
    requires OnGrid(g, b)
    requires Samples(g, b, now) != []
    ensures var last := Samples(g, b, now)[|Samples(g, b, now)| - 1];
            && b < last <= now
            && Samples(g, a, b) + Samples(g, b, now) == Samples(g, a, last)
  {
    var k :| k >= 0 && b == Stamp(g, k);
    FirstAfter(g, k);
    LastOf(g, k);
    var k1 := LastIndex(g, now);
    var last := Samples(g, b, now)[|Samples(g, b, now)| - 1];
    assert last == Stamp(g, k1);
    LastOf(g, k1);
    StampOrder(g, k1, k);
    var k0 := FirstIndex(g, a);
    StampOrder(g, k, k0 - 1);
    PointsJoin(g, k0, k, k1);
  }

  /** The same from a seed that need not be a grid point. */
  lemma SamplesStart(g: Grid, a: int, now: int)
    requires Ticking(g) && Samples(g, a, now) != []
    ensures var last := Samples(g, a, now)[|Samples(g, a, now)| - 1];
            && a < last <= now
            && OnGrid(g, last)
            && Samples(g, a, last) == Samples(g, a, now)
  {
    var k1 := LastIndex(g, now);
    var last := Samples(g, a, now)[|Samples(g, a, now)| - 1];
    assert last == Stamp(g, k1);
    LastOf(g, k1);
    StampOrder(g, FirstIndex(g, a), k1);
  }

  // ----- the loss detector -----

  /** A full read is reported; an unknown or zero capacity reports nothing. */
  predicate Reported(capacity: nat, returned: nat) {
    capacity > 0 && returned >= capacity
  }

  /** An unreported read lost nothing, whatever the stream, the cursor and the time. */
  ghost predicate DetectorSound(ring: nat, capacity: nat) {
    forall g: Grid, cursor: int, now: int :: Ticking(g) && !Reported(capacity, |Drained(g, ring, cursor, now)|) ==>
      Drained(g, ring, cursor, now) == Samples(g, cursor, now)
  }

  /** After sample 0 and up to sample `n` there are `n` samples. */
  lemma SamplesCount(g: Grid, n: nat)
    requires Ticking(g)
    ensures |Samples(g, Stamp(g, 0), Stamp(g, n))| == n
  {
    FirstAfter(g, 0);
    LastOf(g, n);
  }

  /** Reading one sample more than the ring holds loses one, and a read of that many is not reported
      when the capacity is unknown or overstated. */
  lemma OneTooMany(g: Grid, ring: nat, capacity: nat)
    requires Ticking(g) && ring > 0 && !(0 < capacity <= ring)
    ensures !DetectorSound(ring, capacity)
  {
    var cursor, now := Stamp(g, 0), Stamp(g, ring + 1);
    SamplesCount(g, ring + 1);
    assert |Drained(g, ring, cursor, now)| == ring;
    assert Drained(g, ring, cursor, now) != Samples(g, cursor, now);
  }

  /** The detector is sound exactly when its capacity is known and no larger than the ring's. */
  lemma DetectorSoundIff(ring: nat, capacity: nat)
    ensures DetectorSound(ring, capacity) <==> ring == 0 || 0 < capacity <= ring
  {
    if ring > 0 && !(0 < capacity <= ring) {
      OneTooMany(Grid(0, 20000), ring, capacity);
    }
  }

  lemma HalfTheFactor(x: int, y: int, c: int, d: int)
    requires d > 0 && 2 * (x * d - y * d) < c * d
    ensures 2 * (x - y) < c
  {
    assert (2 * (x - y)) * d == 2 * (x * d - y * d);
    OrderedMultiples(c, 2 * (x - y), d);
  }

  /** How many samples fit between two times at most half of what `capacity` samples span apart. */
  lemma FewBetween(g: Grid, capacity: nat, before: int, now: int)
    requires Ticking(g) && capacity > 0
    requires before <= now && 2 * (now - before) <= (capacity - 1) * g.cadence
    ensures LastIndex(g, now) - LastIndex(g, before) < capacity
  {
    var x, y, d := LastIndex(g, now), LastIndex(g, before), g.cadence;
    assert (y + 1) * d == y * d + d;
    assert (capacity + 1) * d == (capacity - 1) * d + 2 * d;
    HalfTheFactor(x, y, capacity + 1, d);
  }

  /** Draining at intervals of at most half of what `capacity` samples span never reports. */
  lemma HalfSpanIsSafe(g: Grid, ring: nat, capacity: nat, cursor: int, before: int, now: int)
    requires Ticking(g) && capacity > 0
    requires before <= now && 2 * (now - before) <= (capacity - 1) * g.cadence
    requires cursor >= Stamp(g, LastIndex(g, before))
    ensures !Reported(capacity, |Drained(g, ring, cursor, now)|)
  {
    FewBetween(g, capacity, before, now);
    StampOrder(g, FirstIndex(g, cursor), LastIndex(g, before));
  }
}
