/** The telemetry recorder: drains every stream's ring from its own cursor, reports a read that may
    have lost samples, and calls a recording clean. */
module Telemetry {
  import opened GuardTypes
  import opened SampleRing

  datatype Event =
    | ConfigWarning
    | DrainError(stream: nat)
    | PossibleLoss(stream: nat, returned: nat, capacity: nat)

  /** What characterising a stream measured; capacity 0 means that nothing was in the ring. */
  datatype Profile = Profile(capacity: nat, span: Option<int>)

  class FakeGpuReader {
    const start: int
    const ring: nat
    const grids: seq<Grid>
    var now: int

    predicate AllTicking() {
      forall s :: 0 <= s < |grids| ==> Ticking(grids[s]) && grids[s].start == start
    }

    ghost predicate Valid()
      reads this
    {
      start <= now && AllTicking()
    }

    constructor (start: int, ring: nat, cadences: seq<int>)
      requires forall s :: 0 <= s < |cadences| ==> cadences[s] > 0
      ensures Valid() && now == start && this.start == start && this.ring == ring && |grids| == |cadences|
    {
      this.start, this.ring, this.now := start, ring, start;
      this.grids := seq(|cadences|, s requires 0 <= s < |cadences| => Grid(start, cadences[s]));
    }

    method Advance(us: nat)
      requires Valid()
      modifies this
      ensures Valid() && now == old(now) + us
    {
      now := now + us;
    }

    method Drain(s: nat, cursor: int) returns (samples: seq<int>)
      requires Valid() && s < |grids|
      ensures samples == Drained(grids[s], ring, cursor, now)
    {
      samples := Drained(grids[s], ring, cursor, now);
    }
  }

  /** A measured profile never overstates the ring. */
  predicate Measured(p: Profile, ring: nat, g: Grid) {
    && (ring > 0 ==> p.capacity <= ring)
    && (p.span.Some? <==> p.capacity >= 2)
    && (p.span.Some? ==> p.span.value == (p.capacity - 1) * g.cadence)
  }

  /** How many of the samples up to `now` the ring still holds. */
  function StillHeld(ring: nat, g: Grid, now: int): nat
    requires Ticking(g)
  {
    var taken := |Samples(g, 0, now)|;
    if 0 < ring < taken then ring else taken
  }

  /** A ring that has had time to fill is full, and one that has had a sample is not empty. */
  lemma HeldWhenFull(ring: nat, g: Grid, now: int)
    requires Ticking(g) && 0 < g.start <= now
    ensures |Samples(g, 0, now)| == (now - g.start) / g.cadence + 1
    ensures 0 < ring && Stamp(g, ring - 1) <= now ==> StillHeld(ring, g, now) == ring
    ensures 0 < StillHeld(ring, g, now) && (ring > 0 ==> StillHeld(ring, g, now) <= ring)
  {
    IndexOrder(g, 0, now);
    StampOrder(g, FirstIndex(g, 0) - 1, 0);
    assert Stamp(g, 0) == g.start;
    StampOrder(g, ring - 1, LastIndex(g, now) + 1);
  }

  /** Each stream's buffer depth and span, read from the ring itself. */
  method CharacterizeSensors(reader: FakeGpuReader) returns (profile: seq<Profile>)
    requires reader.Valid()
    ensures |profile| == |reader.grids|
    ensures forall s :: 0 <= s < |profile| ==> Measured(profile[s], reader.ring, reader.grids[s])
    ensures forall s :: 0 <= s < |profile| ==>
              profile[s].capacity == StillHeld(reader.ring, reader.grids[s], reader.now)
  {
    profile := [];
    for s := 0 to |reader.grids|
      invariant |profile| == s
      invariant forall i :: 0 <= i < s ==> Measured(profile[i], reader.ring, reader.grids[i])
      invariant forall i :: 0 <= i < s ==>
                  profile[i].capacity == StillHeld(reader.ring, reader.grids[i], reader.now)
    {
      var p := MeasureStream(reader, s);
      profile := profile + [p];
    }
  }

  method MeasureStream(reader: FakeGpuReader, s: nat) returns (p: Profile)
    requires reader.Valid() && s < |reader.grids|
    ensures Measured(p, reader.ring, reader.grids[s])
    ensures p.capacity == StillHeld(reader.ring, reader.grids[s], reader.now)
  {
    var samples := reader.Drain(s, 0);
    SpanOfDrained(reader.grids[s], reader.ring, 0, reader.now);
    p := ProfileOf(samples);
  }

  function ProfileOf(samples: seq<int>): Profile {
    Profile(|samples|, if |samples| >= 2 then Some(samples[|samples| - 1] - samples[0]) else None)
  }

  /** A read is a run of consecutive samples. */
  lemma EndsOfDrained(g: Grid, ring: nat, cursor: int, now: int) returns (k: int, l: int)
    requires Ticking(g) && Drained(g, ring, cursor, now) != []
    ensures var s := Drained(g, ring, cursor, now);
            l == k + |s| - 1 && s[0] == Stamp(g, k) && s[|s| - 1] == Stamp(g, l)
  {
    var all, s := Samples(g, cursor, now), Drained(g, ring, cursor, now);
    var first, last := |all| - |s|, |all| - 1;
    k, l := FirstIndex(g, cursor) + first, FirstIndex(g, cursor) + last;
    assert s[0] == all[first] && s[|s| - 1] == all[last];
  }

  lemma SpanOfDrained(g: Grid, ring: nat, cursor: int, now: int)
    requires Ticking(g)
    ensures Measured(ProfileOf(Drained(g, ring, cursor, now)), ring, g)
  {
    if |Drained(g, ring, cursor, now)| >= 2 {
      var k, l := EndsOfDrained(g, ring, cursor, now);
      StampSpread(g, k, l);
    }
  }

  lemma StampSpread(g: Grid, k: int, l: int)
    ensures Stamp(g, l) - Stamp(g, k) == (l - k) * g.cadence
  {
  }

  /** The shortest span any stream has, if any was measured. */
  function MinSpan(profile: seq<Profile>): (r: Option<int>)
    ensures r.None? <==> forall s :: 0 <= s < |profile| ==> profile[s].span.None?
    ensures r.Some? ==> forall s :: 0 <= s < |profile| && profile[s].span.Some? ==> r.value <= profile[s].span.value
    ensures r.Some? ==> exists s :: 0 <= s < |profile| && profile[s].span == r
  {
    if profile == [] then None else
    var rest := MinSpan(profile[1..]);
    assert profile[0].span.Some? ==> exists s :: 0 <= s < |profile| && profile[s].span == profile[0].span;
    assert rest.Some? ==> exists s :: 0 <= s < |profile| && profile[s].span == rest by {
      if s :| 0 <= s < |profile[1..]| && profile[1..][s].span == rest {
        assert profile[s + 1].span == rest;
      }
    }
    match (profile[0].span, rest)
    case (None, _) => rest
    case (Some(a), None) => Some(a)
    case (Some(a), Some(b)) => Some(if a <= b then a else b)
  }

  /** Draining slower than half the shortest span is warned about. */
  function Warnings(profile: seq<Profile>, drainIntervalUs: int): seq<Event> {
    var span := MinSpan(profile);
    if span.Some? && 2 * drainIntervalUs > span.value then [ConfigWarning] else []
  }

  /** The warning is given exactly where some stream's span is shorter than two intervals. */
  lemma WarnedIff(profile: seq<Profile>, drainIntervalUs: int)
    ensures ConfigWarning in Warnings(profile, drainIntervalUs) <==>
            exists s :: 0 <= s < |profile| && profile[s].span.Some? && profile[s].span.value < 2 * drainIntervalUs
  {
  }

  predicate All(read: seq<bool>) {
    forall s :: 0 <= s < |read| ==> read[s]
  }

  predicate IsLoss(e: Event) {
    e.DrainError? || e.PossibleLoss?
  }

  predicate Clean(events: seq<Event>) {
    forall i :: 0 <= i < |events| ==> !IsLoss(events[i])
  }

  predicate LossReported(events: seq<Event>, s: nat) {
    exists i :: 0 <= i < |events| && events[i].PossibleLoss? && events[i].stream == s
  }

  /** A capacity that the loss detector can rely on. */
  predicate Trusted(capacity: nat, ring: nat) {
    ring == 0 || 0 < capacity <= ring
  }

  // ----- what the recorder relies on -----

  /** What is new since the start stays new. */
  lemma NewsGrows(start: seq<Event>, before: seq<Event>, after: seq<Event>)
    requires start <= before <= after
    ensures forall e :: e in before[|start|..] ==> e in after[|start|..]
    ensures forall e :: e in after[|before|..] ==> e in after[|start|..]
  {
    assert after[|start|..] == before[|start|..] + after[|before|..];
  }

  /** A report about one stream says nothing about the others. */
  lemma OnlyAbout(before: seq<Event>, after: seq<Event>, e: Event)
    requires after == before + [e] && e.PossibleLoss?
    ensures forall s :: s != e.stream ==> (LossReported(after, s) <==> LossReported(before, s))
    ensures LossReported(after, e.stream)
  {
    assert after[|before|] == e;
    forall s | s != e.stream
      ensures LossReported(after, s) <==> LossReported(before, s)
    {
      if i :| 0 <= i < |before| && before[i].PossibleLoss? && before[i].stream == s {
        assert after[i] == before[i];
      }
    }
  }

  lemma SameReports(before: seq<Event>, after: seq<Event>, e: Event)
    requires after == before + [e] && !e.PossibleLoss?
    ensures forall s :: LossReported(after, s) <==> LossReported(before, s)
  {
    forall s
      ensures LossReported(after, s) <==> LossReported(before, s)
    {
      if i :| 0 <= i < |before| && before[i].PossibleLoss? && before[i].stream == s {
        assert after[i] == before[i];
      }
    }
  }

  lemma NothingBetween(g: Grid, a: int)
    requires Ticking(g)
    ensures Samples(g, a, a) == []
  {
    IndexOrder(g, a, a);
  }

  lemma DrainCatchesUp(g: Grid, ring: nat, cursor: int, now: int)
    requires Ticking(g) && g.start <= now
    ensures var s := Drained(g, ring, cursor, now);
            var last := Stamp(g, LastIndex(g, now));
            && (s == [] ==> last <= cursor)
            && (s != [] ==> s[|s| - 1] == last && cursor < last <= now && OnGrid(g, last))
  {
    IndexOrder(g, cursor, now);
  }

  lemma ReadCatchesUp(g: Grid, ring: nat, cursor: int, now: int)
    requires Ticking(g) && g.start <= now
    ensures var s := Drained(g, ring, cursor, now);
            Stamp(g, LastIndex(g, now)) <= if s == [] then cursor else s[|s| - 1]
  {
    DrainCatchesUp(g, ring, cursor, now);
  }

  /** A read that lost nothing extends the file to exactly the samples up to the new cursor. */
  lemma DrainJoins(g: Grid, ring: nat, seed: int, cursor: int, now: int)
    requires Ticking(g) && seed <= cursor
    requires cursor != seed ==> OnGrid(g, cursor)
    requires Drained(g, ring, cursor, now) == Samples(g, cursor, now) != []
    ensures var s := Drained(g, ring, cursor, now);
            Samples(g, seed, cursor) + s == Samples(g, seed, s[|s| - 1])
  {
    if cursor == seed {
      SamplesStart(g, seed, now);
      NothingBetween(g, seed);
    } else {
      SamplesJoin(g, seed, cursor, now);
    }
  }

  // ----- one stream -----

  /** A stream's file against the driver's own samples. */
  ghost predicate StreamFine(
      g: Grid, ring: nat, capacity: nat, seed: int, cursor: int, file: seq<int>, count: nat, reported: bool) {
    && Ticking(g)
    && seed <= cursor
    && count == |file|
    && (cursor != seed ==> OnGrid(g, cursor))
    && (Trusted(capacity, ring) && !reported ==> file == Samples(g, seed, cursor))
  }

  /** Writing a read and passing its last stamp keeps the file exact, or reports the read. */
  lemma ReadKeepsStream(
      g: Grid, ring: nat, capacity: nat, seed: int, cursor: int, file: seq<int>, count: nat, reported: bool, now: int)
    requires StreamFine(g, ring, capacity, seed, cursor, file, count, reported) && g.start <= now
    requires Drained(g, ring, cursor, now) != []
    ensures var s := Drained(g, ring, cursor, now);
            StreamFine(g, ring, capacity, seed, s[|s| - 1], file + s, count + |s|, reported || Reported(capacity, |s|))
  {
    var s := Drained(g, ring, cursor, now);
    DrainCatchesUp(g, ring, cursor, now);
    if Trusted(capacity, ring) && !reported && !Reported(capacity, |s|) {
      DetectorSoundIff(ring, capacity);
      assert s == Samples(g, cursor, now);
      DrainJoins(g, ring, seed, cursor, now);
    }
  }

  lemma ReadKeepsFine(
      g: Grid, ring: nat, capacity: nat, seed: int, cursor: int, file: seq<int>, count: nat, reported: bool, now: int)
    requires Ticking(g)
    ensures var s := Drained(g, ring, cursor, now);
            StreamFine(g, ring, capacity, seed, cursor, file, count, reported) && g.start <= now && s != [] ==>
              StreamFine(g, ring, capacity, seed, s[|s| - 1], file + s, count + |s|,
                         reported || Reported(capacity, |s|))
  {
    if StreamFine(g, ring, capacity, seed, cursor, file, count, reported) && g.start <= now &&
       Drained(g, ring, cursor, now) != [] {
      ReadKeepsStream(g, ring, capacity, seed, cursor, file, count, reported, now);
    }
  }

  /** What a recorder keeps of one stream. */
  datatype Tape = Tape(cursor: int, file: seq<int>, reported: bool)

  /** One read that does not raise. */
  function ReadOn(g: Grid, ring: nat, capacity: nat, t: Tape, now: int): Tape
    requires Ticking(g)
  {
    var s := Drained(g, ring, t.cursor, now);
    if s == [] then t else Tape(s[|s| - 1], t.file + s, t.reported || Reported(capacity, |s|))
  }

  /** A recording of one stream: reads at these times, none of which raises. */
  function Replay(g: Grid, ring: nat, capacity: nat, seed: int, times: seq<int>): Tape
    requires Ticking(g)
  {
    if times == [] then Tape(seed, [], false)
    else ReadOn(g, ring, capacity, Replay(g, ring, capacity, seed, times[..|times| - 1]), times[|times| - 1])
  }

  /** Where a recording that starts at `now` starts from. */
  function Seed(g: Grid, ring: nat, now: int): int
    requires Ticking(g)
  {
    var s := Drained(g, ring, 0, now);
    if s == [] then 0 else s[|s| - 1]
  }

  /** Times in order, from `start` on. */
  predicate Rising(start: int, times: seq<int>) {
    && (forall i :: 0 <= i < |times| ==> start <= times[i])
    && forall i, j :: 0 <= i < j < |times| ==> times[i] <= times[j]
  }

  /** Every recording without a loss report, of any stream, from any start, read at any times, holds
      exactly the driver's samples. */
  ghost predicate CleanIsExact(ring: nat, capacity: nat) {
    forall g: Grid, start: int, times: seq<int> :: Ticking(g) && g.start <= start && Rising(start, times) ==>
      var t := Replay(g, ring, capacity, Seed(g, ring, start), times);
      t.reported || t.file == Samples(g, Seed(g, ring, start), t.cursor)
  }

  lemma ReadOnIsFine(g: Grid, ring: nat, capacity: nat, seed: int, t: Tape, now: int)
    requires StreamFine(g, ring, capacity, seed, t.cursor, t.file, |t.file|, t.reported) && g.start <= now
    ensures var u := ReadOn(g, ring, capacity, t, now);
            StreamFine(g, ring, capacity, seed, u.cursor, u.file, |u.file|, u.reported)
  {
    if Drained(g, ring, t.cursor, now) != [] {
      ReadKeepsStream(g, ring, capacity, seed, t.cursor, t.file, |t.file|, t.reported, now);
    }
  }

  lemma {:induction false} ReplayIsFine(g: Grid, ring: nat, capacity: nat, seed: int, times: seq<int>)
    requires Ticking(g) && forall i :: 0 <= i < |times| ==> g.start <= times[i]
    ensures var t := Replay(g, ring, capacity, seed, times);
            StreamFine(g, ring, capacity, seed, t.cursor, t.file, |t.file|, t.reported)
    decreases |times|
  {
    if times == [] {
      NothingBetween(g, seed);
    } else {
      var before, now := Replay(g, ring, capacity, seed, times[..|times| - 1]), times[|times| - 1];
      ReplayIsFine(g, ring, capacity, seed, times[..|times| - 1]);
      ReadOnIsFine(g, ring, capacity, seed, before, now);
    }
  }

  /** A recording that is called clean although it lost a sample: one read, one sample after the ring
      has filled, under a capacity that is unknown or overstated. */
  lemma CleanButLossy(ring: nat, capacity: nat) returns (g: Grid, start: int, now: int)
    requires !Trusted(capacity, ring)
    ensures Ticking(g) && g.start <= start <= now
    ensures var t := Replay(g, ring, capacity, Seed(g, ring, start), [now]);
            !t.reported && |t.file| < |Samples(g, Seed(g, ring, start), t.cursor)|
  {
    g := Grid(20000, 20000);
    start, now := Stamp(g, 0), Stamp(g, ring + 1);
    SeedOnGrid(g, ring);
    SamplesCount(g, ring + 1);
    var s := Drained(g, ring, start, now);
    assert |s| == ring;
    DrainCatchesUp(g, ring, start, now);
    LastOf(g, ring + 1);
    assert [now][..0] == [];
    StampOrder(g, 0, ring + 1);
  }

  lemma SeedOnGrid(g: Grid, ring: nat)
    requires Ticking(g) && g.start > 0
    ensures Seed(g, ring, Stamp(g, 0)) == Stamp(g, 0)
  {
    DrainCatchesUp(g, ring, 0, g.start);
    LastOf(g, 0);
    IndexOrder(g, 0, g.start);
  }

  /** The integrity flag is sound for every recording exactly when the capacity is known and no larger
      than the ring's, or the ring drops nothing. */
  lemma CleanIsExactIff(ring: nat, capacity: nat)
    ensures CleanIsExact(ring, capacity) <==> Trusted(capacity, ring)
  {
    if Trusted(capacity, ring) {
      forall g: Grid, start: int, times: seq<int> | Ticking(g) && g.start <= start && Rising(start, times)
        ensures var t := Replay(g, ring, capacity, Seed(g, ring, start), times);
                t.reported || t.file == Samples(g, Seed(g, ring, start), t.cursor)
      {
        ReplayIsFine(g, ring, capacity, Seed(g, ring, start), times);
      }
    } else {
      var g, start, now := CleanButLossy(ring, capacity);
      assert Rising(start, [now]);
    }
  }

  lemma ReportsGrow(before: seq<Event>, after: seq<Event>, s: nat)
    requires before <= after
    ensures LossReported(before, s) ==> LossReported(after, s)
  {
    if i :| 0 <= i < |before| && before[i].PossibleLoss? && before[i].stream == s {
      assert after[i] == before[i];
    }
  }

  class TelemetryRecorder {
    const reader: FakeGpuReader
    const profile: seq<Profile>

    var cursors: seq<int>
    var files: seq<seq<int>>
    var counts: seq<nat>
    var events: seq<Event>
    ghost var seeds: seq<int>

    ghost predicate Shaped()
      reads this
    {
      |cursors| == |files| == |counts| == |seeds| == |profile| == |reader.grids|
    }

    ghost predicate StreamOk(s: nat)
      requires Shaped() && s < |cursors|
      reads this
    {
      StreamFine(reader.grids[s], reader.ring, profile[s].capacity, seeds[s], cursors[s], files[s], counts[s],
          LossReported(events, s))
    }

    ghost predicate Valid()
      reads this, reader
    {
      && reader.Valid()
      && Shaped()
      && forall s :: 0 <= s < |cursors| ==> StreamOk(s)
    }

    ghost function TapeOf(s: nat): Tape
      requires Shaped() && s < |cursors|
      reads this
    {
      Tape(cursors[s], files[s], LossReported(events, s))
    }

    /** What one more read makes of a stream, if it does not raise. */
    ghost function Next(s: nat, t: Tape): Tape
      requires Shaped() && s < |cursors| && reader.AllTicking()
      reads this, reader
    {
      ReadOn(reader.grids[s], reader.ring, profile[s].capacity, t, reader.now)
    }

    /** Every stream is what reading it at these times makes of it. */
    ghost predicate Replays(times: seq<int>)
      requires Shaped() && reader.AllTicking()
      reads this
    {
      forall s :: 0 <= s < |cursors| ==>
        TapeOf(s) == Replay(reader.grids[s], reader.ring, profile[s].capacity, seeds[s], times)
    }

    /** No stream has an unread sample at time `t`. */
    ghost predicate CaughtUp(t: int)
      requires Shaped() && reader.AllTicking()
      reads this
    {
      forall s :: 0 <= s < |cursors| ==>
        Stamp(reader.grids[s], LastIndex(reader.grids[s], t)) <= cursors[s]
    }

    constructor (reader: FakeGpuReader, profile: seq<Profile>, drainIntervalUs: int)
      requires reader.Valid() && |profile| == |reader.grids|
      ensures this.reader == reader && this.profile == profile && Shaped()
      ensures events == Warnings(profile, drainIntervalUs)
      ensures forall s :: 0 <= s < |cursors| ==> cursors[s] == 0 && files[s] == [] && counts[s] == 0
    {
      this.reader, this.profile := reader, profile;
      var n := |profile|;
      cursors, files, counts, seeds := seq(n, _ => 0), seq(n, _ => []), seq(n, _ => 0), seq(n, _ => 0);
      events := Warnings(profile, drainIntervalUs);
    }

    /** Seeds every cursor to the newest sample already in the ring. */
    method Start()
      requires Shaped() && reader.Valid()
      requires forall s :: 0 <= s < |cursors| ==> cursors[s] == 0 && files[s] == [] && counts[s] == 0
      modifies this
      ensures Valid() && CaughtUp(reader.now) && events == old(events)
      ensures seeds == cursors && files == old(files)
      ensures forall s :: 0 <= s < |seeds| ==> seeds[s] == Seed(reader.grids[s], reader.ring, reader.now)
    {
      for s := 0 to |cursors|
        invariant Shaped() && events == old(events) && files == old(files) && counts == old(counts)
        invariant forall i :: s <= i < |cursors| ==> cursors[i] == 0
        invariant forall i :: 0 <= i < s ==> cursors[i] == Seed(reader.grids[i], reader.ring, reader.now)
      {
        var existing := reader.Drain(s, 0);
        if existing != [] {
          cursors := cursors[s := existing[|existing| - 1]];
        }
      }
      seeds := cursors;
      Seeded();
    }

    /** Every stream starts caught up, and with nothing of it recorded. */
    lemma Seeded()
      requires Shaped() && reader.Valid() && seeds == cursors
      requires forall s :: 0 <= s < |cursors| ==>
                 cursors[s] == Seed(reader.grids[s], reader.ring, reader.now) && files[s] == [] && counts[s] == 0
      ensures Valid() && CaughtUp(reader.now)
    {
      forall s | 0 <= s < |cursors|
        ensures StreamOk(s)
        ensures Stamp(reader.grids[s], LastIndex(reader.grids[s], reader.now)) <= cursors[s]
      {
        NothingBetween(reader.grids[s], seeds[s]);
        ReadCatchesUp(reader.grids[s], reader.ring, 0, reader.now);
      }
    }

    /** One stream: its read may raise; a full read is reported; what is read is written and passed. */
    method DrainStream(s: nat) returns (ok: bool)
      requires Valid() && s < |cursors|
      modifies this
      ensures Valid() && seeds == old(seeds)
      ensures ok ==> Stamp(reader.grids[s], LastIndex(reader.grids[s], reader.now)) <= cursors[s]
      ensures TapeOf(s) == if ok then Next(s, old(TapeOf(s))) else old(TapeOf(s))
      ensures forall i :: 0 <= i < |cursors| && i != s ==> TapeOf(i) == old(TapeOf(i))
      ensures events == old(events) +
                (if !ok then [DrainError(s)]
                 else var n := |Drained(reader.grids[s], reader.ring, old(cursors)[s], reader.now)|;
                      if Reported(profile[s].capacity, n) then [PossibleLoss(s, n, profile[s].capacity)] else [])
    {
      ok := *;
      if !ok {
        NoteError(s);
        return;
      }
      var samples := reader.Drain(s, cursors[s]);
      ReadCatchesUp(reader.grids[s], reader.ring, cursors[s], reader.now);
      if samples != [] {
        StaysFine(s);
        Store(s, samples);
      }
    }

    /** A stream with what a read of it gives. */
    lemma StaysFine(s: nat)
      requires Valid() && s < |cursors|
      requires Drained(reader.grids[s], reader.ring, cursors[s], reader.now) != []
      ensures var samples := Drained(reader.grids[s], reader.ring, cursors[s], reader.now);
              StreamFine(reader.grids[s], reader.ring, profile[s].capacity, seeds[s], samples[|samples| - 1],
                         files[s] + samples, counts[s] + |samples|,
                         LossReported(events, s) || Reported(profile[s].capacity, |samples|))
    {
      assert StreamOk(s);
      ReadKeepsFine(reader.grids[s], reader.ring, profile[s].capacity, seeds[s], cursors[s], files[s], counts[s],
                    LossReported(events, s), reader.now);
    }

    /** A read that raised; nothing else about any stream changes. */
    method NoteError(s: nat)
      requires Valid() && s < |cursors|
      modifies this`events
      ensures Valid() && events == old(events) + [DrainError(s)]
      ensures forall i :: 0 <= i < |cursors| ==> TapeOf(i) == old(TapeOf(i))
    {
      events := events + [DrainError(s)];
      SameReports(old(events), events, DrainError(s));
      forall i | 0 <= i < |cursors|
        ensures StreamOk(i)
      {
        assert old(StreamOk(i));
      }
    }

    /** Reports a full read, writes the samples, and moves the cursor to the last of them. */
    method Store(s: nat, samples: seq<int>)
      requires Valid() && s < |cursors|
      requires samples != []
      modifies this
      ensures Shaped() && seeds == old(seeds)
      ensures old(StreamFine(reader.grids[s], reader.ring, profile[s].capacity, seeds[s], samples[|samples| - 1],
                             files[s] + samples, counts[s] + |samples|,
                             LossReported(events, s) || Reported(profile[s].capacity, |samples|))) ==>
                Valid()
      ensures TapeOf(s) == Tape(samples[|samples| - 1], old(files)[s] + samples,
                                old(LossReported(events, s)) || Reported(profile[s].capacity, |samples|))
      ensures forall i :: 0 <= i < |cursors| && i != s ==> TapeOf(i) == old(TapeOf(i))
      ensures events == old(events) +
                if !Reported(profile[s].capacity, |samples|) then []
                else [PossibleLoss(s, |samples|, profile[s].capacity)]
    {
      var capacity := profile[s].capacity;
      if capacity > 0 && |samples| >= capacity {
        events := events + [PossibleLoss(s, |samples|, capacity)];
        assert events[|old(events)|] == PossibleLoss(s, |samples|, capacity);
      }
      files := files[s := files[s] + samples];
      cursors := cursors[s := samples[|samples| - 1]];
      counts := counts[s := counts[s] + |samples|];
      ReportsGrow(old(events), events, s);
      if capacity > 0 && |samples| >= capacity {
        OnlyAbout(old(events), events, PossibleLoss(s, |samples|, capacity));
      }
      OthersKept(s);
    }

    /** Streams other than `s` do not notice what was recorded about it. */
    twostate lemma OthersKept(s: nat)
      requires old(Shaped()) && Shaped() && old(events) <= events && seeds == old(seeds)
      requires old(forall i :: 0 <= i < |cursors| ==> StreamOk(i))
      requires forall i :: 0 <= i < |cursors| && i != s ==>
                 cursors[i] == old(cursors)[i] && files[i] == old(files)[i] && counts[i] == old(counts)[i]
      ensures forall i :: 0 <= i < |cursors| && i != s ==> StreamOk(i)
    {
      forall i | 0 <= i < |cursors| && i != s
        ensures StreamOk(i)
      {
        assert old(StreamOk(i));
        ReportsGrow(old(events), events, i);
      }
    }

    /** One tick: every stream in turn is read, or its read raises and is reported, whatever happens to
        the others. */
    method DrainOnce() returns (read: seq<bool>)
      requires Valid()
      modifies this
      ensures Valid() && seeds == old(seeds)
      ensures |read| == |cursors|
      ensures forall s :: 0 <= s < |cursors| ==>
              TapeOf(s) == if read[s] then Next(s, old(TapeOf(s))) else old(TapeOf(s))
      ensures forall s :: 0 <= s < |cursors| && read[s] ==>
                Stamp(reader.grids[s], LastIndex(reader.grids[s], reader.now)) <= cursors[s]
      ensures old(events) <= events
      ensures forall s :: 0 <= s < |cursors| && !read[s] ==> DrainError(s) in events[|old(events)|..]
      ensures All(read) && QuietAt(old(cursors), reader.now) ==> events == old(events)
    {
      read := [];
      for s := 0 to |cursors|
        invariant Valid() && seeds == old(seeds) && |read| == s
        invariant forall i :: s <= i < |cursors| ==> TapeOf(i) == old(TapeOf(i))
        invariant forall i :: 0 <= i < s ==> TapeOf(i) == if read[i] then Next(i, old(TapeOf(i))) else old(TapeOf(i))
        invariant forall i :: 0 <= i < s && read[i] ==>
                    Stamp(reader.grids[i], LastIndex(reader.grids[i], reader.now)) <= cursors[i]
        invariant old(events) <= events
        invariant forall i :: 0 <= i < s && !read[i] ==> DrainError(i) in events[|old(events)|..]
        invariant All(read) && QuietAt(old(cursors), reader.now) ==> events == old(events)
      {
        ghost var before := events;
        var ok := DrainStream(s);
        assert old(TapeOf(s)).cursor == old(cursors)[s];
        NewsGrows(old(events), before, events);
        read := read + [ok];
      }
    }

    /** A read of every stream from these cursors, now, would report nothing. */
    ghost predicate QuietAt(from: seq<int>, t: int)
      requires Shaped() && reader.AllTicking()
      reads this
    {
      |from| == |reader.grids| &&
      forall s :: 0 <= s < |from| ==>
        !Reported(profile[s].capacity, |Drained(reader.grids[s], reader.ring, from[s], t)|)
    }

    lemma CleanMeansExact()
      requires Valid() && Clean(events)
      ensures forall s :: 0 <= s < |files| && Trusted(profile[s].capacity, reader.ring) ==>
                files[s] == Samples(reader.grids[s], seeds[s], cursors[s])
    {
      forall s | 0 <= s < |files| && Trusted(profile[s].capacity, reader.ring)
        ensures files[s] == Samples(reader.grids[s], seeds[s], cursors[s])
      {
        assert StreamOk(s);
        assert !LossReported(events, s);
      }
    }

    /** Catching up at one time and draining within half of every stream's span reports nothing. */
    lemma ShortWaitIsQuiet(before: int)
      requires Valid() && CaughtUp(before) && before <= reader.now
      requires forall s :: 0 <= s < |profile| ==> Measured(profile[s], reader.ring, reader.grids[s])
      requires forall s :: 0 <= s < |profile| ==>
              profile[s].span.Some? && 2 * (reader.now - before) <= profile[s].span.value
      ensures QuietAt(cursors, reader.now)
    {
      forall s | 0 <= s < |cursors|
        ensures !Reported(profile[s].capacity, |Drained(reader.grids[s], reader.ring, cursors[s], reader.now)|)
      {
        HalfSpanIsSafe(reader.grids[s], reader.ring, profile[s].capacity, cursors[s], before, reader.now);
      }
    }
  }

  predicate AllMeasured(profile: seq<Profile>, reader: FakeGpuReader) {
    |profile| == |reader.grids| && forall s :: 0 <= s < |profile| ==> Measured(profile[s], reader.ring, reader.grids[s])
  }

  /** Every stream's span was measured, and the interval is at most half the shortest. */
  predicate Unhurried(profile: seq<Profile>, drainIntervalUs: int) {
    forall s :: 0 <= s < |profile| ==> profile[s].span.Some? && 2 * drainIntervalUs <= profile[s].span.value
  }

  /** Wait, then drain. */
  method Tick(r: TelemetryRecorder, wait: nat, ghost caughtUp: bool, ghost drainIntervalUs: int, ghost times: seq<int>)
    returns (read: seq<bool>)
    requires r.Valid()
    requires caughtUp ==> r.CaughtUp(r.reader.now)
    modifies r, r.reader
    ensures r.Valid() && r.seeds == old(r.seeds) && old(r.events) <= r.events
    ensures |read| == |r.cursors|
    ensures forall s :: 0 <= s < |r.cursors| ==>
            r.TapeOf(s) == if read[s] then r.Next(s, old(r.TapeOf(s))) else old(r.TapeOf(s))
    ensures r.reader.now == old(r.reader.now) + wait
    ensures All(read) && old(r.Replays(times)) ==> r.Replays(times + [r.reader.now])
    ensures All(read) ==> r.CaughtUp(r.reader.now)
    ensures !All(read) ==> !Clean(r.events)
    ensures All(read) && caughtUp && AllMeasured(r.profile, r.reader) && Unhurried(r.profile, drainIntervalUs) &&
            wait <= drainIntervalUs ==>
              r.events == old(r.events)
  {
    ghost var before, events := r.reader.now, r.events;
    r.reader.Advance(wait);
    if caughtUp && AllMeasured(r.profile, r.reader) && Unhurried(r.profile, drainIntervalUs) &&
        wait <= drainIntervalUs {
      r.ShortWaitIsQuiet(before);
    }
    read := r.DrainOnce();
    assert (times + [r.reader.now])[..|times|] == times;
    if s :| 0 <= s < |read| && !read[s] {
      ghost var i :| |events| <= i < |r.events| && r.events[i] == DrainError(s);
      assert IsLoss(r.events[i]);
    }
  }

  /** Any recording: start, wait and drain any number of times with any read raising, stop. If it is
      called clean, every stream whose capacity can be relied on holds exactly the driver's samples
      after the seed, each once and in order. If no read raised, every stream is what replaying the
      reads gives; and if the profile was measured and no wait was longer than an interval that draws
      no configuration warning, the recording is called clean. A recorder without a profile knows no
      capacity and no span. */
  method Record(reader: FakeGpuReader, profile: seq<Profile>, drainIntervalUs: int, waits: seq<nat>)
    returns (r: TelemetryRecorder, clean: bool, allRead: bool, ghost times: seq<int>)
    requires reader.Valid() && |profile| == |reader.grids|
    modifies reader
    ensures fresh(r) && r.reader == reader && r.profile == profile && r.Valid()
    ensures clean <==> forall e :: e in r.events ==> !e.DrainError? && !e.PossibleLoss?
    ensures forall s :: 0 <= s < |r.seeds| ==> r.seeds[s] == Seed(reader.grids[s], reader.ring, old(reader.now))
    ensures Warnings(profile, drainIntervalUs) <= r.events
    ensures clean ==> forall s :: 0 <= s < |r.files| && Trusted(profile[s].capacity, reader.ring) ==>
              r.files[s] == Samples(reader.grids[s], r.seeds[s], r.cursors[s])
    ensures |times| == |waits| && (allRead ==> r.Replays(times))
    ensures allRead && AllMeasured(profile, reader) ==>
              (forall s :: 0 <= s < |profile| ==> profile[s].capacity >= 2) ==>
              ConfigWarning !in r.events ==>
              (forall i :: 0 <= i < |waits| ==> waits[i] <= drainIntervalUs) ==>
              clean
  {
    r := Begin(reader, profile, drainIntervalUs);
    ghost var configured := r.events;
    allRead, times := Drive(r, drainIntervalUs, waits);
    clean := Stop(r);
    NoWarningNoHurry(configured, r.events, profile, reader, drainIntervalUs);
  }

  /** A new recorder, started. */
  method Begin(reader: FakeGpuReader, profile: seq<Profile>, drainIntervalUs: int) returns (r: TelemetryRecorder)
    requires reader.Valid() && |profile| == |reader.grids|
    ensures fresh(r) && r.reader == reader && r.profile == profile
    ensures r.Valid() && r.CaughtUp(reader.now) && r.Replays([]) && r.events == Warnings(profile, drainIntervalUs)
    ensures forall s :: 0 <= s < |r.seeds| ==> r.seeds[s] == Seed(reader.grids[s], reader.ring, reader.now)
  {
    r := new TelemetryRecorder(reader, profile, drainIntervalUs);
    r.Start();
  }

  /** The integrity flag of a recording that has ended. */
  method Stop(r: TelemetryRecorder) returns (clean: bool)
    requires r.Valid()
    ensures clean <==> forall e :: e in r.events ==> !e.DrainError? && !e.PossibleLoss?
    ensures clean ==> forall s :: 0 <= s < |r.files| && Trusted(r.profile[s].capacity, r.reader.ring) ==>
              r.files[s] == Samples(r.reader.grids[s], r.seeds[s], r.cursors[s])
  {
    clean := !exists i :: 0 <= i < |r.events| && IsLoss(r.events[i]);
    if clean {
      r.CleanMeansExact();
    }
  }

  /** Waits and drains, again and again. */
  method Drive(r: TelemetryRecorder, ghost drainIntervalUs: int, waits: seq<nat>)
    returns (allRead: bool, ghost times: seq<int>)
    requires r.Valid() && r.CaughtUp(r.reader.now) && r.Replays([])
    modifies r, r.reader
    ensures r.Valid() && r.seeds == old(r.seeds) && old(r.events) <= r.events
    ensures |times| == |waits| && (allRead ==> r.Replays(times))
    ensures allRead && AllMeasured(r.profile, r.reader) && Unhurried(r.profile, drainIntervalUs) ==>
              (forall k :: 0 <= k < |waits| ==> waits[k] <= drainIntervalUs) ==> r.events == old(r.events)
  {
    allRead, times := true, [];
    for i := 0 to |waits|
      invariant r.Valid() && r.seeds == old(r.seeds) && old(r.events) <= r.events && |times| == i
      invariant allRead ==> r.CaughtUp(r.reader.now) && r.Replays(times)
      invariant allRead && AllMeasured(r.profile, r.reader) && Unhurried(r.profile, drainIntervalUs) ==>
                  (forall k :: 0 <= k < i ==> waits[k] <= drainIntervalUs) ==> r.events == old(r.events)
    {
      var read := Tick(r, waits[i], allRead, drainIntervalUs, times);
      allRead := allRead && forall s :: 0 <= s < |read| ==> read[s];
      times := times + [r.reader.now];
    }
  }

  /** Characterise the sensors, then record: with at least one sample of every stream in the ring, a
      recording that is called clean is exact for every stream. */
  method CharacterizeAndRecord(reader: FakeGpuReader, settle: nat, drainIntervalUs: int, waits: seq<nat>)
    returns (r: TelemetryRecorder, clean: bool)
    requires reader.Valid() && reader.start > 0
    modifies reader
    ensures fresh(r) && r.reader == reader && r.Valid()
    ensures clean ==> forall s :: 0 <= s < |reader.grids| ==>
              r.files[s] == Samples(reader.grids[s], r.seeds[s], r.cursors[s])
  {
    var profile := CharacterizeSensors(reader);
    forall s | 0 <= s < |profile|
      ensures Trusted(profile[s].capacity, reader.ring)
    {
      HeldWhenFull(reader.ring, reader.grids[s], reader.now);
    }
    reader.Advance(settle);
    var allRead;
    ghost var times;
    r, clean, allRead, times := Record(reader, profile, drainIntervalUs, waits);
  }

  /** Without a configuration warning the interval is at most half of every span. */
  lemma NoWarningNoHurry(
      configured: seq<Event>, events: seq<Event>, profile: seq<Profile>, reader: FakeGpuReader, drainIntervalUs: int)
    requires configured <= events
    requires configured == Warnings(profile, drainIntervalUs)
    ensures ConfigWarning !in events ==> configured == []
    ensures ConfigWarning !in events && AllMeasured(profile, reader) &&
            (forall s :: 0 <= s < |profile| ==> profile[s].capacity >= 2) ==>
              Unhurried(profile, drainIntervalUs)
  {
    assert events == configured + events[|configured|..];
  }
}
