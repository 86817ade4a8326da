/** What a power-cap run proves: the decision over its baseline, capped and recovered phases. */
module PowerVerdict {
  import opened Sequences
  import opened GuardTypes

  /** Where a phase's power samples came from; `NoSamples` comes only with an unloaded phase. */
  datatype Source = Ring | Polled | Mixed | NoSamples

  predicate SomePolled(s: Source) {
    s.Polled? || s.Mixed?
  }

  /** One measured phase. `limit` is the limit read back, in milliwatts. */
  datatype Phase = Phase(limit: Option<int>, loaded: bool, source: Source, clock: real, peak: Option<real>)

  datatype Margins = Margins(clock: real, bind: real, enforce: real)

  datatype Why = Unloaded | PolledPower | ClockNotHeld | NothingBinds

  datatype Verdict =
    | Raises
    | RestoreUnverified
    | RestoreFailed
    | Inconclusive(why: Why)
    | RefusedByDevice
    | CapIsANoOp
    | Partial
    | CapWorks

  /** A capped phase judged against the baseline; caps are in watts. */
  datatype Row = Row(cap: int, stored: bool, canBind: bool, clock: real, peak: Option<real>, responded: bool)

  function Abs(x: real): real {
    if x >= 0.0 then x else -x
  }

  predicate LimitNear(a: int, b: int) {
    -500 <= a - b <= 500
  }

  function JudgeRow(base: Phase, cap: int, ph: Phase, m: Margins): Row {
    var dropped := base.clock - ph.clock > m.clock;
    var held := ph.peak.Some? && ph.peak.value <= cap as real + m.enforce;
    Row(cap,
        ph.limit.Some? && LimitNear(ph.limit.value, cap * 1000),
        base.peak.Some? && (cap as real) < base.peak.value - m.bind,
        ph.clock, ph.peak, dropped || held)
  }

  /** One row per cap and phase, as far as both lists go. */
  function Rows(base: Phase, caps: seq<int>, capped: seq<Phase>, m: Margins): (rows: seq<Row>)
    ensures |rows| == if |caps| <= |capped| then |caps| else |capped|
    ensures forall i :: 0 <= i < |rows| ==> rows[i] == JudgeRow(base, caps[i], capped[i], m)
  {
    var n := if |caps| <= |capped| then |caps| else |capped|;
    seq(n, i requires 0 <= i < n => JudgeRow(base, caps[i], capped[i], m))
  }

  function Bindable(rows: seq<Row>): seq<Row> {
    if rows == [] then [] else (if rows[0].canBind then [rows[0]] else []) + Bindable(rows[1..])
  }

  // ----- ordering the binding caps -----

  function InsertRow(r: Row, rs: seq<Row>): (s: seq<Row>)
    ensures |s| == |rs| + 1
  {
    if rs == [] || r.cap <= rs[0].cap then [r] + rs else [rs[0]] + InsertRow(r, rs[1..])
  }

  function ByCap(rs: seq<Row>): (s: seq<Row>)
    ensures |s| == |rs|
  {
    if rs == [] then [] else InsertRow(rs[0], ByCap(rs[1..]))
  }

  predicate CapsRise(rs: seq<Row>) {
    forall i, j :: 0 <= i < j < |rs| ==> rs[i].cap <= rs[j].cap
  }

  lemma {:induction false} InsertRowPermutes(r: Row, rs: seq<Row>)
    ensures multiset(InsertRow(r, rs)) == multiset(rs) + multiset{r}
  {
    if rs == [] || r.cap <= rs[0].cap {
      ConsContents(r, rs);
    } else {
      InsertRowPermutes(r, rs[1..]);
      UnconsContents(rs);
      ConsContents(rs[0], InsertRow(r, rs[1..]));
    }
  }

  lemma ConsRises(r: Row, rs: seq<Row>)
    requires CapsRise(rs) && (rs != [] ==> r.cap <= rs[0].cap)
    ensures CapsRise([r] + rs)
  {
    forall j | 0 <= j < |rs|
      ensures r.cap <= rs[j].cap
    {
      assert j > 0 ==> rs[0].cap <= rs[j].cap;
    }
  }

  lemma {:induction false} InsertRowSorts(r: Row, rs: seq<Row>)
    requires CapsRise(rs)
    ensures CapsRise(InsertRow(r, rs))
  {
    if rs == [] || r.cap <= rs[0].cap {
      ConsRises(r, rs);
    } else {
      InsertRowSorts(r, rs[1..]);
      ConsRises(rs[0], InsertRow(r, rs[1..]));
    }
  }

  lemma {:induction false} ByCapSorts(rs: seq<Row>)
    ensures CapsRise(ByCap(rs)) && multiset(ByCap(rs)) == multiset(rs)
  {
    if rs != [] {
      ByCapSorts(rs[1..]);
      InsertRowSorts(rs[0], ByCap(rs[1..]));
      InsertRowPermutes(rs[0], ByCap(rs[1..]));
      UnconsContents(rs);
    }
  }

  lemma {:induction false} BindableHolds(rows: seq<Row>, r: Row)
    ensures r in Bindable(rows) <==> r in rows && r.canBind
  {
    if rows != [] {
      BindableHolds(rows[1..], r);
      assert rows == [rows[0]] + rows[1..];
    }
  }

  /** A tighter cap never has a higher clock or peak than the next looser one, within the margins. */
  predicate StepsUp(a: Row, b: Row, m: Margins) {
    && a.clock <= b.clock + m.clock
    && a.peak.Some? && b.peak.Some? && a.peak.value <= b.peak.value + m.enforce
  }

  predicate Monotone(rs: seq<Row>, m: Margins) {
    forall i :: 0 <= i < |rs| - 1 ==> StepsUp(rs[i], rs[i + 1], m)
  }

  // ----- the decision -----

  /** What the rows alone decide, once the phases are fit to be compared. Reporting that no cap could
      bind quotes the uncapped peak, and raises when there is none. */
  function JudgeRows(rows: seq<Row>, m: Margins, peakKnown: bool): Verdict {
    var binding := Bindable(rows);
    if exists i :: 0 <= i < |rows| && !rows[i].stored then RefusedByDevice
    else if binding == [] then if peakKnown then Inconclusive(NothingBinds) else Raises
    else if forall i :: 0 <= i < |binding| ==> !binding[i].responded then CapIsANoOp
    else if exists i :: 0 <= i < |binding| && !binding[i].responded then Partial
    else if |binding| == 1 then Partial
    else if !Monotone(ByCap(binding), m) then Partial
    else CapWorks
  }

  predicate RestoredLimit(base: Phase, rec: Phase) {
    base.limit.Some? && rec.limit.Some? && LimitNear(rec.limit.value, base.limit.value)
  }

  predicate ClockHeld(base: Phase, requested: Option<int>, m: Margins) {
    requested.Some? && requested.value != 0 ==> Abs(base.clock - requested.value as real) <= m.clock
  }

  /** The decision in the order its checks must have: the limit, liveness, power source, control,
      clock, and only then efficacy. */
  function Judge(
      base: Phase, capped: seq<Phase>, rec: Phase, caps: seq<int>, m: Margins, requested: Option<int>): Verdict {
    var phases := [base] + capped + [rec];
    if base.limit.None? || rec.limit.None? then RestoreUnverified
    else if !RestoredLimit(base, rec) then RestoreFailed
    else if exists i :: 0 <= i < |phases| && !phases[i].loaded then Inconclusive(Unloaded)
    else if exists i :: 0 <= i < |phases| && SomePolled(phases[i].source) then Inconclusive(PolledPower)
    else if !ClockHeld(base, requested, m) then Inconclusive(ClockNotHeld)
    else if Abs(rec.clock - base.clock) > m.clock then RestoreFailed
    else JudgeRows(Rows(base, caps, capped, m), m, base.peak.Some?)
  }

  /** The program: one loop fills the rows and the binding rows, between early returns. */
  method JudgePower(base: Phase, capped: seq<Phase>, rec: Phase, caps: seq<int>, m: Margins, requested: Option<int>)
    returns (verdict: Verdict)
    ensures verdict == Judge(base, capped, rec, caps, m, requested)
  {
    if base.limit.None? || rec.limit.None? {
      return RestoreUnverified;
    }
    if !LimitNear(rec.limit.value, base.limit.value) {
      return RestoreFailed;
    }
    var phases := [base] + capped + [rec];
    if exists i :: 0 <= i < |phases| && !phases[i].loaded {
      return Inconclusive(Unloaded);
    }
    if exists i :: 0 <= i < |phases| && SomePolled(phases[i].source) {
      return Inconclusive(PolledPower);
    }
    if !ClockHeld(base, requested, m) {
      return Inconclusive(ClockNotHeld);
    }
    if Abs(rec.clock - base.clock) > m.clock {
      return RestoreFailed;
    }
    ghost var rows := Rows(base, caps, capped, m);
    var perCap: seq<Row>, bindable: seq<Row> := [], [];
    var i := 0;
    while i < |caps| && i < |capped|
      invariant 0 <= i <= |rows|
      invariant perCap == rows[..i]
      invariant bindable == Bindable(rows[..i])
    {
      var row := JudgeRow(base, caps[i], capped[i], m);
      BindableAppend(rows[..i], row);
      assert rows[..i + 1] == rows[..i] + [row];
      perCap := perCap + [row];
      if row.canBind {
        bindable := bindable + [row];
      }
      i := i + 1;
    }
    assert rows[..i] == rows;
    if exists k :: 0 <= k < |perCap| && !perCap[k].stored {
      return RefusedByDevice;
    }
    if bindable == [] {
      return if base.peak.Some? then Inconclusive(NothingBinds) else Raises;
    }
    if forall k :: 0 <= k < |bindable| ==> !bindable[k].responded {
      return CapIsANoOp;
    }
    if exists k :: 0 <= k < |bindable| && !bindable[k].responded {
      return Partial;
    }
    if |bindable| == 1 || !Monotone(ByCap(bindable), m) {
      return Partial;
    }
    return CapWorks;
  }

  lemma {:induction false} BindableAppend(rows: seq<Row>, r: Row)
    ensures Bindable(rows + [r]) == Bindable(rows) + if r.canBind then [r] else []
  {
    if rows == [] {
      assert ([] + [r])[1..] == [];
    } else {
      BindableAppend(rows[1..], r);
      assert (rows + [r])[1..] == rows[1..] + [r];
    }
  }

  function Without<T>(s: seq<T>, i: nat): (r: seq<T>)
    requires i < |s|
    ensures |r| == |s| - 1
    ensures forall k :: 0 <= k < |r| ==> r[k] == if k < i then s[k] else s[k + 1]
  {
    s[..i] + s[i + 1..]
  }

  lemma WithoutKeepsExists<T>(s: seq<T>, i: nat, bad: T -> bool)
    requires i < |s| && !bad(s[i])
    ensures (exists k :: 0 <= k < |Without(s, i)| && bad(Without(s, i)[k])) <==> exists k :: 0 <= k < |s| && bad(s[k])
  {
    var r := Without(s, i);
    if k :| 0 <= k < |s| && bad(s[k]) {
      assert bad(r[if k < i then k else k - 1]);
    }
    if k :| 0 <= k < |r| && bad(r[k]) {
      assert bad(s[if k < i then k else k + 1]);
    }
  }

  lemma RowsWithout(base: Phase, caps: seq<int>, capped: seq<Phase>, m: Margins, i: nat)
    requires i < |caps| && i < |capped|
    ensures Rows(base, Without(caps, i), Without(capped, i), m) == Without(Rows(base, caps, capped, m), i)
  {
  }

  lemma {:induction false} BindableWithout(rows: seq<Row>, i: nat)
    requires i < |rows| && !rows[i].canBind
    ensures Bindable(Without(rows, i)) == Bindable(rows)
  {
    if i == 0 {
      assert Without(rows, 0) == rows[1..];
    } else {
      BindableWithout(rows[1..], i - 1);
      assert Without(rows, i)[1..] == Without(rows[1..], i - 1);
    }
  }

  lemma JudgeRowsWithout(rows: seq<Row>, m: Margins, peakKnown: bool, i: nat)
    requires i < |rows| && rows[i].stored && !rows[i].canBind
    ensures JudgeRows(Without(rows, i), m, peakKnown) == JudgeRows(rows, m, peakKnown)
  {
    BindableWithout(rows, i);
    WithoutKeepsExists(rows, i, (r: Row) => !r.stored);
  }

  lemma PhasesWithout(base: Phase, capped: seq<Phase>, rec: Phase, i: nat)
    requires i < |capped|
    ensures [base] + Without(capped, i) + [rec] == Without([base] + capped + [rec], i + 1)
  {
  }

  lemma GatesWithout(base: Phase, capped: seq<Phase>, rec: Phase, i: nat)
    requires i < |capped| && capped[i].loaded && !SomePolled(capped[i].source)
    ensures var all, fewer := [base] + capped + [rec], [base] + Without(capped, i) + [rec];
            && ((exists k :: 0 <= k < |fewer| && !fewer[k].loaded) <==> exists k :: 0 <= k < |all| && !all[k].loaded)
            && ((exists k :: 0 <= k < |fewer| && SomePolled(fewer[k].source)) <==>
                exists k :: 0 <= k < |all| && SomePolled(all[k].source))
  {
    var phases := [base] + capped + [rec];
    PhasesWithout(base, capped, rec, i);
    assert phases[i + 1] == capped[i];
    WithoutKeepsExists(phases, i + 1, (p: Phase) => !p.loaded);
    WithoutKeepsExists(phases, i + 1, (p: Phase) => SomePolled(p.source));
  }

  /** Dropping a cap whose phase is loaded, not polled and stored, but which cannot bind below the
      uncapped peak, never changes the verdict, whatever the other phases are. */
  lemma IdleCapIsNoEvidence(
      base: Phase, capped: seq<Phase>, rec: Phase, caps: seq<int>, m: Margins, requested: Option<int>, i: nat)
    requires i < |caps| && i < |capped|
    requires capped[i].loaded && !SomePolled(capped[i].source)
    requires var row := JudgeRow(base, caps[i], capped[i], m); row.stored && !row.canBind
    ensures Judge(base, Without(capped, i), rec, Without(caps, i), m, requested) ==
            Judge(base, capped, rec, caps, m, requested)
  {
    GatesWithout(base, capped, rec, i);
    RowsWithout(base, caps, capped, m, i);
    JudgeRowsWithout(Rows(base, caps, capped, m), m, base.peak.Some?, i);
  }

  // ----- what the verdicts mean -----

  /** Chained steps: caps `d` apart in sorted order differ by at most `d` margins. */
  lemma {:induction false} StepsAddUp(rs: seq<Row>, m: Margins, i: nat, d: nat)
    requires Monotone(rs, m) && i + d < |rs| && d > 0
    ensures rs[i].clock <= rs[i + d].clock + (d as real) * m.clock
    ensures rs[i].peak.Some? && rs[i + d].peak.Some?
    ensures rs[i].peak.value <= rs[i + d].peak.value + (d as real) * m.enforce
  {
    assert StepsUp(rs[i + d - 1], rs[i + d - 1 + 1], m);
    if d > 1 {
      StepsAddUp(rs, m, i, d - 1);
      assert (d as real) * m.clock == ((d - 1) as real) * m.clock + m.clock;
      assert (d as real) * m.enforce == ((d - 1) as real) * m.enforce + m.enforce;
    }
  }

  // ----- the verdicts in terms of what was measured -----

  /** Two readings at most half a watt apart, in milliwatts. */
  predicate SameLimit(a: Option<int>, b: Option<int>) {
    a.Some? && b.Some? && -500 <= a.value - b.value <= 500
  }

  predicate Within(a: real, b: real, margin: real) {
    -margin <= a - b <= margin
  }

  predicate LoadedAll(base: Phase, capped: seq<Phase>, rec: Phase) {
    base.loaded && rec.loaded && forall p :: p in capped ==> p.loaded
  }

  predicate UnpolledAll(base: Phase, capped: seq<Phase>, rec: Phase) {
    && base.source !in {Polled, Mixed} && rec.source !in {Polled, Mixed}
    && forall p :: p in capped ==> p.source !in {Polled, Mixed}
  }

  /** A clock that was asked for was held. */
  predicate HeldAt(base: Phase, requested: Option<int>, m: Margins) {
    requested.Some? && requested.value != 0 ==> Within(base.clock, requested.value as real, m.clock)
  }

  /** The phases are fit to judge the caps by: limit and clock came back, all under load, none with polled
      power, and the clock lock held. */
  predicate Fit(base: Phase, capped: seq<Phase>, rec: Phase, m: Margins, requested: Option<int>) {
    && SameLimit(rec.limit, base.limit) && Within(rec.clock, base.clock, m.clock)
    && LoadedAll(base, capped, rec) && UnpolledAll(base, capped, rec) && HeldAt(base, requested, m)
  }

  /** How many caps were measured. */
  function Measured(caps: seq<int>, capped: seq<Phase>): nat {
    if |caps| <= |capped| then |caps| else |capped|
  }

  /** Every cap read back as it was written. */
  predicate CapsStored(caps: seq<int>, capped: seq<Phase>) {
    forall i :: 0 <= i < Measured(caps, capped) ==> SameLimit(capped[i].limit, Some(caps[i] * 1000))
  }

  /** A cap far enough below the uncapped peak that it can act. */
  predicate CanAct(base: Phase, caps: seq<int>, m: Margins, i: int) {
    0 <= i < |caps| && base.peak.Some? && (caps[i] as real) + m.bind < base.peak.value
  }

  /** A cap that acted: the clock fell, or the peak was held to the cap. */
  predicate DidAct(base: Phase, caps: seq<int>, capped: seq<Phase>, m: Margins, i: int)
    requires 0 <= i < Measured(caps, capped)
  {
    || capped[i].clock + m.clock < base.clock
    || (capped[i].peak.Some? && capped[i].peak.value - m.enforce <= caps[i] as real)
  }

  /** Caps in ascending order, equal ones in the order they were measured in. */
  predicate Tighter(caps: seq<int>, i: int, j: int)
    requires 0 <= i < |caps| && 0 <= j < |caps|
  {
    caps[i] < caps[j] || (caps[i] == caps[j] && i < j)
  }

  /** Of the caps that can act, `j` is the next looser one after `i`. */
  predicate NextLooser(base: Phase, caps: seq<int>, n: nat, m: Margins, i: int, j: int)
    requires n <= |caps|
  {
    && 0 <= i < n && 0 <= j < n && CanAct(base, caps, m, i) && CanAct(base, caps, m, j) && Tighter(caps, i, j)
    && forall k :: 0 <= k < n && CanAct(base, caps, m, k) ==> !(Tighter(caps, i, k) && Tighter(caps, k, j))
  }

  /** The next looser cap gives no lower clock and no lower peak, within the margins. */
  predicate Responds(base: Phase, caps: seq<int>, capped: seq<Phase>, m: Margins) {
    var n := Measured(caps, capped);
    forall i, j :: 0 <= i < n && 0 <= j < n && NextLooser(base, caps, n, m, i, j) ==>
      && capped[i].clock <= capped[j].clock + m.clock
      && capped[i].peak.Some? && capped[j].peak.Some? && capped[i].peak.value <= capped[j].peak.value + m.enforce
  }

  lemma RowFacts(base: Phase, caps: seq<int>, capped: seq<Phase>, m: Margins, i: nat)
    requires i < Measured(caps, capped)
    ensures var r := Rows(base, caps, capped, m)[i];
            && r.cap == caps[i] && r.clock == capped[i].clock && r.peak == capped[i].peak
            && (r.stored <==> SameLimit(capped[i].limit, Some(caps[i] * 1000)))
            && (r.canBind <==> CanAct(base, caps, m, i))
            && (r.responded <==> DidAct(base, caps, capped, m, i))
  {
  }

  // ----- the binding caps in order, by their places -----

  function PutPlace(rows: seq<Row>, k: nat, places: seq<nat>): (r: seq<nat>)
    requires k < |rows| && forall q :: 0 <= q < |places| ==> places[q] < |rows|
    ensures forall q :: 0 <= q < |r| ==> r[q] < |rows|
  {
    if places == [] || rows[k].cap <= rows[places[0]].cap then [k] + places
    else [places[0]] + PutPlace(rows, k, places[1..])
  }

  /** The places, from `k` on, of rows that can bind, in ascending order of cap. */
  function Places(rows: seq<Row>, k: nat): (r: seq<nat>)
    requires k <= |rows|
    ensures forall q :: 0 <= q < |r| ==> r[q] < |rows|
    decreases |rows| - k
  {
    if k == |rows| then []
    else if rows[k].canBind then PutPlace(rows, k, Places(rows, k + 1))
    else Places(rows, k + 1)
  }

  function RowsAt(rows: seq<Row>, places: seq<nat>): (r: seq<Row>)
    requires forall q :: 0 <= q < |places| ==> places[q] < |rows|
    ensures |r| == |places| && forall q :: 0 <= q < |r| ==> r[q] == rows[places[q]]
  {
    seq(|places|, q requires 0 <= q < |places| => rows[places[q]])
  }

  lemma RowsAtCons(rows: seq<Row>, k: nat, places: seq<nat>)
    requires k < |rows| && forall q :: 0 <= q < |places| ==> places[q] < |rows|
    ensures RowsAt(rows, [k] + places) == [rows[k]] + RowsAt(rows, places)
  {
  }

  lemma {:induction false} PutPlaceInserts(rows: seq<Row>, k: nat, places: seq<nat>)
    requires k < |rows| && forall q :: 0 <= q < |places| ==> places[q] < |rows|
    ensures RowsAt(rows, PutPlace(rows, k, places)) == InsertRow(rows[k], RowsAt(rows, places))
    decreases |places|
  {
    if places == [] || rows[k].cap <= rows[places[0]].cap {
      RowsAtCons(rows, k, places);
    } else {
      PutPlaceInserts(rows, k, places[1..]);
      assert places == [places[0]] + places[1..];
      RowsAtCons(rows, places[0], places[1..]);
      RowsAtCons(rows, places[0], PutPlace(rows, k, places[1..]));
      assert RowsAt(rows, places)[1..] == RowsAt(rows, places[1..]);
    }
  }

  lemma BindableFrom(rows: seq<Row>, k: nat)
    requires k < |rows|
    ensures !rows[k].canBind ==> Bindable(rows[k..]) == Bindable(rows[k + 1..])
    ensures rows[k].canBind ==>
              && Bindable(rows[k..]) != [] && Bindable(rows[k..])[0] == rows[k]
              && Bindable(rows[k..])[1..] == Bindable(rows[k + 1..])
  {
    assert rows[k..][1..] == rows[k + 1..];
  }

  /** The program's sorted list of binding rows is the rows at these places. */
  lemma {:induction false} PlacesAreByCap(rows: seq<Row>, k: nat)
    requires k <= |rows|
    ensures RowsAt(rows, Places(rows, k)) == ByCap(Bindable(rows[k..]))
    decreases |rows| - k
  {
    if k < |rows| {
      PlacesAreByCap(rows, k + 1);
      BindableFrom(rows, k);
      if rows[k].canBind {
        PutPlaceInserts(rows, k, Places(rows, k + 1));
      }
    }
  }

  predicate Precedes(rows: seq<Row>, i: nat, j: nat)
    requires i < |rows| && j < |rows|
  {
    rows[i].cap < rows[j].cap || (rows[i].cap == rows[j].cap && i < j)
  }

  predicate InPlaceOrder(rows: seq<Row>, places: seq<nat>)
    requires forall q :: 0 <= q < |places| ==> places[q] < |rows|
  {
    forall p, q :: 0 <= p < q < |places| ==> Precedes(rows, places[p], places[q])
  }

  lemma {:induction false} PutPlaceOrders(rows: seq<Row>, k: nat, places: seq<nat>)
    requires k < |rows| && forall q :: 0 <= q < |places| ==> k < places[q] < |rows|
    requires InPlaceOrder(rows, places)
    ensures InPlaceOrder(rows, PutPlace(rows, k, places))
    ensures forall i :: i in PutPlace(rows, k, places) <==> i == k || i in places
    decreases |places|
  {
    if places == [] || rows[k].cap <= rows[places[0]].cap {
      forall q | 0 <= q < |places|
        ensures Precedes(rows, k, places[q])
      {
        assert q > 0 ==> Precedes(rows, places[0], places[q]);
      }
    } else {
      var rest := PutPlace(rows, k, places[1..]);
      PutPlaceOrders(rows, k, places[1..]);
      forall q | 0 <= q < |rest|
        ensures Precedes(rows, places[0], rest[q])
      {
        assert rest[q] in rest;
        assert rest[q] == k || rest[q] in places[1..];
      }
      assert places == [places[0]] + places[1..];
    }
  }

  lemma {:induction false} PlacesOrdered(rows: seq<Row>, k: nat)
    requires k <= |rows|
    ensures InPlaceOrder(rows, Places(rows, k))
    ensures forall i :: i in Places(rows, k) <==> k <= i < |rows| && rows[i].canBind
    decreases |rows| - k
  {
    if k < |rows| {
      PlacesOrdered(rows, k + 1);
      if rows[k].canBind {
        var places := Places(rows, k + 1);
        assert forall q :: 0 <= q < |places| ==> places[q] in places;
        PutPlaceOrders(rows, k, places);
      }
    }
  }

  /** Row `j` is the next binding one after row `i`. */
  predicate NextRow(rows: seq<Row>, i: nat, j: nat) {
    && i < |rows| && j < |rows| && rows[i].canBind && rows[j].canBind && Precedes(rows, i, j)
    && forall k: nat :: k < |rows| && rows[k].canBind ==> !(Precedes(rows, i, k) && Precedes(rows, k, j))
  }

  /** Neighbours in the sorted list are exactly the rows with no binding row in between. */
  lemma NeighboursAreNext(rows: seq<Row>, places: seq<nat>, p: nat, q: nat)
    requires forall i :: i in places <==> 0 <= i < |rows| && rows[i].canBind
    requires forall q :: 0 <= q < |places| ==> places[q] < |rows|
    requires InPlaceOrder(rows, places) && p < |places| && q < |places|
    ensures NextRow(rows, places[p], places[q]) <==> q == p + 1
  {
    assert places[p] in places && places[q] in places;
    if q == p + 1 {
      forall k: nat | k < |rows| && rows[k].canBind
        ensures !(Precedes(rows, places[p], k) && Precedes(rows, k, places[q]))
      {
        assert k in places;
        var t :| 0 <= t < |places| && places[t] == k;
        assert t < p ==> Precedes(rows, places[t], places[p]);
        assert t > q ==> Precedes(rows, places[q], places[t]);
      }
    } else if p + 1 < q {
      assert places[p + 1] in places;
      assert Precedes(rows, places[p], places[p + 1]) && Precedes(rows, places[p + 1], places[q]);
    } else {
      assert q < p ==> Precedes(rows, places[q], places[p]);
    }
  }

  lemma MonotoneIff(rows: seq<Row>, m: Margins)
    ensures Monotone(ByCap(Bindable(rows)), m) <==>
            forall i: nat, j: nat :: NextRow(rows, i, j) ==> StepsUp(rows[i], rows[j], m)
  {
    var places, rs := Places(rows, 0), ByCap(Bindable(rows));
    PlacesAreByCap(rows, 0);
    assert rows[0..] == rows;
    PlacesOrdered(rows, 0);
    if Monotone(rs, m) {
      forall i: nat, j: nat | NextRow(rows, i, j)
        ensures StepsUp(rows[i], rows[j], m)
      {
        assert i in places && j in places;
        var p :| 0 <= p < |places| && places[p] == i;
        var q :| 0 <= q < |places| && places[q] == j;
        NeighboursAreNext(rows, places, p, q);
        assert StepsUp(rs[p], rs[p + 1], m);
      }
    }
    if forall i: nat, j: nat :: NextRow(rows, i, j) ==> StepsUp(rows[i], rows[j], m) {
      forall p | 0 <= p < |rs| - 1
        ensures StepsUp(rs[p], rs[p + 1], m)
      {
        NeighboursAreNext(rows, places, p, p + 1);
      }
    }
  }

  lemma RespondsIff(base: Phase, caps: seq<int>, capped: seq<Phase>, m: Margins)
    ensures Monotone(ByCap(Bindable(Rows(base, caps, capped, m))), m) <==> Responds(base, caps, capped, m)
  {
    var rows, n := Rows(base, caps, capped, m), Measured(caps, capped);
    MonotoneIff(rows, m);
    forall i: nat | i < n
      ensures rows[i].cap == caps[i] && rows[i].clock == capped[i].clock && rows[i].peak == capped[i].peak
      ensures rows[i].canBind <==> CanAct(base, caps, m, i)
    {
      RowFacts(base, caps, capped, m, i);
    }
    forall i: nat, j: nat | i < n && j < n
      ensures NextRow(rows, i, j) <==> NextLooser(base, caps, n, m, i, j)
    {
      NextRowIff(base, caps, rows, m, i, j);
    }
  }

  lemma NextRowIff(base: Phase, caps: seq<int>, rows: seq<Row>, m: Margins, i: nat, j: nat)
    requires |rows| <= |caps| && i < |rows| && j < |rows|
    requires forall k: nat :: k < |rows| ==> rows[k].cap == caps[k] && (rows[k].canBind <==> CanAct(base, caps, m, k))
    ensures NextRow(rows, i, j) <==> NextLooser(base, caps, |rows|, m, i, j)
  {
    forall k: nat, l: nat | k < |rows| && l < |rows|
      ensures Precedes(rows, k, l) <==> Tighter(caps, k, l)
    {
    }
  }

  predicate AllActed(rows: seq<Row>) {
    forall i :: 0 <= i < |rows| && rows[i].canBind ==> rows[i].responded
  }

  predicate NoneActed(rows: seq<Row>) {
    forall i :: 0 <= i < |rows| && rows[i].canBind ==> !rows[i].responded
  }

  predicate AnyBinds(rows: seq<Row>) {
    exists i :: 0 <= i < |rows| && rows[i].canBind
  }

  predicate SeveralBind(rows: seq<Row>) {
    exists i, j :: 0 <= i < j < |rows| && rows[i].canBind && rows[j].canBind
  }

  predicate AllResponded(rs: seq<Row>) {
    forall q :: 0 <= q < |rs| ==> rs[q].responded
  }

  predicate NoneResponded(rs: seq<Row>) {
    forall q :: 0 <= q < |rs| ==> !rs[q].responded
  }

  lemma {:induction false} BindingActed(rows: seq<Row>)
    ensures AllResponded(Bindable(rows)) <==> AllActed(rows)
    ensures NoneResponded(Bindable(rows)) <==> NoneActed(rows)
  {
    var binding := Bindable(rows);
    forall r
      ensures r in binding <==> r in rows && r.canBind
    {
      BindableHolds(rows, r);
    }
    forall i | 0 <= i < |rows| && rows[i].canBind
      ensures exists q :: 0 <= q < |binding| && binding[q] == rows[i]
    {
      assert rows[i] in binding;
    }
    forall q | 0 <= q < |binding|
      ensures exists i :: 0 <= i < |rows| && rows[i].canBind && rows[i] == binding[q]
    {
      assert binding[q] in binding;
    }
  }

  /** None, one, or several rows can bind. */
  lemma {:induction false} BindingCount(rows: seq<Row>)
    ensures Bindable(rows) == [] <==> !AnyBinds(rows)
    ensures |Bindable(rows)| >= 2 <==> SeveralBind(rows)
  {
    if rows != [] {
      var tail := rows[1..];
      BindingCount(tail);
      assert AnyBinds(tail) <==> exists i :: 1 <= i < |rows| && rows[i].canBind by {
        assert forall i :: 1 <= i < |rows| ==> rows[i] == tail[i - 1];
      }
      assert SeveralBind(tail) <==> exists i, j :: 1 <= i < j < |rows| && rows[i].canBind && rows[j].canBind by {
        assert forall i :: 1 <= i < |rows| ==> rows[i] == tail[i - 1];
        if i, j :| 0 <= i < j < |tail| && tail[i].canBind && tail[j].canBind {
          assert rows[i + 1].canBind && rows[j + 1].canBind;
        }
      }
    }
  }

  /** The verdict of the rows, by each row's place. */
  lemma RowsVerdict(rows: seq<Row>, m: Margins, peakKnown: bool)
    ensures var v := JudgeRows(rows, m, peakKnown);
            var stored := forall i :: 0 <= i < |rows| ==> rows[i].stored;
            && (v == RefusedByDevice <==> !stored)
            && (v == Raises <==> stored && !AnyBinds(rows) && !peakKnown)
            && (v == Inconclusive(NothingBinds) <==> stored && !AnyBinds(rows) && peakKnown)
            && (v == CapIsANoOp <==> stored && AnyBinds(rows) && NoneActed(rows))
            && (v == CapWorks <==>
                  stored && SeveralBind(rows) && AllActed(rows) && Monotone(ByCap(Bindable(rows)), m))
            && v in {RefusedByDevice, Raises, Inconclusive(NothingBinds), CapIsANoOp, Partial, CapWorks}
  {
    BindingCount(rows);
    BindingActed(rows);
    var binding := Bindable(rows);
    assert NoneResponded(binding) && AllResponded(binding) ==> binding == [] by {
      assert binding != [] ==> binding[0].responded || !binding[0].responded;
    }
    JudgeByActed(rows, m, peakKnown);
  }

  lemma JudgeByActed(rows: seq<Row>, m: Margins, peakKnown: bool)
    ensures var binding := Bindable(rows);
            JudgeRows(rows, m, peakKnown) ==
            if exists i :: 0 <= i < |rows| && !rows[i].stored then RefusedByDevice
            else if binding == [] then if peakKnown then Inconclusive(NothingBinds) else Raises
            else if NoneResponded(binding) then CapIsANoOp
            else if !AllResponded(binding) || |binding| == 1 || !Monotone(ByCap(binding), m) then Partial
            else CapWorks
  {
  }

  predicate SomeCanAct(base: Phase, caps: seq<int>, capped: seq<Phase>, m: Margins) {
    exists i :: 0 <= i < Measured(caps, capped) && CanAct(base, caps, m, i)
  }

  predicate SeveralCanAct(base: Phase, caps: seq<int>, capped: seq<Phase>, m: Margins) {
    exists i, j :: 0 <= i < j < Measured(caps, capped) && CanAct(base, caps, m, i) && CanAct(base, caps, m, j)
  }

  predicate AllDidAct(base: Phase, caps: seq<int>, capped: seq<Phase>, m: Margins) {
    forall i :: 0 <= i < Measured(caps, capped) && CanAct(base, caps, m, i) ==> DidAct(base, caps, capped, m, i)
  }

  predicate NoneDidAct(base: Phase, caps: seq<int>, capped: seq<Phase>, m: Margins) {
    forall i :: 0 <= i < Measured(caps, capped) && CanAct(base, caps, m, i) ==> !DidAct(base, caps, capped, m, i)
  }

  lemma RowsMean(base: Phase, caps: seq<int>, capped: seq<Phase>, m: Margins)
    ensures var rows := Rows(base, caps, capped, m);
            && ((forall i :: 0 <= i < |rows| ==> rows[i].stored) <==> CapsStored(caps, capped))
            && (AnyBinds(rows) <==> SomeCanAct(base, caps, capped, m))
            && (SeveralBind(rows) <==> SeveralCanAct(base, caps, capped, m))
            && (AllActed(rows) <==> AllDidAct(base, caps, capped, m))
            && (NoneActed(rows) <==> NoneDidAct(base, caps, capped, m))
  {
    var rows, n := Rows(base, caps, capped, m), Measured(caps, capped);
    forall i: nat | i < n
      ensures rows[i].stored <==> SameLimit(capped[i].limit, Some(caps[i] * 1000))
      ensures rows[i].canBind <==> CanAct(base, caps, m, i)
      ensures rows[i].responded <==> DidAct(base, caps, capped, m, i)
    {
      RowFacts(base, caps, capped, m, i);
    }
  }

  /** Everything the rows decide, from the measurements. */
  lemma RowsDecide(base: Phase, caps: seq<int>, capped: seq<Phase>, m: Margins)
    ensures var v := JudgeRows(Rows(base, caps, capped, m), m, base.peak.Some?);
            var acting := SomeCanAct(base, caps, capped, m);
            && (v == RefusedByDevice <==> !CapsStored(caps, capped))
            && (v == Raises <==> CapsStored(caps, capped) && base.peak.None?)
            && (v == Inconclusive(NothingBinds) <==> CapsStored(caps, capped) && base.peak.Some? && !acting)
            && (v == CapIsANoOp <==> CapsStored(caps, capped) && acting && NoneDidAct(base, caps, capped, m))
            && (v == CapWorks <==>
                  && CapsStored(caps, capped) && SeveralCanAct(base, caps, capped, m)
                  && AllDidAct(base, caps, capped, m) && Responds(base, caps, capped, m))
            && v in {RefusedByDevice, Raises, Inconclusive(NothingBinds), CapIsANoOp, Partial, CapWorks}
  {
    RowsMean(base, caps, capped, m);
    RespondsIff(base, caps, capped, m);
    RowsVerdict(Rows(base, caps, capped, m), m, base.peak.Some?);
  }

  /** The gates before the rows, in their order, and what each of them answers; past them the rows
      decide. */
  lemma GatesPass(
    base: Phase, capped: seq<Phase>, rec: Phase, caps: seq<int>, m: Margins, requested: Option<int>)
    ensures var v := Judge(base, capped, rec, caps, m, requested);
            var back := SameLimit(rec.limit, base.limit);
            var loaded := LoadedAll(base, capped, rec);
            var unpolled := UnpolledAll(base, capped, rec);
            var held := HeldAt(base, requested, m);
            && (v == RestoreUnverified <==> base.limit.None? || rec.limit.None?)
            && (v == RestoreFailed <==>
                  || (base.limit.Some? && rec.limit.Some? && !back)
                  || (back && loaded && unpolled && held && !Within(rec.clock, base.clock, m.clock)))
            && (v == Inconclusive(Unloaded) <==> back && !loaded)
            && (v == Inconclusive(PolledPower) <==> back && loaded && !unpolled)
            && (v == Inconclusive(ClockNotHeld) <==> back && loaded && unpolled && !held)
            && (Fit(base, capped, rec, m, requested) ==>
                  v == JudgeRows(Rows(base, caps, capped, m), m, base.peak.Some?))
  {
    EveryPhase(base, capped, rec, (p: Phase) => !p.loaded);
    EveryPhase(base, capped, rec, (p: Phase) => SomePolled(p.source));
  }

  /** CAP WORKS, exactly: the phases are fit, every cap was stored, at least two could act and all of
      those did, and the response is monotone in the cap. */
  lemma CapWorksIff(
    base: Phase, capped: seq<Phase>, rec: Phase, caps: seq<int>, m: Margins, requested: Option<int>)
    ensures Judge(base, capped, rec, caps, m, requested) == CapWorks <==>
              && Fit(base, capped, rec, m, requested)
              && CapsStored(caps, capped)
              && SeveralCanAct(base, caps, capped, m)
              && AllDidAct(base, caps, capped, m)
              && Responds(base, caps, capped, m)
  {
    GatesPass(base, capped, rec, caps, m, requested);
    RowsDecide(base, caps, capped, m);
  }

  /** CAP IS A NO-OP, exactly: the phases are fit, every cap was stored, some could act, and none of those
      did. */
  lemma CapIsANoOpIff(
    base: Phase, capped: seq<Phase>, rec: Phase, caps: seq<int>, m: Margins, requested: Option<int>)
    ensures Judge(base, capped, rec, caps, m, requested) == CapIsANoOp <==>
              && Fit(base, capped, rec, m, requested)
              && CapsStored(caps, capped)
              && SomeCanAct(base, caps, capped, m)
              && NoneDidAct(base, caps, capped, m)
  {
    GatesPass(base, capped, rec, caps, m, requested);
    RowsDecide(base, caps, capped, m);
  }

  /** The other verdicts on fit phases: a cap that was not stored, none that could act, and everything in
      between. */
  lemma OtherVerdictsIff(
    base: Phase, capped: seq<Phase>, rec: Phase, caps: seq<int>, m: Margins, requested: Option<int>)
    ensures var v := Judge(base, capped, rec, caps, m, requested);
            var fit := Fit(base, capped, rec, m, requested);
            && (v == RefusedByDevice <==> fit && !CapsStored(caps, capped))
            && (v == Inconclusive(NothingBinds) <==>
                  fit && CapsStored(caps, capped) && base.peak.Some? && !SomeCanAct(base, caps, capped, m))
            && (v == Partial <==>
                  && fit && CapsStored(caps, capped) && SomeCanAct(base, caps, capped, m)
                  && !NoneDidAct(base, caps, capped, m)
                  && !(&& SeveralCanAct(base, caps, capped, m) && AllDidAct(base, caps, capped, m)
                       && Responds(base, caps, capped, m)))
  {
    GatesPass(base, capped, rec, caps, m, requested);
    RowsDecide(base, caps, capped, m);
  }

  lemma EveryPhase(base: Phase, capped: seq<Phase>, rec: Phase, bad: Phase -> bool)
    ensures var phases := [base] + capped + [rec];
            (exists i :: 0 <= i < |phases| && bad(phases[i])) <==>
            bad(base) || bad(rec) || exists p :: p in capped && bad(p)
  {
    var phases := [base] + capped + [rec];
    assert phases[0] == base && phases[|phases| - 1] == rec;
    if p :| p in capped && bad(p) {
      var i :| 0 <= i < |capped| && capped[i] == p;
      assert phases[i + 1] == p;
    }
  }

  /** The message that no cap could bind formats the baseline peak. It cannot, exactly when that peak
      is missing from fit phases whose caps were all stored. */
  lemma RaisesIff(
    base: Phase, capped: seq<Phase>, rec: Phase, caps: seq<int>, m: Margins, requested: Option<int>)
    ensures Judge(base, capped, rec, caps, m, requested) == Raises <==>
              base.peak.None? && Fit(base, capped, rec, m, requested) && CapsStored(caps, capped)
  {
    GatesPass(base, capped, rec, caps, m, requested);
    RowsDecide(base, caps, capped, m);
  }

  /** What a measured phase is never: loaded, without a single power sample. */
  predicate Sampled(p: Phase) {
    p.loaded ==> p.peak.Some?
  }

  /** A phase as it is measured: without power samples it does not count as loaded. */
  function MeasuredPhase(limit: Option<int>, busy: bool, source: Source, clock: real, peak: Option<real>): (p: Phase)
    ensures Sampled(p)
  {
    Phase(limit, busy && peak.Some?, source, clock, peak)
  }

  /** Over phases as they are measured the decision is always one of the named verdicts. */
  lemma MeasuredNeverRaises(
      base: Phase, capped: seq<Phase>, rec: Phase, caps: seq<int>, m: Margins, requested: Option<int>)
    requires Sampled(base)
    ensures Judge(base, capped, rec, caps, m, requested) != Raises
  {
    RaisesIff(base, capped, rec, caps, m, requested);
  }

  /** A stored artifact that says otherwise makes re-judging it raise. */
  lemma RaisesAt()
    ensures var peakless := Phase(Some(200_000), true, Ring, 1800.0, None);
            !Sampled(peakless) && Judge(peakless, [], peakless, [], Margins(50.0, 10.0, 3.0), Some(1800)) == Raises
  {
    var peakless := Phase(Some(200_000), true, Ring, 1800.0, None);
    RaisesIff(peakless, [], peakless, [], Margins(50.0, 10.0, 3.0), Some(1800));
  }

  /** CAP WORKS, for any two binding caps in sorted order. */
  lemma CapWorksMeansOrdered(
    base: Phase, capped: seq<Phase>, rec: Phase, caps: seq<int>, m: Margins, requested: Option<int>, i: nat, d: nat)
    requires Judge(base, capped, rec, caps, m, requested) == CapWorks
    requires d > 0 && i + d < |Bindable(Rows(base, caps, capped, m))|
    ensures var rs := ByCap(Bindable(Rows(base, caps, capped, m)));
            && rs[i].cap <= rs[i + d].cap
            && rs[i].peak.Some? && rs[i + d].peak.Some?
            && rs[i].clock <= rs[i + d].clock + (d as real) * m.clock
            && rs[i].peak.value <= rs[i + d].peak.value + (d as real) * m.enforce
  {
    var rs := ByCap(Bindable(Rows(base, caps, capped, m)));
    ByCapSorts(Bindable(Rows(base, caps, capped, m)));
    StepsAddUp(rs, m, i, d);
  }

  /** Caps that cannot act are never called ineffective. */
  lemma NoOpNeedsABindingCap(
    base: Phase, capped: seq<Phase>, rec: Phase, caps: seq<int>, m: Margins, requested: Option<int>)
    requires Judge(base, capped, rec, caps, m, requested) == CapIsANoOp
    ensures exists i :: 0 <= i < |caps| && i < |capped| && base.peak.Some? && caps[i] as real < base.peak.value - m.bind
    ensures forall i :: 0 <= i < |caps| && i < |capped| && JudgeRow(base, caps[i], capped[i], m).canBind ==>
              !JudgeRow(base, caps[i], capped[i], m).responded
    ensures RestoredLimit(base, rec)
  {
    CapIsANoOpIff(base, capped, rec, caps, m, requested);
    forall i: nat | i < |caps| && i < |capped|
      ensures JudgeRow(base, caps[i], capped[i], m).canBind <==> CanAct(base, caps, m, i)
      ensures JudgeRow(base, caps[i], capped[i], m).responded <==> DidAct(base, caps, capped, m, i)
    {
      RowFacts(base, caps, capped, m, i);
    }
  }

  // ----- the exit code -----

  /** A failed or unverified restore has a code of its own; an exception ends the process with 1. */
  function ExitCode(v: Verdict): int
  {
    match v
    case CapWorks => 0
    case RestoreFailed => 3
    case RestoreUnverified => 3
    case _ => 1
  }

  /** The exit code 3 is exactly what a limit that did not provably come back gives, or a clock that
      did not where the phases could be compared; 0 is exactly CAP WORKS; and everything else gives 1. */
  lemma HardwareCodeIff(
    base: Phase, capped: seq<Phase>, rec: Phase, caps: seq<int>, m: Margins, requested: Option<int>)
    ensures var code := ExitCode(Judge(base, capped, rec, caps, m, requested));
            && (code == 3 <==>
                  || !SameLimit(rec.limit, base.limit)
                  || (&& LoadedAll(base, capped, rec) && UnpolledAll(base, capped, rec) && HeldAt(base, requested, m)
                      && !Within(rec.clock, base.clock, m.clock)))
            && (code == 0 <==> Judge(base, capped, rec, caps, m, requested) == CapWorks)
            && (code == 0 ==> SameLimit(rec.limit, base.limit) && Within(rec.clock, base.clock, m.clock))
            && code in {0, 1, 3}
  {
    GatesPass(base, capped, rec, caps, m, requested);
    CapWorksIff(base, capped, rec, caps, m, requested);
  }
}
