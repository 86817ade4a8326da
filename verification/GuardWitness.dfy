/** Concrete runs that show where the record falls short of its device, and what the operator must wait for. */
module GuardWitness {
  import opened GuardTypes
  import opened GuardProtocol
  import opened GuardInvariant
  import opened GuardCalls
  import opened GuardRuns
  import opened GuardTheorems

  const ALL_READ := Reading(true, true, true, true)
  const WORKS := Choice(true, ALL_READ)

  const THE_CARD := Card(0, "GPU-0", 200_000, None, None)
  const THE_CONFIG := Config(1, true, true, MIN_SM_CLOCK_MHZ)
  const THE_SNAPSHOT := Snapshot(0, Some("GPU-0"), Some(200_000), Some(200_000), None, None)

  const FIRST := Lock(1400, 1400)
  const SECOND := Lock(1500, 1500)

  /** The record of the only arm cycle, as its fields evolve. */
  function TheRecord(clocksLocked: bool, mhz: Option<int>, restored: bool): Record {
    Record(1, 0, 0, Some("GPU-0"), THE_SNAPSHOT, clocksLocked, mhz, mhz, None, restored, false)
  }

  function TheCore(clocksLocked: bool, mhz: Option<int>, owed: bool, lock: Option<(int, int)>, disk: Record): Core {
    Core(Memory(true, true, !owed, Some(THE_SNAPSHOT), Some(TheRecord(clocksLocked, mhz, false))),
         Device(lock, 200_000, false), Holds(disk), History(200_000, false, false), 1, THE_CARD)
  }

  const START := Core(FRESH, Device(None, 200_000, false), Absent, History(200_000, false, false), 0, THE_CARD)

  /** One action of the application's call. */
  lemma Act(w: World, ch: Choice, c: Core, u: User) returns (w': World)
    requires Reachable(w) && w.proc.Guarding? && w.proc.handlers == []
    requires UserStep(w.core, w.proc.user, ch, w.proc.cfg) == (c, u)
    ensures Reachable(w') && w' == World(c, Guarding(w.proc.cfg, u, []))
  {
    w' := Take(w, UserAction(ch));
  }

  /** One action of the only handler on the stack. */
  lemma Handle(w: World, ok: bool, c: Core, f: RestoreFrame) returns (w': World)
    requires Reachable(w) && w.proc.Guarding? && |w.proc.handlers| == 1
    requires RestoreStep(w.core, w.proc.handlers[0], ok) == (c, f)
    ensures Reachable(w') && w' == World(c, Guarding(w.proc.cfg, AfterHandler(w.proc.user, w.proc.handlers[0]), [f]))
  {
    w' := Take(w, HandlerAction(ok));
    assert w'.proc.handlers == [f];
  }

  lemma Begin() returns (w: World)
    ensures Reachable(w)
    ensures w == World(START, Nobody)
  {
    w := World(START, Nobody);
    assert IsRun([w], []) && [w][|[w]| - 1] == w;
  }

  lemma StartArming() returns (w: World)
    ensures Reachable(w)
    ensures w == World(START, Guarding(THE_CONFIG, Arming(CheckArmed, Some(FIRST)), []))
  {
    w := Begin();
    w := Take(w, StartGuard(THE_CONFIG));
    w := Take(w, CallWrite(FIRST));
    w := Act(w, WORKS, w.core, AutoArming(FIRST));
    w := Act(w, WORKS, w.core, Arming(CheckArmed, Some(FIRST)));
  }

  /** Arm on the way into a first lock call: up to the snapshot, and on to the claim. */
  lemma Snapped() returns (w: World)
    ensures Reachable(w)
    ensures w == World(START.(mem := FRESH.(snapshot := Some(THE_SNAPSHOT))),
                       Guarding(THE_CONFIG, Arming(BuildState, Some(FIRST)), []))
  {
    w := StartArming();
    w := Act(w, WORKS, START, Arming(CheckBusy, Some(FIRST)));
    w := Act(w, WORKS, START, Arming(ClearPublished, Some(FIRST)));
    w := Act(w, WORKS, START, Arming(Claim, Some(FIRST)));
    w := Act(w, WORKS, START, Arming(TakeSnapshot, Some(FIRST)));
    w := Act(w, WORKS, START.(mem := FRESH.(snapshot := Some(THE_SNAPSHOT))), Arming(BuildState, Some(FIRST)));
  }

  lemma Armed() returns (w: World)
    ensures Reachable(w)
    ensures w == World(TheCore(false, None, false, None, TheRecord(false, None, false)),
                       Guarding(THE_CONFIG, Writing(FIRST, CheckCaller, false), []))
  {
    w := Snapped();
    var r := TheRecord(false, None, false);
    var built := START.(mem := FRESH.(snapshot := Some(THE_SNAPSHOT), state := Some(r)), clock := 1);
    w := Act(w, WORKS, built, Arming(Publish, Some(FIRST)));
    w := Act(w, WORKS, built.(disk := Holds(r)), Arming(SetPublished, Some(FIRST)));
    var out := built.(disk := Holds(r), mem := built.mem.(published := true));
    w := Act(w, WORKS, out, Arming(SetArmed, Some(FIRST)));
    w := Act(w, WORKS, TheCore(false, None, false, None, r), Writing(FIRST, CheckCaller, false));
  }

  lemma FirstNoted() returns (w: World)
    ensures Reachable(w)
    ensures w == World(TheCore(true, Some(1400), false, None, TheRecord(false, None, false)),
                       Guarding(THE_CONFIG, Writing(FIRST, ClearRestored, false), []))
  {
    w := Armed();
    var r := TheRecord(true, None, false);
    var c := TheCore(true, None, false, None, TheRecord(false, None, false));
    w := Act(w, WORKS, w.core, Writing(FIRST, NoteIntent, false));
    w := Act(w, WORKS, c, Writing(FIRST, NoteMin, false));
    w := Act(w, WORKS, c.(mem := c.mem.(state := Some(r.(lockedMin := Some(1400))))), Writing(FIRST, NoteMax, false));
    var d := TheCore(true, Some(1400), false, None, TheRecord(false, None, false));
    w := Act(w, WORKS, d, Writing(FIRST, CheckClaim, false));
    w := Act(w, WORKS, d, Writing(FIRST, ClearRestored, false));
  }

  /** The first lock lands, named by its record. */
  lemma FirstLocked() returns (w: World)
    ensures Reachable(w)
    ensures w == World(TheCore(true, Some(1400), true, Some((1400, 1400)), TheRecord(true, Some(1400), false)),
                       Guarding(THE_CONFIG, Idle, []))
  {
    w := FirstNoted();
    w := Act(w, WORKS, w.core, Writing(FIRST, OweRestore, false));
    w := Act(w, WORKS, TheCore(true, Some(1400), true, None, TheRecord(false, None, false)),
        Writing(FIRST, WriteRecord, false));
    var c := TheCore(true, Some(1400), true, None, TheRecord(true, Some(1400), false));
    w := Act(w, WORKS, c, Writing(FIRST, KeepPublished, false));
    w := Act(w, WORKS, c, Writing(FIRST, WriteDevice, false));
    w := Act(w, WORKS, TheCore(true, Some(1400), true, Some((1400, 1400)), TheRecord(true, Some(1400), false)), Idle);
  }

  /** A second lock call notes its intent, and a signal arrives. */
  lemma SecondNoted() returns (w: World)
    ensures Reachable(w)
    ensures w == World(TheCore(true, Some(1400), true, Some((1400, 1400)), TheRecord(true, Some(1400), false)),
                       Guarding(THE_CONFIG, Writing(SECOND, NoteMin, false), [NEW_RESTORE]))
  {
    w := FirstLocked();
    var c := w.core;
    w := Take(w, CallWrite(SECOND));
    w := Act(w, WORKS, c, AutoArming(SECOND));
    w := Act(w, WORKS, c, Writing(SECOND, CheckCaller, false));
    w := Act(w, WORKS, c, Writing(SECOND, NoteIntent, false));
    w := Act(w, WORKS, c, Writing(SECOND, NoteMin, false));
    w := Take(w, Signal);
    assert w.proc.handlers == [NEW_RESTORE];
  }

  /** Its restore unlocks the device. */
  lemma Unlocked() returns (w: World)
    ensures Reachable(w)
    ensures w == World(TheCore(true, Some(1400), false, None, TheRecord(true, Some(1400), false)),
                       Guarding(THE_CONFIG, Writing(SECOND, NoteMin, false), [RestoreFrame(SettleFlag, false, None)]))
  {
    w := SecondNoted();
    var c := TheCore(true, Some(1400), true, None, TheRecord(true, Some(1400), false));
    w := Handle(w, true, w.core, RestoreFrame(Reset, false, None));
    w := Handle(w, true, c, RestoreFrame(Target, false, None));
    w := Handle(w, true, c, RestoreFrame(Decide, false, None));
    w := Handle(w, true, c, RestoreFrame(MarkRestored, false, None));
    w := Handle(w, true, c.(mem := c.mem.(restored := true)), RestoreFrame(SettleFlag, false, None));
  }

  /** The settled record cannot be written; only the restored flag is rolled back, and the
      interrupted call resumes, still armed. */
  lemma Resumed() returns (w: World)
    ensures Reachable(w)
    ensures w == World(TheCore(false, Some(1400), false, None, TheRecord(true, Some(1400), false)),
                       Guarding(THE_CONFIG, Writing(SECOND, NoteMin, true), []))
  {
    w := Unlocked();
    var c := w.core;
    var d := c.(mem := c.mem.(state := Some(TheRecord(false, Some(1400), true))));
    w := Handle(w, true, d, RestoreFrame(SettleWrite, false, None));
    w := Handle(w, false, d, RestoreFrame(SettleRollback, false, None));
    w := Handle(w, true, TheCore(false, Some(1400), false, None, TheRecord(true, Some(1400), false)),
        RestoreFrame(Done, false, None));
    w := Take(w, HandlerReturns);
    assert w.proc.handlers == [];
  }

  /** The resumed call re-checks its claim, which it still holds. */
  lemma Rechecked() returns (w: World)
    ensures Reachable(w)
    ensures w == World(TheCore(false, Some(1500), false, None, TheRecord(true, Some(1400), false)),
                       Guarding(THE_CONFIG, Writing(SECOND, ClearRestored, true), []))
  {
    w := Resumed();
    var c := TheCore(false, Some(1500), false, None, TheRecord(true, Some(1400), false));
    w := Act(w, WORKS,
        w.core.(mem := w.core.mem.(state := Some(TheRecord(false, Some(1400), false).(lockedMin := Some(1500))))),
             Writing(SECOND, NoteMax, true));
    w := Act(w, WORKS, c, Writing(SECOND, CheckClaim, true));
    w := Act(w, WORKS, c, Writing(SECOND, ClearRestored, true));
  }

  /** It publishes a record that names no lock, and locks the device. */
  lemma LockNeedNotBeNamed() returns (w: World)
    ensures Reachable(w)
    ensures w.core.dev.lock == Some((1500, 1500))
    ensures Owed(w.core.disk) && !w.core.disk.rec.clocksLocked
  {
    w := Rechecked();
    var r := TheRecord(false, Some(1500), false);
    var c := w.core;
    w := Act(w, WORKS, c, Writing(SECOND, OweRestore, true));
    w := Act(w, WORKS, c.(mem := c.mem.(restored := false)), Writing(SECOND, WriteRecord, true));
    var d := c.(mem := c.mem.(restored := false), disk := Holds(r));
    w := Act(w, WORKS, d, Writing(SECOND, KeepPublished, true));
    w := Act(w, WORKS, d, Writing(SECOND, WriteDevice, true));
    w := Act(w, WORKS, DeviceWritten(d, SECOND, true), Idle);
  }

  /** Why the operator must leave the limit alone while an arm is under way: whichever arm it is, a
      change between the snapshot and the publish, which no claim on disk forbids yet, arms a guard
      whose snapshot is not the stock limit. */
  lemma ArmReliesOnLimit(w: World, mw: int) returns (n: nat)
    requires Inv(w) && w.proc.Guarding? && w.proc.handlers == []
    requires w.proc.user.Arming? && w.proc.user.apc in {BuildState, Publish}
    requires w.core.mem.snapshot.value.limit.Some? && w.core.mem.snapshot.value.limit.value != mw
    ensures var c := ActOn(w.(core := Chosen(w.core, mw)), n).core;
            && c.mem.armed && Owed(c.disk) && c.hist.stock == mw && c.mem.snapshot == w.core.mem.snapshot
            && !Rightful(c, c.mem.snapshot.value.limit.value)
  {
    var w0 := w.(core := Chosen(w.core, mw));
    var next := w.proc.user.next;
    var w1 := if w.proc.user.apc == BuildState then Step(w0, UserAction(WORKS)) else w0;
    assert w1.proc.user == Arming(Publish, next) && w1.core.mem.state.Some? && !w1.core.mem.state.value.restored;
    var w2 := Step(w1, UserAction(WORKS));
    var w3 := Step(w2, UserAction(WORKS));
    var w4 := Step(w3, UserAction(WORKS));
    assert ActOn(w4, 0) == ActOn(w3, 1) == ActOn(w2, 2) == ActOn(w1, 3);
    n := if w.proc.user.apc == BuildState then 4 else 3;
    assert ActOn(w0, n) == ActOn(w1, 3);
  }

  /** Such an arm is reachable over a settled file. */
  lemma OperatorMidArm(mw: int) returns (before: World, w: World)
    requires mw != 200_000
    ensures Reachable(before) && !Owed(before.core.disk) && StockInUse(before)
    ensures before.proc.Guarding? && before.proc.handlers == []
    ensures exists n :: w == ActOn(before.(core := Chosen(before.core, mw)), n)
    ensures w.core.mem.armed && Owed(w.core.disk) && w.core.mem.snapshot.Some? && w.core.mem.snapshot.value.limit.Some?
    ensures !Rightful(w.core, w.core.mem.snapshot.value.limit.value)
  {
    before := Snapped();
    ReachableOk(before);
    var n := ArmReliesOnLimit(before, mw);
    w := ActOn(before.(core := Chosen(before.core, mw)), n);
  }

  /** The application goes on, with nothing failing and nothing interrupting it. */
  function ActOn(w: World, n: nat): (w': World)
    requires w.proc.Guarding? && w.proc.handlers == []
    decreases n
  {
    if n == 0 then w else ActOn(Step(w, UserAction(WORKS)), n - 1)
  }

  /** A restore goes on, with nothing failing. */
  function RestoreOn(c: Core, f: RestoreFrame, n: nat): (Core, RestoreFrame)
    decreases n
  {
    if n == 0 then (c, f) else var (d, g) := RestoreStep(c, f, true); RestoreOn(d, g, n - 1)
  }

  /** A restore that owes a limit and has not yet written it back overwrites whatever other limit the
      operator chooses. */
  lemma RestoreOverwrites(c: Core, f: RestoreFrame, mw: int) returns (n: nat)
    requires MemoryOk(c) && RestoreFacts(c, f)
    requires f.pc in {Reset, Target, PowerWrite} && OwesLimit(c.mem)
    requires c.mem.snapshot.value.limit.Some? && c.mem.snapshot.value.limit.value != mw
    ensures n > 0 && var (d, _) := RestoreOn(Chosen(c, mw), f, n);
            !d.dev.capped && d.hist.stock == mw && !Rightful(d, d.dev.power)
  {
    var c1 := Chosen(c, mw);
    if f.pc == PowerWrite {
      n := 1;
      assert RestoreOn(c1, f, 1) == RestoreStep(c1, f, true);
    } else {
      var c2, f2 := if f.pc == Reset then RestoreStep(c1, f, true).0 else c1, f.(pc := Target);
      var f3 := f2.(pc := PowerWrite, target := c.mem.snapshot.value.limit);
      var (c4, f4) := RestoreStep(c2, f3, true);
      assert RestoreOn(c4, f4, 0) == RestoreOn(c2, f3, 1) == RestoreOn(c2, f2, 2);
      n := if f.pc == Reset then 3 else 2;
    }
  }

  /** A restore that owes a limit and is about to record its failure puts the owed record back on disk,
      and the next recovery writes the old limit over whatever other one the operator has chosen. */
  lemma FailureIsRepublished(
    c: Core, f: RestoreFrame, mw: int, uuid: Option<string>, index: Option<int>) returns (n: nat)
    requires MemoryOk(c) && RestoreFacts(c, f) && OwesLimit(c.mem)
    requires || (f.pc == Decide && f.err) || f.pc == FailMark
             || (f.pc in {FailNote, FailWrite} && !c.mem.state.value.restored)
    requires c.mem.snapshot.value.limit.Some? && c.mem.snapshot.value.limit.value != mw
    requires IsFor(c.mem.state.value, uuid, index)
    ensures var (d, _) := RestoreOn(Chosen(c, mw), f, n);
            var (e, _) := RecoverToEnd(d, NewRecovery(true, uuid, index, false, false));
            Owed(d.disk) && !e.dev.capped && e.hist.stock == mw && !Rightful(e, e.dev.power)
  {
    n := if f.pc == Decide then 4 else if f.pc == FailMark then 3 else if f.pc == FailNote then 2 else 1;
    var d := Republished(Chosen(c, mw), f, n);
    RecoveryEnds(d, d.disk.rec, uuid, index);
  }

  /** What the failing tail of a restore leaves. */
  lemma Republished(c: Core, f: RestoreFrame, n: nat) returns (d: Core)
    requires c.mem.state.Some?
    requires || (f.pc == Decide && f.err && n == 4) || (f.pc == FailMark && n == 3)
             || (f.pc == FailNote && n == 2 && !c.mem.state.value.restored)
             || (f.pc == FailWrite && n == 1 && !c.mem.state.value.restored)
    ensures d == RestoreOn(c, f, n).0 && d.dev == c.dev && d.hist == c.hist && d.card == c.card && Owed(d.disk)
    ensures d.disk.rec == c.mem.state.value.(restored := false, restoreFailed := d.disk.rec.restoreFailed)
    decreases n
  {
    var (c1, f1) := RestoreStep(c, f, true);
    if n == 1 {
      d := c1;
      assert RestoreOn(c, f, 1) == (c1, f1);
    } else {
      d := Republished(c1, f1, n - 1);
    }
  }

  const THE_CAP := Cap(150_000)

  /** A guard has capped the card, and the application's restore is about to write the limit back. */
  lemma PayingBack() returns (w: World)
    ensures Reachable(w) &&
            w.proc == Guarding(THE_CONFIG, Restoring(RestoreFrame(PowerWrite, false, Some(200_000))), [])
    ensures w.core.mem.published && w.core.mem.armed && !w.core.mem.restored
    ensures w.core.mem.snapshot == Some(THE_SNAPSHOT) && OwesLimit(w.core.mem) &&
            w.core.hist == History(200_000, false, false)
  {
    w := Begin();
    w := Take(w, StartGuard(THE_CONFIG));
    var c := w.core;
    WriteCallReachable(w, THE_CAP, true, true, ALL_READ, true, true);
    w := w.(core := WriteCall(c, THE_CONFIG, THE_CAP, true, true, ALL_READ, true, true).0);
    var d := w.core;
    w := Take(w, CallRestore);
    w := Act(w, WORKS, d, Restoring(NEW_RESTORE.(pc := Reset)));
    w := Act(w, WORKS, d, Restoring(NEW_RESTORE.(pc := Target)));
    w := Act(w, WORKS, d, Restoring(RestoreFrame(PowerWrite, false, Some(200_000))));
  }

  /** A signal's restore on top has settled the record, and the interrupted restore resumes. */
  lemma PayingBackTwice() returns (w: World)
    ensures Reachable(w) && !Owed(w.core.disk)
    ensures w.proc == Guarding(THE_CONFIG, Restoring(RestoreFrame(PowerWrite, false, Some(200_000))), [])
    ensures w.core.mem.snapshot == Some(THE_SNAPSHOT) && OwesLimit(w.core.mem)
  {
    var v := PayingBack();
    var c, u := v.core, v.proc.user;
    var v1 := Take(v, Signal);
    assert v1.proc.handlers == [] + [NEW_RESTORE];
    var chs := RestoreCallRuns(c, THE_CONFIG, true, true, true);
    var d := RestoreCall(c, true, true, true).0;
    var u', g := HandlerMirrors(c, NEW_RESTORE, THE_CONFIG, u, [], chs);
    w := Take(World(d, Guarding(THE_CONFIG, u, [] + [g])), HandlerReturns);
  }

  /** Why the operator must also leave it alone while a restore is under way: over the settled record
      the operator chooses a limit, and the interrupted restore overwrites it. */
  lemma OperatorMidRestore(mw: int) returns (before: World, n: nat)
    requires mw != 200_000
    ensures Reachable(before) && !Owed(before.core.disk) && StockInUse(before)
    ensures before.proc.Guarding? && before.proc.handlers == [] && before.proc.user.Restoring?
    ensures var (d, _) := RestoreOn(Chosen(before.core, mw), before.proc.user.frame, n);
            !d.dev.capped && d.hist.stock == mw && !Rightful(d, d.dev.power)
  {
    before := PayingBackTwice();
    ReachableOk(before);
    n := RestoreOverwrites(before.core, before.proc.user.frame, mw);
  }
}
