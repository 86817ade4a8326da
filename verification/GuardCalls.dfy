/** Complete, uninterrupted calls of a guard as functions of the outcome of each device and record
    write, and the proof that each of them is a run of the small-step machine. */
module GuardCalls {
  import opened GuardTypes
  import opened GuardProtocol

  datatype Outcome = Returned | Raised

  /** What a device accepts. */
  datatype DeviceWrite = SetLock(minMhz: int, maxMhz: int) | Unlock | SetLimit(mw: int)

  /** The device write of a guard's lock or cap. */
  function AsWrite(op: Op): DeviceWrite {
    match op
    case Lock(lo, hi) => SetLock(lo, hi)
    case Cap(mw) => SetLimit(mw)
  }

  // ----- the calls -----

  function SurrenderCall(c: Core, write: bool): Core {
    if c.mem.published && c.mem.state.Some? && !c.mem.state.value.restored then
      if write then PublishState(WithRestored(c, true)).(mem := WithRestored(c, true).mem.(armed := false))
      else WithRestored(WithRestored(c, true), false)
    else
      c.(mem := c.mem.(armed := false))
  }

  /** The device half of a restore: the clock reset is unconditional, the limit is written only if
      the guard wrote one. */
  function PutBack(c: Core, reset: bool, limit: bool): (Core, bool)
  {
    var c1 := if reset then c.(dev := c.dev.(lock := None)) else c;
    if c.mem.state.Some? && c.mem.state.value.powerWritten.Some? then
      var t := if c.mem.snapshot.Some? then RestoreTarget(c.mem.snapshot.value) else None;
      if t.None? || !limit then (c1, true)
      else (LimitRestored(c1, t.value, c.mem.snapshot.value.limit.None?), !reset)
    else
      (c1, !reset)
  }

  /** The device writes of a restore that the device accepts. */
  function BackWrites(c: Core, reset: bool, limit: bool): seq<DeviceWrite> {
    if c.mem.restored then [] else
    var target := if c.mem.snapshot.Some? then RestoreTarget(c.mem.snapshot.value) else None;
    var limits := if OwesLimit(c.mem) && target.Some? && limit then [SetLimit(target.value)] else [];
    (if reset then [Unlock] else []) + limits
  }

  function FailCall(c: Core, write: bool): Core {
    var marked :=
      if c.mem.state.None? then c
      else WithState(c, c.mem.state.value.(restored := false, restoreFailed := true));
    if write then PublishState(marked) else marked
  }

  function SettleCall(c: Core, write: bool): Core {
    var c1 := c.(mem := c.mem.(restored := true));
    if c.mem.state.None? then c1.(mem := c1.mem.(armed := false)) else
    var settled := WithState(c1, Settle(c.mem.state.value));
    if write then PublishState(settled).(mem := settled.mem.(armed := false))
    else WithRestored(settled, false)
  }

  function RestoreCall(c: Core, reset: bool, limit: bool, write: bool): (Core, Outcome)
  {
    if c.mem.restored then (SurrenderCall(c, write), Returned) else
    var (d, failed) := PutBack(c, reset, limit);
    if failed then (FailCall(d, write), Raised) else (SettleCall(d, write), Returned)
  }

  function ArmCall(c: Core, cfg: Config, claim: bool, write: bool, sees: Reading): (Core, Outcome)
  {
    if c.mem.armed then (c, Returned)
    else if Busy(c.disk) then (c, Raised)
    else if !claim then (c.(mem := c.mem.(published := false)), Raised)
    else
      var s := TakenSnapshot(c, sees);
      var r := NewRecord(cfg.pid, c.clock, s);
      var built := c.(mem := c.mem.(published := false, snapshot := Some(s), state := Some(r)), clock := c.clock + 1);
      if !write then (built, Raised)
      else (built.(disk := Holds(r), mem := built.mem.(published := true, armed := true)), Returned)
  }

  /** The signal-blocked part of a write: re-check the claim, record the intent, touch the device. */
  function TouchCall(c: Core, op: Op, write: bool, device: bool): (Core, Outcome)
  {
    if !c.mem.armed then (c, Raised) else
    var owed := WithRestored(c, false).(mem := WithRestored(c, false).mem.(restored := false));
    if !write then (owed, Raised) else
    var out := PublishState(owed).(mem := owed.mem.(published := true));
    if device then (DeviceWritten(out, op, false), Returned) else (out, Raised)
  }

  /** The part of a write call after the guard is armed. */
  function ArmedWriteCall(c: Core, cfg: Config, op: Op, write: bool, device: bool): (Core, Outcome)
  {
    if (c.mem.snapshot.Some? && !LimitAllowed(op, c.mem.snapshot.value)) || !cfg.privileged || c.mem.state.None? then
      (c, Raised)
    else
      TouchCall(WithState(c, Intent(c.mem.state.value, op)), op, write, device)
  }

  /** The record with everything a write notes before it re-checks its claim. */
  function Intent(r: Record, op: Op): Record {
    match op
    case Lock(lo, hi) => r.(clocksLocked := true, lockedMin := Some(lo), lockedMax := Some(hi))
    case Cap(mw) => r.(powerWritten := Some(mw))
  }

  function WriteCall(c: Core, cfg: Config, op: Op, claim: bool, publish: bool, sees: Reading, write: bool,
      device: bool): (Core, Outcome)
  {
    if !cfg.consent || !ClockAllowed(op, cfg.floor) then (c, Raised) else
    var (d, armed) := ArmCall(c, cfg, claim, publish, sees);
    if armed.Raised? then (d, Raised) else ArmedWriteCall(d, cfg, op, write, device)
  }

  // ----- every call is a run of the machine -----

  // ----- which write calls succeed -----

  /** A write call returns exactly if its caller may write, a lock is in order and not below the guard's
      floor, the guard is armed or can be, a cap is within the bounds that were read, and the record
      write and the device write work; and then the device is at the values asked for, and nothing else
      about it has changed. */
  lemma WriteCallReturnsIff(
    c: Core, cfg: Config, op: Op, claim: bool, publish: bool, sees: Reading, write: bool, device: bool)
    requires c.mem.armed ==> c.mem.state.Some? && c.mem.snapshot.Some?
    ensures var (d, out) := WriteCall(c, cfg, op, claim, publish, sees, write, device);
            var lowest := if c.mem.armed then c.mem.snapshot.value.minLimit
                          else if sees.bounds then c.card.minLimit else None;
            var highest := if c.mem.armed then c.mem.snapshot.value.maxLimit
                           else if sees.bounds then c.card.maxLimit else None;
            && (out.Returned? <==>
                  && cfg.consent && cfg.privileged
                  && (op.Lock? ==> cfg.floor <= op.minMhz <= op.maxMhz)
                  && (c.mem.armed || (
                        && !c.disk.Unreadable? && !(c.disk.Holds? && !c.disk.rec.restored)
                        && claim && publish))
                  && (op.Cap? && lowest.Some? ==> lowest.value <= op.mw)
                  && (op.Cap? && highest.Some? ==> op.mw <= highest.value)
                  && write && device)
            && (out.Returned? && op.Lock? ==> d.dev == c.dev.(lock := Some((op.minMhz, op.maxMhz))))
            && (out.Returned? && op.Cap? ==> d.dev == c.dev.(power := op.mw, capped := true))
            && (out.Raised? ==> d.dev == c.dev)
  {
    if cfg.consent && ClockAllowed(op, cfg.floor) {
      ArmCallReturnsIff(c, cfg, claim, publish, sees);
      var (d, armed) := ArmCall(c, cfg, claim, publish, sees);
      if armed.Returned? {
        ArmedWriteCallReturnsIff(d, cfg, op, write, device);
      }
    }
  }

  /** Arming succeeds exactly over a file that can be read and owes nothing, if the claim and the record
      write work; and then the record names this guard and no write. */
  lemma ArmCallReturnsIff(c: Core, cfg: Config, claim: bool, write: bool, sees: Reading)
    ensures var (d, out) := ArmCall(c, cfg, claim, write, sees);
            && (out.Returned? <==>
                  c.mem.armed || (!c.disk.Unreadable? && !(c.disk.Holds? && !c.disk.rec.restored) && claim && write))
            && d.dev == c.dev && d.mem.restored == c.mem.restored && d.card == c.card
            && (c.mem.armed ==> d == c)
            && (out.Returned? && !c.mem.armed ==>
                  && d.mem.armed && d.mem.published && d.mem.state.Some? && d.mem.snapshot.Some?
                  && d.disk == Holds(d.mem.state.value)
                  && d.disk.rec.pid == cfg.pid && d.disk.rec.index == c.card.index
                  && !d.disk.rec.restored && !d.disk.rec.clocksLocked && d.disk.rec.powerWritten == None
                  && d.mem.snapshot.value.limit == (if sees.limit then Some(c.dev.power) else None)
                  && d.mem.snapshot.value.minLimit == (if sees.bounds then c.card.minLimit else None)
                  && d.mem.snapshot.value.maxLimit == (if sees.bounds then c.card.maxLimit else None))
  {
  }

  lemma ArmedWriteCallReturnsIff(c: Core, cfg: Config, op: Op, write: bool, device: bool)
    requires c.mem.armed && c.mem.state.Some? && c.mem.snapshot.Some?
    ensures var (d, out) := ArmedWriteCall(c, cfg, op, write, device);
            var s := c.mem.snapshot.value;
            && (out.Returned? <==>
                  && cfg.privileged
                  && (op.Cap? && s.minLimit.Some? ==> s.minLimit.value <= op.mw)
                  && (op.Cap? && s.maxLimit.Some? ==> op.mw <= s.maxLimit.value)
                  && write && device)
            && (out.Returned? && op.Lock? ==> d.dev == c.dev.(lock := Some((op.minMhz, op.maxMhz))))
            && (out.Returned? && op.Cap? ==> d.dev == c.dev.(power := op.mw, capped := true))
            && (out.Raised? ==> d.dev == c.dev)
  {
  }

  /** A guard that owes the device nothing leaves it alone. Any other restore resets the clocks, and
      writes the captured limit, or else the default, exactly if a cap was noted; it returns exactly if
      all of that works. Then the record on disk is settled, and the guard disarmed, if that write works
      too; and where something failed the record stays owed and says so. */
  lemma RestoreCallReturnsIff(c: Core, reset: bool, limit: bool, write: bool)
    requires c.mem.state.Some? && c.mem.snapshot.Some?
    ensures var (d, out) := RestoreCall(c, reset, limit, write);
            var s, noted := c.mem.snapshot.value, c.mem.state.value;
            && (c.mem.restored ==> out.Returned? && d.dev == c.dev)
            && (!c.mem.restored ==>
                  && (out.Returned? <==>
                        reset && (noted.powerWritten.Some? ==> limit && (s.limit.Some? || s.factory.Some?)))
                  && d.dev.lock == (if reset then None else c.dev.lock)
                  && (noted.powerWritten.None? || !limit || (s.limit.None? && s.factory.None?) ==>
                        d.dev.power == c.dev.power && d.dev.capped == c.dev.capped)
                  && (noted.powerWritten.Some? && limit && s.limit.Some? ==> d.dev.power == s.limit.value)
                  && (noted.powerWritten.Some? && limit && s.limit.None? && s.factory.Some? ==>
                        d.dev.power == s.factory.value)
                  && (out.Returned? ==>
                        d.mem.restored && d.mem.armed == (c.mem.armed && !write) &&
                        d.disk == (if write then
                          Holds(noted.(restored := true, restoreFailed := false, clocksLocked := false)) else c.disk))
                  && (out.Raised? ==>
                        !d.mem.restored && d.mem.armed == c.mem.armed &&
                        d.disk == (if write then Holds(noted.(restored := false, restoreFailed := true)) else c.disk)))
  {
  }

  /** A guard that armed and never wrote gives up its claim on the way out without touching the card. */
  lemma ArmedExitTouchesNothing(c: Core, cfg: Config, sees: Reading, reset: bool, limit: bool, write: bool)
    requires c.mem.restored && !c.mem.armed && ArmCall(c, cfg, true, true, sees).1.Returned?
    ensures var d := ArmCall(c, cfg, true, true, sees).0;
            && RestoreCall(d, reset, limit, write).1.Returned?
            && RestoreCall(d, reset, limit, write).0.dev == c.dev
            && BackWrites(d, reset, limit) == []
            && (write ==> RestoreCall(d, reset, limit, write).0.disk == Holds(d.disk.rec.(restored := true)))
  {
  }

  /** The application's actions, one after the other, with no signal in between. */
  function Acts(c: Core, u: User, cfg: Config, chs: seq<Choice>): (Core, User)
    decreases |chs|
  {
    if chs == [] then (c, u) else
    var (d, v) := UserStep(c, u, chs[0], cfg);
    Acts(d, v, cfg, chs[1..])
  }

  function Just(ok: bool): Choice {
    Choice(ok, Reading(true, true, true, true))
  }

  lemma {:induction false} ActsConcat(c: Core, u: User, cfg: Config, xs: seq<Choice>, ys: seq<Choice>)
    ensures Acts(c, u, cfg, xs + ys) ==
            var (d, v) := Acts(c, u, cfg, xs); Acts(d, v, cfg, ys)
    decreases |xs|
  {
    if xs == [] {
      assert xs + ys == ys;
    } else {
      var (d, v) := UserStep(c, u, xs[0], cfg);
      ActsConcat(d, v, cfg, xs[1..], ys);
      assert (xs + ys)[1..] == xs[1..] + ys;
    }
  }

  /** One more action after a run of actions. */
  lemma ActsThen(c: Core, u: User, cfg: Config, chs: seq<Choice>, ch: Choice)
    ensures Acts(c, u, cfg, chs + [ch]) ==
            var (d, v) := Acts(c, u, cfg, chs); UserStep(d, v, ch, cfg)
  {
    ActsConcat(c, u, cfg, chs, [ch]);
    var (d, v) := Acts(c, u, cfg, chs);
    assert [ch][1..] == [];
    var (e, x) := UserStep(d, v, ch, cfg);
    assert Acts(d, v, cfg, [ch]) == Acts(e, x, cfg, []);
  }

  /** Extends a run that has reached `(c, u)` by one action. */
  lemma Then(c0: Core, u0: User, cfg: Config, chs: seq<Choice>, c: Core, u: User, ch: Choice)
    returns (chs': seq<Choice>)
    requires Acts(c0, u0, cfg, chs) == (c, u)
    ensures Acts(c0, u0, cfg, chs') == UserStep(c, u, ch, cfg)
  {
    chs' := chs + [ch];
    ActsThen(c0, u0, cfg, chs, ch);
  }

  /** The same for an action of a restore the application called. */
  lemma ThenRestore(c0: Core, u0: User, cfg: Config, chs: seq<Choice>, c: Core, f: RestoreFrame, ok: bool)
    returns (chs': seq<Choice>)
    requires Acts(c0, u0, cfg, chs) == (c, Restoring(f)) && f.pc != Done
    ensures var (d, g) := RestoreStep(c, f, ok); Acts(c0, u0, cfg, chs') == (d, Restoring(g))
  {
    chs' := Then(c0, u0, cfg, chs, c, Restoring(f), Just(ok));
  }

  /** The same, with what the action leads to. */
  lemma ThenRestoreTo(
      c0: Core, u0: User, cfg: Config, chs: seq<Choice>, c: Core, f: RestoreFrame, ok: bool, d: Core, g: RestoreFrame)
    returns (chs': seq<Choice>)
    requires Acts(c0, u0, cfg, chs) == (c, Restoring(f)) && f.pc != Done
    requires RestoreStep(c, f, ok) == (d, g)
    ensures Acts(c0, u0, cfg, chs') == (d, Restoring(g))
  {
    chs' := ThenRestore(c0, u0, cfg, chs, c, f, ok);
  }

  lemma SurrenderRuns(c: Core, cfg: Config, f: RestoreFrame, write: bool) returns (chs: seq<Choice>)
    requires f.pc == SurrenderCheck
    ensures Acts(c, Restoring(f), cfg, chs) == (SurrenderCall(c, write), Idle)
  {
    var u := Restoring(f);
    chs := ThenRestore(c, u, cfg, [], c, f, true);
    var (c1, f1) := RestoreStep(c, f, true);
    if f1.pc == SurrenderFlag {
      chs := ClaimSurrenderRuns(c, cfg, f, f1, chs, write);
    } else {
      chs := ThenRestore(c, u, cfg, chs, c1, f1, true);
      var (c2, f2) := RestoreStep(c1, f1, true);
      chs := Then(c, u, cfg, chs, c2, Restoring(f2), Just(true));
    }
  }

  lemma ClaimSurrenderRuns(c: Core, cfg: Config, f: RestoreFrame, f1: RestoreFrame, chs1: seq<Choice>, write: bool)
    returns (chs: seq<Choice>)
    requires Acts(c, Restoring(f), cfg, chs1) == (c, Restoring(f1)) && f1.pc == SurrenderFlag
    requires c.mem.published && c.mem.state.Some? && !c.mem.state.value.restored
    ensures Acts(c, Restoring(f), cfg, chs) == (SurrenderCall(c, write), Idle)
  {
    var u := Restoring(f);
    var settled, done, end := WithRestored(c, true), f1.(pc := Done), SurrenderCall(c, write);
    chs := ThenRestoreTo(c, u, cfg, chs1, c, f1, true, settled, f1.(pc := SurrenderWrite));
    if write {
      var out, last := PublishState(settled), f1.(pc := SurrenderDisarm);
      chs := ThenRestoreTo(c, u, cfg, chs, settled, f1.(pc := SurrenderWrite), true, out, last);
      chs := ThenRestoreTo(c, u, cfg, chs, out, last, true, end, done);
    } else {
      var last := f1.(pc := SurrenderRollback);
      chs := ThenRestoreTo(c, u, cfg, chs, settled, f1.(pc := SurrenderWrite), false, settled, last);
      chs := ThenRestoreTo(c, u, cfg, chs, settled, last, true, end, done);
    }
    chs := Then(c, u, cfg, chs, end, Restoring(done), Just(true));
  }

  lemma SettleRuns(c: Core, cfg: Config, f: RestoreFrame, write: bool) returns (chs: seq<Choice>)
    requires f.pc == MarkRestored
    ensures Acts(c, Restoring(f), cfg, chs) == (SettleCall(c, write), Idle)
  {
    var u, done, end := Restoring(f), f.(pc := Done), SettleCall(c, write);
    var marked := c.(mem := c.mem.(restored := true));
    chs := ThenRestoreTo(c, u, cfg, [], c, f, true, marked, f.(pc := SettleFlag));
    if c.mem.state.None? {
      chs := ThenRestoreTo(c, u, cfg, chs, marked, f.(pc := SettleFlag), true, marked, f.(pc := SettleDisarm));
      chs := ThenRestoreTo(c, u, cfg, chs, marked, f.(pc := SettleDisarm), true, end, done);
    } else {
      var settled := WithState(marked, Settle(c.mem.state.value));
      chs := ThenRestoreTo(c, u, cfg, chs, marked, f.(pc := SettleFlag), true, settled, f.(pc := SettleWrite));
      chs := SettleWriteRuns(c, cfg, f, settled, chs, write);
    }
    chs := Then(c, u, cfg, chs, end, Restoring(done), Just(true));
  }

  lemma SettleWriteRuns(c: Core, cfg: Config, f: RestoreFrame, settled: Core, chs0: seq<Choice>, write: bool)
    returns (chs: seq<Choice>)
    requires Acts(c, Restoring(f), cfg, chs0) == (settled, Restoring(f.(pc := SettleWrite)))
    requires c.mem.state.Some?
    requires settled == WithState(c.(mem := c.mem.(restored := true)), Settle(c.mem.state.value))
    ensures Acts(c, Restoring(f), cfg, chs) == (SettleCall(c, write), Restoring(f.(pc := Done)))
  {
    var u, at, done, end := Restoring(f), f.(pc := SettleWrite), f.(pc := Done), SettleCall(c, write);
    if write {
      var out, last := PublishState(settled), f.(pc := SettleDisarm);
      chs := ThenRestoreTo(c, u, cfg, chs0, settled, at, true, out, last);
      chs := ThenRestoreTo(c, u, cfg, chs, out, last, true, end, done);
    } else {
      var last := f.(pc := SettleRollback);
      chs := ThenRestoreTo(c, u, cfg, chs0, settled, at, false, settled, last);
      chs := ThenRestoreTo(c, u, cfg, chs, settled, last, true, end, done);
    }
  }

  lemma FailRuns(c: Core, cfg: Config, f: RestoreFrame, write: bool) returns (chs: seq<Choice>)
    requires f.pc == FailMark
    ensures Acts(c, Restoring(f), cfg, chs) == (FailCall(c, write), Idle)
  {
    var u := Restoring(f);
    chs := ThenRestore(c, u, cfg, [], c, f, true);
    var (c1, f1) := RestoreStep(c, f, true);
    chs := ThenRestore(c, u, cfg, chs, c1, f1, true);
    var (c2, f2) := RestoreStep(c1, f1, true);
    chs := ThenRestore(c, u, cfg, chs, c2, f2, write);
    var (c3, f3) := RestoreStep(c2, f2, write);
    chs := Then(c, u, cfg, chs, c3, Restoring(f3), Just(true));
  }

  /** The device half, from the entry to the verdict whether anything failed. */
  lemma PutBackRuns(c: Core, cfg: Config, reset: bool, limit: bool) returns (chs: seq<Choice>, f: RestoreFrame)
    requires !c.mem.restored
    ensures var (d, failed) := PutBack(c, reset, limit);
            && Acts(c, Restoring(NEW_RESTORE), cfg, chs) == (d, Restoring(f))
            && f.pc == (if failed then FailMark else MarkRestored)
  {
    var u := Restoring(NEW_RESTORE);
    chs := ThenRestore(c, u, cfg, [], c, NEW_RESTORE, true);
    var (c1, f1) := RestoreStep(c, NEW_RESTORE, true);
    chs := ThenRestore(c, u, cfg, chs, c1, f1, reset);
    var (c2, f2) := RestoreStep(c1, f1, reset);
    chs := ThenRestore(c, u, cfg, chs, c2, f2, true);
    var (c3, f3) := RestoreStep(c2, f2, true);
    if f3.pc == PowerWrite {
      chs := ThenRestore(c, u, cfg, chs, c3, f3, limit);
      var (c4, f4) := RestoreStep(c3, f3, limit);
      chs := ThenRestore(c, u, cfg, chs, c4, f4, true);
      f := RestoreStep(c4, f4, true).1;
    } else {
      chs := ThenRestore(c, u, cfg, chs, c3, f3, true);
      f := RestoreStep(c3, f3, true).1;
    }
  }

  /** An uninterrupted `restore` is a run of the machine. */
  lemma RestoreCallRuns(c: Core, cfg: Config, reset: bool, limit: bool, write: bool) returns (chs: seq<Choice>)
    ensures Acts(c, Restoring(NEW_RESTORE), cfg, chs) == (RestoreCall(c, reset, limit, write).0, Idle)
  {
    var first, f, rest;
    if c.mem.restored {
      first := ThenRestore(c, Restoring(NEW_RESTORE), cfg, [], c, NEW_RESTORE, true);
      f := RestoreStep(c, NEW_RESTORE, true).1;
      rest := SurrenderRuns(c, cfg, f, write);
      ActsConcat(c, Restoring(NEW_RESTORE), cfg, first, rest);
    } else {
      first, f := PutBackRuns(c, cfg, reset, limit);
      var (d, failed) := PutBack(c, reset, limit);
      if failed {
        rest := FailRuns(d, cfg, f, write);
      } else {
        rest := SettleRuns(d, cfg, f, write);
      }
      ActsConcat(c, Restoring(NEW_RESTORE), cfg, first, rest);
    }
    chs := first + rest;
  }

  /** An uninterrupted `arm`, called by the application or by a write, is a run of the machine. */
  lemma ArmCallRuns(c: Core, cfg: Config, next: Option<Op>, claim: bool, write: bool, sees: Reading)
    returns (chs: seq<Choice>)
    ensures var (d, out) := ArmCall(c, cfg, claim, write, sees);
            Acts(c, Arming(CheckArmed, next), cfg, chs) == (d, if out.Returned? then AfterArm(next) else Idle)
  {
    var u := Arming(CheckArmed, next);
    chs := Then(c, u, cfg, [], c, u, Just(true));
    if c.mem.armed {
      return;
    }
    chs := Then(c, u, cfg, chs, c, Arming(CheckBusy, next), Just(true));
    if Busy(c.disk) {
      return;
    }
    var c1 := c.(mem := c.mem.(published := false));
    chs := Then(c, u, cfg, chs, c, Arming(ClearPublished, next), Just(true));
    chs := Then(c, u, cfg, chs, c1, Arming(Claim, next), Just(claim));
    if !claim {
      return;
    }
    chs := Then(c, u, cfg, chs, c1, Arming(TakeSnapshot, next), Choice(true, sees));
    var c2 := c1.(mem := c1.mem.(snapshot := Some(TakenSnapshot(c, sees))));
    chs := Then(c, u, cfg, chs, c2, Arming(BuildState, next), Just(true));
    var c3 := c2.(mem := c2.mem.(state := Some(NewRecord(cfg.pid, c.clock, c2.mem.snapshot.value))),
        clock := c.clock + 1);
    chs := Then(c, u, cfg, chs, c3, Arming(Publish, next), Just(write));
    if !write {
      return;
    }
    var c4 := PublishState(c3);
    chs := Then(c, u, cfg, chs, c4, Arming(SetPublished, next), Just(true));
    chs := Then(c, u, cfg, chs, c4.(mem := c4.mem.(published := true)), Arming(SetArmed, next), Just(true));
  }

  lemma NoteRuns(c: Core, cfg: Config, op: Op) returns (chs: seq<Choice>)
    requires c.mem.state.Some?
    ensures Acts(c, Writing(op, NoteIntent, false), cfg, chs) ==
            (WithState(c, Intent(c.mem.state.value, op)), Writing(op, CheckClaim, false))
  {
    var u := Writing(op, NoteIntent, false);
    chs := Then(c, u, cfg, [], c, u, Just(true));
    if op.Lock? {
      var (c1, u1) := UserStep(c, u, Just(true), cfg);
      chs := Then(c, u, cfg, chs, c1, u1, Just(true));
      var (c2, u2) := UserStep(c1, u1, Just(true), cfg);
      chs := Then(c, u, cfg, chs, c2, u2, Just(true));
    }
  }

  lemma TouchRuns(c: Core, cfg: Config, op: Op, write: bool, device: bool) returns (chs: seq<Choice>)
    requires c.mem.state.Some?
    ensures Acts(c, Writing(op, CheckClaim, false), cfg, chs) == (TouchCall(c, op, write, device).0, Idle)
  {
    var u := Writing(op, CheckClaim, false);
    chs := Then(c, u, cfg, [], c, u, Just(true));
    if !c.mem.armed {
      return;
    }
    chs := Then(c, u, cfg, chs, c, Writing(op, ClearRestored, false), Just(true));
    var c1 := WithRestored(c, false);
    chs := Then(c, u, cfg, chs, c1, Writing(op, OweRestore, false), Just(true));
    var c2 := c1.(mem := c1.mem.(restored := false));
    chs := Then(c, u, cfg, chs, c2, Writing(op, WriteRecord, false), Just(write));
    if write {
      var c3 := PublishState(c2);
      chs := Then(c, u, cfg, chs, c3, Writing(op, KeepPublished, false), Just(true));
      chs := Then(c, u, cfg, chs, c3.(mem := c3.mem.(published := true)), Writing(op, WriteDevice, false),
          Just(device));
    }
  }

  lemma ArmedWriteCallRuns(c: Core, cfg: Config, op: Op, write: bool, device: bool) returns (chs: seq<Choice>)
    ensures Acts(c, Writing(op, CheckCaller, false), cfg, chs) == (ArmedWriteCall(c, cfg, op, write, device).0, Idle)
  {
    var u := Writing(op, CheckCaller, false);
    chs := Then(c, u, cfg, [], c, u, Just(true));
    if (c.mem.snapshot.Some? && !LimitAllowed(op, c.mem.snapshot.value)) || !cfg.privileged || c.mem.state.None? {
      return;
    }
    var noting := NoteRuns(c, cfg, op);
    ActsConcat(c, u, cfg, chs, noting);
    var noted := WithState(c, Intent(c.mem.state.value, op));
    var touching := TouchRuns(noted, cfg, op, write, device);
    ActsConcat(c, u, cfg, chs + noting, touching);
    chs := chs + noting + touching;
  }

  /** An uninterrupted `lock_clocks` or `set_power_limit_mw` is a run of the machine. */
  lemma WriteCallRuns(
      c: Core, cfg: Config, op: Op, claim: bool, publish: bool, sees: Reading, write: bool, device: bool)
    returns (chs: seq<Choice>)
    ensures Acts(c, Calling(op), cfg, chs) == (WriteCall(c, cfg, op, claim, publish, sees, write, device).0, Idle)
  {
    var u := Calling(op);
    chs := Then(c, u, cfg, [], c, u, Just(true));
    if !cfg.consent || !ClockAllowed(op, cfg.floor) {
      return;
    }
    chs := Then(c, u, cfg, chs, c, AutoArming(op), Just(true));
    var (d, armed) := ArmCall(c, cfg, claim, publish, sees);
    if !c.mem.armed {
      var arming := ArmCallRuns(c, cfg, Some(op), claim, publish, sees);
      ActsConcat(c, u, cfg, chs, arming);
      chs := chs + arming;
    }
    if armed.Returned? {
      var writing := ArmedWriteCallRuns(d, cfg, op, write, device);
      ActsConcat(c, u, cfg, chs, writing);
      chs := chs + writing;
    }
  }
}
