/** The invariant of the guard protocol and its preservation by every step. */
module GuardInvariant {
  import opened GuardTypes
  import opened DeviceIdentity
  import opened GuardProtocol

  // ----- what holds of the device and the disk -----

  predicate Unmodified(d: Device) {
    d.lock.None? && !d.capped
  }

  /** Whatever the guard left on the device, the disk holds an unrestored record that names it.
      A lock issued by a spoiled call is owed but not named. */
  predicate Evidence(c: Core) {
    && (c.dev.lock.Some? ==> Owed(c.disk) && (c.hist.unnamed || c.disk.rec.clocksLocked))
    && (c.dev.capped ==> Owed(c.disk) && c.disk.rec.powerWritten.Some?)
  }

  /** A limit that no guard chose: the operator's own, or the factory default if some write has put
      that in its place. */
  predicate Rightful(c: Core, mw: int) {
    mw == c.hist.stock || (c.hist.defaulted && mw == c.card.factory)
  }

  /** The captured limit was never a guard's cap. */
  predicate TrueLimit(c: Core, s: Snapshot) {
    s.limit.Some? ==> Rightful(c, s.limit.value)
  }

  /** Everything else that was captured is the card's own. */
  predicate TrueIdentity(c: Core, s: Snapshot) {
    && s.index == c.card.index
    && (s.minLimit.Some? ==> s.minLimit == c.card.minLimit)
    && (s.maxLimit.Some? ==> s.maxLimit == c.card.maxLimit)
    && (s.factory.Some? ==> s.factory.value == c.card.factory)
    && (s.uuid.Some? ==> s.uuid.value == c.card.uuid)
  }

  predicate OwnRecord(c: Core, r: Record) {
    && TrueIdentity(c, r.snapshot)
    && r.uuid == r.snapshot.uuid && r.index == r.snapshot.index
    && r.stamp < c.clock
  }

  predicate TrueRecord(c: Core, r: Record) {
    OwnRecord(c, r) && TrueLimit(c, r.snapshot)
  }

  predicate StockInForce(c: Core) {
    !c.dev.capped ==> Rightful(c, c.dev.power)
  }

  predicate FloorHeld(c: Core) {
    c.dev.lock.Some? ==> MIN_SM_CLOCK_MHZ <= c.dev.lock.value.0 <= c.dev.lock.value.1
  }

  predicate DeviceOk(c: Core) {
    && Evidence(c)
    && StockInForce(c)
    && FloorHeld(c)
    && (Owed(c.disk) ==>
          && OwnRecord(c, c.disk.rec)
          && (c.disk.rec.powerWritten.Some? ==> TrueLimit(c, c.disk.rec.snapshot)))
    && c.card.uuid != ""
  }

  // ----- what holds of the guard's memory -----

  predicate MemoryOk(c: Core) {
    var m := c.mem;
    && (m.armed ==> m.published)
    && (!m.restored ==> m.armed)
    && (m.published ==> m.state.Some? && m.snapshot == Some(m.state.value.snapshot))
    && (m.published && m.restored ==> Unmodified(c.dev))
    && (m.armed && Owed(c.disk) ==> TrueRecord(c, m.state.value))
    && (!m.restored ==>
          && (c.dev.lock.Some? ==> c.hist.unnamed || m.state.value.clocksLocked)
          && (c.dev.capped ==> m.state.value.powerWritten.Some?))
  }

  /** An armed guard's own unrestored record is the one on disk. */
  predicate OwnDisk(c: Core) {
    c.mem.armed ==>
      && c.mem.state.Some?
      && Owed(c.disk)
      && c.disk.rec.stamp == c.mem.state.value.stamp
      && c.disk.rec.pid == c.mem.state.value.pid
  }

  predicate OwnMemory(c: Core) {
    c.mem.armed ==> c.mem.state.Some? && !c.mem.state.value.restored
  }

  /** The only places, all signal-blocked, where the settled record is out and the guard has not
      yet disarmed; and where the in-memory flag is ahead of the disk. */
  predicate Releasing(pc: RestorePc) {
    pc in {SettleDisarm, SurrenderDisarm}
  }

  predicate FlagAhead(pc: RestorePc) {
    pc in {SettleWrite, SettleRollback, SettleDisarm, SurrenderWrite, SurrenderRollback, SurrenderDisarm}
  }

  predicate Claims(c: Core, pc: RestorePc) {
    && (!Releasing(pc) ==> OwnDisk(c))
    && (!FlagAhead(pc) ==> OwnMemory(c))
  }

  // ----- what holds of the frames -----

  predicate RestoreFacts(c: Core, f: RestoreFrame)
    requires MemoryOk(c)
  {
    var m := c.mem;
    && (Paying(f.pc) ==> m.published && OwnRecord(c, m.state.value))
    && (StillOwes(f) && OwesLimit(m) ==> TrueLimit(c, m.state.value.snapshot))
    && (f.pc in {Target, PowerWrite, Decide} && !f.err ==> c.dev.lock.None?)
    && (f.pc == PowerWrite ==> OwesLimit(m) && f.target.Some? && f.target == RestoreTarget(m.snapshot.value))
    && (f.pc == Decide && !f.err ==> Unmodified(c.dev))
    && (f.pc in {FailMark, FailNote, FailWrite} ==> f.err)
    && (f.pc == MarkRestored ==> m.published && Unmodified(c.dev) && !f.err)
    && (f.pc in {SettleFlag, SettleWrite, SettleRollback, SettleDisarm} ==>
        m.published && m.restored && Unmodified(c.dev))
    && (f.pc in {SurrenderCheck, SurrenderDisarm} ==> m.restored)
    && (f.pc in {SurrenderFlag, SurrenderWrite, SurrenderRollback} ==> m.published && m.restored)
    && (f.pc in {SettleWrite, SurrenderWrite} ==> m.state.value.restored)
    && (f.pc in {SettleWrite, SettleRollback} ==> !m.state.value.clocksLocked)
    && (f.pc == Done && !f.err ==> m.restored)
  }

  predicate OpOk(op: Op) {
    ClockAllowed(op, MIN_SM_CLOCK_MHZ)
  }

  predicate Settling(pc: RestorePc) {
    pc in {SettleWrite, SettleRollback, SettleDisarm}
  }

  predicate InSettle(hs: seq<RestoreFrame>) {
    hs != [] && Settling(Top(hs).pc)
  }

  predicate ArmFacts(c: Core, pc: ArmPc) {
    var m := c.mem;
    && (pc != CheckArmed ==> !m.armed)
    && (pc in {ClearPublished, Claim, TakeSnapshot, BuildState, Publish} ==> !Owed(c.disk))
    && (pc in {Claim, TakeSnapshot, BuildState, Publish, SetPublished} ==> !m.published)
    && (pc in {BuildState, Publish} ==>
        m.snapshot.Some? && TrueIdentity(c, m.snapshot.value) && TrueLimit(c, m.snapshot.value))
    && (pc in {Publish, SetPublished, SetArmed} ==>
          && m.state.Some?
          && TrueRecord(c, m.state.value)
          && !m.state.value.restored
          && m.snapshot == Some(m.state.value.snapshot))
    && (pc in {SetPublished, SetArmed} ==> c.disk == Holds(m.state.value) && Unmodified(c.dev))
    && (pc == SetArmed ==> m.published)
  }

  /** How much of the write's own value the in-memory record carries at each place of the call. */
  predicate DescribedAt(r: Record, op: Op, pc: WritePc) {
    match op
    case Lock(lo, hi) =>
      && (pc !in {CheckCaller, NoteIntent, NoteMin} ==> r.lockedMin == Some(lo))
      && (pc !in {CheckCaller, NoteIntent, NoteMin, NoteMax} ==> r.lockedMax == Some(hi))
    case Cap(mw) => pc !in {CheckCaller, NoteIntent} ==> r.powerWritten == Some(mw)
  }

  predicate WriteFacts(c: Core, op: Op, pc: WritePc, hit: bool, settling: bool)
    requires MemoryOk(c)
  {
    var m := c.mem;
    && OpOk(op)
    && m.published
    && (hit ==> op.Lock?)
    && (pc in {ClearRestored, OweRestore, WriteRecord, KeepPublished, WriteDevice} ==> m.armed)
    && (pc !in {CheckCaller, NoteIntent} && m.armed && !hit && !(op.Lock? && settling) ==> Names(m.state.value, op))
    && (pc !in {CheckCaller, NoteIntent} && m.armed && hit && !settling ==> !m.state.value.clocksLocked)
    && DescribedAt(m.state.value, op, pc)
    && (pc in {WriteRecord, KeepPublished, WriteDevice} ==> !m.restored)
    && (pc in {KeepPublished, WriteDevice} ==> c.disk == Holds(m.state.value))
  }

  predicate UserFacts(c: Core, u: User, hs: seq<RestoreFrame>)
    requires MemoryOk(c)
  {
    && (UserBlocked(u) ==> hs == [])
    && match u
       case Idle => true
       case Calling(op) => true
       case AutoArming(op) => OpOk(op)
       case Arming(pc, next) =>
         && (next.Some? ==> OpOk(next.value))
         && ArmFacts(c, pc)
         && (pc != CheckArmed ==> forall i :: 0 <= i < |hs| ==> !Paying(hs[i].pc))
       case Writing(op, pc, hit) => WriteFacts(c, op, pc, hit, InSettle(hs))
       case Restoring(f) => RestoreFacts(c, f)
  }

  predicate HandlersOk(c: Core, hs: seq<RestoreFrame>)
    requires MemoryOk(c)
  {
    && (forall i :: 0 <= i < |hs| ==> RestoreFacts(c, hs[i]))
    && (forall i :: 0 <= i < |hs| - 1 ==> !RestoreBlocked(hs[i].pc))
  }

  /** The program counter of the frame that runs next, if that frame is a restore. */
  function RunningPc(u: User, hs: seq<RestoreFrame>): RestorePc {
    if hs != [] then Top(hs).pc else if u.Restoring? then u.frame.pc else Entry
  }

  predicate Permitted(cfg: Config, op: Op) {
    cfg.consent && ClockAllowed(op, cfg.floor)
  }

  /** The checks that a write call has passed by each of its places. */
  predicate CallAllowed(c: Core, cfg: Config, u: User) {
    match u
    case AutoArming(op) => Permitted(cfg, op)
    case Arming(_, next) => next.Some? ==> Permitted(cfg, next.value)
    case Writing(op, pc, _) =>
      && Permitted(cfg, op)
      && (pc != CheckCaller ==>
            cfg.privileged && (c.mem.snapshot.Some? ==> LimitAllowed(op, c.mem.snapshot.value)))
    case _ => true
  }

  predicate GuardOk(c: Core, cfg: Config, u: User, hs: seq<RestoreFrame>) {
    && MIN_SM_CLOCK_MHZ <= cfg.floor
    && MemoryOk(c)
    && Claims(c, RunningPc(u, hs))
    && (c.mem.state.Some? ==> c.mem.state.value.pid == cfg.pid)
    && CallAllowed(c, cfg, u)
    && UserFacts(c, u, hs)
    && HandlersOk(c, hs)
  }

  predicate RecoveryOk(c: Core, v: Recovery) {
    && (v.pc == Load ==> v.prior.None? && !v.err)
    && (v.here ==> Honest(v.uuid, c.card.uuid))
    && (!v.here ==>
          && v.uuid != Some(c.card.uuid)
          && (Owed(c.disk) && !Readable(c.disk.rec.uuid) ==> v.index.Some? && v.index.value != c.disk.rec.index)
          && !OwesPower(v.prior)
          && (v.prior.Some? ==> v.prior.value.restored))
    && (v.prior.Some? && v.pc != Finished ==> c.disk == Holds(v.prior.value))
    && (v.here && v.pc !in {Load, ResetClocks} && !v.err ==> c.dev.lock.None?)
    && (v.pc == WriteLimit ==>
          && v.target.Some?
          && (OwesPower(v.prior) || v.force)
          && (if OwesPower(v.prior) && v.prior.value.snapshot.limit.Some? then v.target == v.prior.value.snapshot.limit
              else v.here ==> v.target == Some(c.card.factory)))
    && (v.here && v.prior.Some? && v.pc in {CheckHolder, Reread, ClearRecord} && !v.err ==> Unmodified(c.dev))
    && (v.pc == ClearRecord ==> v.prior.Some? && !v.err)
  }

  predicate Inv(w: World) {
    && DeviceOk(w.core)
    && match w.proc
       case Nobody => true
       case Guarding(cfg, u, hs) => GuardOk(w.core, cfg, u, hs)
       case Recovering(v) => RecoveryOk(w.core, v)
  }

  // ----- a restore step -----

  /** What a restore step can do to anything a suspended frame relies on. */
  predicate Calmer(c: Core, d: Core) {
    && d.card == c.card && d.clock == c.clock
    && d.hist.stock == c.hist.stock && d.hist.unnamed == c.hist.unnamed
    && (c.hist.defaulted ==> d.hist.defaulted)
    && d.mem.published == c.mem.published && d.mem.snapshot == c.mem.snapshot
    && (c.mem.restored ==> d.mem.restored)
    && (d.mem.armed ==> c.mem.armed)
    && (d.dev.lock.Some? ==> d.dev.lock == c.dev.lock)
    && (d.dev.capped ==> c.dev.capped)
    && (c.mem.state.None? <==> d.mem.state.None?)
    && (c.mem.state.Some? ==>
          var s, t := c.mem.state.value, d.mem.state.value;
          t == s.(restored := t.restored, restoreFailed := t.restoreFailed, clocksLocked := t.clocksLocked))
  }

  predicate RestoreOk(c: Core, f: RestoreFrame) {
    DeviceOk(c) && MemoryOk(c) && Claims(c, f.pc) && RestoreFacts(c, f)
  }

  lemma EnteringStepKeeps(c: Core, f: RestoreFrame, ok: bool)
    requires RestoreOk(c, f)
    requires f.pc in {Entry, Reset}
    ensures var (d, g) := RestoreStep(c, f, ok); RestoreOk(d, g) && Calmer(c, d)
  {
  }

  lemma PayingStepKeeps(c: Core, f: RestoreFrame, ok: bool)
    requires RestoreOk(c, f)
    requires f.pc in {Target, PowerWrite}
    ensures var (d, g) := RestoreStep(c, f, ok); RestoreOk(d, g) && Calmer(c, d)
  {
  }

  lemma FailingStepKeeps(c: Core, f: RestoreFrame, ok: bool)
    requires RestoreOk(c, f)
    requires f.pc in {Decide, FailMark, FailNote, FailWrite}
    ensures var (d, g) := RestoreStep(c, f, ok); RestoreOk(d, g) && Calmer(c, d)
  {
  }

  lemma SettlingStepKeeps(c: Core, f: RestoreFrame, ok: bool)
    requires RestoreOk(c, f)
    requires f.pc in {MarkRestored, SettleFlag, SettleWrite, SettleRollback, SettleDisarm, Done}
    ensures var (d, g) := RestoreStep(c, f, ok); RestoreOk(d, g) && Calmer(c, d)
  {
  }

  lemma SurrenderStepKeeps(c: Core, f: RestoreFrame, ok: bool)
    requires RestoreOk(c, f)
    requires f.pc in {SurrenderCheck, SurrenderFlag, SurrenderWrite, SurrenderRollback, SurrenderDisarm}
    ensures var (d, g) := RestoreStep(c, f, ok); RestoreOk(d, g) && Calmer(c, d)
  {
  }

  lemma RestoreStepKeeps(c: Core, f: RestoreFrame, ok: bool)
    requires RestoreOk(c, f)
    ensures var (d, g) := RestoreStep(c, f, ok); RestoreOk(d, g) && Calmer(c, d)
  {
    if f.pc in {Entry, Reset} {
      EnteringStepKeeps(c, f, ok);
    } else if f.pc in {Target, PowerWrite} {
      PayingStepKeeps(c, f, ok);
    } else if f.pc in {Decide, FailMark, FailNote, FailWrite} {
      FailingStepKeeps(c, f, ok);
    } else if f.pc in {MarkRestored, SettleFlag, SettleWrite, SettleRollback, SettleDisarm, Done} {
      SettlingStepKeeps(c, f, ok);
    } else {
      SurrenderStepKeeps(c, f, ok);
    }
  }

  /** A suspended restore does not notice what ran on top of it. */
  lemma SuspendedRestore(c: Core, d: Core, f: RestoreFrame)
    requires MemoryOk(c) && MemoryOk(d) && Calmer(c, d)
    requires RestoreFacts(c, f) && !RestoreBlocked(f.pc)
    ensures RestoreFacts(d, f)
  {
  }

  // ----- an action of the application's call -----

  lemma ClaimingStepKeeps(c: Core, cfg: Config, pc: ArmPc, next: Option<Op>, ch: Choice)
    requires DeviceOk(c) && GuardOk(c, cfg, Arming(pc, next), [])
    requires pc in {CheckArmed, CheckBusy, ClearPublished, Claim}
    ensures var (d, u) := ArmStep(c, pc, next, ch, cfg); DeviceOk(d) && GuardOk(d, cfg, u, [])
  {
  }

  lemma CapturingStepKeeps(c: Core, cfg: Config, pc: ArmPc, next: Option<Op>, ch: Choice)
    requires DeviceOk(c) && GuardOk(c, cfg, Arming(pc, next), [])
    requires pc in {TakeSnapshot, BuildState}
    ensures var (d, u) := ArmStep(c, pc, next, ch, cfg); DeviceOk(d) && GuardOk(d, cfg, u, [])
  {
  }

  lemma PublishingStepKeeps(c: Core, cfg: Config, pc: ArmPc, next: Option<Op>, ch: Choice)
    requires DeviceOk(c) && GuardOk(c, cfg, Arming(pc, next), [])
    requires pc in {Publish, SetPublished, SetArmed}
    ensures var (d, u) := ArmStep(c, pc, next, ch, cfg); DeviceOk(d) && GuardOk(d, cfg, u, [])
  {
  }

  lemma ArmStepKeeps(c: Core, cfg: Config, pc: ArmPc, next: Option<Op>, ch: Choice)
    requires DeviceOk(c) && GuardOk(c, cfg, Arming(pc, next), [])
    ensures var (d, u) := ArmStep(c, pc, next, ch, cfg); DeviceOk(d) && GuardOk(d, cfg, u, [])
  {
    if pc in {CheckArmed, CheckBusy, ClearPublished, Claim} {
      ClaimingStepKeeps(c, cfg, pc, next, ch);
    } else if pc in {TakeSnapshot, BuildState} {
      CapturingStepKeeps(c, cfg, pc, next, ch);
    } else {
      PublishingStepKeeps(c, cfg, pc, next, ch);
    }
  }

  lemma EarlyWriteStepKeeps(c: Core, cfg: Config, op: Op, pc: WritePc, hit: bool, ch: Choice)
    requires DeviceOk(c) && GuardOk(c, cfg, Writing(op, pc, hit), [])
    requires pc in {CheckCaller, NoteIntent, NoteMin, NoteMax, CheckClaim}
    ensures var (d, u) := WriteStep(c, op, pc, hit, ch, cfg); DeviceOk(d) && GuardOk(d, cfg, u, [])
  {
  }

  /** Inside the signal-blocked part, up to the record on disk. */
  lemma RecordingStepKeeps(c: Core, cfg: Config, op: Op, pc: WritePc, hit: bool, ch: Choice)
    requires DeviceOk(c) && GuardOk(c, cfg, Writing(op, pc, hit), [])
    requires pc in {ClearRestored, OweRestore, WriteRecord}
    ensures var (d, u) := WriteStep(c, op, pc, hit, ch, cfg); DeviceOk(d) && GuardOk(d, cfg, u, [])
  {
  }

  lemma TouchingStepKeeps(c: Core, cfg: Config, op: Op, pc: WritePc, hit: bool, ch: Choice)
    requires DeviceOk(c) && GuardOk(c, cfg, Writing(op, pc, hit), [])
    requires pc in {KeepPublished, WriteDevice}
    ensures var (d, u) := WriteStep(c, op, pc, hit, ch, cfg); DeviceOk(d) && GuardOk(d, cfg, u, [])
  {
  }

  lemma LateWriteStepKeeps(c: Core, cfg: Config, op: Op, pc: WritePc, hit: bool, ch: Choice)
    requires DeviceOk(c) && GuardOk(c, cfg, Writing(op, pc, hit), [])
    requires pc !in {CheckCaller, NoteIntent, NoteMin, NoteMax, CheckClaim}
    ensures var (d, u) := WriteStep(c, op, pc, hit, ch, cfg); DeviceOk(d) && GuardOk(d, cfg, u, [])
  {
    if pc in {ClearRestored, OweRestore, WriteRecord} {
      RecordingStepKeeps(c, cfg, op, pc, hit, ch);
    } else {
      TouchingStepKeeps(c, cfg, op, pc, hit, ch);
    }
  }

  lemma UserStepKeeps(c: Core, cfg: Config, u: User, ch: Choice)
    requires DeviceOk(c) && GuardOk(c, cfg, u, [])
    ensures var (d, v) := UserStep(c, u, ch, cfg); DeviceOk(d) && GuardOk(d, cfg, v, [])
  {
    match u
    case Arming(pc, next) => ArmStepKeeps(c, cfg, pc, next, ch);
    case Writing(op, pc, hit) =>
      if pc in {CheckCaller, NoteIntent, NoteMin, NoteMax, CheckClaim} {
        EarlyWriteStepKeeps(c, cfg, op, pc, hit, ch);
      } else {
        LateWriteStepKeeps(c, cfg, op, pc, hit, ch);
      }
    case Restoring(f) =>
      if f.pc != Done {
        RestoreStepKeeps(c, f, ch.ok);
      }
    case _ =>
  }

  // ----- an action of a signal handler -----

  /** How one action of a restore changes whether the in-memory record notes a lock. */
  predicate NotesKept(c: Core, f: RestoreFrame, d: Core, g: RestoreFrame)
    requires c.mem.state.Some? && d.mem.state.Some?
  {
    && (f.pc == SettleFlag ==> Settling(g.pc))
    && (f.pc != SettleFlag ==> d.mem.state.value.clocksLocked == c.mem.state.value.clocksLocked)
    && (Settling(f.pc) && !Settling(g.pc) && d.mem.armed ==> f.pc == SettleRollback)
    && (Settling(g.pc) ==> Settling(f.pc) || f.pc == SettleFlag)
  }

  lemma RestoreKeepsNotes(c: Core, f: RestoreFrame, ok: bool)
    requires c.mem.state.Some?
    ensures var (d, g) := RestoreStep(c, f, ok); d.mem.state.Some? && NotesKept(c, f, d, g)
  {
  }

  /** Only a settle that failed to reach the disk wipes an armed call's note, and marks it hit. */
  lemma SuspendedWrite(c: Core, d: Core, op: Op, pc: WritePc, hit: bool, f: RestoreFrame, g: RestoreFrame)
    requires MemoryOk(c) && RestoreFacts(c, f) && MemoryOk(d) && Calmer(c, d)
    requires !UserBlocked(Writing(op, pc, hit))
    requires WriteFacts(c, op, pc, hit, Settling(f.pc)) && NotesKept(c, f, d, g)
    ensures var u := AfterHandler(Writing(op, pc, hit), f);
            u.Writing? && WriteFacts(d, op, pc, u.hit, Settling(g.pc))
  {
  }

  /** A handler on top of an arm owes nothing, and leaves what the arm has found alone. */
  lemma SuspendedArm(c: Core, d: Core, pc: ArmPc, hs: seq<RestoreFrame>, f: RestoreFrame, g: RestoreFrame, ok: bool)
    requires hs != [] && f == Top(hs) && (d, g) == RestoreStep(c, f, ok)
    requires RestoreOk(c, f) && Calmer(c, d)
    requires ArmFacts(c, pc) && pc !in {CheckArmed, SetPublished, SetArmed}
    requires forall i :: 0 <= i < |hs| ==> !Paying(hs[i].pc)
    ensures ArmFacts(d, pc)
    ensures var hs' := hs[..|hs| - 1] + [g];
            forall i :: 0 <= i < |hs'| ==> !Paying(hs'[i].pc)
  {
    assert !Paying(hs[|hs| - 1].pc);
    assert !Paying(g.pc);
  }

  /** What the handler's action leaves true for the call it interrupted. */
  lemma SuspendedUser(c: Core, d: Core, u: User, hs: seq<RestoreFrame>, f: RestoreFrame, g: RestoreFrame, ok: bool)
    requires hs != [] && f == Top(hs) && (d, g) == RestoreStep(c, f, ok)
    requires RestoreOk(c, f) && RestoreOk(d, g) && Calmer(c, d)
    requires UserFacts(c, u, hs) && HandlersOk(c, hs)
    ensures UserFacts(d, AfterHandler(u, f), hs[..|hs| - 1] + [g])
  {
    var hs' := hs[..|hs| - 1] + [g];
    match u
    case Arming(pc, next) =>
      if pc != CheckArmed {
        SuspendedArm(c, d, pc, hs, f, g, ok);
      }
    case Writing(op, pc, hit) =>
      assert Top(hs') == g;
      RestoreKeepsNotes(c, f, ok);
      SuspendedWrite(c, d, op, pc, hit, f, g);
    case Restoring(r) => SuspendedRestore(c, d, r);
    case _ =>
  }

  lemma HandlerStepKeeps(c: Core, cfg: Config, u: User, hs: seq<RestoreFrame>, ok: bool)
    requires hs != [] && DeviceOk(c) && GuardOk(c, cfg, u, hs)
    ensures var (d, g) := RestoreStep(c, Top(hs), ok);
            DeviceOk(d) && GuardOk(d, cfg, AfterHandler(u, Top(hs)), hs[..|hs| - 1] + [g])
  {
    var f := Top(hs);
    var (d, g) := RestoreStep(c, f, ok);
    RestoreStepKeeps(c, f, ok);
    SuspendedUser(c, d, u, hs, f, g, ok);
    var hs' := hs[..|hs| - 1] + [g];
    forall i | 0 <= i < |hs'|
      ensures RestoreFacts(d, hs'[i]) && (i < |hs'| - 1 ==> !RestoreBlocked(hs'[i].pc))
    {
      if i < |hs| - 1 {
        assert hs'[i] == hs[i];
        SuspendedRestore(c, d, hs[i]);
      }
    }
    assert Top(hs') == g;
  }

  lemma SignalKeeps(c: Core, cfg: Config, u: User, hs: seq<RestoreFrame>)
    requires DeviceOk(c) && GuardOk(c, cfg, u, hs)
    requires if hs != [] then !RestoreBlocked(Top(hs).pc) else !UserBlocked(u)
    ensures GuardOk(c, cfg, u, hs + [NEW_RESTORE])
  {
    var hs' := hs + [NEW_RESTORE];
    assert Top(hs') == NEW_RESTORE;
    assert forall i :: 0 <= i < |hs'| ==> hs'[i] == (if i < |hs| then hs[i] else NEW_RESTORE);
  }

  lemma ReturnKeeps(c: Core, cfg: Config, u: User, hs: seq<RestoreFrame>)
    requires hs != [] && Top(hs).pc == Done && DeviceOk(c) && GuardOk(c, cfg, u, hs)
    ensures GuardOk(c, cfg, u, hs[..|hs| - 1])
  {
    var hs' := hs[..|hs| - 1];
    assert forall i :: 0 <= i < |hs'| ==> hs'[i] == hs[i];
    assert hs' != [] ==> Top(hs') == hs[|hs| - 2];
  }

  // ----- recovery -----

  lemma LoadKeeps(c: Core, v: Recovery, ok: bool)
    requires DeviceOk(c) && RecoveryOk(c, v) && v.pc == Load
    ensures var (d, w) := RecoverStep(c, v, ok); DeviceOk(d) && RecoveryOk(d, w)
  {
    if c.disk.Holds? && !v.here && Owed(c.disk) {
      assert DeviceMismatch(c.disk.rec.uuid, Some(c.disk.rec.index), v.uuid, v.index) != Match;
    }
  }

  lemma HardwareStepKeeps(c: Core, v: Recovery, ok: bool)
    requires DeviceOk(c) && RecoveryOk(c, v) && v.pc in {ResetClocks, WriteLimit}
    ensures var (d, w) := RecoverStep(c, v, ok); DeviceOk(d) && RecoveryOk(d, w)
  {
  }

  lemma PlanKeeps(c: Core, v: Recovery, ok: bool)
    requires DeviceOk(c) && RecoveryOk(c, v) && v.pc == Plan
    ensures var (d, w) := RecoverStep(c, v, ok); DeviceOk(d) && RecoveryOk(d, w)
  {
  }

  lemma ClearingStepKeeps(c: Core, v: Recovery, ok: bool)
    requires DeviceOk(c) && RecoveryOk(c, v) && v.pc in {CheckHolder, Reread, ClearRecord, Finished}
    ensures var (d, w) := RecoverStep(c, v, ok); DeviceOk(d) && RecoveryOk(d, w)
  {
  }

  lemma RecoverStepKeeps(c: Core, v: Recovery, ok: bool)
    requires DeviceOk(c) && RecoveryOk(c, v)
    ensures var (d, w) := RecoverStep(c, v, ok); DeviceOk(d) && RecoveryOk(d, w)
  {
    match v.pc
    case Load => LoadKeeps(c, v, ok);
    case Plan => PlanKeeps(c, v, ok);
    case ResetClocks => HardwareStepKeeps(c, v, ok);
    case WriteLimit => HardwareStepKeeps(c, v, ok);
    case _ => ClearingStepKeeps(c, v, ok);
  }

  // ----- every step, every run -----

  /** The operator's choice becomes the stock limit, where nobody relies on the old one. */
  lemma OperatorKeeps(w: World, mw: int)
    requires Inv(w) && Enabled(w, Operator(mw))
    ensures Inv(Step(w, Operator(mw)))
  {
    if w.proc.Guarding? {
      var c, d := w.core, Step(w, Operator(mw)).core;
      forall i | 0 <= i < |w.proc.handlers|
        ensures RestoreFacts(d, w.proc.handlers[i])
      {
        assert RestoreFacts(c, w.proc.handlers[i]);
      }
    }
  }

  /** Calls begin, processes start and end. */
  predicate Boundary(e: Event) {
    e.StartGuard? || e.CallArm? || e.CallWrite? || e.CallRestore? || e.HandlerUnwinds? || e.Kill? || e.StartRecovery?
  }

  lemma BoundaryKeeps(w: World, e: Event)
    requires Inv(w) && Enabled(w, e) && Boundary(e)
    ensures Inv(Step(w, e))
  {
  }

  lemma StepKeeps(w: World, e: Event)
    requires Inv(w) && Enabled(w, e)
    ensures Inv(Step(w, e))
  {
    match e
    case UserAction(ch) => UserStepKeeps(w.core, w.proc.cfg, w.proc.user, ch);
    case HandlerAction(ok) => HandlerStepKeeps(w.core, w.proc.cfg, w.proc.user, w.proc.handlers, ok);
    case Signal => SignalKeeps(w.core, w.proc.cfg, w.proc.user, w.proc.handlers);
    case HandlerReturns => ReturnKeeps(w.core, w.proc.cfg, w.proc.user, w.proc.handlers);
    case RecoveryAction(ok) => RecoverStepKeeps(w.core, w.proc.v, ok);
    case Operator(mw) => OperatorKeeps(w, mw);
    case _ => BoundaryKeeps(w, e);
  }

  lemma {:induction false} RunKeeps(ws: seq<World>, es: seq<Event>, i: nat)
    requires IsRun(ws, es) && i < |ws|
    ensures Inv(ws[i])
  {
    if i > 0 {
      RunKeeps(ws, es, i - 1);
      StepKeeps(ws[i - 1], es[i - 1]);
    }
  }

  lemma ReachableOk(w: World)
    requires Reachable(w)
    ensures Inv(w)
  {
    var ws, es :| IsRun(ws, es) && ws[|ws| - 1] == w;
    RunKeeps(ws, es, |ws| - 1);
  }
}
