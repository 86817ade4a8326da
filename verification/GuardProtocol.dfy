/** The guard's write-ahead protocol as a small-step machine.

    The world is one card, one state file and at most one process at a time. A step is one action
    on a shared location, so a kill can land between any two of them; a signal can land wherever
    the signals are not blocked, pushes a full `restore` on top of the interrupted call, and lets
    that call resume. Every record write and device write may raise and then has no effect. */
module GuardProtocol {
  import opened GuardTypes
  import opened DeviceIdentity

  // ----- state -----

  /** The device, with a history bit: `capped` says the last limit write was a guard's cap. */
  datatype Device = Device(lock: Option<(int, int)>, power: int, capped: bool)

  /** Facts no component can observe. `stock`: the limit the operator last chose. `defaulted`: since
      then some write fell back to, or was told to use, the factory default. `unnamed`: the lock now on the
      device was issued by a call whose note a resumed signal had wiped (see `Writing.hit`). */
  datatype History = History(stock: int, defaulted: bool, unnamed: bool)

  datatype Card = Card(index: int, uuid: string, factory: int, minLimit: Option<int>, maxLimit: Option<int>)

  /** The fields of a guard object. */
  datatype Memory = Memory(
    armed: bool,
    published: bool,
    restored: bool,
    snapshot: Option<Snapshot>,
    state: Option<Record>)

  const FRESH := Memory(false, false, true, None, None)

  datatype Core = Core(mem: Memory, dev: Device, disk: Disk, hist: History, clock: nat, card: Card)

  // ----- program counters -----

  datatype RestorePc =
    | Entry | Reset | Target | PowerWrite | Decide
    | FailMark | FailNote | FailWrite
    | MarkRestored | SettleFlag | SettleWrite | SettleRollback | SettleDisarm
    | SurrenderCheck | SurrenderFlag | SurrenderWrite | SurrenderRollback | SurrenderDisarm
    | Done

  datatype RestoreFrame = RestoreFrame(pc: RestorePc, err: bool, target: Option<int>)

  const NEW_RESTORE := RestoreFrame(Entry, false, None)

  datatype ArmPc =
    | CheckArmed | CheckBusy | ClearPublished | Claim | TakeSnapshot | BuildState
    | Publish | SetPublished | SetArmed

  datatype WritePc =
    | CheckCaller | NoteIntent | NoteMin | NoteMax | CheckClaim
    | ClearRestored | OweRestore | WriteRecord | KeepPublished | WriteDevice

  /** The call the application is in. `hit` records that, after the call noted its intent, a
      signal's restore put the hardware back but could not write the settled record. */
  datatype User =
    | Idle
    | Calling(op: Op)
    | AutoArming(op: Op)
    | Arming(apc: ArmPc, next: Option<Op>)
    | Writing(op: Op, wpc: WritePc, hit: bool)
    | Restoring(frame: RestoreFrame)

  datatype Config = Config(pid: int, consent: bool, privileged: bool, floor: int)

  /** Which of the snapshot's reads succeed. */
  datatype Reading = Reading(uuid: bool, limit: bool, factory: bool, bounds: bool)

  /** The environment's part of a step: whether the I/O succeeds, and what a snapshot can read. */
  datatype Choice = Choice(ok: bool, sees: Reading)

  // ----- restore -----

  function Settle(s: Record): Record {
    s.(restoreFailed := false, clocksLocked := false, restored := true)
  }

  /** Assigning to the in-memory record; `s` is the record after the assignment. */
  function WithState(c: Core, s: Record): Core {
    c.(mem := c.mem.(state := Some(s)))
  }

  function WithRestored(c: Core, restored: bool): Core {
    if c.mem.state.Some? then WithState(c, c.mem.state.value.(restored := restored)) else c
  }

  /** `_write_state` of the in-memory record; replaces the file or raises and leaves it. */
  function PublishState(c: Core): Core {
    if c.mem.state.Some? then c.(disk := Holds(c.mem.state.value)) else c
  }

  function RestoreStep(c: Core, f: RestoreFrame, ok: bool): (Core, RestoreFrame)
  {
    match f.pc
    case Entry =>
      (c, f.(pc := if c.mem.restored then SurrenderCheck else Reset))
    case Reset =>
      if ok then (c.(dev := c.dev.(lock := None)), f.(pc := Target))
      else (c, f.(err := true, pc := Target))
    case Target =>
      if c.mem.state.Some? && c.mem.state.value.powerWritten.Some? then
        var t := if c.mem.snapshot.Some? then RestoreTarget(c.mem.snapshot.value) else None;
        if t.None? then (c, f.(err := true, pc := Decide)) else (c, f.(target := t, pc := PowerWrite))
      else
        (c, f.(pc := Decide))
    case PowerWrite =>
      if ok && f.target.Some? then
        (LimitRestored(c, f.target.value, c.mem.snapshot.None? || c.mem.snapshot.value.limit.None?), f.(pc := Decide))
      else
        (c, f.(err := true, pc := Decide))
    case Decide =>
      (c, f.(pc := if f.err then FailMark else MarkRestored))
    case FailMark =>
      (WithRestored(c, false), f.(pc := FailNote))
    case FailNote =>
      (if c.mem.state.Some? then WithState(c, c.mem.state.value.(restoreFailed := true)) else c, f.(pc := FailWrite))
    case FailWrite =>
      (if ok then PublishState(c) else c, f.(pc := Done))
    case MarkRestored =>
      (c.(mem := c.mem.(restored := true)), f.(pc := SettleFlag))
    case SettleFlag =>
      if c.mem.state.Some? then (WithState(c, Settle(c.mem.state.value)), f.(pc := SettleWrite))
      else (c, f.(pc := SettleDisarm))
    case SettleWrite =>
      if ok then (PublishState(c), f.(pc := SettleDisarm)) else (c, f.(pc := SettleRollback))
    case SettleRollback =>
      (WithRestored(c, false), f.(pc := Done))
    case SettleDisarm =>
      (c.(mem := c.mem.(armed := false)), f.(pc := Done))
    case SurrenderCheck =>
      if c.mem.published && c.mem.state.Some? && !c.mem.state.value.restored then (c, f.(pc := SurrenderFlag))
      else (c, f.(pc := SurrenderDisarm))
    case SurrenderFlag =>
      (WithRestored(c, true), f.(pc := SurrenderWrite))
    case SurrenderWrite =>
      if ok then (PublishState(c), f.(pc := SurrenderDisarm)) else (c, f.(pc := SurrenderRollback))
    case SurrenderRollback =>
      (WithRestored(c, false), f.(pc := Done))
    case SurrenderDisarm =>
      (c.(mem := c.mem.(armed := false)), f.(pc := Done))
    case Done => (c, f)
  }

  /** A write that is meant to undo a cap. */
  function LimitRestored(c: Core, mw: int, fallback: bool): Core {
    c.(dev := c.dev.(power := mw, capped := false),
       hist := c.hist.(defaulted := c.hist.defaulted || fallback))
  }

  /** Inside the signal-blocked tail of `restore` or `_surrender_claim`: past its first action. */
  predicate RestoreBlocked(pc: RestorePc) {
    pc in {SettleWrite, SettleRollback, SettleDisarm, SurrenderFlag, SurrenderWrite, SurrenderRollback, SurrenderDisarm}
  }

  // ----- arm -----

  function ReadSnapshot(card: Card, power: int, r: Reading): Snapshot {
    Snapshot(
      card.index,
      if r.uuid then Some(card.uuid) else None,
      if r.limit then Some(power) else None,
      if r.factory then Some(card.factory) else None,
      if r.bounds then card.minLimit else None,
      if r.bounds then card.maxLimit else None)
  }

  function TakenSnapshot(c: Core, r: Reading): Snapshot {
    ReadSnapshot(c.card, c.dev.power, r)
  }

  function NewRecord(pid: int, stamp: nat, s: Snapshot): Record {
    Record(pid, stamp, s.index, s.uuid, s, false, None, None, None, false, false)
  }

  /** Arming is refused over an unrestored record and over a file that cannot be interpreted. */
  predicate Busy(d: Disk) {
    d.Unreadable? || Owed(d)
  }

  function AfterArm(next: Option<Op>): User {
    if next.Some? then Writing(next.value, CheckCaller, false) else Idle
  }

  function ArmStep(c: Core, pc: ArmPc, next: Option<Op>, ch: Choice, cfg: Config): (Core, User)
  {
    match pc
    case CheckArmed => if c.mem.armed then (c, AfterArm(next)) else (c, Arming(CheckBusy, next))
    case CheckBusy => if Busy(c.disk) then (c, Idle) else (c, Arming(ClearPublished, next))
    case ClearPublished => (c.(mem := c.mem.(published := false)), Arming(Claim, next))
    case Claim => (c, if ch.ok then Arming(TakeSnapshot, next) else Idle)
    case TakeSnapshot =>
      (c.(mem := c.mem.(snapshot := Some(TakenSnapshot(c, ch.sees)))), Arming(BuildState, next))
    case BuildState =>
      if c.mem.snapshot.None? then (c, Idle) else
      (c.(mem := c.mem.(state := Some(NewRecord(cfg.pid, c.clock, c.mem.snapshot.value))), clock := c.clock + 1),
       Arming(Publish, next))
    case Publish => if ch.ok then (PublishState(c), Arming(SetPublished, next)) else (c, Idle)
    case SetPublished => (c.(mem := c.mem.(published := true)), Arming(SetArmed, next))
    case SetArmed => (c.(mem := c.mem.(armed := true)), AfterArm(next))
  }

  // ----- lock_clocks and set_power_limit_mw -----

  function Noted(s: Record, op: Op): Record {
    match op
    case Lock(_, _) => s.(clocksLocked := true)
    case Cap(mw) => s.(powerWritten := Some(mw))
  }

  function WriteStep(c: Core, op: Op, pc: WritePc, hit: bool, ch: Choice, cfg: Config): (Core, User)
  {
    match pc
    case CheckCaller =>
      if (c.mem.snapshot.Some? && !LimitAllowed(op, c.mem.snapshot.value)) || !cfg.privileged || c.mem.state.None?
      then (c, Idle)
      else (c, Writing(op, NoteIntent, hit))
    case NoteIntent =>
      (if c.mem.state.Some? then WithState(c, Noted(c.mem.state.value, op)) else c,
       Writing(op, if op.Lock? then NoteMin else CheckClaim, false))
    case NoteMin =>
      (if c.mem.state.Some? && op.Lock? then WithState(c, c.mem.state.value.(lockedMin := Some(op.minMhz))) else c,
       Writing(op, NoteMax, hit))
    case NoteMax =>
      (if c.mem.state.Some? && op.Lock? then WithState(c, c.mem.state.value.(lockedMax := Some(op.maxMhz))) else c,
       Writing(op, CheckClaim, hit))
    case CheckClaim =>
      if c.mem.armed then (c, Writing(op, ClearRestored, hit)) else (c, Idle)
    case ClearRestored =>
      (WithRestored(c, false), Writing(op, OweRestore, hit))
    case OweRestore =>
      (c.(mem := c.mem.(restored := false)), Writing(op, WriteRecord, hit))
    case WriteRecord =>
      if ch.ok then (PublishState(c), Writing(op, KeepPublished, hit)) else (c, Idle)
    case KeepPublished =>
      (c.(mem := c.mem.(published := true)), Writing(op, WriteDevice, hit))
    case WriteDevice =>
      (if ch.ok then DeviceWritten(c, op, hit) else c, Idle)
  }

  function DeviceWritten(c: Core, op: Op, hit: bool): Core {
    match op
    case Lock(lo, hi) => c.(dev := c.dev.(lock := Some((lo, hi))), hist := c.hist.(unnamed := hit))
    case Cap(mw) => c.(dev := c.dev.(power := mw, capped := true))
  }

  function UserStep(c: Core, u: User, ch: Choice, cfg: Config): (Core, User)
  {
    match u
    case Idle => (c, Idle)
    case Calling(op) => (c, if cfg.consent && ClockAllowed(op, cfg.floor) then AutoArming(op) else Idle)
    case AutoArming(op) => (c, if c.mem.armed then Writing(op, CheckCaller, false) else Arming(CheckArmed, Some(op)))
    case Arming(pc, next) => ArmStep(c, pc, next, ch, cfg)
    case Writing(op, pc, hit) => WriteStep(c, op, pc, hit, ch, cfg)
    case Restoring(f) =>
      if f.pc == Done then (c, Idle) else var (c', f') := RestoreStep(c, f, ch.ok); (c', Restoring(f'))
  }

  /** The application's call is inside a signal-blocked section, past its first action. */
  predicate UserBlocked(u: User) {
    match u
    case Arming(pc, _) => pc in {SetPublished, SetArmed}
    case Writing(_, pc, _) => pc in {ClearRestored, OweRestore, WriteRecord, KeepPublished, WriteDevice}
    case Restoring(f) => RestoreBlocked(f.pc)
    case _ => false
  }

  /** A lock call has noted its intent and has not yet re-checked its claim. */
  predicate LockNoted(u: User) {
    u.Writing? && u.op.Lock? && u.wpc in {NoteMin, NoteMax, CheckClaim}
  }

  // ----- recovery -----

  datatype RecoverPc = Load | ResetClocks | Plan | WriteLimit | CheckHolder | Reread | ClearRecord | Finished

  /** `here` says whether the controller opened our card or another one; `uuid` and `index` are what
      that controller reports; `holderAlive` says whether the record's pid names a live process. */
  datatype Recovery = Recovery(
    here: bool, uuid: Option<string>, index: Option<int>,
    force: bool, quarantine: bool, holderAlive: bool,
    pc: RecoverPc, prior: Option<Record>, err: bool, target: Option<int>)

  predicate OwesPower(prior: Option<Record>) {
    prior.Some? && prior.value.powerWritten.Some? && !prior.value.restored
  }

  function Cleared(r: Record): Record {
    r.(restored := true, clocksLocked := false, restoreFailed := false)
  }

  function RecoverStep(c: Core, v: Recovery, ok: bool): (Core, Recovery)
  {
    match v.pc
    case Load =>
      (match c.disk
       case Absent => (c, v.(pc := ResetClocks, prior := None))
       case Unreadable =>
         if v.quarantine && ok then (c.(disk := Absent), v.(pc := ResetClocks, prior := None))
         else (c, v.(pc := ResetClocks, prior := None, err := true))
       case Holds(r) =>
         if DeviceMismatch(r.uuid, Some(r.index), v.uuid, v.index) == Match
         then (c, v.(pc := ResetClocks, prior := Some(r)))
         else (c, v.(pc := ResetClocks, prior := None, err := true)))
    case ResetClocks =>
      if !ok then (c, v.(pc := Plan, err := true))
      else (if v.here then c.(dev := c.dev.(lock := None)) else c, v.(pc := Plan))
    case Plan =>
      var recorded := if OwesPower(v.prior) then RestoreTarget(v.prior.value.snapshot) else None;
      if recorded.Some? then (c, v.(pc := WriteLimit, target := recorded))
      else if v.force && ok then (c, v.(pc := WriteLimit, target := Some(c.card.factory)))
      else (c, v.(pc := CheckHolder, err := v.err || v.force || OwesPower(v.prior)))
    case WriteLimit =>
      if ok && v.target.Some? then
        var fallback := !(OwesPower(v.prior) && v.prior.value.snapshot.limit.Some?);
        (if v.here then LimitRestored(c, v.target.value, fallback) else c,
         v.(pc := CheckHolder))
      else (c, v.(pc := CheckHolder, err := true))
    case CheckHolder =>
      (c, v.(pc := if v.prior.None? || v.holderAlive then Finished else Reread))
    case Reread =>
      var stale := v.prior.None? || c.disk != Holds(v.prior.value);
      (c, v.(pc := if stale || v.err then Finished else ClearRecord))
    case ClearRecord =>
      if ok && v.prior.Some? then (c.(disk := Holds(Cleared(v.prior.value))), v.(pc := Finished))
      else (c, v.(pc := Finished, err := true))
    case Finished => (c, v)
  }

  // ----- the world -----

  /** `handlers` is the stack of restores that signals have pushed on top of the user's call. */
  datatype Process =
    | Nobody
    | Guarding(cfg: Config, user: User, handlers: seq<RestoreFrame>)
    | Recovering(v: Recovery)

  datatype World = World(core: Core, proc: Process)

  datatype Event =
    | StartGuard(cfg: Config)
    | CallArm
    | CallWrite(op: Op)
    | CallRestore
    | UserAction(ch: Choice)
    | Signal
    | HandlerAction(ok: bool)
    | HandlerReturns
    | HandlerUnwinds
    | Kill
    | Operator(mw: int)
    | StartRecovery(here: bool, uuid: Option<string>, index: Option<int>, force: bool, quarantine: bool,
        holderAlive: bool)
    | RecoveryAction(ok: bool)

  function Top(hs: seq<RestoreFrame>): RestoreFrame
    requires hs != []
  {
    hs[|hs| - 1]
  }

  /** Signals are delivered only where the running frame has not blocked them. */
  predicate Unblocked(p: Process)
    requires p.Guarding?
  {
    if p.handlers != [] then !RestoreBlocked(Top(p.handlers).pc) else !UserBlocked(p.user)
  }

  predicate Quiet(p: Process) {
    p.Nobody? || (p.Guarding? && p.user.Idle? && p.handlers == [])
  }

  /** Places of a restore that found hardware debt and has not yet put it back. */
  predicate Paying(pc: RestorePc) {
    pc in {Reset, Target, PowerWrite, Decide, FailMark, FailNote, FailWrite}
  }

  /** The restore is still going to write the captured limit, or to put the record that owes it back
      on disk. */
  predicate StillOwes(f: RestoreFrame) {
    Paying(f.pc) && (f.pc == Decide ==> f.err)
  }

  predicate OwesLimit(m: Memory) {
    m.state.Some? && m.state.value.powerWritten.Some?
  }

  /** A limit has been read that is still going to be relied on: by an arm between its snapshot and
      its publish, or by a restore that owes a limit. */
  predicate StockInUse(w: World) {
    && w.proc.Guarding?
    && w.core.mem.snapshot.Some? && w.core.mem.snapshot.value.limit.Some?
    && ( || (w.proc.user.Arming? && w.proc.user.apc in {BuildState, Publish})
         || (OwesLimit(w.core.mem) && w.proc.user.Restoring? && StillOwes(w.proc.user.frame))
         || (OwesLimit(w.core.mem) && exists i :: 0 <= i < |w.proc.handlers| && StillOwes(w.proc.handlers[i])))
  }

  /** What is assumed of a recovery's controller: it reports our card's UUID only for our card, and
      over a record that carries no UUID another card does not sit at the recorded index. */
  predicate HonestController(w: World, here: bool, uuid: Option<string>, index: Option<int>) {
    && (here ==> Honest(uuid, w.core.card.uuid))
    && (!here ==>
          && uuid != Some(w.core.card.uuid)
          && (Owed(w.core.disk) && !Readable(w.core.disk.rec.uuid) ==>
              index.Some? && index.value != w.core.disk.rec.index))
  }

  predicate Enabled(w: World, e: Event) {
    match e
    case StartGuard(cfg) => w.proc.Nobody? && MIN_SM_CLOCK_MHZ <= cfg.floor
    case CallArm => w.proc.Guarding? && Quiet(w.proc)
    case CallWrite(_) => w.proc.Guarding? && Quiet(w.proc)
    case CallRestore => w.proc.Guarding? && Quiet(w.proc)
    case UserAction(_) => w.proc.Guarding? && w.proc.handlers == []
    case Signal => w.proc.Guarding? && Unblocked(w.proc)
    case HandlerAction(_) => w.proc.Guarding? && w.proc.handlers != []
    case HandlerReturns => w.proc.Guarding? && w.proc.handlers != [] && Top(w.proc.handlers).pc == Done
    case HandlerUnwinds => w.proc.Guarding? && w.proc.handlers != [] && Top(w.proc.handlers).pc == Done
    case Kill => true
    case Operator(_) => !Owed(w.core.disk) && !StockInUse(w)
    case StartRecovery(here, uuid, index, _, _, _) => w.proc.Nobody? && HonestController(w, here, uuid, index)
    case RecoveryAction(_) => w.proc.Recovering?
  }

  /** A signal's restore that puts the hardware back but cannot write the settled record spoils the
      lock call it interrupted: that call's note is gone, yet the guard is still armed. */
  function AfterHandler(u: User, f: RestoreFrame): User {
    if f.pc == SettleRollback && LockNoted(u) then u.(hit := true) else u
  }

  /** The operator sets a limit: it is in force, and it is stock from now on. */
  function Chosen(c: Core, mw: int): Core {
    c.(dev := c.dev.(power := mw, capped := false), hist := c.hist.(stock := mw, defaulted := false))
  }

  function Step(w: World, e: Event): World
    requires Enabled(w, e)
  {
    match e
    case StartGuard(cfg) => World(w.core.(mem := FRESH), Guarding(cfg, Idle, []))
    case CallArm => w.(proc := w.proc.(user := Arming(CheckArmed, None)))
    case CallWrite(op) => w.(proc := w.proc.(user := Calling(op)))
    case CallRestore => w.(proc := w.proc.(user := Restoring(NEW_RESTORE)))
    case UserAction(ch) =>
      var (c, u) := UserStep(w.core, w.proc.user, ch, w.proc.cfg);
      World(c, w.proc.(user := u))
    case Signal => w.(proc := w.proc.(handlers := w.proc.handlers + [NEW_RESTORE]))
    case HandlerAction(ok) =>
      var hs := w.proc.handlers;
      var (c, f) := RestoreStep(w.core, Top(hs), ok);
      World(c, w.proc.(user := AfterHandler(w.proc.user, Top(hs)), handlers := hs[..|hs| - 1] + [f]))
    case HandlerReturns => w.(proc := w.proc.(handlers := w.proc.handlers[..|w.proc.handlers| - 1]))
    case HandlerUnwinds => w.(proc := w.proc.(user := Idle, handlers := []))
    case Kill => World(w.core.(mem := FRESH), Nobody)
    case Operator(mw) =>
      w.(core := Chosen(w.core, mw))
    case StartRecovery(here, uuid, index, force, quarantine, holderAlive) =>
      w.(proc := Recovering(Recovery(here, uuid, index, force, quarantine, holderAlive, Load, None, false, None)))
    case RecoveryAction(ok) =>
      var (c, v) := RecoverStep(w.core, w.proc.v, ok);
      World(c, if v.pc == Finished then Nobody else Recovering(v))
  }

  /** Before any guard has run: a stock device, and no unrestored record. */
  predicate Init(w: World) {
    && w.proc.Nobody?
    && w.core.mem == FRESH
    && w.core.dev == Device(None, w.core.hist.stock, false)
    && !Owed(w.core.disk)
    && !w.core.hist.defaulted
    && !w.core.hist.unnamed
    && w.core.card.uuid != ""
  }

  /** A run: the first world is initial and every next one is a step of the one before. */
  ghost predicate IsRun(ws: seq<World>, es: seq<Event>) {
    && |ws| == |es| + 1
    && Init(ws[0])
    && forall i :: 0 <= i < |es| ==> Enabled(ws[i], es[i]) && ws[i + 1] == Step(ws[i], es[i])
  }

  ghost predicate Reachable(w: World) {
    exists ws, es :: IsRun(ws, es) && ws[|ws| - 1] == w
  }
}
