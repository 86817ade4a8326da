/** What the guard promises over every run, and where the code falls short of it. */
module GuardTheorems {
  import opened GuardTypes
  import opened DeviceIdentity
  import opened GuardProtocol
  import opened GuardInvariant

  // ----- evidence and claims -----

  /** Kill the process anywhere, fail any write, interrupt anywhere unblocked: a device that still
      carries a guard's lock or cap is named by a readable, unrestored record on disk; and over a
      settled file the card is unlocked, at a limit that no guard chose. */
  lemma EvidenceOutlivesEveryRun(w: World)
    requires Reachable(w)
    ensures w.core.dev.lock.Some? || w.core.dev.capped ==> w.core.disk.Holds? && !w.core.disk.rec.restored
    ensures w.core.dev.capped ==> w.core.disk.rec.powerWritten.Some?
    ensures w.core.dev.lock.Some? && !w.core.hist.unnamed ==> w.core.disk.rec.clocksLocked
    ensures !Owed(w.core.disk) ==> Unmodified(w.core.dev) && Rightful(w.core, w.core.dev.power)
  {
    ReachableOk(w);
  }

  /** The exact case in which the record does not name the lock: a signal's restore put the hardware
      back after the call had noted its intent, and could not write the settled record. */
  lemma LockNamedIff(w: World)
    requires Reachable(w) && w.proc.Guarding?
    requires w.proc.user.Writing? && w.proc.user.op.Lock? && w.proc.user.wpc == WriteDevice
    ensures Owed(w.core.disk)
    ensures w.core.disk.rec.clocksLocked <==> !w.proc.user.hit
  {
    ReachableOk(w);
  }

  /** The one event that can make a record not name its lock: a signal's restore, on top of a lock
      call that has noted its intent, cannot write the settled record. */
  predicate Spoils(w: World, e: Event) {
    && e == HandlerAction(false)
    && w.proc.Guarding? && w.proc.handlers != [] && Top(w.proc.handlers).pc == SettleWrite
    && LockNoted(w.proc.user)
  }

  predicate Unspoiled(w: World) {
    && !w.core.hist.unnamed
    && (w.proc.Guarding? ==>
          && (w.proc.user.Writing? ==> !w.proc.user.hit)
          && (LockNoted(w.proc.user) && w.proc.handlers != [] ==> Top(w.proc.handlers).pc != SettleRollback))
  }

  lemma StepStaysUnspoiled(w: World, e: Event)
    requires Inv(w) && Unspoiled(w) && Enabled(w, e) && !Spoils(w, e)
    ensures Unspoiled(Step(w, e))
  {
    match e
    case HandlerAction(ok) =>
      var hs := w.proc.handlers;
      assert Step(w, e).proc.handlers == hs[..|hs| - 1] + [RestoreStep(w.core, Top(hs), ok).1];
      HandlerKeepsNames(w.core, Top(hs), ok);
    case HandlerReturns =>
      var hs := w.proc.handlers[..|w.proc.handlers| - 1];
      assert hs != [] ==> Top(hs) == w.proc.handlers[|hs| - 1] && !RestoreBlocked(Top(hs).pc);
    case UserAction(ch) =>
      CallIssuesWhat(w.core, w.proc.user, ch, w.proc.cfg);
    case _ =>
  }

  lemma HandlerKeepsNames(c: Core, f: RestoreFrame, ok: bool)
    ensures var (d, g) := RestoreStep(c, f, ok);
            d.hist.unnamed == c.hist.unnamed && (g.pc == SettleRollback ==> f.pc == SettleWrite && !ok)
  {
  }

  lemma CallIssuesWhat(c: Core, u: User, ch: Choice, cfg: Config)
    ensures var (d, v) := UserStep(c, u, ch, cfg);
            && (d.hist.unnamed ==> c.hist.unnamed || (u.Writing? && u.hit))
            && (v.Writing? && v.hit ==> u.Writing? && u.hit)
  {
  }

  /** In a run without that event every lock on the device is named by its record, always. */
  lemma {:induction false} LockNamedUnlessSpoiled(ws: seq<World>, es: seq<Event>, i: nat)
    requires IsRun(ws, es) && i < |ws|
    requires forall k :: 0 <= k < i ==> !Spoils(ws[k], es[k])
    ensures Unspoiled(ws[i])
    ensures ws[i].core.dev.lock.Some? ==> Owed(ws[i].core.disk) && ws[i].core.disk.rec.clocksLocked
  {
    RunKeeps(ws, es, i);
    if i > 0 {
      LockNamedUnlessSpoiled(ws, es, i - 1);
      RunKeeps(ws, es, i - 1);
      StepStaysUnspoiled(ws[i - 1], es[i - 1]);
    }
  }

  /** Wherever a signal, another call or a recovery could look, an armed guard's own unrestored
      record is the one on disk, whatever restores are stacked on the interrupted call. */
  lemma ArmedMeansOwnClaimOnDisk(w: World)
    requires Reachable(w) && w.proc.Guarding? && Unblocked(w.proc)
    requires w.core.mem.armed
    ensures w.core.mem.published && w.core.mem.state.Some?
    ensures w.core.disk.Holds? && !w.core.disk.rec.restored
    ensures w.core.disk.rec.stamp == w.core.mem.state.value.stamp
    ensures w.core.disk.rec.pid == w.core.mem.state.value.pid == w.proc.cfg.pid
    ensures w.core.disk.rec.index == w.core.card.index
  {
    ReachableOk(w);
  }

  /** A step issues a guard write: it is the device write of a lock or cap call, whether or not the
      device accepts it and whatever was in force before. */
  predicate IssuesWrite(w: World, e: Event) {
    e.UserAction? && w.proc.Guarding? && w.proc.user.Writing? && w.proc.user.wpc == WriteDevice
  }

  /** A step leaves a new lock or a new cap on the device. */
  predicate Modifies(d: Device, d': Device) {
    (d'.lock.Some? && d'.lock != d.lock) || (d'.capped && d' != d.(lock := d'.lock))
  }

  lemma RecoveryModifiesNothing(c: Core, v: Recovery, ok: bool)
    ensures !Modifies(c.dev, RecoverStep(c, v, ok).0.dev)
  {
  }

  lemma RestoreModifiesNothing(c: Core, f: RestoreFrame, ok: bool)
    ensures !Modifies(c.dev, RestoreStep(c, f, ok).0.dev)
  {
  }

  lemma CallModifiesLast(c: Core, u: User, ch: Choice, cfg: Config)
    requires Modifies(c.dev, UserStep(c, u, ch, cfg).0.dev)
    ensures u.Writing? && u.wpc == WriteDevice
  {
    if u.Restoring? {
      RestoreModifiesNothing(c, u.frame, ch.ok);
    }
  }

  /** Only a call's own device write modifies the device: no signal handler, no recovery and no other
      action of a call does. */
  lemma OnlyWritesModify(w: World, e: Event)
    requires Reachable(w) && Enabled(w, e)
    requires Modifies(w.core.dev, Step(w, e).core.dev)
    ensures IssuesWrite(w, e)
  {
    match e
    case UserAction(ch) => CallModifiesLast(w.core, w.proc.user, ch, w.proc.cfg);
    case HandlerAction(ok) => RestoreModifiesNothing(w.core, Top(w.proc.handlers), ok);
    case RecoveryAction(ok) => RecoveryModifiesNothing(w.core, w.proc.v, ok);
    case _ =>
  }

  /** Write-ahead: every lock or cap write that is issued, repeats included, is issued by an armed
      guard whose own unrestored record is already on disk and carries the values being written. Its
      caller has consented and is privileged; a lock is in order and never below the guard's own
      floor, nor that below the module's; and a cap is within the card's bounds where they were read. */
  lemma NothingIsWrittenWhileDisarmed(w: World, e: Event)
    requires Reachable(w) && Enabled(w, e)
    requires IssuesWrite(w, e) || Modifies(w.core.dev, Step(w, e).core.dev)
    ensures IssuesWrite(w, e) && w.core.mem.armed && w.core.mem.state.Some?
    ensures w.core.disk == Holds(w.core.mem.state.value) && Owed(w.core.disk)
    ensures w.proc.cfg.consent && w.proc.cfg.privileged && w.core.mem.snapshot.Some?
    ensures match w.proc.user.op
            case Cap(mw) =>
              && w.core.disk.rec.powerWritten == Some(mw)
              && (w.core.mem.snapshot.value.minLimit.Some? ==>
                    w.core.card.minLimit.Some? && w.core.card.minLimit.value <= mw)
              && (w.core.mem.snapshot.value.maxLimit.Some? ==>
                    w.core.card.maxLimit.Some? && mw <= w.core.card.maxLimit.value)
            case Lock(lo, hi) =>
              && w.core.disk.rec.lockedMin == Some(lo) && w.core.disk.rec.lockedMax == Some(hi)
              && MIN_SM_CLOCK_MHZ <= w.proc.cfg.floor <= lo <= hi
  {
    if Modifies(w.core.dev, Step(w, e).core.dev) {
      OnlyWritesModify(w, e);
    }
    ReachableOk(w);
  }

  lemma RecoveryDefaults(c: Core, v: Recovery, ok: bool)
    requires !c.hist.defaulted && RecoverStep(c, v, ok).0.hist.defaulted
    ensures v.pc == WriteLimit && v.here && v.target.Some?
    ensures !(OwesPower(v.prior) && v.prior.value.snapshot.limit.Some?)
    ensures RecoverStep(c, v, ok).0.dev.power == v.target.value
  {
  }

  lemma RestoreDefaults(c: Core, f: RestoreFrame, ok: bool)
    requires !c.hist.defaulted && RestoreStep(c, f, ok).0.hist.defaulted
    ensures f.pc == PowerWrite && f.target.Some?
    ensures c.mem.snapshot.None? || c.mem.snapshot.value.limit.None?
    ensures RestoreStep(c, f, ok).0.dev.power == f.target.value
  {
  }

  lemma CallDefaults(c: Core, u: User, ch: Choice, cfg: Config)
    requires !c.hist.defaulted && UserStep(c, u, ch, cfg).0.hist.defaulted
    ensures u.Restoring? && UserStep(c, u, ch, cfg).0 == RestoreStep(c, u.frame, ch.ok).0
  {
  }

  /** The default takes the place of the operator's limit only where a restore or a recovery owes a
      limit that could not be read at arm time, or a recovery is forced; and the operator's next
      choice ends it. */
  lemma DefaultedOnlyBy(w: World, e: Event)
    requires Reachable(w) && Enabled(w, e)
    requires !w.core.hist.defaulted && Step(w, e).core.hist.defaulted
    ensures w.proc.Recovering? ==>
              && w.proc.v.pc == WriteLimit
              && (w.proc.v.force || (OwesPower(w.proc.v.prior) && w.proc.v.prior.value.snapshot.limit.None?))
    ensures w.proc.Guarding? ==>
              && w.core.mem.snapshot.Some? && w.core.mem.snapshot.value.limit.None?
              && OwesLimit(w.core.mem)
    ensures !w.proc.Nobody? && Step(w, e).core.dev.power == w.core.card.factory
  {
    ReachableOk(w);
    match e
    case UserAction(ch) =>
      CallDefaults(w.core, w.proc.user, ch, w.proc.cfg);
      RestoreDefaults(w.core, w.proc.user.frame, ch.ok);
    case HandlerAction(ok) =>
      assert Top(w.proc.handlers) in w.proc.handlers;
      RestoreDefaults(w.core, Top(w.proc.handlers), ok);
    case RecoveryAction(ok) => RecoveryDefaults(w.core, w.proc.v, ok);
    case _ =>
  }

  /** Arming captured the operator's own limit, never another guard's cap, and this card's identity;
      and that stays true for as long as the claim is on disk. */
  lemma SnapshotIsStock(w: World)
    requires Reachable(w) && w.proc.Guarding? && w.core.mem.armed && Owed(w.core.disk)
    ensures w.core.mem.snapshot.Some?
    ensures var s := w.core.mem.snapshot.value;
            && (s.limit.Some? ==> Rightful(w.core, s.limit.value))
            && (s.uuid.Some? ==> s.uuid.value == w.core.card.uuid)
  {
    ReachableOk(w);
  }

  /** A restore that finished without error, in the application or in a signal handler, left the
      device this guard claimed unlocked and at the operator's own limit. */
  lemma CompletedRestoreMeansStock(w: World, f: RestoreFrame)
    requires Reachable(w) && w.proc.Guarding?
    requires f in w.proc.handlers || w.proc.user == Restoring(f)
    requires f.pc == Done && !f.err && w.core.mem.published
    ensures w.core.dev.lock == None && !w.core.dev.capped
    ensures Rightful(w.core, w.core.dev.power)
  {
    ReachableOk(w);
    if f in w.proc.handlers {
      var i :| 0 <= i < |w.proc.handlers| && w.proc.handlers[i] == f;
    }
  }

  // ----- recovery -----

  function Remaining(pc: RecoverPc): nat {
    match pc
    case Load => 7
    case ResetClocks => 6
    case Plan => 5
    case WriteLimit => 4
    case CheckHolder => 3
    case Reread => 2
    case ClearRecord => 1
    case Finished => 0
  }

  lemma RecoveryAdvances(c: Core, v: Recovery, ok: bool)
    requires v.pc != Finished
    ensures Remaining(RecoverStep(c, v, ok).1.pc) < Remaining(v.pc)
  {
    match v.pc
    case Load => assert RecoverStep(c, v, ok).1.pc == ResetClocks;
    case _ =>
  }

  /** A recovery run to its end with no failing device or record write. */
  function RecoverToEnd(c: Core, v: Recovery): (r: (Core, Recovery))
    ensures r.1.pc == Finished
    decreases Remaining(v.pc)
  {
    if v.pc == Finished then (c, v) else
    RecoveryAdvances(c, v, true);
    RecoverToEnd(RecoverStep(c, v, true).0, RecoverStep(c, v, true).1)
  }

  /** A recovery that goes as far as `oks` says, each step succeeding or failing as it says. */
  function RecoverSome(c: Core, v: Recovery, oks: seq<bool>): (Core, Recovery)
    decreases |oks|
  {
    if oks == [] then (c, v) else
    var (d, w) := RecoverStep(c, v, oks[0]);
    RecoverSome(d, w, oks[1..])
  }

  function NewRecovery(here: bool, uuid: Option<string>, index: Option<int>, force: bool, alive: bool): Recovery {
    Recovery(here, uuid, index, force, false, alive, Load, None, false, None)
  }

  predicate IsFor(r: Record, uuid: Option<string>, index: Option<int>) {
    DeviceMismatch(r.uuid, Some(r.index), uuid, index) == Match
  }

  /** From the start to the point where the limit is decided. */
  lemma RecoveryPlans(c: Core, r: Record, uuid: Option<string>, index: Option<int>, force: bool) returns (v: Recovery)
    requires c.disk == Holds(r) && IsFor(r, uuid, index)
    ensures v == NewRecovery(true, uuid, index, force, false).(pc := Plan, prior := Some(r))
    ensures RecoverToEnd(c, NewRecovery(true, uuid, index, force, false))
            == RecoverToEnd(c.(dev := c.dev.(lock := None)), v)
  {
    var v0 := NewRecovery(true, uuid, index, force, false);
    var v1 := v0.(pc := ResetClocks, prior := Some(r));
    v := v1.(pc := Plan);
    assert RecoverToEnd(c, v0) == RecoverToEnd(c, v1);
  }

  /** From the limit on: the record is settled unless something failed. */
  lemma RecoveryClears(c: Core, v: Recovery, r: Record)
    requires v.pc == CheckHolder && v.prior == Some(r) && c.disk == Holds(r) && !v.holderAlive
    ensures RecoverToEnd(c, v).0 == if v.err then c else c.(disk := Holds(Cleared(r)))
  {
    var v1 := v.(pc := Reread);
    assert RecoverToEnd(c, v) == RecoverToEnd(c, v1);
    var (c2, v2) := RecoverStep(c, v1, true);
    assert RecoverToEnd(c, v1) == RecoverToEnd(c2, v2);
    if !v.err {
      var (c3, v3) := RecoverStep(c2, v2, true);
      assert RecoverToEnd(c2, v2) == RecoverToEnd(c3, v3) == (c3, v3);
    }
  }

  lemma RecoveryEnds(c: Core, r: Record, uuid: Option<string>, index: Option<int>)
    requires c.disk == Holds(r) && !r.restored && IsFor(r, uuid, index)
    ensures var (d, _) := RecoverToEnd(c, NewRecovery(true, uuid, index, false, false));
            && d.card == c.card && d.hist.stock == c.hist.stock
            && d.dev.lock == None
            && (r.powerWritten.None? ==>
                  d.disk == Holds(Cleared(r)) && d.dev == c.dev.(lock := None) && d.hist == c.hist)
            && (r.powerWritten.Some? && TargetKnown(r) ==>
                  && d.disk == Holds(Cleared(r))
                  && d.dev == Device(None, RestoreTarget(r.snapshot).value, false)
                  && d.hist == c.hist.(defaulted := c.hist.defaulted || r.snapshot.limit.None?))
            && (!TargetKnown(r) ==> d.disk == c.disk && d.dev == c.dev.(lock := None))
  {
    var v2 := RecoveryPlans(c, r, uuid, index, false);
    var c2 := c.(dev := c.dev.(lock := None));
    var (c3, v3) := RecoverStep(c2, v2, true);
    if v3.pc == WriteLimit {
      var (c4, v4) := RecoverStep(c3, v3, true);
      assert RecoverToEnd(c2, v2) == RecoverToEnd(c3, v3) == RecoverToEnd(c4, v4);
      RecoveryClears(c4, v4, r);
    } else {
      assert RecoverToEnd(c2, v2) == RecoverToEnd(c3, v3);
      RecoveryClears(c3, v3, r);
    }
  }

  /** From any crash, one recovery on the record's card with nothing failing puts the device back to
      stock and settles the record, exactly when a limit to write back is known if one is owed; and
      otherwise it keeps the record. */
  lemma RecoveryConverges(w: World, uuid: Option<string>, index: Option<int>)
    requires Reachable(w) && w.proc.Nobody? && Owed(w.core.disk)
    requires Honest(uuid, w.core.card.uuid) && IsFor(w.core.disk.rec, uuid, index)
    ensures var (d, _) := RecoverToEnd(w.core, NewRecovery(true, uuid, index, false, false));
            var r := w.core.disk.rec;
            && d.dev.lock == None
            && (d.disk == Holds(r.(restored := true, clocksLocked := false, restoreFailed := false)) <==>
                  TargetKnown(r))
            && (TargetKnown(r) ==> !d.dev.capped)
            && (r.powerWritten.Some? && r.snapshot.limit.Some? ==>
                d.dev.power == r.snapshot.limit.value && d.hist == w.core.hist)
            && (TargetKnown(r) ==> Rightful(d, d.dev.power))
            && (!TargetKnown(r) ==> d.disk == w.core.disk && d.dev.power == w.core.dev.power)
  {
    ReachableOk(w);
    RecoveryEnds(w.core, w.core.disk.rec, uuid, index);
  }

  /** The way out when no limit to write back is known: a recovery forced to the default, with nothing
      failing, always unlocks and uncaps the card and settles the record. */
  lemma ForcedRecoverySettles(w: World, uuid: Option<string>, index: Option<int>)
    requires Reachable(w) && w.proc.Nobody? && Owed(w.core.disk)
    requires Honest(uuid, w.core.card.uuid) && IsFor(w.core.disk.rec, uuid, index)
    ensures var (d, _) := RecoverToEnd(w.core, NewRecovery(true, uuid, index, true, false));
            && Unmodified(d.dev) && Rightful(d, d.dev.power)
            && d.disk == Holds(Cleared(w.core.disk.rec))
            && (w.core.disk.rec.powerWritten.Some? && w.core.disk.rec.snapshot.limit.Some? ==>
                  d.dev.power == w.core.disk.rec.snapshot.limit.value)
            && (w.core.disk.rec.powerWritten.None? || RestoreTarget(w.core.disk.rec.snapshot).None? ==>
                  d.dev.power == w.core.card.factory)
  {
    ReachableOk(w);
    var c, r := w.core, w.core.disk.rec;
    var v2 := RecoveryPlans(c, r, uuid, index, true);
    var c2 := c.(dev := c.dev.(lock := None));
    var (c3, v3) := RecoverStep(c2, v2, true);
    assert v3.pc == WriteLimit && !v3.err && c3 == c2;
    var (c4, v4) := RecoverStep(c3, v3, true);
    assert RecoverToEnd(c2, v2) == RecoverToEnd(c3, v3) == RecoverToEnd(c4, v4);
    RecoveryClears(c4, v4, r);
  }

  /** Over a settled record or none, however its steps fail, a recovery that was not told to force
      the default never touches the power limit and never makes the record unrestored. */
  lemma {:induction false} SettledRecoveryKeepsLimit(c: Core, v: Recovery, oks: seq<bool>)
    requires !Owed(c.disk) && !v.force
    requires v.pc != WriteLimit && (v.prior.Some? ==> v.prior.value.restored)
    ensures var (d, _) := RecoverSome(c, v, oks);
            d.dev.power == c.dev.power && d.dev.capped == c.dev.capped && d.hist == c.hist && !Owed(d.disk)
    decreases |oks|
  {
    if oks != [] {
      var (d, w) := RecoverStep(c, v, oks[0]);
      SettledRecoveryKeepsLimit(d, w, oks[1..]);
    }
  }

  /** While a live process owns the record a recovery, whatever else it does and however its steps
      fail, leaves the record as it is. */
  lemma {:induction false} LiveHolderKeepsRecord(c: Core, v: Recovery, oks: seq<bool>)
    requires v.holderAlive && v.pc !in {Reread, ClearRecord} && c.disk.Holds?
    ensures RecoverSome(c, v, oks).0.disk == c.disk
    decreases |oks|
  {
    if oks != [] {
      var (d, w) := RecoverStep(c, v, oks[0]);
      LiveHolderKeepsRecord(d, w, oks[1..]);
    }
  }

  /** A record that changed after it was read is left as it is. */
  lemma {:induction false} ChangedRecordStays(c: Core, v: Recovery, oks: seq<bool>)
    requires v.pc !in {Load, ClearRecord} && (v.prior.Some? ==> c.disk != Holds(v.prior.value))
    ensures RecoverSome(c, v, oks).0.disk == c.disk
    decreases |oks|
  {
    if oks != [] {
      var (d, w) := RecoverStep(c, v, oks[0]);
      ChangedRecordStays(d, w, oks[1..]);
    }
  }

  /** A file that cannot be read is moved aside only on request. */
  lemma {:induction false} UnreadableStays(c: Core, v: Recovery, oks: seq<bool>)
    requires !v.quarantine && c.disk.Unreadable? && v.prior.None?
    ensures var (d, w) := RecoverSome(c, v, oks); d.disk.Unreadable? && w.prior.None?
    decreases |oks|
  {
    if oks != [] {
      var (d, w) := RecoverStep(c, v, oks[0]);
      UnreadableStays(d, w, oks[1..]);
    }
  }

  /** Recover a crash, let the operator choose a new limit, recover again: the new limit stands. */
  lemma SecondRecoveryRespectsOperator(
    w: World, uuid: Option<string>, index: Option<int>, mw: int, uuid': Option<string>, index': Option<int>,
        alive: bool, oks: seq<bool>)
    requires Reachable(w) && w.proc.Nobody? && Owed(w.core.disk) && TargetKnown(w.core.disk.rec)
    requires Honest(uuid, w.core.card.uuid) && IsFor(w.core.disk.rec, uuid, index)
    ensures var (d, _) := RecoverToEnd(w.core, NewRecovery(true, uuid, index, false, false));
            Enabled(World(d, Nobody), Operator(mw))
    ensures var (d, _) := RecoverToEnd(w.core, NewRecovery(true, uuid, index, false, false));
            var chosen := Step(World(d, Nobody), Operator(mw)).core;
            var (e, _) := RecoverSome(chosen, NewRecovery(true, uuid', index', false, alive), oks);
            e.dev.power == mw && !Owed(e.disk)
  {
    RecoveryConverges(w, uuid, index);
    var (d, _) := RecoverToEnd(w.core, NewRecovery(true, uuid, index, false, false));
    var chosen := Step(World(d, Nobody), Operator(mw)).core;
    SettledRecoveryKeepsLimit(chosen, NewRecovery(true, uuid', index', false, alive), oks);
  }

  /** A recovery on any card that the record is not for keeps the record as it is and never writes
      the record's limit; unforced, it writes no limit at all. */
  lemma {:induction false} MismatchKeepsRecord(c: Core, v: Recovery, oks: seq<bool>)
    requires c.disk.Holds? && !IsFor(c.disk.rec, v.uuid, v.index) && v.prior.None?
    requires v.pc == WriteLimit ==> v.force && v.target == Some(c.card.factory)
    ensures var (d, v') := RecoverSome(c, v, oks);
            && d.disk == c.disk
            && v'.prior.None?
            && (d.dev.power == c.dev.power || (v.force && v.here && d.dev.power == c.card.factory))
            && (!v.here ==> d.dev == c.dev)
    decreases |oks|
  {
    if oks != [] {
      var (d, w) := RecoverStep(c, v, oks[0]);
      MismatchKeepsRecord(d, w, oks[1..]);
    }
  }

  /** Why recovery must be able to tell cards apart: a record without a readable UUID is settled by
      a recovery on another card at the recorded index, while its own card is still modified. */
  lemma UnidentifiedRecordIsLostToAnotherCard(c: Core)
    requires Owed(c.disk) && !Readable(c.disk.rec.uuid) && TargetKnown(c.disk.rec)
    ensures var (d, _) := RecoverToEnd(c, NewRecovery(false, None, Some(c.disk.rec.index), false, false));
            !Owed(d.disk) && d.dev == c.dev
  {
    var r := c.disk.rec;
    var v0 := NewRecovery(false, None, Some(r.index), false, false);
    var v1 := v0.(pc := ResetClocks, prior := Some(r));
    var v2 := v1.(pc := Plan);
    assert RecoverToEnd(c, v0) == RecoverToEnd(c, v1) == RecoverToEnd(c, v2);
    var (c3, v3) := RecoverStep(c, v2, true);
    var v4 := v3.(pc := CheckHolder);
    assert RecoverToEnd(c, v3) == RecoverToEnd(c, v4);
    var v5 := v4.(pc := Reread);
    var v6 := v4.(pc := ClearRecord);
    assert RecoverToEnd(c, v4) == RecoverToEnd(c, v5) == RecoverToEnd(c, v6);
    var (c7, v7) := RecoverStep(c, v6, true);
    assert RecoverToEnd(c, v6) == RecoverToEnd(c7, v7) == (c7, v7);
  }
}
