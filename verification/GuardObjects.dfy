/** The guard as the objects the program holds: handles on cards, a state file, and any number
    of guards on it. Each I/O may raise, and every method is proved against the call it makes on the
    state of the small-step machine. */
module GuardObjects {
  import opened GuardTypes
  import opened GuardProtocol
  import opened GuardInvariant
  import opened GuardCalls

  datatype Owner = ByGuard(guard: GpuGuard) | ByRecovery

  class StateFile {
    var content: Disk
    /** The time of day, which tells one arm cycle from another. */
    var clock: nat

    constructor (content: Disk)
      ensures this.content == content && clock == 0
    {
      this.content, this.clock := content, 0;
    }

    /** Replaces the file, or raises and leaves the old one. */
    method Publish(r: Record) returns (ok: bool)
      modifies this`content
      ensures content == if ok then Holds(r) else old(content)
    {
      ok := *;
      if ok {
        content := Holds(r);
      }
    }
  }

  /** One physical card. */
  class Gpu {
    const card: Card
    var locked: Option<(int, int)>
    var power: int
    ghost var capped: bool
    ghost var hist: History
    /** Every write that the device accepted, in order. */
    ghost var log: seq<DeviceWrite>

    constructor (card: Card, power: int)
      ensures this.card == card && Dev() == Device(None, power, false) && hist == History(power, false, false) &&
              log == []
    {
      this.card, this.power, this.locked := card, power, None;
      this.capped, this.hist, this.log := false, History(power, false, false), [];
    }

    ghost function Dev(): Device
      reads this
    {
      Device(locked, power, capped)
    }
  }

  /** A handle on a card. A write is refused unless somebody has claimed the handle. */
  class Controller {
    const gpu: Gpu
    var claimedBy: Option<Owner>

    constructor (gpu: Gpu)
      ensures this.gpu == gpu && claimedBy == None
    {
      this.gpu, this.claimedBy := gpu, None;
    }

    /** Hands the device to one owner, once and for all. */
    method TakeClaim(owner: Owner) returns (ok: bool)
      modifies this
      ensures ok <==> old(claimedBy) == None || old(claimedBy) == Some(owner)
      ensures claimedBy == if ok then Some(owner) else old(claimedBy)
    {
      ok := claimedBy == None || claimedBy == Some(owner);
      if ok {
        claimedBy := Some(owner);
      }
    }

    method TakeSnapshot() returns (s: Snapshot, ghost sees: Reading)
      ensures s == ReadSnapshot(gpu.card, gpu.power, sees)
    {
      var uuid, limit, factory, bounds: bool := *, *, *, *;
      s := Snapshot(
        gpu.card.index,
        if uuid then Some(gpu.card.uuid) else None,
        if limit then Some(gpu.power) else None,
        if factory then Some(gpu.card.factory) else None,
        if bounds then gpu.card.minLimit else None,
        if bounds then gpu.card.maxLimit else None);
      sees := Reading(uuid, limit, factory, bounds);
    }

    method SetLockedClocks(minMhz: int, maxMhz: int) returns (ok: bool)
      modifies gpu`locked, gpu`log
      ensures ok ==> claimedBy.Some?
      ensures gpu.locked == if ok then Some((minMhz, maxMhz)) else old(gpu.locked)
      ensures gpu.log == old(gpu.log) + if ok then [SetLock(minMhz, maxMhz)] else []
    {
      ok := *;
      ok := ok && claimedBy.Some?;
      if ok {
        gpu.locked := Some((minMhz, maxMhz));
        gpu.log := gpu.log + [SetLock(minMhz, maxMhz)];
      }
    }

    method ResetLockedClocks() returns (ok: bool)
      modifies gpu`locked, gpu`log
      ensures ok ==> claimedBy.Some?
      ensures gpu.locked == if ok then None else old(gpu.locked)
      ensures gpu.log == old(gpu.log) + if ok then [Unlock] else []
    {
      ok := *;
      ok := ok && claimedBy.Some?;
      if ok {
        gpu.locked := None;
        gpu.log := gpu.log + [Unlock];
      }
    }

    method SetPowerLimit(mw: int) returns (ok: bool)
      modifies gpu`power, gpu`log
      ensures ok ==> claimedBy.Some?
      ensures gpu.power == if ok then mw else old(gpu.power)
      ensures gpu.log == old(gpu.log) + if ok then [SetLimit(mw)] else []
    {
      ok := *;
      ok := ok && claimedBy.Some?;
      if ok {
        gpu.power := mw;
        gpu.log := gpu.log + [SetLimit(mw)];
      }
    }
  }

  class GpuGuard {
    const c: Controller
    const file: StateFile
    const cfg: Config

    var depth: int
    var armed: bool
    var published: bool
    var restored: bool
    var snapshot: Option<Snapshot>
    var state: Option<Record>

    /** A caller may raise the clock floor, never lower it. */
    static predicate FloorAccepted(floor: int) {
      MIN_SM_CLOCK_MHZ <= floor
    }

    constructor (c: Controller, file: StateFile, cfg: Config)
      requires FloorAccepted(cfg.floor)
      ensures this.c == c && this.file == file && this.cfg == cfg && depth == 0
      ensures View().mem == FRESH
    {
      this.c, this.file, this.cfg, this.depth := c, file, cfg, 0;
      this.armed, this.published, this.restored, this.snapshot, this.state := false, false, true, None, None;
    }

    /** This guard, its card and the state file, as the small-step machine sees them. */
    ghost function View(): Core
      reads this, c.gpu, file
    {
      Core(Memory(armed, published, restored, snapshot, state), c.gpu.Dev(), file.content, c.gpu.hist, file.clock,
          c.gpu.card)
    }

    method Arm() returns (out: Outcome, ghost claim: bool, ghost write: bool, ghost sees: Reading)
      modifies this, c, c.gpu, file
      ensures (View(), out) == ArmCall(old(View()), cfg, claim, write, sees)
      ensures depth == old(depth) && c.gpu.Dev() == old(c.gpu.Dev()) && c.gpu.log == old(c.gpu.log)
    {
      claim, write, sees := true, true, Reading(true, true, true, true);
      if armed {
        return Returned, claim, write, sees;
      }
      if file.content.Unreadable? || (file.content.Holds? && !file.content.rec.restored) {
        return Raised, claim, write, sees;
      }
      published := false;
      var claimed := c.TakeClaim(ByGuard(this));
      claim := claimed;
      if !claimed {
        return Raised, claim, write, sees;
      }
      var s;
      s, sees := c.TakeSnapshot();
      snapshot := Some(s);
      state := Some(NewRecord(cfg.pid, file.clock, s));
      file.clock := file.clock + 1;
      var ok := file.Publish(state.value);
      write := ok;
      if !ok {
        return Raised, claim, write, sees;
      }
      published := true;
      armed := true;
      return Returned, claim, write, sees;
    }

    /** Notes the intent, records it on disk, and only then touches the device. */
    method Write(op: Op) returns (out: Outcome, ghost write: bool, ghost device: bool)
      modifies this, c, c.gpu, file
      ensures (View(), out) == ArmedWriteCall(old(View()), cfg, op, write, device)
      ensures depth == old(depth) && c.gpu.log == old(c.gpu.log) + if out.Returned? then [AsWrite(op)] else []
    {
      write, device := true, true;
      if (snapshot.Some? && !LimitAllowed(op, snapshot.value)) || !cfg.privileged || state.None? {
        return Raised, write, device;
      }
      match op {
        case Lock(lo, hi) =>
          state := Some(state.value.(clocksLocked := true));
          state := Some(state.value.(lockedMin := Some(lo)));
          state := Some(state.value.(lockedMax := Some(hi)));
        case Cap(mw) =>
          state := Some(state.value.(powerWritten := Some(mw)));
      }
      out, write, device := Touch(op);
    }

    /** `_mark_touched`, and the device write it guards. */
    method Touch(op: Op) returns (out: Outcome, ghost write: bool, ghost device: bool)
      requires state.Some?
      modifies this, c, c.gpu, file
      ensures (View(), out) == TouchCall(old(View()), op, write, device)
      ensures depth == old(depth) && c.gpu.log == old(c.gpu.log) + if out.Returned? then [AsWrite(op)] else []
    {
      write, device := true, true;
      if !armed {
        return Raised, write, device;
      }
      state := Some(state.value.(restored := false));
      restored := false;
      var ok := file.Publish(state.value);
      write := ok;
      if !ok {
        return Raised, write, device;
      }
      published := true;
      match op {
        case Lock(lo, hi) =>
          ok := c.SetLockedClocks(lo, hi);
          c.gpu.hist := if ok then c.gpu.hist.(unnamed := false) else c.gpu.hist;
        case Cap(mw) =>
          ok := c.SetPowerLimit(mw);
          c.gpu.capped := c.gpu.capped || ok;
      }
      device := ok;
      return if ok then Returned else Raised, write, device;
    }

    /** `lock_clocks` and `set_power_limit_mw`: arguments first, then arm, then write. */
    method Apply(op: Op)
      returns (out: Outcome, ghost claim: bool, ghost publish: bool, ghost sees: Reading, ghost write: bool,
          ghost device: bool)
      modifies this, c, c.gpu, file
      ensures (View(), out) == WriteCall(old(View()), cfg, op, claim, publish, sees, write, device)
      ensures depth == old(depth) && c.gpu.log == old(c.gpu.log) + if out.Returned? then [AsWrite(op)] else []
      ensures out.Returned? && op.Lock? ==> c.gpu.locked == Some((op.minMhz, op.maxMhz))
      ensures out.Returned? && op.Cap? ==> c.gpu.power == op.mw
      ensures out.Returned? && op.Lock? ==> cfg.floor <= op.minMhz <= op.maxMhz && c.gpu.power == old(c.gpu.power)
      ensures out.Returned? && op.Cap? ==> c.gpu.locked == old(c.gpu.locked)
      ensures out.Raised? ==> c.gpu.Dev() == old(c.gpu.Dev())
    {
      claim, publish, sees, write, device := true, true, Reading(true, true, true, true), true, true;
      if !cfg.consent || !ClockAllowed(op, cfg.floor) {
        return Raised, claim, publish, sees, write, device;
      }
      if !armed {
        out, claim, publish, sees := Arm();
        if out.Raised? {
          return;
        }
      }
      out, write, device := Write(op);
    }

    method SurrenderClaim() returns (ghost write: bool)
      modifies this, file
      ensures View() == SurrenderCall(old(View()), write)
      ensures depth == old(depth)
    {
      write := true;
      if published && state.Some? && !state.value.restored {
        state := Some(state.value.(restored := true));
        var ok := file.Publish(state.value);
        write := ok;
        if !ok {
          state := Some(state.value.(restored := false));
          return;
        }
      }
      armed := false;
    }

    /** The device half of a restore. */
    method PutHardwareBack() returns (failed: bool, ghost reset: bool, ghost limit: bool)
      requires !restored
      modifies c.gpu
      ensures (View(), failed) == PutBack(old(View()), reset, limit)
      ensures c.gpu.log == old(c.gpu.log) + BackWrites(old(View()), reset, limit)
    {
      failed, reset, limit := false, true, true;
      var ok := c.ResetLockedClocks();
      reset := ok;
      failed := !ok;
      var target := if snapshot.Some? then RestoreTarget(snapshot.value) else None;
      if state.Some? && state.value.powerWritten.Some? {
        if target.None? {
          failed := true;
        } else {
          ok := c.SetPowerLimit(target.value);
          limit := ok;
          if ok {
            c.gpu.capped := false;
            c.gpu.hist := c.gpu.hist.(defaulted := c.gpu.hist.defaulted || snapshot.value.limit.None?);
          } else {
            failed := true;
          }
        }
      }
    }

    method Restore() returns (out: Outcome, ghost reset: bool, ghost limit: bool, ghost write: bool)
      modifies this, c, c.gpu, file
      ensures (View(), out) == RestoreCall(old(View()), reset, limit, write)
      ensures depth == old(depth) && c.gpu.log == old(c.gpu.log) + BackWrites(old(View()), reset, limit)
    {
      reset, limit, write := true, true, true;
      if restored {
        write := SurrenderClaim();
        return Returned, reset, limit, write;
      }
      var failed;
      failed, reset, limit := PutHardwareBack();
      var ok;
      if failed {
        if state.Some? {
          state := Some(state.value.(restored := false));
          state := Some(state.value.(restoreFailed := true));
          ok := file.Publish(state.value);
          write := ok;
        }
        return Raised, reset, limit, write;
      }
      restored := true;
      if state.Some? {
        state := Some(Settle(state.value));
        ok := file.Publish(state.value);
        write := ok;
        if !ok {
          state := Some(state.value.(restored := false));
          return Returned, reset, limit, write;
        }
      }
      armed := false;
      return Returned, reset, limit, write;
    }

    /** Entering and leaving a `with` block; only the outermost exit restores. */
    method Enter() returns (out: Outcome)
      modifies this, c, c.gpu, file
      ensures exists claim, write, sees :: (View(), out) == ArmCall(old(View()), cfg, claim, write, sees)
      ensures depth == old(depth) + if out.Returned? then 1 else 0
      ensures c.gpu.Dev() == old(c.gpu.Dev()) && c.gpu.log == old(c.gpu.log)
    {
      ghost var claim, write, sees;
      out, claim, write, sees := Arm();
      if out.Returned? {
        depth := depth + 1;
      }
    }

    method Exit() returns (out: Outcome)
      modifies this, c, c.gpu, file
      ensures depth == old(depth) - 1
      ensures if old(depth) > 1 then View() == old(View()) && c.gpu.log == old(c.gpu.log) && out == Returned
              else exists reset, limit, write ::
                     && (View(), out) == RestoreCall(old(View()), reset, limit, write)
                     && c.gpu.log == old(c.gpu.log) + BackWrites(old(View()), reset, limit)
    {
      depth := depth - 1;
      out := Returned;
      if depth <= 0 {
        ghost var reset, limit, write;
        out, reset, limit, write := Restore();
        assert (View(), out) == RestoreCall(old(View()), reset, limit, write);
      }
    }
  }

  /** The only way to a guard: a floor below the module's own is refused, not lowered. */
  method MakeGuard(c: Controller, file: StateFile, cfg: Config) returns (g: GpuGuard?)
    ensures g == null <==> cfg.floor < MIN_SM_CLOCK_MHZ
    ensures g != null ==> fresh(g) && g.c == c && g.file == file && g.cfg == cfg && g.View().mem == FRESH
  {
    if !GpuGuard.FloorAccepted(cfg.floor) {
      return null;
    }
    g := new GpuGuard(c, file, cfg);
  }
}
