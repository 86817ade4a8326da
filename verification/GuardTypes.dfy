/** The values the GPU write guard passes around: the stock snapshot, the one on-disk record,
    and what reading the state file can find. */
module GuardTypes {

  datatype Option<+T> = None | Some(value: T)

  /** Lowest SM clock a guard may ever lock; a guard's own floor may only raise it. */
  const MIN_SM_CLOCK_MHZ := 300

  /** Stock state captured by arming. Every reading may have failed. */
  datatype Snapshot = Snapshot(
    index: int,
    uuid: Option<string>,
    limit: Option<int>,
    factory: Option<int>,
    minLimit: Option<int>,
    maxLimit: Option<int>)

  /** The persisted record. `stamp` stands for the start time that tells arm cycles apart. */
  datatype Record = Record(
    pid: int,
    stamp: nat,
    index: int,
    uuid: Option<string>,
    snapshot: Snapshot,
    clocksLocked: bool,
    lockedMin: Option<int>,
    lockedMax: Option<int>,
    powerWritten: Option<int>,
    restored: bool,
    restoreFailed: bool)

  /** What the state file holds: nothing, something that cannot be interpreted, or one record. */
  datatype Disk = Absent | Unreadable | Holds(rec: Record)

  /** An unrestored record: somebody holds, or left behind, the device. */
  predicate Owed(d: Disk) {
    d.Holds? && !d.rec.restored
  }

  /** The limit a restore writes: the one in force when the guard armed, else the factory default. */
  function RestoreTarget(s: Snapshot): Option<int> {
    if s.limit.Some? then s.limit else s.factory
  }

  /** A restore can finish only when there is a limit to write back, if one is owed. */
  predicate TargetKnown(r: Record) {
    r.powerWritten.Some? ==> RestoreTarget(r.snapshot).Some?
  }

  /** A guard write: an SM clock lock, or a power cap. */
  datatype Op = Lock(minMhz: int, maxMhz: int) | Cap(mw: int)

  /** The argument check made before anything is published. */
  predicate ClockAllowed(op: Op, floor: int) {
    op.Lock? ==> floor <= op.minMhz && floor <= op.maxMhz && op.minMhz <= op.maxMhz
  }

  /** The range check made against the snapshot once the guard is armed. */
  predicate LimitAllowed(op: Op, s: Snapshot) {
    op.Cap? ==>
      && (s.minLimit.Some? ==> s.minLimit.value <= op.mw)
      && (s.maxLimit.Some? ==> op.mw <= s.maxLimit.value)
  }

  /** The record a write announces before it touches the device. */
  predicate Names(r: Record, op: Op) {
    match op
    case Lock(_, _) => r.clocksLocked
    case Cap(_) => r.powerWritten.Some?
  }
}
