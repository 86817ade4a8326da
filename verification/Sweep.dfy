/** The static sweep: every grid point under a guard of its own, in rounds, with an abort report. */
module Sweep {
  import opened GuardTypes
  import opened GuardProtocol
  import opened GuardInvariant
  import opened GuardCalls
  import opened GuardObjects
  import opened GuardSessions

  /** One configuration; no clock and no limit is the stock reference. */
  datatype Point = Point(clock: Option<int>, limit: Option<int>)

  predicate IsStock(p: Point) {
    p.clock.None? && p.limit.None?
  }

  /** What kind of exception ended a point. */
  datatype Failure = Refusal | GuardFailure | SweepFailure | Other

  datatype Report =
    | Complete
    | NothingWritten
    | RefusedAfter(writes: seq<Op>)
    | GuardFailed(maybeModified: bool)
    | Void
    | Failed(maybeModified: bool, writes: seq<Op>)

  /** What the abort handlers say, from the kind of exception and the sweep's own records. */
  function Describe(f: Failure, modified: bool, writes: seq<Op>): Report {
    match f
    case Refusal => if writes == [] then NothingWritten else RefusedAfter(writes)
    case GuardFailure => GuardFailed(modified)
    case SweepFailure => Void
    case Other => if modified then Failed(true, []) else Failed(false, writes)
  }

  /** Which report each kind of exception gets. */
  lemma ReportsTell(f: Failure, modified: bool, writes: seq<Op>)
    ensures var r := Describe(f, modified, writes);
            && (r == NothingWritten <==> f == Refusal && writes == [])
            && (r.RefusedAfter? <==> f == Refusal && writes != [])
            && (r.GuardFailed? <==> f == GuardFailure)
            && (r == Void <==> f == SweepFailure)
            && (r.Failed? <==> f == Other)
            && r != Complete
            && (r.RefusedAfter? ==> r.writes == writes)
            && (r.GuardFailed? ==> r.maybeModified == modified)
            && (r.Failed? ==> r.maybeModified == modified && r.writes == if modified then [] else writes)
  {
  }

  /** One execution of a point: whether it got a guard, and which of its locks and caps the device
      accepted. */
  datatype Execution = Execution(point: Point, guarded: bool, accepted: seq<Op>)

  predicate WellLogged(es: seq<Execution>) {
    forall i :: 0 <= i < |es| ==> !es[i].guarded ==> es[i].accepted == []
  }

  /** How an execution that does not fail ends: stock never gets a guard, any other point is written. */
  predicate Succeeded(e: Execution) {
    if IsStock(e.point) then !e.guarded else e.guarded && e.accepted != []
  }

  predicate AllSucceeded(es: seq<Execution>) {
    forall i :: 0 <= i < |es| ==> Succeeded(es[i])
  }

  predicate AllStock(es: seq<Execution>) {
    forall i :: 0 <= i < |es| ==> IsStock(es[i].point)
  }

  /** Every execution is of the point whose turn it is. */
  predicate Scheduled(points: seq<Point>, es: seq<Execution>)
    requires points != []
  {
    forall i :: 0 <= i < |es| ==> es[i].point == Turn(points, i)
  }

  function Turn(points: seq<Point>, i: nat): Point
    requires points != []
  {
    points[i % |points|]
  }

  lemma ScheduledNext(points: seq<Point>, es: seq<Execution>, e: Execution)
    requires points != [] && Scheduled(points, es) && e.point == Turn(points, |es|)
    ensures Scheduled(points, es + [e])
    ensures AllSucceeded(es) && Succeeded(e) ==> AllSucceeded(es + [e])
  {
  }

  /** The sweep's own record of writes: only an execution that gets a guard starts it anew. */
  function Listed(es: seq<Execution>): seq<Op> {
    if es == [] then []
    else if es[|es| - 1].guarded then es[|es| - 1].accepted
    else Listed(es[..|es| - 1])
  }

  lemma ListedNext(es: seq<Execution>, e: Execution)
    ensures Listed(es + [e]) == if e.guarded then e.accepted else Listed(es)
  {
    assert (es + [e])[..|es|] == es;
  }

  /** Nothing is listed after executions that did not fail exactly when all of them were stock. */
  lemma {:induction false} NothingListedIff(es: seq<Execution>)
    requires AllSucceeded(es)
    ensures Listed(es) == [] <==> AllStock(es)
    decreases |es|
  {
    if es != [] {
      NothingListedIff(es[..|es| - 1]);
    }
  }

  /** After executions that did not fail, a report lists the next execution's own writes exactly when
      that one gets a guard, or every point before it was stock. */
  lemma ListedIsOwnIff(before: seq<Execution>, e: Execution)
    requires AllSucceeded(before) && (!e.guarded ==> e.accepted == [])
    ensures Listed(before + [e]) == e.accepted <==> e.guarded || AllStock(before)
  {
    ListedNext(before, e);
    NothingListedIff(before);
  }

  /** An instance: a locked point, and then a stock point that fails. The report says that the device
      accepted the first point's lock. */
  lemma StaleReport()
    ensures var lock := Lock(1400, 1400);
            var locked := Execution(Point(Some(1400), None), true, [lock]);
            var stock := Execution(Point(None, None), false, []);
            && AllSucceeded([locked]) && !AllStock([locked]) && !stock.guarded
            && Describe(Other, false, Listed([locked] + [stock])) == Failed(false, [lock])
            && Describe(Refusal, false, Listed([locked] + [stock])) == RefusedAfter([lock])
  {
    var locked := Execution(Point(Some(1400), None), true, [Lock(1400, 1400)]);
    var stock := Execution(Point(None, None), false, []);
    assert !IsStock([locked][0].point);
    ListedIsOwnIff([locked], stock);
    ListedNext([locked], stock);
    ListedNext([], locked);
    assert [] + [locked] == [locked];
  }

  function Logged(ops: seq<Op>): (ws: seq<DeviceWrite>)
    ensures |ws| == |ops| && forall i :: 0 <= i < |ops| ==> ws[i] == AsWrite(ops[i])
  {
    seq(|ops|, i requires 0 <= i < |ops| => AsWrite(ops[i]))
  }

  /** The device is in exactly the point's configuration. */
  ghost predicate Configured(d: Device, p: Point) {
    && d.lock == (if p.clock.Some? then Some((p.clock.value, p.clock.value)) else None)
    && (if p.limit.Some? then d.capped && d.power == p.limit.value else !d.capped)
  }

  /** Run `i` is of point `i mod n`, in round `i div n`. */
  predicate InRounds(n: nat, runs: seq<(nat, nat)>)
    requires n > 0
  {
    forall i :: 0 <= i < |runs| ==> runs[i] == (i % n, i / n)
  }

  /** Run `i` was measured, as the `i`-th, in its own point's configuration. */
  ghost predicate InPlace(points: seq<Point>, runs: seq<(nat, nat)>, measured: seq<Device>) {
    && |runs| <= |measured|
    && forall i :: 0 <= i < |runs| ==> runs[i].0 < |points| && Configured(measured[i], points[runs[i].0])
  }

  lemma MeasuredNext(points: seq<Point>, runs: seq<(nat, nat)>, taken: seq<Device>, measured: seq<Device>, k: nat,
      round: nat)
    requires InPlace(points, runs, taken) && taken <= measured && k < |points|
    ensures InPlace(points, runs, measured)
    ensures |taken| == |runs| && |measured| == |taken| + 1 && Configured(measured[|taken|], points[k]) ==>
              InPlace(points, runs + [(k, round)], measured)
  {
  }

  lemma WriteCallApplies(
      c: Core, cfg: Config, op: Op, claim: bool, publish: bool, sees: Reading, write: bool, device: bool)
    ensures var (d, out) := WriteCall(c, cfg, op, claim, publish, sees, write, device);
            && d.dev == (if out.Returned? then DeviceWritten(c, op, false).dev else c.dev)
            && (c.mem.armed ==> d.mem.snapshot == c.mem.snapshot)
  {
  }

  class SweepRunner {
    const gpu: Gpu
    const file: StateFile
    const cfg: Config
    const points: seq<Point>
    const repeats: nat

    var runs: seq<(nat, nat)>
    var aborted: bool
    var report: Report
    var hardwareMayBeModified: bool
    var pointWrites: seq<Op>
    /** One entry for each execution that was begun. */
    ghost var executions: seq<Execution>
    /** The device's log when the last execution began, and what its exit restore added. */
    ghost var mark: seq<DeviceWrite>
    ghost var back: seq<DeviceWrite>
    /** Whether every guard so far could read the limit in force when it armed. */
    ghost var limitRead: bool
    /** The device in each measurement that was taken. */
    ghost var measured: seq<Device>

    constructor (gpu: Gpu, file: StateFile, cfg: Config, points: seq<Point>, repeats: nat)
      requires GpuGuard.FloorAccepted(cfg.floor) && points != [] && repeats >= 1
      ensures this.gpu == gpu && this.file == file && this.cfg == cfg && this.points == points &&
              this.repeats == repeats
      ensures runs == [] && !aborted && !hardwareMayBeModified && pointWrites == [] && limitRead
      ensures executions == [] && measured == []
    {
      this.gpu, this.file, this.cfg, this.points, this.repeats := gpu, file, cfg, points, repeats;
      runs, aborted, report, hardwareMayBeModified, pointWrites := [], false, Complete, false, [];
      executions, mark, back, limitRead, measured := [], [], [], true, [];
    }

    /** Replays the schedule; every measurement is taken in exactly its point's configuration. */
    method Measure(p: Point) returns (failure: Option<Failure>)
      requires Configured(gpu.Dev(), p)
      modifies this`measured
      ensures measured == old(measured) + if failure.None? then [gpu.Dev()] else []
    {
      failure := *;
      if failure.None? {
        measured := measured + [gpu.Dev()];
      }
    }

    /** Applies one write and notes that it reached the device. */
    method ApplyPart(guard: GpuGuard, op: Op) returns (failure: Option<Failure>)
      requires guard.c.gpu == gpu && guard.file == file && Settled(guard.View()) && guard.armed
      modifies this`pointWrites, guard, guard.c, gpu, file
      ensures Settled(guard.View()) && guard.armed && guard.depth == old(guard.depth) &&
              guard.snapshot == old(guard.snapshot)
      ensures gpu.log == old(gpu.log) + if failure.None? then [AsWrite(op)] else []
      ensures pointWrites == old(pointWrites) + if failure.None? then [op] else []
      ensures gpu.Dev() == if failure.None? then DeviceWritten(old(guard.View()), op, false).dev else old(gpu.Dev())
    {
      ghost var before := guard.View();
      var out;
      ghost var claim, publish, sees, write, device;
      out, claim, publish, sees, write, device := guard.Apply(op);
      WriteCallSettles(before, guard.cfg, op, claim, publish, sees, write, device);
      WriteCallApplies(before, guard.cfg, op, claim, publish, sees, write, device);
      if out.Returned? {
        failure := None;
        pointWrites := pointWrites + [op];
      } else {
        var kind: Failure := *;
        failure := Some(kind);
      }
    }

    /** The body of the `with` block: lock, cap, settle, measure. */
    method MeasureUnder(guard: GpuGuard, p: Point) returns (failure: Option<Failure>)
      requires guard.c.gpu == gpu && guard.file == file && Settled(guard.View()) && guard.armed
      requires Unmodified(gpu.Dev()) && pointWrites == []
      modifies this`pointWrites, this`measured, guard, guard.c, gpu, file
      ensures TakenIn(p, failure, old(measured))
      ensures Settled(guard.View()) && guard.armed && guard.depth == old(guard.depth) &&
              guard.snapshot == old(guard.snapshot)
      ensures gpu.log == old(gpu.log) + Logged(pointWrites)
      ensures pointWrites == [] ==> gpu.Dev() == old(gpu.Dev())
      ensures !gpu.Dev().capped ==> gpu.Dev().power == old(gpu.Dev().power)
      ensures failure.None? ==> |pointWrites| == (if p.clock.Some? then 1 else 0) + (if p.limit.Some? then 1 else 0)
    {
      if p.clock.Some? {
        failure := ApplyPart(guard, Lock(p.clock.value, p.clock.value));
        if failure.Some? {
          return;
        }
      }
      if p.limit.Some? {
        failure := ApplyPart(guard, Cap(p.limit.value));
        if failure.Some? {
          return;
        }
      }
      failure := Measure(p);
    }

    /** What the last execution did to the device, by the device's own log. */
    ghost predicate Accounted()
      reads this, gpu
    {
      && executions != [] && WellLogged(executions) && pointWrites == Listed(executions)
      && gpu.log == mark + Logged(executions[|executions| - 1].accepted) + back
      && (forall w :: w in back ==> !w.SetLock?)
      && (!executions[|executions| - 1].guarded ==> back == [])
    }

    /** A point that did not fail was measured, once, in exactly its own configuration. */
    ghost predicate TakenIn(p: Point, failure: Option<Failure>, before: seq<Device>)
      reads this
    {
      && before <= measured
      && (failure.None? ==> |measured| == |before| + 1 && Configured(measured[|before|], p))
    }

    /** One execution of one point. A point that comes back without a failure leaves stock hardware;
        a failure leaves it too unless the sweep says that the hardware may be modified. The limit is
        as it was, or the default if the guard could not read it. */
    method RunPoint(p: Point) returns (failure: Option<Failure>)
      requires GpuGuard.FloorAccepted(cfg.floor)
      requires Unmodified(gpu.Dev()) && !hardwareMayBeModified
      requires WellLogged(executions) && pointWrites == Listed(executions)
      modifies this`pointWrites, this`hardwareMayBeModified, this`executions, this`mark, this`back, this`limitRead,
          this`measured, gpu, file
      ensures TakenIn(p, failure, old(measured))
      ensures hardwareMayBeModified ==> failure == Some(GuardFailure)
      ensures !hardwareMayBeModified ==> Unmodified(gpu.Dev())
      ensures !hardwareMayBeModified ==>
                gpu.power == old(gpu.power) ||
                    (!limitRead && gpu.power == gpu.card.factory && SetLimit(gpu.power) in back)
      ensures limitRead ==> old(limitRead)
      ensures Accounted() && mark == old(gpu.log)
      ensures executions == old(executions) + [Last()]
      ensures IsStock(p) ==> !executions[|executions| - 1].guarded
      ensures executions[|executions| - 1].point == p
      ensures p.clock.Some? && p.clock.value < MIN_SM_CLOCK_MHZ ==>
                failure == Some(SweepFailure) && !Last().guarded && gpu.log == old(gpu.log)
      ensures failure.None? ==> Succeeded(executions[|executions| - 1])
    {
      ghost var earlier := executions;
      Begin(p);
      if IsStock(p) {
        failure := Measure(p);
        return;
      }
      if p.clock.Some? && p.clock.value < MIN_SM_CLOCK_MHZ {
        return Some(SweepFailure);
      }
      var made: bool := *;
      if !made {
        var kind: Failure := *;
        return Some(kind);
      }
      var controller := new Controller(gpu);
      var guard := new GpuGuard(controller, file, cfg);
      failure := RunGuarded(guard, p, earlier);
      if !guard.restored {
        hardwareMayBeModified := true;
      }
    }

    /** A new execution, so far without a guard. */
    ghost method Begin(p: Point)
      requires WellLogged(executions) && pointWrites == Listed(executions)
      modifies this`executions, this`mark, this`back
      ensures Accounted() && mark == gpu.log && back == [] && executions == old(executions) + [Execution(p, false, [])]
    {
      mark, back := gpu.log, [];
      ListedNext(executions, Execution(p, false, []));
      executions := executions + [Execution(p, false, [])];
    }

    /** The `with` block. */
    method RunGuarded(guard: GpuGuard, p: Point, ghost earlier: seq<Execution>) returns (failure: Option<Failure>)
      requires guard.c.gpu == gpu && guard.file == file && guard.View().mem == FRESH && guard.depth == 0
      requires !IsStock(p) && Unmodified(gpu.Dev()) && WellLogged(earlier) && mark == gpu.log && back == []
      modifies this`pointWrites, this`executions, this`back, this`limitRead, this`measured, guard, guard.c, gpu, file
      ensures TakenIn(p, failure, old(measured))
      ensures !guard.restored ==> failure == Some(GuardFailure)
      ensures guard.restored ==> Unmodified(gpu.Dev())
      ensures guard.restored ==>
                gpu.power == old(gpu.power) ||
                    (!limitRead && gpu.power == gpu.card.factory && SetLimit(gpu.power) in back)
      ensures limitRead ==> old(limitRead)
      ensures executions == earlier + [Execution(p, true, pointWrites)] && Accounted()
      ensures failure.None? ==> pointWrites != []
    {
      pointWrites := [];
      executions := earlier + [Execution(p, true, [])];
      var out := Enter(guard);
      if out.Raised? {
        var kind: Failure := *;
        return Some(kind);
      }
      failure := MeasureUnder(guard, p);
      executions := earlier + [Execution(p, true, pointWrites)];
      var exit := Leave(guard);
      if exit.Raised? {
        failure := Some(GuardFailure);
      }
    }

    /** Entering the `with` block: a guard that is armed has captured the limit in force, if it could. */
    method Enter(guard: GpuGuard) returns (out: Outcome)
      requires guard.c.gpu == gpu && guard.file == file && guard.View().mem == FRESH && guard.depth == 0
      requires Unmodified(gpu.Dev())
      modifies this`limitRead, guard, guard.c, gpu, file
      ensures gpu.Dev() == old(gpu.Dev()) && gpu.log == old(gpu.log) && guard.restored && Settled(guard.View())
      ensures limitRead <==> old(limitRead) && guard.snapshot.Some? && guard.snapshot.value.limit.Some?
      ensures out.Returned? ==>
                && guard.armed && guard.depth == 1 && guard.snapshot.Some?
                && (guard.snapshot.value.limit.Some? ==> guard.snapshot.value.limit.value == gpu.power)
                && (guard.snapshot.value.factory.Some? ==> guard.snapshot.value.factory.value == gpu.card.factory)
    {
      ghost var before := guard.View();
      out := guard.Enter();
      ghost var claim, write, sees :| (guard.View(), out) == ArmCall(before, guard.cfg, claim, write, sees);
      ArmCallSettles(before, guard.cfg, claim, write, sees);
      limitRead := limitRead && guard.snapshot.Some? && guard.snapshot.value.limit.Some?;
    }

    /** Leaving the `with` block. A limit that has changed is the captured one, or the default, written
        back by this restore. */
    method Leave(guard: GpuGuard) returns (exit: Outcome)
      requires guard.c.gpu == gpu && guard.file == file && Settled(guard.View()) && guard.armed && guard.depth == 1
      modifies this`back, guard, guard.c, gpu, file
      ensures gpu.log == old(gpu.log) + back && forall w :: w in back ==> !w.SetLock?
      ensures exit.Returned? <==> guard.restored
      ensures guard.restored ==> Unmodified(gpu.Dev())
      ensures guard.restored && (old(gpu.capped) || gpu.power != old(gpu.power)) ==>
                && old(guard.snapshot).Some? && RestoreTarget(old(guard.snapshot).value) == Some(gpu.power)
                && SetLimit(gpu.power) in back
    {
      ghost var held := guard.View();
      exit := guard.Exit();
      ghost var reset, limit, write :|
        && (guard.View(), exit) == RestoreCall(held, reset, limit, write)
        && gpu.log == old(gpu.log) + BackWrites(held, reset, limit);
      back := BackWrites(held, reset, limit);
      RestoreCallSettles(held, reset, limit, write);
      RestoreCallTells(held, reset, limit, write);
    }

    /** Execution `i` is point `i mod n` in round `i div n`. */
    ghost predicate RoundRobin()
      reads this
    {
      points != [] && InRounds(|points|, runs)
    }

    /** Every run that is recorded was measured with the device in exactly its point's configuration. */
    ghost predicate RunsMeasured()
      reads this
    {
      InPlace(points, runs, measured)
    }

    /** What a report says is so: "nothing was written" only if the last execution's guard wrote no lock
        and no cap; a list of writes is the last execution's own, exactly when that got a guard or every
        point before it was stock; and only a failed restore says that the hardware may be modified. */
    ghost predicate ReportTrue()
      reads this
    {
      && (report == NothingWritten ==> !hardwareMayBeModified && (executions != [] ==> Last().accepted == []))
      && (report.RefusedAfter? || report.Failed? ==>
            && !hardwareMayBeModified && report.writes == pointWrites
            && (executions == [] ==> report.writes == [])
            && (executions != [] ==> (report.writes == Last().accepted <==> Last().guarded || AllStock(Earlier()))))
      && (report.Failed? ==> !report.maybeModified)
      && (hardwareMayBeModified <==> report == GuardFailed(true))
    }

    /** The abort handlers. */
    method Abort(f: Failure)
      requires WellLogged(executions) && pointWrites == Listed(executions)
      requires executions != [] ==> AllSucceeded(Earlier())
      requires hardwareMayBeModified ==> f == GuardFailure
      modifies this`aborted, this`report
      ensures aborted && report != Complete && ReportTrue()
      ensures executions != [] ==> (pointWrites == Last().accepted <==> Last().guarded || AllStock(Earlier()))
    {
      aborted := true;
      report := Describe(f, hardwareMayBeModified, pointWrites);
      if executions != [] {
        assert executions == Earlier() + [Last()];
        ListedIsOwnIff(Earlier(), Last());
      }
    }

    /** Discarded runs of the load, on stock hardware. */
    method WarmUp(warmups: nat) returns (failure: Option<Failure>)
    {
      failure := None;
      for _ := 0 to warmups {
        failure := *;
        if failure.Some? {
          return;
        }
      }
    }

    /** Where the sweep is between two executions. */
    ghost predicate Between(power: int, log: seq<DeviceWrite>)
      reads this, gpu
    {
      && !aborted && report == Complete && !hardwareMayBeModified && Unmodified(gpu.Dev())
      && WellLogged(executions) && pointWrites == Listed(executions)
      && |executions| == |runs| && AllSucceeded(executions) && OnSchedule()
      && |measured| == |runs| && RunsMeasured()
      && (if executions == [] then gpu.log == log else Accounted())
      && (gpu.power == power || (!limitRead && gpu.power == gpu.card.factory))
    }

    /** The whole sweep. */
    method Run(warmups: nat)
      requires GpuGuard.FloorAccepted(cfg.floor) && points != []
      requires runs == [] && !aborted && !hardwareMayBeModified && pointWrites == [] && limitRead && executions == []
      requires Unmodified(gpu.Dev()) && measured == []
      modifies this, gpu, file
      ensures RunsMeasured()
      ensures RoundRobin() && |runs| <= repeats * |points|
      ensures !aborted ==> |runs| == repeats * |points| && report == Complete
      ensures hardwareMayBeModified ==> aborted
      ensures !hardwareMayBeModified ==>
                Unmodified(gpu.Dev()) && (gpu.power == old(gpu.power) || (!limitRead && gpu.power == gpu.card.factory))
      ensures if executions == [] then gpu.log == old(gpu.log) else Accounted()
      ensures ReportTrue() && OnSchedule()
      ensures aborted && executions != [] ==> |executions| == |runs| + 1 && AllSucceeded(Earlier())
    {
      report := Complete;
      var failure := WarmUp(warmups);
      if failure.Some? {
        Abort(failure.value);
        return;
      }
      for round := 0 to repeats
        invariant RoundRobin() && |runs| == round * |points|
        invariant Between(old(gpu.power), old(gpu.log))
      {
        OrderedRounds(round, repeats, |points|);
        RunRound(round, old(gpu.power), old(gpu.log));
        if aborted {
          return;
        }
        assert round * |points| + |points| == (round + 1) * |points|;
      }
    }

    /** One round: every point once, in grid order, until one fails. */
    method RunRound(round: nat, ghost power: int, ghost log: seq<DeviceWrite>)
      requires GpuGuard.FloorAccepted(cfg.floor)
      requires RoundRobin() && |runs| == round * |points| && Between(power, log)
      modifies this, gpu, file
      ensures RoundRobin() && old(|runs|) <= |runs| <= old(|runs|) + |points|
      ensures !aborted ==> |runs| == old(|runs|) + |points| && Between(power, log)
      ensures aborted ==> Ended(power)
    {
      for k := 0 to |points|
        invariant RoundRobin() && |runs| == old(|runs|) + k
        invariant Between(power, log)
      {
        PlaceInRound(round, k, |points|);
        RunTurn(round, k, power, log);
        if aborted {
          return;
        }
      }
    }

    /** The execution whose turn it is. */
    method RunTurn(round: nat, k: nat, ghost power: int, ghost log: seq<DeviceWrite>)
      requires GpuGuard.FloorAccepted(cfg.floor)
      requires RoundRobin() && Between(power, log)
      requires k < |points| && |runs| % |points| == k && |runs| / |points| == round
      modifies this, gpu, file
      ensures RoundRobin()
      ensures !aborted ==> |runs| == old(|runs|) + 1 && Between(power, log)
      ensures aborted ==> runs == old(runs) && Ended(power)
    {
      var failure := Execute(round, k, power, log);
      if failure.Some? {
        AbortPoint(failure.value, power);
        return;
      }
      Record(round, k);
    }

    /** Ends the sweep after an execution that failed. */
    method AbortPoint(f: Failure, ghost power: int)
      requires Executed(Some(f), power)
      modifies this`aborted, this`report
      ensures Ended(power)
    {
      Abort(f);
    }

    /** Where the sweep is after an execution, before that is recorded or reported. */
    ghost predicate Executed(failure: Option<Failure>, power: int)
      reads this, gpu
    {
      && !aborted && report == Complete && Accounted() && OnSchedule() && RunsMeasured()
      && |executions| == |runs| + 1 && AllSucceeded(Earlier())
      && (hardwareMayBeModified ==> failure == Some(GuardFailure))
      && (!hardwareMayBeModified ==>
            Unmodified(gpu.Dev()) && (gpu.power == power || (!limitRead && gpu.power == gpu.card.factory)))
      && (failure.None? ==> AllSucceeded(executions) && |measured| == |executions|)
    }

    /** Runs the point and brings the sweep's own accounts up to date. */
    method Execute(round: nat, k: nat, ghost power: int, ghost log: seq<DeviceWrite>) returns (failure: Option<Failure>)
      requires GpuGuard.FloorAccepted(cfg.floor)
      requires Between(power, log) && k < |points| && points[k] == Turn(points, |executions|)
      modifies this`pointWrites, this`hardwareMayBeModified, this`executions, this`mark, this`back, this`limitRead,
          this`measured, gpu, file
      ensures Executed(failure, power)
      ensures failure.None? ==> InPlace(points, runs + [(k, round)], measured)
    {
      ghost var before, taken := executions, measured;
      failure := RunPoint(points[k]);
      MeasuredNext(points, runs, taken, measured, k, round);
      ScheduledNext(points, before, Last());
      assert Earlier() == before;
    }

    /** `runs.append`. */
    method Record(round: nat, k: nat)
      requires RoundRobin()
      requires k < |points| && |runs| % |points| == k && |runs| / |points| == round
      modifies this`runs
      ensures RoundRobin() && runs == old(runs) + [(k, round)]
    {
      runs := runs + [(k, round)];
    }

    /** Where an aborted sweep ends. */
    ghost predicate Ended(power: int)
      reads this, gpu
    {
      && aborted && report != Complete && ReportTrue() && Accounted() && OnSchedule() && RunsMeasured()
      && |executions| == |runs| + 1 && AllSucceeded(Earlier())
      && (!hardwareMayBeModified ==>
            Unmodified(gpu.Dev()) && (gpu.power == power || (!limitRead && gpu.power == gpu.card.factory)))
    }

    /** Every execution is of the point whose turn it is. */
    ghost predicate OnSchedule()
      reads this
    {
      points != [] && Scheduled(points, executions)
    }

    /** The executions before the last. */
    ghost function Earlier(): seq<Execution>
      requires executions != []
      reads this
    {
      executions[..|executions| - 1]
    }

    ghost function Last(): Execution
      requires executions != []
      reads this
    {
      executions[|executions| - 1]
    }
  }

  // ----- the limit after a cap that was refused -----

  /** A point that arms and whose cap the device, or the record, refuses. */
  function AfterRefusal(c: Core, cfg: Config, mw: int, sees: Reading, write: bool): Core {
    ArmedWriteCall(ArmCall(c, cfg, true, true, sees).0, cfg, Cap(mw), write, false).0
  }

  /** The cap never reached the device, yet its exit restore changes the limit, for some outcome of its
      I/O, exactly when the limit was unreadable, the default readable, and the two differ. */
  lemma NothingWrittenIsTrueIff(c: Core, cfg: Config, mw: int, sees: Reading, write: bool)
    requires c.mem == FRESH && Unmodified(c.dev) && !Busy(c.disk)
    requires cfg.privileged && LimitAllowed(Cap(mw), TakenSnapshot(c, sees))
    ensures AfterRefusal(c, cfg, mw, sees, write).dev == c.dev
    ensures (forall reset, limit,
            write' :: RestoreCall(AfterRefusal(c, cfg, mw, sees, write), reset, limit, write').0.dev == c.dev) <==>
            sees.limit || !sees.factory || c.card.factory == c.dev.power
  {
    var e := AfterRefusal(c, cfg, mw, sees, write);
    var target := RestoreTarget(TakenSnapshot(c, sees));
    if target.Some? {
      assert RestoreCall(e, true, true, true).0.dev == Device(None, target.value, false);
    }
  }

  /** One such point: nothing was written, and the limit went from 150 W to the default. */
  lemma NothingWrittenButChanged()
    ensures var c := Core(FRESH, Device(None, 150_000, false), Absent, History(150_000, false, false), 0,
                          Card(0, "GPU-0", 200_000, None, None));
            var e := AfterRefusal(c, Config(1, true, true, MIN_SM_CLOCK_MHZ), 120_000,
                Reading(true, false, true, true), true);
            && e.dev == c.dev && Describe(Refusal, false, []) == NothingWritten
            && RestoreCall(e, true, true, true) == (RestoreCall(e, true, true, true).0, Returned)
            && RestoreCall(e, true, true, true).0.dev == Device(None, 200_000, false)
  {
  }

  /** The constructor's refusals: no repeats, or nothing to measure. */
  method MakeRunner(gpu: Gpu, file: StateFile, cfg: Config, points: seq<Point>, repeats: int) returns (r: SweepRunner?)
    requires GpuGuard.FloorAccepted(cfg.floor)
    ensures r == null <==> repeats < 1 || points == []
    ensures r != null ==>
              fresh(r) && r.points == points && r.repeats == repeats && r.runs == [] && r.measured == [] && !r.aborted
  {
    if repeats < 1 || points == [] {
      return null;
    }
    r := new SweepRunner(gpu, file, cfg, points, repeats);
  }

  /** A restore that returns leaves no debt, one that raises keeps it. */
  lemma RestoreCallTells(c: Core, reset: bool, limit: bool, write: bool)
    requires Settled(c)
    ensures var (d, out) := RestoreCall(c, reset, limit, write);
            && (out.Returned? <==> d.mem.restored)
            && (d.mem.restored ==> Unmodified(d.dev) || !c.mem.armed)
            && (d.mem.restored && (d.dev.power != c.dev.power || (c.dev.capped && !d.dev.capped)) ==>
                  SetLimit(d.dev.power) in BackWrites(c, reset, limit))
            && (c.dev.capped && !d.dev.capped ==>
                c.mem.snapshot.Some? && RestoreTarget(c.mem.snapshot.value) == Some(d.dev.power))
            && (d.dev.power == c.dev.power ||
                (c.mem.snapshot.Some? && RestoreTarget(c.mem.snapshot.value) == Some(d.dev.power)))
  {
  }

  lemma PlaceInRound(round: nat, k: nat, n: nat)
    requires k < n
    ensures (round * n + k) % n == k && (round * n + k) / n == round
  {
    var i := round * n + k;
    var q, r := i / n, i % n;
    assert i == q * n + r;
    OrderedRounds(q, round, n);
    OrderedRounds(round, q, n);
  }

  lemma OrderedRounds(a: nat, b: nat, n: nat)
    ensures a < b ==> a * n + n <= b * n
  {
    if a < b {
      SplitRounds(a, b - a - 1, n);
    }
  }

  lemma SplitRounds(a: nat, d: nat, n: nat)
    ensures (a + 1 + d) * n == a * n + n + d * n && d * n >= 0
  {
  }

  lemma RoundFits(round: nat, repeats: nat, n: nat, k: nat)
    requires round < repeats && k < n
    ensures round * n + k < repeats * n
  {
    OrderedRounds(round, repeats, n);
  }

  /** In a complete round-robin every point has exactly one run in every round. */
  lemma EveryPointEveryRound(runs: seq<(nat, nat)>, n: nat, repeats: nat, p: nat, r: nat)
    requires n > 0 && |runs| == repeats * n && p < n && r < repeats
    requires forall i :: 0 <= i < |runs| ==> runs[i] == (i % n, i / n)
    ensures r * n + p < |runs|
    ensures forall i :: 0 <= i < |runs| ==> (runs[i] == (p, r) <==> i == r * n + p)
  {
    RoundFits(r, repeats, n, p);
    PlaceInRound(r, p, n);
  }
}
