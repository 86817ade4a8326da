/** `restore_from_state_file` on a controller and a state file, proved to be a run of the recovery
    steps of the small-step machine on the card it has opened. */
module RecoveryTool {
  import opened GuardTypes
  import opened DeviceIdentity
  import opened GuardProtocol
  import opened GuardTheorems
  import opened GuardObjects

  /** What recovery reports. `failed` gathers its error list and its incomplete flag. */
  datatype Report = Report(resetClocks: bool, powerRestoredTo: Option<int>, recordCleared: bool, failed: bool,
      advice: Option<Advice>)

  ghost function Seen(c: Controller, file: StateFile): Core
    reads c.gpu, file
  {
    Core(FRESH, c.gpu.Dev(), file.content, c.gpu.hist, file.clock, c.gpu.card)
  }

  lemma {:induction false} RecoverConcat(c: Core, v: Recovery, xs: seq<bool>, ys: seq<bool>)
    ensures RecoverSome(c, v, xs + ys) ==
            var (d, w) := RecoverSome(c, v, xs); RecoverSome(d, w, ys)
    decreases |xs|
  {
    if xs == [] {
      assert xs + ys == ys;
    } else {
      var (d, w) := RecoverStep(c, v, xs[0]);
      RecoverConcat(d, w, xs[1..], ys);
      assert (xs + ys)[1..] == xs[1..] + ys;
    }
  }

  predicate All(oks: seq<bool>) {
    forall i :: 0 <= i < |oks| ==> oks[i]
  }

  lemma AllConcat(xs: seq<bool>, ys: seq<bool>)
    ensures All(xs + ys) <==> All(xs) && All(ys)
  {
    assert forall i :: 0 <= i < |xs| ==> (xs + ys)[i] == xs[i];
    assert forall i :: 0 <= i < |ys| ==> (xs + ys)[|xs| + i] == ys[i];
  }

  lemma One(c: Core, v: Recovery, ok: bool)
    ensures RecoverSome(c, v, [ok]) == RecoverStep(c, v, ok)
  {
    var (d, w) := RecoverStep(c, v, ok);
    assert [ok][1..] == [];
    assert RecoverSome(d, w, []) == (d, w);
  }

  lemma Extend(c0: Core, v0: Recovery, oks: seq<bool>, c: Core, v: Recovery, ok: bool) returns (oks': seq<bool>)
    requires RecoverSome(c0, v0, oks) == (c, v)
    ensures RecoverSome(c0, v0, oks') == RecoverStep(c, v, ok)
    ensures All(oks') <==> All(oks) && ok
  {
    oks' := oks + [ok];
    AllConcat(oks, [ok]);
    assert [ok][0] == ok;
    RecoverConcat(c0, v0, oks, [ok]);
    One(c, v, ok);
  }

  /** What the first part leaves: the record to use, if any, and whether that already failed. */
  ghost predicate AfterLoad(c: Core, v: Recovery, d: Core, prior: Option<Record>, failed: bool, advice: Option<Advice>,
      ok: bool) {
    && d.dev == c.dev && d.card == c.card
    && prior == (if c.disk.Holds? && IsFor(c.disk.rec, v.uuid, v.index) then Some(c.disk.rec) else None)
    && (advice.Some? <==> c.disk.Holds? && prior.None?)
    && d.disk == (if c.disk.Unreadable? && v.quarantine && ok then Absent else c.disk)
    && (failed <==> advice.Some? || d.disk.Unreadable?)
  }

  /** What the second part leaves. */
  ghost predicate AfterHardware(c: Core, v: Recovery, d: Core, reset: bool, written: Option<int>, failed: bool,
      ok: bool) {
    var limit := if OwesPower(v.prior) then RestoreTarget(v.prior.value.snapshot) else None;
    && d.disk == c.disk && d.card == c.card
    && d.dev.lock == (if reset then None else c.dev.lock)
    && (written.Some? ==>
          && d.dev.power == written.value
          && (if limit.Some? then written == limit else v.force && written.value == c.card.factory))
    && (written.None? ==> d.dev.power == c.dev.power)
    && (ok ==> reset && (written.Some? <==> limit.Some? || v.force))
    && (failed <==> v.err || !reset || (written.None? && (OwesPower(v.prior) || v.force)))
  }

  /** And the third. */
  ghost predicate AfterClear(c: Core, v: Recovery, d: Core, cleared: bool, failed: bool, ok: bool) {
    && d.dev == c.dev && d.card == c.card
    && (cleared ==>
          && v.prior.Some? && !v.holderAlive && !v.err && !failed
          && c.disk == Holds(v.prior.value) && d.disk == Holds(Cleared(v.prior.value)))
    && (!cleared ==> d.disk == c.disk)
    && (v.holderAlive || v.prior.None? ==> failed == v.err)
    && (v.prior.Some? && !v.holderAlive ==> (failed <==> !cleared))
    && (ok && !v.holderAlive && !v.err && v.prior.Some? && c.disk == Holds(v.prior.value) ==> cleared)
  }

  /** Three runs, one after the other. */
  lemma Compose(c0: Core, v0: Recovery, first: bool, c1: Core, v1: Recovery, more: seq<bool>, c2: Core, v2: Recovery,
      rest: seq<bool>)
    returns (oks: seq<bool>)
    requires RecoverStep(c0, v0, first) == (c1, v1) && RecoverSome(c1, v1, more) == (c2, v2)
    ensures RecoverSome(c0, v0, oks) == RecoverSome(c2, v2, rest)
    ensures All(oks) <==> first && All(more) && All(rest)
  {
    One(c0, v0, first);
    RecoverConcat(c0, v0, [first], more);
    RecoverConcat(c0, v0, [first] + more, rest);
    AllConcat([first], more);
    AllConcat([first] + more, rest);
    assert [first][0] == first;
    oks := [first] + more + rest;
  }

  /** Reads the state file; a record about another card is not used, and a file that cannot be read is
      moved aside only on request. */
  method LoadRecord(c: Controller, file: StateFile, v: Recovery)
    returns (prior: Option<Record>, failed: bool, advice: Option<Advice>, ghost ok: bool)
    requires v.pc == Load && !v.err
    modifies file`content
    ensures RecoverStep(old(Seen(c, file)), v, ok) ==
            (Seen(c, file), v.(pc := ResetClocks, prior := prior, err := failed))
    ensures advice.Some? <==> file.content.Holds? && prior.None?
    ensures advice.Some? ==>
              var rec := file.content.rec;
              var m := DeviceMismatch(rec.uuid, Some(rec.index), v.uuid, v.index);
              m != Match && advice.value == AdviceFor(m, Some(rec.index))
    ensures prior.Some? ==> file.content == Holds(prior.value)
    ensures old(file.content.Unreadable?) && v.quarantine && ok ==> file.content == Absent
    ensures !(old(file.content.Unreadable?) && v.quarantine && ok) ==> file.content == old(file.content)
    ensures failed <==> advice.Some? || file.content.Unreadable?
    ensures AfterLoad(old(Seen(c, file)), v, Seen(c, file), prior, failed, advice, ok)
  {
    prior, failed, advice, ok := None, false, None, true;
    if file.content.Unreadable? {
      if v.quarantine {
        var moved: bool := *;
        ok := moved;
        if moved {
          file.content := Absent;
        }
      }
      failed := file.content.Unreadable?;
    } else if file.content.Holds? {
      var rec := file.content.rec;
      var m := DeviceMismatch(rec.uuid, Some(rec.index), v.uuid, v.index);
      if m == Match {
        prior := Some(rec);
      } else {
        failed := true;
        advice := Some(AdviceFor(m, Some(rec.index)));
      }
    }
  }

  /** The recorded limit is owed and known. */
  predicate Recorded(prior: Option<Record>) {
    OwesPower(prior) && RestoreTarget(prior.value.snapshot).Some?
  }

  /** The limit to write, if any: the recorded one where one is owed, else the default if forced. */
  method PlanLimit(c: Controller, file: StateFile, v: Recovery)
    returns (goal: Option<int>, failed: bool, ghost readable: bool)
    requires v.pc == Plan && v.here
    ensures RecoverStep(Seen(c, file), v, readable) ==
            (Seen(c, file),
             if goal.Some? then v.(pc := WriteLimit, target := goal) else v.(pc := CheckHolder, err := failed))
    ensures Recorded(v.prior) ==> goal == RestoreTarget(v.prior.value.snapshot)
    ensures !Recorded(v.prior) ==> goal == if v.force && readable then Some(c.gpu.card.factory) else None
    ensures failed <==> v.err || (goal.None? && (OwesPower(v.prior) || v.force))
  {
    var owes := v.prior.Some? && v.prior.value.powerWritten.Some? && !v.prior.value.restored;
    goal, failed := if owes then RestoreTarget(v.prior.value.snapshot) else None, v.err;
    readable := true;
    if goal.None? && v.force {
      var read: bool := *;
      readable := read;
      if read {
        goal := Some(c.gpu.card.factory);
      } else {
        failed := true;
      }
    }
    if goal.None? {
      failed := failed || owes;
    }
  }

  /** Writes a limit only where the record says one is owed, or the operator forces the default; and
      then what is written is in force. */
  method WriteBack(c: Controller, file: StateFile, v: Recovery)
    returns (written: Option<int>, failed: bool, target: Option<int>, ghost oks: seq<bool>)
    requires v.pc == Plan && v.here
    modifies c, c.gpu
    ensures RecoverSome(old(Seen(c, file)), v, oks) ==
            (Seen(c, file), v.(pc := CheckHolder, err := failed, target := target))
    ensures c.gpu.locked == old(c.gpu.locked) && (v.err ==> failed)
    ensures written.Some? ==> c.gpu.power == written.value && LimitFor(c, v, written.value)
    ensures written.None? ==> c.gpu.power == old(c.gpu.power)
    ensures All(oks) ==> (written.Some? <==> Recorded(v.prior) || v.force)
    ensures failed <==> v.err || (written.None? && (OwesPower(v.prior) || v.force))
  {
    ghost var before := Seen(c, file);
    var goal;
    ghost var readable;
    goal, failed, readable := PlanLimit(c, file, v);
    One(before, v, readable);
    written, target, oks := None, v.target, [readable];
    if goal.None? {
      assert !oks[0] || !v.force;
      return;
    }
    target := goal;
    var ok := c.SetPowerLimit(goal.value);
    if ok {
      written := goal;
      c.gpu.capped := false;
      ghost var fallback := !(OwesPower(v.prior) && v.prior.value.snapshot.limit.Some?);
      c.gpu.hist := c.gpu.hist.(defaulted := c.gpu.hist.defaulted || fallback);
    }
    failed := failed || !ok;
    oks := Extend(before, v, oks, before, v.(pc := WriteLimit, target := goal), ok);
  }

  /** The recorded limit where one is owed and known, else the default where that is forced. */
  predicate LimitFor(c: Controller, v: Recovery, mw: int)
  {
    if Recorded(v.prior) then RestoreTarget(v.prior.value.snapshot) == Some(mw)
    else v.force && mw == c.gpu.card.factory
  }

  /** Settles the record, unless a live process owns it, it changed, or anything failed. */
  method Clear(c: Controller, file: StateFile, v: Recovery)
    returns (cleared: bool, failed: bool, ghost oks: seq<bool>, ghost done: Recovery)
    requires v.pc == CheckHolder
    modifies file`content
    ensures RecoverSome(old(Seen(c, file)), v, oks) == (Seen(c, file), done)
    ensures done.pc == Finished && (done.err ==> failed)
    ensures cleared ==>
              && v.prior.Some? && old(file.content) == Holds(v.prior.value)
              && file.content == Holds(Cleared(v.prior.value)) && !failed && !v.err
    ensures !cleared ==> file.content == old(file.content)
    ensures v.holderAlive ==> !cleared && failed == v.err
    ensures v.prior.Some? && !v.holderAlive ==> (failed <==> !cleared)
    ensures v.prior.None? ==> !cleared && failed == v.err
    ensures All(oks) && !v.holderAlive && !v.err && v.prior.Some? && old(file.content) == Holds(v.prior.value) ==>
              cleared
    ensures AfterClear(old(Seen(c, file)), v, Seen(c, file), cleared, failed, All(oks))
  {
    ghost var before := Seen(c, file);
    cleared, failed := false, v.err;
    One(before, v, true);
    oks := [true];
    done := v.(pc := Finished);
    if v.prior.None? || v.holderAlive {
      return;
    }
    oks := Extend(before, v, oks, before, v.(pc := Reread), true);
    if file.content != Holds(v.prior.value) || v.err {
      failed := true;
      return;
    }
    cleared := file.Publish(Cleared(v.prior.value));
    failed := !cleared;
    oks := Extend(before, v, oks, before, v.(pc := ClearRecord), cleared);
    done := v.(pc := Finished, err := failed);
  }

  /** Claims the card, resets its clocks unconditionally, and writes back a limit if one is owed. */
  method RestoreHardware(c: Controller, file: StateFile, v: Recovery)
    returns (reset: bool, written: Option<int>, failed: bool, target: Option<int>, ghost oks: seq<bool>)
    requires v.pc == ResetClocks && v.here
    requires c.claimedBy == None || c.claimedBy == Some(ByRecovery)
    modifies c, c.gpu
    ensures RecoverSome(old(Seen(c, file)), v, oks) ==
            (Seen(c, file), v.(pc := CheckHolder, err := failed, target := target))
    ensures AfterHardware(old(Seen(c, file)), v, Seen(c, file), reset, written, failed, All(oks))
  {
    ghost var before := Seen(c, file);
    var _ := c.TakeClaim(ByRecovery);
    reset := c.ResetLockedClocks();
    One(before, v, reset);
    ghost var more;
    written, failed, target, more := WriteBack(c, file, v.(pc := Plan, err := v.err || !reset));
    RecoverConcat(before, v, [reset], more);
    oks := [reset] + more;
    AllConcat([reset], more);
  }

  /** What the report says of one recovery, in terms of the file and the card before and after it. */
  ghost predicate Truthful(r: Report, c: Core, v: Recovery, d: Core, worked: bool) {
    var prior := if c.disk.Holds? && IsFor(c.disk.rec, v.uuid, v.index) then Some(c.disk.rec) else None;
    var limit := if OwesPower(prior) then RestoreTarget(prior.value.snapshot) else None;
    // the hardware
    && (r.resetClocks ==> d.dev.lock == None)
    && (!r.resetClocks ==> d.dev.lock == c.dev.lock)
    && (r.powerRestoredTo.Some? ==>
          && d.dev.power == r.powerRestoredTo.value
          && (if limit.Some? then r.powerRestoredTo == limit else v.force && d.dev.power == c.card.factory))
    && (r.powerRestoredTo.None? ==> d.dev.power == c.dev.power)
    // the record
    && (r.recordCleared ==> prior.Some? && !v.holderAlive && d.disk == Holds(Cleared(prior.value)) && !r.failed)
    && (!r.recordCleared ==> d.disk == c.disk || (c.disk.Unreadable? && v.quarantine && d.disk == Absent))
    && (prior.Some? && !v.holderAlive ==> (r.failed <==> !r.recordCleared))
    // failure, and success where the I/O works
    && (r.advice.Some? <==> c.disk.Holds? && prior.None?)
    && (!r.recordCleared && (prior.None? || v.holderAlive) ==>
          (r.failed <==>
             || r.advice.Some? || d.disk.Unreadable? || !r.resetClocks
             || (r.powerRestoredTo.None? && (OwesPower(prior) || v.force))))
    && (worked ==> r.resetClocks && (r.powerRestoredTo.Some? <==> limit.Some? || v.force))
    && (worked && prior.Some? && !v.holderAlive ==> (r.recordCleared <==> !OwesPower(prior) || limit.Some? || v.force))
    && (worked && c.disk.Unreadable? && v.quarantine ==> d.disk == Absent)
  }

  lemma PartsAreTruthful(
      r: Report, v: Recovery, c0: Core, c1: Core, c2: Core, c3: Core, v1: Recovery, v2: Recovery, ok0: bool, ok1: bool,
      ok2: bool)
    requires !v.err
    requires v1 == v.(pc := ResetClocks, prior := v1.prior, err := v1.err)
    requires v2 == v1.(pc := CheckHolder, err := v2.err, target := v2.target)
    ensures AfterLoad(c0, v, c1, v1.prior, v1.err, r.advice, ok0) &&
            AfterHardware(c1, v1, c2, r.resetClocks, r.powerRestoredTo, v2.err, ok1) &&
            AfterClear(c2, v2, c3, r.recordCleared, r.failed, ok2) ==>
              Truthful(r, c0, v, c3, ok0 && ok1 && ok2)
  {
  }

  method Recover(c: Controller, file: StateFile, v: Recovery) returns (r: Report, ghost oks: seq<bool>)
    requires v.pc == Load && v.here && !v.err && v.prior.None? && v.target.None?
    requires c.claimedBy == None || c.claimedBy == Some(ByRecovery)
    modifies c, c.gpu, file
    ensures var (d, done) := RecoverSome(old(Seen(c, file)), v, oks);
            Seen(c, file) == d && done.pc == Finished && (done.err ==> r.failed)
    ensures Truthful(r, old(Seen(c, file)), v, Seen(c, file), All(oks))
    ensures r.advice.Some? ==> r.failed && !r.recordCleared
    ensures r.advice.Some? && r.advice.value.RunOnIndex? ==> r.advice.value.n != v.index
  {
    ghost var before := Seen(c, file);
    var prior, failed, advice, reset, written, target, cleared;
    ghost var read, more, rest, done;
    prior, failed, advice, read := LoadRecord(c, file, v);
    ghost var loaded := Seen(c, file);
    if advice.Some? {
      AdviceMakesProgress(before.disk.rec.uuid, Some(before.disk.rec.index), v.uuid, v.index);
    }
    var v1 := v.(pc := ResetClocks, prior := prior, err := failed);
    reset, written, failed, target, more := RestoreHardware(c, file, v1);
    ghost var restored := Seen(c, file);
    var v2 := v1.(pc := CheckHolder, err := failed, target := target);
    cleared, failed, rest, done := Clear(c, file, v2);
    oks := Compose(before, v, read, loaded, v1, more, restored, v2, rest);
    r := Report(reset, written, cleared, failed, advice);
    PartsAreTruthful(r, v, before, loaded, restored, Seen(c, file), v1, v2, read, All(more), All(rest));
  }

  /** The whole tool. On a card the record is not for it keeps the record and never writes its
      limit; over a settled record it leaves the operator's limit alone; and it reports a cleared
      record only when nothing failed. */
  method RestoreFromStateFile(
    c: Controller, file: StateFile, uuid: Option<string>, index: Option<int>,
    force: bool, quarantine: bool, holderAlive: bool)
    returns (r: Report, ghost oks: seq<bool>)
    requires c.claimedBy == None || c.claimedBy == Some(ByRecovery)
    modifies c, c.gpu, file
    ensures var v0 := Recovery(true, uuid, index, force, quarantine, holderAlive, Load, None, false, None);
            var (d, v) := RecoverSome(old(Seen(c, file)), v0, oks);
            Seen(c, file) == d && v.pc == Finished && (v.err ==> r.failed)
    ensures old(file.content.Holds? && !IsFor(file.content.rec, uuid, index)) ==>
              && file.content == old(file.content)
              && (c.gpu.power == old(c.gpu.power) || (force && c.gpu.power == c.gpu.card.factory))
              && r.failed && r.advice.Some? && (r.advice.value.RunOnIndex? ==> r.advice.value.n != index)
    ensures old(!Owed(file.content)) && !force ==> c.gpu.power == old(c.gpu.power) && !Owed(file.content)
    ensures old(file.content.Holds?) && holderAlive ==> file.content == old(file.content) && !r.recordCleared
    ensures var v0 := Recovery(true, uuid, index, force, quarantine, holderAlive, Load, None, false, None);
            Truthful(r, old(Seen(c, file)), v0, Seen(c, file), All(oks))
  {
    ghost var before := Seen(c, file);
    var v := Recovery(true, uuid, index, force, quarantine, holderAlive, Load, None, false, None);
    r, oks := Recover(c, file, v);
    if before.disk.Holds? && !IsFor(before.disk.rec, uuid, index) {
      MismatchKeepsRecord(before, v, oks);
    }
    if !Owed(before.disk) && !force {
      SettledRecoveryKeepsLimit(before, v, oks);
    }
  }
}
