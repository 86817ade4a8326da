/** Runs of the world: extending them by a step, by a complete call, and by a signal's restore. */
module GuardRuns {
  import opened GuardTypes
  import opened GuardProtocol
  import opened GuardInvariant
  import opened GuardCalls

  /** One more step after a run. */
  lemma Take(w: World, e: Event) returns (w': World)
    requires Reachable(w) && Enabled(w, e)
    ensures w' == Step(w, e) && Reachable(w')
  {
    w' := Step(w, e);
    var ws, es :| IsRun(ws, es) && ws[|ws| - 1] == w;
    var ws', es' := ws + [w'], es + [e];
    assert forall i :: 0 <= i < |es'| ==> es'[i] == (if i < |es| then es[i] else e);
    assert IsRun(ws', es') && ws'[|ws'| - 1] == w';
  }

  /** What the application does without being interrupted is a run of the world. */
  lemma {:induction false} ActsReachable(c: Core, u: User, cfg: Config, chs: seq<Choice>)
    requires Reachable(World(c, Guarding(cfg, u, [])))
    ensures var (d, v) := Acts(c, u, cfg, chs); Reachable(World(d, Guarding(cfg, v, [])))
    decreases |chs|
  {
    if chs != [] {
      var w := Take(World(c, Guarding(cfg, u, [])), UserAction(chs[0]));
      var (d, v) := UserStep(c, u, chs[0], cfg);
      ActsReachable(d, v, cfg, chs[1..]);
    }
  }

  predicate Resting(w: World) {
    w.proc.Guarding? && w.proc.user.Idle? && w.proc.handlers == []
  }

  /** The three complete calls, with every outcome of their I/O, lead from reachable to reachable. */
  lemma RestoreCallReachable(w: World, reset: bool, limit: bool, write: bool)
    requires Reachable(w) && Resting(w)
    ensures Reachable(w.(core := RestoreCall(w.core, reset, limit, write).0))
  {
    var w1 := Take(w, CallRestore);
    var chs := RestoreCallRuns(w.core, w.proc.cfg, reset, limit, write);
    ActsReachable(w.core, Restoring(NEW_RESTORE), w.proc.cfg, chs);
  }

  lemma ArmCallReachable(w: World, claim: bool, write: bool, sees: Reading)
    requires Reachable(w) && Resting(w)
    ensures Reachable(w.(core := ArmCall(w.core, w.proc.cfg, claim, write, sees).0))
  {
    var w1 := Take(w, CallArm);
    var chs := ArmCallRuns(w.core, w.proc.cfg, None, claim, write, sees);
    ActsReachable(w.core, Arming(CheckArmed, None), w.proc.cfg, chs);
  }

  lemma WriteCallReachable(w: World, op: Op, claim: bool, publish: bool, sees: Reading, write: bool, device: bool)
    requires Reachable(w) && Resting(w)
    ensures Reachable(w.(core := WriteCall(w.core, w.proc.cfg, op, claim, publish, sees, write, device).0))
  {
    var w1 := Take(w, CallWrite(op));
    var chs := WriteCallRuns(w.core, w.proc.cfg, op, claim, publish, sees, write, device);
    ActsReachable(w.core, Calling(op), w.proc.cfg, chs);
  }

  /** A handler on top of any interrupted call does what an application's restore would do. */
  lemma {:induction false} HandlerMirrors(
      c: Core, f: RestoreFrame, cfg: Config, u: User, hs: seq<RestoreFrame>, chs: seq<Choice>)
    returns (u': User, g: RestoreFrame)
    requires Reachable(World(c, Guarding(cfg, u, hs + [f])))
    requires Acts(c, Restoring(f), cfg, chs).1.Idle?
    ensures g.pc == Done && (!LockNoted(u) ==> u' == u)
    ensures Reachable(World(Acts(c, Restoring(f), cfg, chs).0, Guarding(cfg, u', hs + [g])))
    decreases |chs|
  {
    if f.pc == Done {
      StaysIdle(c, cfg, chs[1..]);
      u', g := u, f;
    } else {
      var hs1 := hs + [f];
      assert Top(hs1) == f && hs1[..|hs1| - 1] == hs;
      var w := Take(World(c, Guarding(cfg, u, hs1)), HandlerAction(chs[0].ok));
      var (d, e) := RestoreStep(c, f, chs[0].ok);
      u', g := HandlerMirrors(d, e, cfg, AfterHandler(u, f), hs, chs[1..]);
    }
  }

  lemma {:induction false} StaysIdle(c: Core, cfg: Config, chs: seq<Choice>)
    ensures Acts(c, Idle, cfg, chs) == (c, Idle)
    decreases |chs|
  {
    if chs != [] {
      StaysIdle(c, cfg, chs[1..]);
    }
  }

  /** The promise of the whole module: from any reachable point at which signals are not blocked,
      in the middle of any call and on top of any other restores, one delivered signal whose I/O
      works leaves an unlocked device at the operator's limit, a disarmed guard and no claim of its
      own outstanding, with the interrupted calls still there to resume; exactly when nothing is
      owed or a limit to write back is known. Otherwise the record says that the restore failed. */
  lemma SignalReturnsToStock(w: World) returns (w': World)
    requires Reachable(w) && w.proc.Guarding? && Unblocked(w.proc)
    requires w.core.mem.published && w.core.mem.state.Some?
    ensures Reachable(w') && w'.proc.Guarding?
    ensures |w'.proc.handlers| == |w.proc.handlers| + 1 && Top(w'.proc.handlers).pc == Done
    ensures forall i :: 0 <= i < |w.proc.handlers| ==> w'.proc.handlers[i] == w.proc.handlers[i]
    ensures !w'.core.mem.armed <==> w.core.mem.restored || TargetKnown(w.core.mem.state.value)
    ensures !w'.core.mem.armed ==>
              && Unmodified(w'.core.dev)
              && Rightful(w'.core, w'.core.dev.power)
              && (w.core.mem.armed ==> !Owed(w'.core.disk))
    ensures w'.core.mem.armed ==> Owed(w'.core.disk) && w'.core.disk.rec.restoreFailed
  {
    ReachableOk(w);
    var c, cfg, hs := w.core, w.proc.cfg, w.proc.handlers;
    var w1 := Take(w, Signal);
    var chs := RestoreCallRuns(c, cfg, true, true, true);
    var d := RestoreCall(c, true, true, true).0;
    var u', g := HandlerMirrors(c, NEW_RESTORE, cfg, w.proc.user, hs, chs);
    w' := World(d, Guarding(cfg, u', hs + [g]));
    ReachableOk(w');
  }
}
