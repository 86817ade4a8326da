/** Any number of guard objects on one state file in one process, used by complete calls in any
    order: at most one of them holds the device, and only that one touches the file or the card. */
module GuardSessions {
  import opened GuardTypes
  import opened GuardProtocol
  import opened GuardInvariant
  import opened GuardCalls
  import opened GuardObjects

  /** What a guard's fields say about the file between calls. */
  predicate Settled(c: Core) {
    var m := c.mem;
    && (m.armed ==> m.published)
    && (!m.restored ==> m.armed)
    && (m.published ==> m.state.Some? && m.snapshot == Some(m.state.value.snapshot))
    && (m.armed ==>
          && !m.state.value.restored
          && Owed(c.disk)
          && c.disk.rec.stamp == m.state.value.stamp
          && c.disk.rec.pid == m.state.value.pid)
    && (m.published && !m.armed ==> m.state.value.restored)
    && (c.dev.lock.Some? || c.dev.capped ==>
          && Owed(c.disk)
          && (m.armed ==> !m.restored && (c.dev.capped ==> m.state.value.powerWritten.Some?)))
  }

  /** At most one guard is armed; its record is on disk, and no card but its own is modified. */
  ghost predicate OneClaim(file: StateFile, gs: set<GpuGuard>)
    reads file, gs, set g: GpuGuard | g in gs :: g.c.gpu
  {
    && (forall g: GpuGuard :: g in gs ==> g.file == file && Settled(g.View()))
    && (forall g: GpuGuard, h: GpuGuard :: g in gs && h in gs && g.armed && h.armed ==> g == h)
    && (forall g: GpuGuard, h: GpuGuard :: g in gs && h in gs && g.armed && !Unmodified(h.c.gpu.Dev()) ==>
        g.c.gpu == h.c.gpu)
  }

  lemma RestoreCallSettles(c: Core, reset: bool, limit: bool, write: bool)
    requires Settled(c)
    ensures var (d, out) := RestoreCall(c, reset, limit, write);
            && Settled(d)
            && (!c.mem.armed ==> d == c)
            && (d.mem.armed ==> c.mem.armed)
            && (!d.mem.armed && c.mem.armed ==> Unmodified(d.dev) && !Owed(d.disk))
            && (Unmodified(c.dev) ==> Unmodified(d.dev))
  {
  }

  lemma ArmCallSettles(c: Core, cfg: Config, claim: bool, write: bool, sees: Reading)
    requires Settled(c)
    ensures var (d, out) := ArmCall(c, cfg, claim, write, sees);
            && Settled(d)
            && d.dev == c.dev
            && (out.Returned? <==> d.mem.armed)
            && (d.disk != c.disk ==> !Owed(c.disk) && d.mem.armed)
            && (Owed(c.disk) ==> d.mem.armed == c.mem.armed && d.disk == c.disk)
            && (out.Returned? && !c.mem.armed ==> !Owed(c.disk) && Unmodified(c.dev))
  {
  }

  lemma ArmedWriteCallSettles(c: Core, cfg: Config, op: Op, write: bool, device: bool)
    requires Settled(c) && c.mem.armed
    ensures var (d, out) := ArmedWriteCall(c, cfg, op, write, device);
            Settled(d) && d.mem.armed
  {
  }

  lemma WriteCallSettles(
      c: Core, cfg: Config, op: Op, claim: bool, publish: bool, sees: Reading, write: bool, device: bool)
    requires Settled(c)
    ensures var (d, out) := WriteCall(c, cfg, op, claim, publish, sees, write, device);
            && Settled(d)
            && (!d.mem.armed ==> d.dev == c.dev && d.disk == c.disk)
            && (Owed(c.disk) && !c.mem.armed ==> !d.mem.armed)
            && (c.mem.armed ==> d.mem.armed)
            && (d.disk != c.disk ==> c.mem.armed || !Owed(c.disk))
  {
    if cfg.consent && ClockAllowed(op, cfg.floor) {
      ArmCallSettles(c, cfg, claim, publish, sees);
      var (d, armed) := ArmCall(c, cfg, claim, publish, sees);
      if armed.Returned? {
        ArmedWriteCallSettles(d, cfg, op, write, device);
      }
    }
  }

  /** Guards just made on a file hold no claim, whatever an earlier process left in the file, as long
      as it left the cards unmodified or its record unrestored. */
  lemma FreshGuardsHoldNoClaim(file: StateFile, gs: set<GpuGuard>)
    requires forall g: GpuGuard :: g in gs ==> g.file == file && g.View().mem == FRESH
    requires forall g: GpuGuard :: g in gs ==> Unmodified(g.c.gpu.Dev()) || Owed(file.content)
    ensures OneClaim(file, gs)
  {
    forall g: GpuGuard | g in gs ensures Settled(g.View()) && !g.armed {
      assert g.View().mem == FRESH;
    }
  }

  datatype Call = DoArm(g: GpuGuard) | DoWrite(g: GpuGuard, op: Op) | DoRestore(g: GpuGuard)

  /** What a complete call of one guard may do to what other guards rely on: it takes the file only
      when nothing is owed or it holds the claim, and a guard that ends up disarmed leaves its card
      as it was or unmodified. */
  predicate Considerate(c: Core, d: Core) {
    && Settled(d)
    && (d.mem.armed && !c.mem.armed ==> !Owed(c.disk))
    && (d.disk != c.disk ==> c.mem.armed || !Owed(c.disk))
    && (!c.mem.armed && !d.mem.armed ==> d.dev == c.dev && d.disk == c.disk)
    && (c.mem.armed && !d.mem.armed ==> Unmodified(d.dev) && !Owed(d.disk))
  }

  /** One complete call. A guard that was not armed leaves through `restore` without a trace. */
  method PerformOne(call: Call) returns (out: Outcome)
    requires Settled(call.g.View())
    modifies call.g, call.g.c, call.g.c.gpu, call.g.file
    ensures Considerate(old(call.g.View()), call.g.View())
    ensures call.DoRestore? && !old(call.g.armed) ==> call.g.View() == old(call.g.View())
    ensures call.DoArm? && out.Returned? && !old(call.g.armed) ==>
              && !old(Owed(call.g.file.content))
              && Unmodified(call.g.c.gpu.Dev())
              && call.g.snapshot.Some?
              && (call.g.snapshot.value.limit.Some? ==> call.g.snapshot.value.limit.value == call.g.c.gpu.power)
  {
    var g := call.g;
    ghost var before := g.View();
    match call {
      case DoArm(_) =>
        ghost var claim, write, sees;
        out, claim, write, sees := g.Arm();
        ArmCallSettles(before, g.cfg, claim, write, sees);
      case DoWrite(_, op) =>
        ghost var claim, publish, sees, write, device;
        out, claim, publish, sees, write, device := g.Apply(op);
        WriteCallSettles(before, g.cfg, op, claim, publish, sees, write, device);
      case DoRestore(_) =>
        ghost var reset, limit, write;
        out, reset, limit, write := g.Restore();
        RestoreCallSettles(before, reset, limit, write);
    }
  }

  /** One complete call of any of the guards on a file. */
  method Perform(file: StateFile, gs: set<GpuGuard>, call: Call) returns (out: Outcome)
    requires OneClaim(file, gs) && call.g in gs
    modifies call.g, call.g.c, call.g.c.gpu, file
    ensures OneClaim(file, gs)
    ensures call.DoRestore? && !old(call.g.armed) ==>
              file.content == old(file.content) && call.g.View() == old(call.g.View())
    ensures call.DoArm? && out.Returned? && !old(call.g.armed) ==>
              && !old(Owed(file.content))
              && Unmodified(call.g.c.gpu.Dev())
              && call.g.snapshot.Some?
              && (call.g.snapshot.value.limit.Some? ==> call.g.snapshot.value.limit.value == call.g.c.gpu.power)
  {
    var g := call.g;
    out := PerformOne(call);
    forall h: GpuGuard | h in gs && h != g
      ensures Settled(h.View()) && h.armed == old(h.armed)
    {
      assert Settled(old(h.View()));
    }
  }

  /** Any sequence of complete calls. */
  method PerformAll(file: StateFile, gs: set<GpuGuard>, calls: seq<Call>)
    requires OneClaim(file, gs)
    requires forall i :: 0 <= i < |calls| ==> calls[i].g in gs
    modifies file, gs, (set g: GpuGuard | g in gs :: g.c), (set g: GpuGuard | g in gs :: g.c.gpu)
    ensures OneClaim(file, gs)
    ensures forall g: GpuGuard, h: GpuGuard :: g in gs && h in gs && g.armed && h.armed ==> g == h
    ensures forall g: GpuGuard :: g in gs && g.armed ==>
              Owed(file.content) && g.state.Some? && file.content.rec.stamp == g.state.value.stamp
    ensures forall g: GpuGuard :: g in gs && !Unmodified(g.c.gpu.Dev()) ==> Owed(file.content)
  {
    for i := 0 to |calls|
      invariant OneClaim(file, gs)
    {
      var _ := Perform(file, gs, calls[i]);
    }
    forall g: GpuGuard | g in gs
      ensures g.armed ==> Owed(file.content) && g.state.Some? && file.content.rec.stamp == g.state.value.stamp
      ensures !Unmodified(g.c.gpu.Dev()) ==> Owed(file.content)
    {
      assert Settled(g.View());
    }
  }
}
