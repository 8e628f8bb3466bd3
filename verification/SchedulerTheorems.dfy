/** The run queue over every run, and the bound on how long a READY process waits. */
module SchedulerTheorems {
  import opened SchedulerModel

  predicate Distinct(s: seq<nat>) {
    forall i, j :: 0 <= i < j < |s| ==> s[i] != s[j]
  }

  /** A task that may stand in the run queue. */
  predicate Queued(k: Kernel, p: nat) {
    p in k.tasks && k.tasks[p] == Task(Ready, QUANTUM)
  }

  ghost predicate TableInv(k: Kernel) {
    && Distinct(k.procs)
    && (forall p :: p in k.tasks <==> p in k.procs)
    && (forall p :: p in k.tasks ==> k.tasks[p].credit <= QUANTUM)
    && k.idleCredit <= 0
    && (k.cur.Proc? ==> k.cur.id in k.tasks)
  }

  ghost predicate QueueInv(k: Kernel) {
    Distinct(k.runqueue) && forall p :: p in k.runqueue ==> Queued(k, p)
  }

  /** Between steps: no task is queued twice, the current task is not queued,
      and the queue holds only READY tasks with a full quantum. */
  ghost predicate SchedInv(k: Kernel) {
    TableInv(k) && QueueInv(k) && (k.cur.Proc? ==> k.cur.id !in k.runqueue)
  }

  lemma BootQueue(procs: seq<nat>, tasks: map<nat, Task>)
    requires Distinct(procs) && (forall p :: p in tasks <==> p in procs)
    requires forall p :: p in tasks ==> tasks[p].credit <= QUANTUM
    ensures SchedInv(Boot(procs, tasks))
  {
  }

  // ---- Steps that do not switch ---------------------------------------------------------

  lemma WakeKeeps(k: Kernel, p: nat)
    requires SchedInv(k)
    ensures SchedInv(SetState(k, p, Ready))
  {
  }

  /** Only task states change, and only to READY. */
  ghost predicate OnlyWoken(k: Kernel, r: Kernel) {
    && r.procs == k.procs && r.runqueue == k.runqueue && r.cur == k.cur && r.idleCredit == k.idleCredit
    && r.tasks.Keys == k.tasks.Keys
    && (forall p :: p in k.tasks ==> r.tasks[p] == k.tasks[p] || r.tasks[p] == k.tasks[p].(state := Ready))
  }

  lemma {:induction false} FireOnlyWakes(k: Kernel)
    requires SchedInv(k)
    ensures SchedInv(FireTimers(k)) && OnlyWoken(k, FireTimers(k))
    decreases |k.timers|
  {
    if k.timers != [] && k.timers[0].fire < k.jiffies {
      var e := k.timers[0];
      WakeKeeps(k, e.proc);
      FireOnlyWakes(SetState(k, e.proc, Ready).(timers := k.timers[1..], log := k.log + [Firing(e, k.jiffies)]));
    }
  }

  lemma ChargeKeeps(k: Kernel)
    requires SchedInv(k)
    ensures SchedInv(Charge(k)) && Charge(k).runqueue == k.runqueue && Charge(k).procs == k.procs &&
        Charge(k).cur == k.cur
    ensures forall p :: p in k.tasks ==> p in Charge(k).tasks && Charge(k).tasks[p].state == k.tasks[p].state
    ensures k.cur.Proc? ==> CurrentCredit(Charge(k)) == CurrentCredit(k) - 1
    ensures k.cur.Idle? ==> CurrentCredit(Charge(k)) < 0
  {
  }

  // ---- Refilling the queue ----------------------------------------------------------------

  lemma {:induction false} ScheduleFills(k: Kernel, i: nat)
    requires TableInv(k) && QueueInv(k) && i <= |k.procs|
    requires forall p :: p in k.runqueue ==> p in k.procs[..i]
    ensures var r := ScheduleFrom(k, i);
      && TableInv(r) && QueueInv(r) && r.procs == k.procs && r.cur == k.cur
      && (forall p :: p in k.tasks ==> r.tasks[p].state == k.tasks[p].state)
      && |r.runqueue| <= |k.runqueue| + |k.procs| - i
      && (forall p :: p in k.runqueue ==> p in r.runqueue)
      && (forall p :: p in k.procs[i..] && k.tasks[p].state == Ready ==> p in r.runqueue)
    decreases |k.procs| - i
  {
    if i < |k.procs| {
      var p := k.procs[i];
      assert k.procs[..i + 1] == k.procs[..i] + [p] && k.procs[i..] == [p] + k.procs[i + 1..];
      NotYetQueued(k, i);
      hide QueueInv, Distinct;
      if k.tasks[p].state == Ready {
        var u := k.(tasks := k.tasks[p := Task(Ready, QUANTUM)], runqueue := [p] + k.runqueue);
        PushKeeps(k, p);
        ScheduleFills(u, i + 1);
      } else {
        ScheduleFills(k, i + 1);
      }
    }
  }

  lemma NotYetQueued(k: Kernel, i: nat)
    requires Distinct(k.procs) && i < |k.procs| && forall p :: p in k.runqueue ==> p in k.procs[..i]
    ensures k.procs[i] !in k.runqueue
  {
    assert forall j :: 0 <= j < i ==> k.procs[j] != k.procs[i];
  }

  lemma PushKeeps(k: Kernel, p: nat)
    requires TableInv(k) && QueueInv(k) && p in k.tasks && p !in k.runqueue && k.tasks[p].state == Ready
    ensures var u := k.(tasks := k.tasks[p := Task(Ready, QUANTUM)], runqueue := [p] + k.runqueue);
      TableInv(u) && QueueInv(u)
  {
  }

  lemma DispatchKeeps(k: Kernel)
    requires TableInv(k) && QueueInv(k)
    ensures SchedInv(Dispatch(k))
  {
    var r := Dispatch(k);
    if k.runqueue != [] {
      var p := k.runqueue[0];
      assert Queued(k, p);
      assert forall q :: q in r.runqueue ==> q in k.runqueue && q != p;
    }
  }

  lemma PreemptKeeps(k: Kernel)
    requires TableInv(k) && QueueInv(k)
    ensures var r := Preempt(k);
      && TableInv(r) && QueueInv(r) && r.runqueue == k.runqueue && r.cur == k.cur && r.procs == k.procs
      && (forall p :: p in k.tasks ==> p in r.tasks && (k.tasks[p].state == Ready ==> r.tasks[p].state == Ready))
  {
  }

  lemma SwitchKeeps(k: Kernel)
    requires SchedInv(k)
    ensures SchedInv(Switch(k))
  {
    if k.runqueue == [] { ScheduleFills(k, 0); }
    var f := if k.runqueue == [] then ScheduleFrom(k, 0) else k;
    PreemptKeeps(f);
    DispatchKeeps(Preempt(f));
  }

  lemma TickKeeps(k: Kernel)
    requires SchedInv(k)
    ensures SchedInv(Tick(k))
  {
    hide FireTimers, Switch, Charge, SchedInv;
    var now := k.(jiffies := k.jiffies + 1);
    SameButClock(k);
    FireOnlyWakes(now);
    ChargeKeeps(FireTimers(now));
    SwitchKeeps(Charge(FireTimers(now)));
  }

  lemma SameButClock(k: Kernel)
    requires SchedInv(k)
    ensures SchedInv(k.(jiffies := k.jiffies + 1))
  {
  }

  lemma StepKeeps(k: Kernel, op: Op)
    requires SchedInv(k)
    ensures SchedInv(Step(k, op))
  {
    match op
    case TickOp => TickKeeps(k);
    case SleepOp(sec, nsec, granted) =>
    case WaitOp =>
    case WakeOp(p) =>
  }

  /** Over every run of ticks and system calls. */
  lemma {:induction false} QueueOverRuns(k: Kernel, ops: seq<Op>)
    requires SchedInv(k)
    ensures SchedInv(Run(k, ops))
    decreases |ops|
  {
    hide SchedInv, Step;
    if ops != [] {
      StepKeeps(k, ops[0]);
      QueueOverRuns(Step(k, ops[0]), ops[1..]);
    }
  }

  // ---- Bounded waiting --------------------------------------------------------------------

  /** Process p is READY and does not run. */
  predicate Waiting(k: Kernel, p: nat) {
    p in k.tasks && k.tasks[p].state == Ready && k.cur != Proc(p)
  }

  function Position(q: seq<nat>, p: nat): (i: nat)
    requires p in q
    ensures i < |q| && q[i] == p
  {
    if q[0] == p then 0 else 1 + Position(q[1..], p)
  }

  /** Ticks until the current task must give way. */
  function Remaining(k: Kernel): (n: nat)
    ensures n >= 1
  {
    if k.cur.Proc? && k.cur.id in k.tasks && k.tasks[k.cur.id].credit > 1 then k.tasks[k.cur.id].credit else 1
  }

  /** An upper bound on the ticks until p runs. */
  function Bound(k: Kernel, p: nat): (n: nat)
    ensures n >= 1
  {
    if p in k.runqueue then Remaining(k) + 10 * Position(k.runqueue, p)
    else Remaining(k) + 10 * |k.runqueue| + 10 * |k.procs|
  }

  lemma BoundIsSmall(k: Kernel, p: nat)
    requires SchedInv(k) && Waiting(k, p)
    ensures Bound(k, p) <= 10 * (|k.runqueue| + |k.procs| + 1)
  {
  }

  lemma PositionAfterPop(q: seq<nat>, p: nat)
    requires Distinct(q) && p in q && q[0] != p
    ensures p in q[1..] && Position(q[1..], p) == Position(q, p) - 1
  {
  }

  /** A switch runs the waiting process or brings it closer. */
  lemma SwitchServes(k: Kernel, p: nat)
    requires SchedInv(k) && Waiting(k, p)
    ensures var r := Switch(k);
      || r.cur == Proc(p)
      || (Waiting(r, p) &&
          Bound(r, p) <= (if p in k.runqueue then 10 * Position(k.runqueue, p) else 10 * |k.runqueue| + 10 * |k.procs|))
  {
    var f := if k.runqueue == [] then ScheduleFrom(k, 0) else k;
    if k.runqueue == [] {
      ScheduleFills(k, 0);
      assert k.procs[0..] == k.procs;
    }
    PreemptKeeps(f);
    var g := Preempt(f);
    DispatchServes(g, p);
  }

  lemma DispatchServes(g: Kernel, p: nat)
    requires TableInv(g) && QueueInv(g) && p in g.tasks && g.tasks[p].state == Ready && g.runqueue != []
    ensures var r := Dispatch(g);
      || r.cur == Proc(p)
      || (Waiting(r, p)
          && (p in g.runqueue ==> Bound(r, p) == 10 * Position(g.runqueue, p))
          && (p !in g.runqueue ==> Bound(r, p) == 10 * |g.runqueue| + 10 * |g.procs|))
  {
    var r, q := Dispatch(g), g.runqueue[0];
    assert Queued(g, q) && r.tasks[q].credit == QUANTUM;
    if q != p {
      if p in g.runqueue {
        PositionAfterPop(g.runqueue, p);
      } else {
        assert forall x :: x in r.runqueue ==> x in g.runqueue;
      }
    }
  }

  /** Each tick runs the waiting process or lowers its bound. */
  lemma TickServes(k: Kernel, p: nat)
    requires SchedInv(k) && Waiting(k, p)
    ensures var r := Tick(k);
      SchedInv(r) && (r.cur == Proc(p) || (Waiting(r, p) && Bound(r, p) < Bound(k, p)))
  {
    TickKeeps(k);
    hide FireTimers, Switch, Charge, SchedInv, Position;
    SameButClock(k);
    var now := k.(jiffies := k.jiffies + 1);
    FireOnlyWakes(now);
    var fired := FireTimers(now);
    ChargeKeeps(fired);
    var charged := Charge(fired);
    assert Waiting(charged, p) && charged.runqueue == k.runqueue && charged.procs == k.procs && charged.cur == k.cur;
    RemainingDrops(k, fired);
    if fired.cur.NoTask? || CurrentCredit(charged) <= 0 {
      SwitchServes(charged, p);
    }
  }

  lemma RemainingDrops(k: Kernel, fired: Kernel)
    requires OnlyWoken(k, fired) && SchedInv(fired)
    ensures var charged := Charge(fired);
      !fired.cur.NoTask? && CurrentCredit(charged) > 0 ==> Remaining(charged) == Remaining(k) - 1
  {
  }

  lemma OtherStepServes(k: Kernel, p: nat, op: Op)
    requires SchedInv(k) && Waiting(k, p) && !op.TickOp?
    ensures var r := Step(k, op); SchedInv(r) && Waiting(r, p) && Bound(r, p) <= Bound(k, p)
  {
    StepKeeps(k, op);
  }

  function TicksIn(ops: seq<Op>): nat {
    if ops == [] then 0 else (if ops[0].TickOp? then 1 else 0) + TicksIn(ops[1..])
  }

  /** Every READY process runs within its bound, whatever sleeps, waits and
      wake-ups happen in between. */
  lemma {:induction false} RunsWithinBound(k: Kernel, p: nat, ops: seq<Op>) returns (n: nat)
    requires SchedInv(k) && Waiting(k, p) && TicksIn(ops) >= Bound(k, p)
    ensures n <= |ops| && Run(k, ops[..n]).cur == Proc(p)
    decreases |ops|
  {
    hide Tick, Sleep, Wait, Wake, SchedInv, Waiting, Bound;
    var op, rest := ops[0], ops[1..];
    var m: nat := 0;
    if op.TickOp? {
      TickServes(k, p);
      if Tick(k).cur != Proc(p) { m := RunsWithinBound(Tick(k), p, rest); }
    } else {
      OtherStepServes(k, p, op);
      m := RunsWithinBound(Step(k, op), p, rest);
    }
    n := m + 1;
    assert ops[..n][0] == op && ops[..n][1..] == rest[..m];
  }

  lemma BoundedWaiting(k: Kernel, p: nat, ops: seq<Op>)
    requires SchedInv(k) && Waiting(k, p)
    requires TicksIn(ops) >= 10 * (|k.runqueue| + |k.procs| + 1)
    ensures exists n :: 0 <= n <= |ops| && Run(k, ops[..n]).cur == Proc(p)
  {
    BoundIsSmall(k, p);
    var n := RunsWithinBound(k, p, ops);
  }
}
