/** What one tick and one system call do to every process: who is woken, who gives way, who
    runs next, and who stays blocked. */
module TickTheorems {
  import opened SchedulerModel
  import opened SchedulerTheorems
  import opened TimerTheorems

  // ---- Wake-ups -------------------------------------------------------------------------------

  /** Some event of the list is for process p. */
  ghost predicate Named(timers: seq<Event>, p: nat) {
    exists i :: 0 <= i < |timers| && timers[i].proc == p
  }

  /** The next tick fires an event of process p. */
  ghost predicate Due(k: Kernel, p: nat) {
    AllBefore(k.timers, k.jiffies + 1) && Named(k.timers, p)
  }

  lemma NamedRest(timers: seq<Event>, p: nat)
    requires timers != []
    ensures Named(timers, p) <==> timers[0].proc == p || Named(timers[1..], p)
  {
    if Named(timers, p) && timers[0].proc != p {
      var i :| 0 <= i < |timers| && timers[i].proc == p;
      assert timers[1..][i - 1].proc == p;
    }
    if Named(timers[1..], p) {
      var i :| 0 <= i < |timers[1..]| && timers[1..][i].proc == p;
      assert timers[i + 1].proc == p;
    }
  }

  /** Firing makes the processes named READY, and leaves every other task, the queue and the
      processor alone. */
  lemma {:induction false} FiringWakes(k: Kernel)
    requires Descending(k.timers) && k.timers != [] && k.timers[0].fire < k.jiffies
    ensures var r := FireTimers(k);
      && r.tasks.Keys == k.tasks.Keys && r.runqueue == k.runqueue && r.procs == k.procs
      && r.idleCredit == k.idleCredit
      && forall p :: p in k.tasks ==>
           r.tasks[p] == if Named(k.timers, p) then k.tasks[p].(state := Ready) else k.tasks[p]
    decreases |k.timers|
  {
    hide Named;
    var e, rest := k.timers[0], k.timers[1..];
    var u := SetState(k, e.proc, Ready).(timers := rest, log := k.log + [Firing(e, k.jiffies)]);
    forall p ensures Named(k.timers, p) <==> e.proc == p || Named(rest, p) { NamedRest(k.timers, p); }
    if rest == [] {
      assert FireTimers(u) == u;
      forall p ensures !Named(rest, p) { NothingNamed(p); }
    } else {
      assert rest[0].fire <= e.fire;
      FiringWakes(u);
    }
  }

  lemma NothingNamed(p: nat)
    ensures !Named([], p)
  {
  }

  // ---- A tick, process by process ---------------------------------------------------------------

  /** The state of a process once the due events have fired. */
  ghost function StateWhenFired(k: Kernel, p: nat): TaskState
    requires p in k.tasks
  {
    if Due(k, p) then Ready else k.tasks[p].state
  }

  /** The current task has credit left and keeps the processor. */
  predicate Keeps(k: Kernel) {
    k.cur.Proc? && k.cur.id in k.tasks && k.tasks[k.cur.id].credit > 1
  }

  /** The processes that a refill queues: those READY, the last slot in front. */
  ghost predicate Refilled(k: Kernel, q: seq<nat>) {
    && (forall p :: p in q <==> p in k.tasks && StateWhenFired(k, p) == Ready)
    && Falling(k.procs, q)
  }

  /** Each element of q stands in the table, further down than the next one. */
  ghost predicate Falling(procs: seq<nat>, q: seq<nat>) {
    exists at: seq<nat> :: |at| == |q| && (forall i :: 0 <= i < |q| ==> at[i] < |procs| && procs[at[i]] == q[i])
      && forall i, j :: 0 <= i < j < |q| ==> at[i] > at[j]
  }

  /** A tick that lets the current task go on: it costs a credit, the processes due become READY,
      and nothing else happens. */
  ghost predicate GoesOn(k: Kernel, r: Kernel) {
    && r.cur == k.cur && r.runqueue == k.runqueue && r.idleCredit == k.idleCredit && r.tasks.Keys == k.tasks.Keys
    && forall p :: p in k.tasks ==>
         && r.tasks[p].state == StateWhenFired(k, p)
         && r.tasks[p].credit == k.tasks[p].credit - if k.cur == Proc(p) then 1 else 0
  }

  /** A tick that switches, with q the queue to choose from: the head runs, the task that gave way
      is READY, and every other process keeps its state. */
  ghost predicate Switches(k: Kernel, r: Kernel, q: seq<nat>) {
    && r.tasks.Keys == k.tasks.Keys
    && r.cur == (if q == [] then Idle else Proc(q[0]))
    && r.runqueue == (if q == [] then [] else q[1..])
    && forall p :: p in k.tasks ==>
         && r.tasks[p].state ==
              (if r.cur == Proc(p) then Running else if k.cur == Proc(p) then Ready else StateWhenFired(k, p))
         && (p in q ==> r.tasks[p].credit == QUANTUM)
         && (p !in q ==> r.tasks[p].credit == k.tasks[p].credit - if k.cur == Proc(p) then 1 else 0)
  }

  /** A refill queues the READY processes of the slots from i on, the last one in front, and gives
      each a quantum; no other task changes. */
  lemma {:induction false} RefillMeans(k: Kernel, i: nat) returns (q: seq<nat>, at: seq<nat>)
    requires Distinct(k.procs) && i <= |k.procs|
    ensures var r := ScheduleFrom(k, i);
      && r.runqueue == q + k.runqueue && r.tasks.Keys == k.tasks.Keys
      && r.cur == k.cur && r.procs == k.procs && r.idleCredit == k.idleCredit
      && (forall p :: p in q <==> p in k.procs[i..] && p in k.tasks && k.tasks[p].state == Ready)
      && (forall p :: p in k.tasks ==> r.tasks[p] == if p in q then Task(Ready, QUANTUM) else k.tasks[p])
    ensures |at| == |q| && (forall j :: 0 <= j < |q| ==> i <= at[j] < |k.procs| && k.procs[at[j]] == q[j])
    ensures forall j, n :: 0 <= j < n < |q| ==> at[j] > at[n]
    decreases |k.procs| - i
  {
    if i >= |k.procs| {
      q, at := [], [];
      assert [] + k.runqueue == k.runqueue;
    } else {
      var p := k.procs[i];
      assert k.procs[i..] == [p] + k.procs[i + 1..];
      assert p !in k.procs[i + 1..] by { SlotOnce(k.procs, i); }
      hide Distinct;
      if p in k.tasks && k.tasks[p].state == Ready {
        var u := k.(tasks := k.tasks[p := Task(Ready, QUANTUM)], runqueue := [p] + k.runqueue);
        var q1, at1 := RefillMeans(u, i + 1);
        q, at := q1 + [p], at1 + [i];
        assert q1 + ([p] + k.runqueue) == q + k.runqueue;
      } else {
        q, at := RefillMeans(k, i + 1);
      }
    }
  }

  lemma SlotOnce(procs: seq<nat>, i: nat)
    requires Distinct(procs) && i < |procs|
    ensures procs[i] !in procs[i + 1..]
  {
  }

  /** The state after the due events have fired and the current task was charged. */
  ghost predicate Charged(k: Kernel, c: Kernel) {
    && c.tasks.Keys == k.tasks.Keys && c.runqueue == k.runqueue && c.procs == k.procs && c.cur == k.cur
    && c.idleCredit == k.idleCredit - (if k.cur.Idle? then 1 else 0)
    && forall p :: p in k.tasks ==>
         && c.tasks[p].state == StateWhenFired(k, p)
         && c.tasks[p].credit == k.tasks[p].credit - if k.cur == Proc(p) then 1 else 0
  }

  lemma FiredAndCharged(k: Kernel)
    requires SchedInv(k) && Descending(k.timers)
    ensures var fired := FireTimers(k.(jiffies := k.jiffies + 1));
      Charged(k, Charge(fired)) && (!fired.cur.NoTask? && CurrentCredit(Charge(fired)) > 0 <==> Keeps(k))
  {
    hide FireTimers, Named, Distinct;
    var now := k.(jiffies := k.jiffies + 1);
    FiresAllOrNothing(now);
    if k.timers != [] && k.timers[0].fire < now.jiffies {
      FiringWakes(now);
      assert AllBefore(k.timers, now.jiffies);
    } else {
      forall p ensures !Due(k, p) { NotDue(k, p); }
    }
  }

  lemma NotDue(k: Kernel, p: nat)
    requires k.timers == [] || k.timers[0].fire >= k.jiffies + 1
    ensures !Due(k, p)
  {
  }

  /** A tick, in full.  The current task goes on while it has credit.  Otherwise the processor goes to
      the head of the queue, refilled with the READY processes if it was empty, or idles if there is
      none; and the task that gave way is READY. */
  lemma TickMeans(k: Kernel) returns (q: seq<nat>)
    requires SchedInv(k) && Descending(k.timers)
    ensures var r := Tick(k);
      && r.procs == k.procs && r.jiffies == k.jiffies + 1 && r.sleeps == k.sleeps
      && (Keeps(k) ==> GoesOn(k, r))
      && (!Keeps(k) ==>
            && Switches(k, r, q) && r.idleCredit == k.idleCredit - (if k.cur.Idle? then 1 else 0)
            && if k.runqueue != [] then q == k.runqueue else Refilled(k, q))
  {
    hide FireTimers, Charge, Switch, CurrentCredit, StateWhenFired, SchedInv, Switches, Refilled, Descending;
    FiredAndCharged(k);
    TickTimers(k);
    FiresAllOrNothing(k.(jiffies := k.jiffies + 1));
    var c := Charge(FireTimers(k.(jiffies := k.jiffies + 1)));
    q := ChargedSwitches(k, c);
  }

  /** The queue to choose from: the run queue, or a refill. */
  function Filled(c: Kernel): Kernel {
    if c.runqueue == [] then ScheduleFrom(c, 0) else c
  }

  /** A full queue: those in it have a quantum, and no other task differs. */
  ghost predicate Fills(c: Kernel, f: Kernel) {
    && f.cur == c.cur && f.tasks.Keys == c.tasks.Keys && f.procs == c.procs && f.idleCredit == c.idleCredit
    && (forall p :: p in f.runqueue ==> p in c.tasks)
    && (forall p :: p in c.tasks ==>
          && f.tasks[p].state == c.tasks[p].state
          && f.tasks[p].credit == if p in f.runqueue then QUANTUM else c.tasks[p].credit)
  }

  lemma QueueFilled(k: Kernel, c: Kernel)
    requires SchedInv(k) && Charged(k, c)
    ensures Fills(c, Filled(c))
    ensures if k.runqueue != [] then Filled(c).runqueue == k.runqueue else Refilled(k, Filled(c).runqueue)
  {
    hide StateWhenFired, ScheduleFrom, Falling;
    if k.runqueue == [] {
      var q, at := RefillMeans(c, 0);
      assert q + [] == q && c.procs[0..] == c.procs;
      FallingAt(k.procs, q, at);
    } else {
      QueuedReady(k, c);
    }
  }

  lemma ChargedSwitches(k: Kernel, c: Kernel) returns (q: seq<nat>)
    requires SchedInv(k) && Charged(k, c)
    ensures Switches(k, Switch(c), q) && Switch(c).idleCredit == c.idleCredit && Switch(c).procs == k.procs
    ensures if k.runqueue != [] then q == k.runqueue else Refilled(k, q)
  {
    hide StateWhenFired, Switch, SchedInv, Refilled, Filled;
    QueueFilled(k, c);
    q := Filled(c).runqueue;
    SwitchMeans(c);
  }

  lemma FallingAt(procs: seq<nat>, q: seq<nat>, at: seq<nat>)
    requires |at| == |q| && (forall i :: 0 <= i < |q| ==> at[i] < |procs| && procs[at[i]] == q[i])
    requires forall i, j :: 0 <= i < j < |q| ==> at[i] > at[j]
    ensures Falling(procs, q)
  {
  }

  lemma QueuedReady(k: Kernel, c: Kernel)
    requires SchedInv(k) && Charged(k, c)
    ensures forall p :: p in k.runqueue ==> p in k.tasks && c.tasks[p].credit == QUANTUM
  {
    hide StateWhenFired;
    forall p | p in k.runqueue
      ensures p in k.tasks && c.tasks[p].credit == QUANTUM
    {
      assert Queued(k, p);
    }
  }

  lemma SwitchMeans(c: Kernel)
    requires Fills(c, Filled(c))
    ensures var f, r := Filled(c), Switch(c);
      var q := f.runqueue;
      && r.cur == (if q == [] then Idle else Proc(q[0])) && r.runqueue == (if q == [] then [] else q[1..])
      && r.tasks.Keys == c.tasks.Keys && r.procs == f.procs && r.idleCredit == f.idleCredit
      && forall p :: p in c.tasks ==>
           && r.tasks[p].credit == f.tasks[p].credit
           && r.tasks[p].state ==
                if r.cur == Proc(p) then Running else if c.cur == Proc(p) then Ready else f.tasks[p].state
  {
    hide ScheduleFrom;
  }

  // ---- Giving way ---------------------------------------------------------------------------------

  /** A process that a tick takes the processor from is READY, and had used up its quantum. */
  lemma GivesWayReady(k: Kernel, c: nat)
    requires SchedInv(k) && Descending(k.timers) && k.cur == Proc(c) && Tick(k).cur != Proc(c)
    ensures Waiting(Tick(k), c) && k.tasks[c].credit <= 1
  {
    hide Tick, Refilled, StateWhenFired, Descending;
    var q := TickMeans(k);
  }

  /** The processor idles after a tick only if no process was READY. */
  lemma IdlesOnlyAlone(k: Kernel, p: nat)
    requires SchedInv(k) && Descending(k.timers) && Tick(k).cur == Idle && p in k.tasks && k.cur != Proc(p)
    ensures p in Tick(k).tasks && Tick(k).tasks[p].state != Ready
  {
    hide Tick, Descending, Due, Falling;
    var q := TickMeans(k);
  }

  /** A process that gives way runs again within the bound. */
  lemma RunsAgain(k: Kernel, c: nat, ops: seq<Op>)
    requires SchedInv(k) && Descending(k.timers) && k.cur == Proc(c) && Tick(k).cur != Proc(c)
    requires TicksIn(ops) >= 10 * (|Tick(k).runqueue| + |k.procs| + 1)
    ensures exists n :: 0 <= n <= |ops| && Run(Tick(k), ops[..n]).cur == Proc(c)
  {
    hide Tick, Run, Waiting, SchedInv, Descending, TicksIn;
    GivesWayReady(k, c);
    var q := TickMeans(k);
    TickKeeps(k);
    BoundedWaiting(Tick(k), c, ops);
  }

  // ---- Being woken --------------------------------------------------------------------------------

  /** A process with an event that the tick fires is READY after it, or runs. */
  lemma DueIsWoken(k: Kernel, p: nat)
    requires SchedInv(k) && Descending(k.timers) && p in k.tasks && Due(k, p)
    ensures p in Tick(k).tasks && (Tick(k).tasks[p].state == Ready || Tick(k).cur == Proc(p))
  {
    hide Tick, Descending, Refilled, Due;
    var q := TickMeans(k);
  }

  /** It runs within the bound. */
  lemma SleeperRuns(k: Kernel, p: nat, ops: seq<Op>)
    requires SchedInv(k) && Descending(k.timers) && p in k.tasks && Due(k, p)
    requires TicksIn(ops) >= 10 * (|Tick(k).runqueue| + |k.procs| + 1)
    ensures exists n :: 0 <= n <= |ops| && Run(Tick(k), ops[..n]).cur == Proc(p)
  {
    hide Tick, SchedInv, Descending, TicksIn, Due;
    DueIsWoken(k, p);
    var q := TickMeans(k);
    TickKeeps(k);
    if Tick(k).cur == Proc(p) {
      assert Run(Tick(k), ops[..0]) == Tick(k);
    } else {
      hide Run;
      BoundedWaiting(Tick(k), p, ops);
    }
  }

  /** A process woken by another is READY, nobody else is touched, and it runs within the bound. */
  lemma WokenRuns(k: Kernel, p: nat, ops: seq<Op>)
    requires SchedInv(k) && p in k.tasks && k.cur != Proc(p)
    requires TicksIn(ops) >= 10 * (|k.runqueue| + |k.procs| + 1)
    ensures Wake(k, p) == k.(tasks := k.tasks[p := Task(Ready, k.tasks[p].credit)])
    ensures exists n :: 0 <= n <= |ops| && Run(Wake(k, p), ops[..n]).cur == Proc(p)
  {
    hide Run, TicksIn;
    WakeKeeps(k, p);
    BoundedWaiting(Wake(k, p), p, ops);
  }

  ghost predicate Inv(k: Kernel) {
    SchedInv(k) && TimerInv(k)
  }

  lemma StepKeepsBoth(k: Kernel, op: Op)
    requires Inv(k)
    ensures Inv(Step(k, op))
  {
    hide SchedInv, TimerInv, Step;
    StepKeeps(k, op);
    StepKeepsTimers(k, op);
  }

  /** What the log gains in one step: at a tick that fires, the pending events, stamped with the time. */
  lemma LogStep(k: Kernel, op: Op)
    requires Inv(k)
    ensures var r := Step(k, op);
      && r.tasks.Keys == k.tasks.Keys && |r.log| >= |k.log| && r.log[..|k.log|] == k.log
      && (|r.log| > |k.log| ==> op.TickOp? && AllBefore(k.timers, k.jiffies + 1))
      && (op.TickOp? && AllBefore(k.timers, k.jiffies + 1) ==> |r.log| == |k.log| + |k.timers|)
      && forall i :: |k.log| <= i < |r.log| ==>
           i - |k.log| < |k.timers| && r.log[i] == Firing(k.timers[i - |k.log|], r.jiffies)
  {
    hide SchedInv, FireTimers, Tick, Accounted, InsertTimer, Deadline;
    if op.TickOp? {
      var now := k.(jiffies := k.jiffies + 1);
      FiresAllOrNothing(now);
      TickTimers(k);
      var q := TickMeans(k);
      hide TimerInv, Switches, GoesOn, Refilled;
      AllBeforeHead(k);
      var r, n := Tick(k), |k.log|;
      forall i | n <= i < |r.log|
        ensures i - n < |k.timers| && r.log[i] == Firing(k.timers[i - n], r.jiffies)
      {
        assert r.log[n + (i - n)] == Firing(k.timers[i - n], now.jiffies);
      }
    }
  }

  lemma AllBeforeHead(k: Kernel)
    requires Descending(k.timers)
    ensures AllBefore(k.timers, k.jiffies + 1) <==> k.timers == [] || k.timers[0].fire < k.jiffies + 1
  {
  }

  /** Every wake-up in the log was one: at the tick that wrote it, the process became READY, or ran. */
  lemma {:induction false} LoggedWasWoken(k: Kernel, ops: seq<Op>, i: nat) returns (n: nat)
    requires Inv(k) && |k.log| <= i < |Run(k, ops).log|
    requires Run(k, ops).log[i].event.proc in k.tasks
    ensures n < |ops| && ops[n] == TickOp
    ensures var f, r := Run(k, ops).log[i], Run(k, ops[..n + 1]);
      && f.at == r.jiffies && f in r.log && f.event.proc in r.tasks
      && (r.tasks[f.event.proc].state == Ready || r.cur == Proc(f.event.proc))
    decreases |ops|
  {
    hide Inv, Step, Due;
    var op, rest := ops[0], ops[1..];
    var t := Step(k, op);
    LogStep(k, op);
    StepKeepsBoth(k, op);
    LogKept(t, rest);
    var f := Run(k, ops).log[i];
    assert f == Run(t, rest).log[i];
    if i < |t.log| {
      n := 0;
      assert Run(t, rest).log[..|t.log|][i] == t.log[i];
      assert ops[..1][0] == op && ops[..1][1..] == [];
      assert Run(k, ops[..1]) == Run(t, []) == t;
      LoggedIsDue(k, i);
      StepIsTick(k);
      InvParts(k);
      DueIsWoken(k, f.event.proc);
    } else {
      var m := LoggedWasWoken(t, rest, i);
      n := m + 1;
      assert ops[..n + 1][0] == op && ops[..n + 1][1..] == rest[..m + 1];
    }
  }

  lemma InvParts(k: Kernel)
    requires Inv(k)
    ensures SchedInv(k) && Descending(k.timers)
  {
  }

  lemma LoggedIsDue(k: Kernel, i: nat)
    requires Inv(k) && |k.log| <= i < |Step(k, TickOp).log|
    ensures Due(k, Step(k, TickOp).log[i].event.proc)
  {
    hide Inv, Step;
    LogStep(k, TickOp);
    assert k.timers[i - |k.log|].proc == Step(k, TickOp).log[i].event.proc;
  }

  lemma {:induction false} LogKept(k: Kernel, ops: seq<Op>)
    requires Inv(k)
    ensures |Run(k, ops).log| >= |k.log| && Run(k, ops).log[..|k.log|] == k.log
    ensures Run(k, ops).tasks.Keys == k.tasks.Keys
    decreases |ops|
  {
    hide Inv, Step;
    if ops != [] {
      var t := Step(k, ops[0]);
      LogStep(k, ops[0]);
      StepKeepsBoth(k, ops[0]);
      LogKept(t, ops[1..]);
      assert Run(k, ops).log[..|k.log|] == Run(k, ops).log[..|t.log|][..|k.log|];
    }
  }

  // ---- Being blocked ------------------------------------------------------------------------------

  /** Process p is blocked and does not run. */
  predicate IsBlocked(k: Kernel, p: nat) {
    p in k.tasks && k.tasks[p].state == Blocked && k.cur != Proc(p)
  }

  /** The caller of a sleep that is granted is blocked, its event is pending at the deadline asked for,
      and the processor idles; nobody else is touched. */
  lemma SleepBlocks(k: Kernel, sec: int, nsec: int)
    requires SchedInv(k) && k.cur.Proc?
    ensures var p, r := k.cur.id, Sleep(k, sec, nsec, true);
      && IsBlocked(r, p) && r.cur == Idle && Event(k.sleeps, Deadline(sec, nsec, k.jiffies), p) in r.timers
      && r.sleeps == k.sleeps + 1 && r.tasks.Keys == k.tasks.Keys
      && (forall q :: q in k.tasks && q != p ==> r.tasks[q] == k.tasks[q])
      && r.tasks[p].credit == k.tasks[p].credit
    ensures Sleep(k, sec, nsec, false) == k
  {
    hide Deadline;
    Inserted(k.timers, Event(k.sleeps, Deadline(sec, nsec, k.jiffies), k.cur.id));
  }

  lemma {:induction false} Inserted(timers: seq<Event>, e: Event)
    ensures e in InsertTimer(timers, e)
  {
    if timers != [] && e.fire < timers[0].fire { Inserted(timers[1..], e); }
  }

  lemma WaitBlocks(k: Kernel)
    requires SchedInv(k) && k.cur.Proc?
    ensures var p, r := k.cur.id, Wait(k);
      IsBlocked(r, p) && r == k.(cur := Idle, tasks := k.tasks[p := Task(Blocked, k.tasks[p].credit)])
  {
  }

  /** A blocked process stays so until an event of its own fires or another process wakes it. */
  lemma BlockedStays(k: Kernel, p: nat, op: Op)
    requires Inv(k) && IsBlocked(k, p) && op != WakeOp(p) && (op.TickOp? ==> !Due(k, p))
    ensures IsBlocked(Step(k, op), p)
  {
    hide Tick, Due, Falling, TimerInv, InsertTimer, Deadline;
    if op.TickOp? {
      InvParts(k);
      var q := TickMeans(k);
      NotQueued(k, p);
    }
  }

  lemma NotQueued(k: Kernel, p: nat)
    requires SchedInv(k) && IsBlocked(k, p)
    ensures p !in k.runqueue
  {
    assert p in k.runqueue ==> Queued(k, p);
  }

  /** Over every run: as long as the log gains no event of the process and nobody wakes it. */
  lemma {:induction false} BlockedOverRuns(k: Kernel, p: nat, ops: seq<Op>)
    requires Inv(k) && IsBlocked(k, p) && WakeOp(p) !in ops
    requires forall i :: |k.log| <= i < |Run(k, ops).log| ==> Run(k, ops).log[i].event.proc != p
    ensures IsBlocked(Run(k, ops), p)
    decreases |ops|
  {
    hide Inv, Step, IsBlocked, Due;
    if ops != [] {
      var op, rest := ops[0], ops[1..];
      var t := Step(k, op);
      LogStep(k, op);
      StepKeepsBoth(k, op);
      LogKept(t, rest);
      assert Run(k, ops) == Run(t, rest);
      if op.TickOp? && Due(k, p) {
        var i := DueIsLogged(k, p);
        LogAt(t.log, Run(t, rest).log, i);
        assert false;
      }
      BlockedStays(k, p, op);
      BlockedOverRuns(t, p, rest);
    }
  }

  lemma LogAt(a: seq<Firing>, b: seq<Firing>, i: nat)
    requires i < |a| <= |b| && b[..|a|] == a
    ensures b[i] == a[i]
  {
    assert b[i] == b[..|a|][i];
  }

  lemma DueIsLogged(k: Kernel, p: nat) returns (i: nat)
    requires Inv(k) && Due(k, p)
    ensures |k.log| <= i < |Step(k, TickOp).log| && Step(k, TickOp).log[i].event.proc == p
  {
    hide Inv, Step;
    LogStep(k, TickOp);
    var j :| 0 <= j < |k.timers| && k.timers[j].proc == p;
    i := |k.log| + j;
  }
}
