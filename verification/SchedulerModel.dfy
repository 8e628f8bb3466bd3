/** The tick scheduler and the sleep timers as one state machine.  System calls
    run with interrupts masked, so each is one step; the processor switches to
    the chosen task when the clock interrupt returns. */
module SchedulerModel {
  import opened Basics

  datatype TaskState = Ready | Running | Blocked

  datatype Task = Task(state: TaskState, credit: int)

  /** What the processor runs: nothing yet, its idle task, or a process's task. */
  datatype Current = NoTask | Idle | Proc(id: nat)

  /** A pending wake-up; `id` names the sleep that created it. */
  datatype Event = Event(id: nat, fire: nat, proc: nat)

  /** A wake-up that happened, with the clock at that moment. */
  datatype Firing = Firing(event: Event, at: nat)

  datatype Kernel = Kernel(
    procs: seq<nat>,            // process table, in slot order
    tasks: map<nat, Task>,      // one task per process
    runqueue: seq<nat>,
    cur: Current,
    idleCredit: int,
    jiffies: nat,
    timers: seq<Event>,
    sleeps: nat,                // sleeps begun so far
    log: seq<Firing>)

  /** The machine before the first tick. */
  function Boot(procs: seq<nat>, tasks: map<nat, Task>): Kernel {
    Kernel(procs, tasks, [], NoTask, 0, 0, [], 0, [])
  }

  const QUANTUM: int := 10
  const HZ: nat := 100

  function SetState(k: Kernel, p: nat, s: TaskState): Kernel {
    if p in k.tasks then k.(tasks := k.tasks[p := k.tasks[p].(state := s)]) else k
  }

  // ---- Timers ------------------------------------------------------------------------

  /** Fire from the head of the list while its deadline has passed. */
  function FireTimers(k: Kernel): Kernel
    decreases |k.timers|
  {
    if k.timers == [] || k.timers[0].fire >= k.jiffies then k
    else
      var e := k.timers[0];
      FireTimers(SetState(k, e.proc, Ready).(timers := k.timers[1..], log := k.log + [Firing(e, k.jiffies)]))
  }

  /** Insert before the first event whose deadline is not later. */
  function InsertTimer(timers: seq<Event>, e: Event): seq<Event> {
    if timers != [] && e.fire < timers[0].fire then [timers[0]] + InsertTimer(timers[1..], e)
    else [e] + timers
  }

  const BILLION: nat := 1_000_000_000

  /** Division as the processor does it, towards zero. */
  function Truncated(x: int, d: nat): (r: int)
    requires d > 0
    ensures x >= 0 ==> r * d <= x < r * d + d
    ensures x < 0 ==> r * d - d < x <= r * d
  {
    if x >= 0 then x / d else -((-x) / d)
  }

  /** How many ticks a request asks for; requests may be negative. */
  function Ticks(sec: int, nsec: int): int {
    sec * HZ + Truncated(nsec * HZ, BILLION)
  }

  /** The deadline in 64-bit words: the product of the nanoseconds is divided after it has wrapped. */
  function Deadline(sec: int, nsec: int, now: nat): nat {
    (sec * HZ + Truncated(ToLong(nsec * HZ), BILLION) + now) % WORD
  }

  /** The time left that an interrupted sleep reports, in seconds and nanoseconds. */
  function TimeLeft(fire: nat, now: nat): (nat, nat) {
    if fire < now then (0, 0) else ((fire - now) / HZ, (fire - now) % HZ * BILLION / HZ)
  }

  // ---- Scheduling --------------------------------------------------------------------

  /** Give every READY process a quantum and push it on the run queue, from slot i on. */
  function ScheduleFrom(k: Kernel, i: nat): Kernel
    decreases |k.procs| - i
  {
    if i >= |k.procs| then k
    else
      var p := k.procs[i];
      if p in k.tasks && k.tasks[p].state == Ready then
        ScheduleFrom(k.(tasks := k.tasks[p := Task(Ready, QUANTUM)], runqueue := [p] + k.runqueue), i + 1)
      else ScheduleFrom(k, i + 1)
  }

  function CurrentCredit(k: Kernel): int {
    match k.cur
    case NoTask => 0
    case Idle => k.idleCredit
    case Proc(c) => if c in k.tasks then k.tasks[c].credit else 0
  }

  function Charge(k: Kernel): Kernel {
    match k.cur
    case NoTask => k
    case Idle => k.(idleCredit := k.idleCredit - 1)
    case Proc(c) =>
      if c in k.tasks then k.(tasks := k.tasks[c := k.tasks[c].(credit := k.tasks[c].credit - 1)]) else k
  }

  /** Mark the current task READY, whatever its state was. */
  function Preempt(k: Kernel): Kernel {
    if k.cur.Proc? then SetState(k, k.cur.id, Ready) else k
  }

  /** Take the head of the run queue, or the idle task. */
  function Dispatch(k: Kernel): Kernel {
    if k.runqueue == [] then k.(cur := Idle)
    else
      var p := k.runqueue[0];
      SetState(k, p, Running).(runqueue := k.runqueue[1..], cur := Proc(p))
  }

  function Switch(k: Kernel): Kernel {
    Dispatch(Preempt(if k.runqueue == [] then ScheduleFrom(k, 0) else k))
  }

  function Tick(k: Kernel): Kernel {
    var fired := FireTimers(k.(jiffies := k.jiffies + 1));
    var charged := Charge(fired);
    if !fired.cur.NoTask? && CurrentCredit(charged) > 0 then charged else Switch(charged)
  }

  // ---- System calls --------------------------------------------------------------------

  /** The running process sleeps; `granted` tells whether the event could be allocated. */
  function Sleep(k: Kernel, sec: int, nsec: int, granted: bool): Kernel {
    if !k.cur.Proc? || !granted then k
    else
      var e := Event(k.sleeps, Deadline(sec, nsec, k.jiffies), k.cur.id);
      SetState(k, k.cur.id, Blocked).(timers := InsertTimer(k.timers, e), sleeps := k.sleeps + 1, cur := Idle)
  }

  /** The running process waits for input. */
  function Wait(k: Kernel): Kernel {
    if !k.cur.Proc? then k else SetState(k, k.cur.id, Blocked).(cur := Idle)
  }

  /** Another process is made READY, whatever its state was. */
  function Wake(k: Kernel, p: nat): Kernel {
    SetState(k, p, Ready)
  }

  datatype Op = TickOp | SleepOp(sec: int, nsec: int, granted: bool) | WaitOp | WakeOp(p: nat)

  function Step(k: Kernel, op: Op): Kernel {
    match op
    case TickOp => Tick(k)
    case SleepOp(sec, nsec, granted) => Sleep(k, sec, nsec, granted)
    case WaitOp => Wait(k)
    case WakeOp(p) => Wake(k, p)
  }

  function Run(k: Kernel, ops: seq<Op>): Kernel
    decreases |ops|
  {
    if ops == [] then k else Run(Step(k, ops[0]), ops[1..])
  }
}
