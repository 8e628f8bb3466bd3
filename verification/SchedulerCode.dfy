/** The clock handler, the high-level scheduler and the sleep system call,
    updating the kernel variables in place. */
module SchedulerCode {
  import opened Basics
  import opened SchedulerModel
  import T = TimerTheorems

  /** The walk of the sleep call stops where the event belongs. */
  lemma {:induction false} InsertedAt(timers: seq<Event>, e: Event, i: nat)
    requires i <= |timers| && forall j :: 0 <= j < i ==> e.fire < timers[j].fire
    requires i < |timers| ==> e.fire >= timers[i].fire
    ensures InsertTimer(timers, e) == timers[..i] + [e] + timers[i..]
  {
    if i > 0 {
      InsertedAt(timers[1..], e, i - 1);
      assert timers[1..][..i - 1] == timers[1..i] && timers[1..][i - 1..] == timers[i..];
    }
  }

  class Machine {
    var procs: seq<nat>
    var tasks: map<nat, Task>
    var runqueue: seq<nat>
    var cur: Current
    var idleCredit: int
    var jiffies: nat
    var timers: seq<Event>
    var sleeps: nat         // names each sleep
    var log: seq<Firing>    // wake-ups so far, kept for observation

    constructor (procs: seq<nat>, tasks: map<nat, Task>)
      ensures State() == Boot(procs, tasks)
    {
      this.procs, this.tasks := procs, tasks;
      runqueue, cur, idleCredit, jiffies, timers, sleeps, log := [], NoTask, 0, 0, [], 0, [];
    }

    ghost function State(): Kernel
      reads this
    {
      Kernel(procs, tasks, runqueue, cur, idleCredit, jiffies, timers, sleeps, log)
    }

    method SetTaskState(p: nat, s: TaskState)
      modifies `tasks
      ensures State() == SetState(old(State()), p, s)
    {
      if p in tasks {
        tasks := tasks[p := tasks[p].(state := s)];
      }
    }

    /** Refill the run queue from the process table. */
    method SchedSchedule()
      modifies `tasks, `runqueue
      ensures State() == ScheduleFrom(old(State()), 0)
    {
      var i := 0;
      while i < |procs|
        invariant ScheduleFrom(State(), i) == ScheduleFrom(old(State()), 0)
      {
        var p := procs[i];
        if p in tasks && tasks[p].state == Ready {
          tasks := tasks[p := Task(Ready, QUANTUM)];
          runqueue := [p] + runqueue;
        }
        i := i + 1;
      }
    }

    /** Wake the processes whose deadline has passed, from the head of the list. */
    method FireEvents()
      modifies `tasks, `timers, `log
      ensures State() == FireTimers(old(State()))
    {
      while timers != [] && timers[0].fire < jiffies
        invariant FireTimers(State()) == FireTimers(old(State()))
        decreases |timers|
      {
        var e := timers[0];
        SetTaskState(e.proc, Ready);
        timers := timers[1..];
        log := log + [Firing(e, jiffies)];
      }
    }

    /** Take one tick off the current task. */
    method ChargeCurrent() returns (credit: int)
      modifies `tasks, `idleCredit
      ensures State() == Charge(old(State())) && credit == CurrentCredit(State())
    {
      credit := 0;
      if cur.Idle? {
        idleCredit := idleCredit - 1;
        credit := idleCredit;
      } else if cur.Proc? && cur.id in tasks {
        tasks := tasks[cur.id := tasks[cur.id].(credit := tasks[cur.id].credit - 1)];
        credit := tasks[cur.id].credit;
      }
    }

    /** Choose the next task and switch to it. */
    method SwitchTask()
      modifies `tasks, `runqueue, `cur
      ensures State() == Switch(old(State()))
    {
      hide ScheduleFrom;
      if runqueue == [] {
        SchedSchedule();
      }
      if cur.Proc? {
        SetTaskState(cur.id, Ready);
      }
      if runqueue == [] {
        cur := Idle;
      } else {
        var p := runqueue[0];
        runqueue := runqueue[1..];
        cur := Proc(p);
        SetTaskState(p, Running);
      }
    }

    method KsignalClock()
      modifies this
      ensures State() == Tick(old(State()))
    {
      hide FireTimers, Switch, Charge, CurrentCredit;
      jiffies := jiffies + 1;
      FireEvents();
      var credit := ChargeCurrent();
      if !cur.NoTask? && credit > 0 {
        return;
      }
      SwitchTask();
    }

    /** Sleep: put the event in its place in the list and give up the processor. */
    method SysNanosleep(sec: int, nsec: int, granted: bool)
      modifies this
      ensures State() == Sleep(old(State()), sec, nsec, granted)
    {
      hide Deadline, InsertTimer;
      if !cur.Proc? {
        return;
      }
      var fire := Deadline(sec, nsec, jiffies);
      if !granted {
        return;
      }
      var e := Event(sleeps, fire, cur.id);
      var i := 0;
      while i < |timers| && fire < timers[i].fire
        invariant 0 <= i <= |timers| && forall j :: 0 <= j < i ==> fire < timers[j].fire
      {
        i := i + 1;
      }
      InsertedAt(timers, e, i);
      timers := timers[..i] + [e] + timers[i..];
      sleeps := sleeps + 1;
      SetTaskState(cur.id, Blocked);
      cur := Idle;
    }

    /** The rest of the call once the task runs again: after a signal, the time left for the caller. */
    method ReturnFromSleep(fire: nat, signaled: bool) returns (code: int, left: Option<(nat, nat)>)
      requires fire < WORD
      ensures code == (if signaled then -1 else 0) && (left.Some? <==> signaled)
      ensures left.Some? ==> left.value == TimeLeft(fire, jiffies)
      ensures left.Some? && jiffies <= fire ==>
        left.value.1 < BILLION && Deadline(left.value.0, left.value.1, jiffies) == fire
      ensures left.Some? && fire < jiffies ==> left.value == (0, 0)
    {
      hide Deadline;
      if !signaled {
        return 0, None;
      }
      if fire < jiffies {
        return -1, Some((0, 0));
      }
      var delta := fire - jiffies;
      T.ResumedSleep(fire, jiffies);
      return -1, Some((delta / HZ, delta % HZ * BILLION / HZ));
    }
  }
}
