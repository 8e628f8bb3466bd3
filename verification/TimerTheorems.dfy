/** Sleep timers over every run: ordered, fired at most once, never early, and
    prompt exactly when no pending deadline still lies ahead. */
module TimerTheorems {
  import opened Basics
  import opened SchedulerModel

  /** Deadlines never increase along the list. */
  predicate Descending(timers: seq<Event>) {
    forall i, j :: 0 <= i < j < |timers| ==> timers[i].fire >= timers[j].fire
  }

  /** The log entry for an event was written after its deadline. */
  predicate Late(f: Firing) {
    f.event.fire < f.at
  }

  function Ids(timers: seq<Event>): seq<nat> {
    seq(|timers|, i requires 0 <= i < |timers| => timers[i].id)
  }

  function FiredIds(log: seq<Firing>): seq<nat> {
    seq(|log|, i requires 0 <= i < |log| => log[i].event.id)
  }

  /** The sleeps that are pending or have fired, with multiplicity. */
  function Seen(timers: seq<Event>, log: seq<Firing>): multiset<nat> {
    multiset(Ids(timers)) + multiset(FiredIds(log))
  }

  /** Every sleep begun is either pending or has fired, exactly once. */
  ghost predicate Accounted(k: Kernel) {
    forall id: nat :: Seen(k.timers, k.log)[id] == if id < k.sleeps then 1 else 0
  }

  ghost predicate TimerInv(k: Kernel) {
    && Descending(k.timers)
    && (forall i :: 0 <= i < |k.log| ==> Late(k.log[i]) && k.log[i].at <= k.jiffies)
    && Accounted(k)
  }

  // ---- Insertion ---------------------------------------------------------------------

  /** An event at least as late as the head goes in front. */
  lemma InFront(e: Event, timers: seq<Event>)
    requires Descending(timers) && (timers == [] || e.fire >= timers[0].fire)
    ensures Descending([e] + timers)
  {
  }

  lemma IdsInFront(e: Event, timers: seq<Event>)
    ensures multiset(Ids([e] + timers)) == multiset(Ids(timers)) + multiset{e.id}
  {
    assert Ids([e] + timers) == [e.id] + Ids(timers);
  }

  lemma {:induction false} InsertKeepsOrder(timers: seq<Event>, e: Event)
    requires Descending(timers)
    ensures Descending(InsertTimer(timers, e))
    ensures multiset(Ids(InsertTimer(timers, e))) == multiset(Ids(timers)) + multiset{e.id}
    ensures |InsertTimer(timers, e)| == |timers| + 1
    ensures InsertTimer(timers, e)[0].fire
      == if timers == [] || e.fire >= timers[0].fire then e.fire else timers[0].fire
  {
    if timers != [] && e.fire < timers[0].fire {
      var h, t := timers[0], timers[1..];
      assert Descending(t) && (t == [] || h.fire >= t[0].fire);
      hide Descending, Ids;
      assert timers == [h] + t;
      InsertKeepsOrder(t, e);
      InFront(h, InsertTimer(t, e));
      IdsInFront(h, InsertTimer(t, e));
      IdsInFront(h, t);
    } else {
      hide Descending, Ids;
      InFront(e, timers);
      IdsInFront(e, timers);
    }
  }

  /** The event goes behind the later deadlines and before all others, equal ones included. */
  lemma {:induction false} InsertPlace(timers: seq<Event>, e: Event) returns (i: nat)
    requires Descending(timers)
    ensures i <= |timers| && InsertTimer(timers, e) == timers[..i] + [e] + timers[i..]
    ensures forall j :: 0 <= j < i ==> timers[j].fire > e.fire
    ensures forall j :: i <= j < |timers| ==> timers[j].fire <= e.fire
  {
    i := 0;
    if timers != [] && e.fire < timers[0].fire {
      var t := timers[1..];
      var n := InsertPlace(t, e);
      i := n + 1;
      assert timers[..i] == [timers[0]] + t[..n] && timers[i..] == t[n..];
      assert forall j :: 0 < j < |timers| ==> timers[j] == t[j - 1];
    }
  }

  lemma SeenInsert(timers: seq<Event>, log: seq<Firing>, e: Event)
    requires Descending(timers)
    ensures Seen(InsertTimer(timers, e), log) == Seen(timers, log) + multiset{e.id}
  {
    InsertKeepsOrder(timers, e);
  }

  // ---- Firing ------------------------------------------------------------------------

  /** On a descending list a tick fires everything or nothing: the head has the
      latest deadline. */
  lemma {:induction false} FiresAllOrNothing(k: Kernel)
    requires Descending(k.timers)
    ensures var r := FireTimers(k);
      && r.jiffies == k.jiffies && r.sleeps == k.sleeps && r.cur == k.cur
      && (k.timers != [] && k.timers[0].fire < k.jiffies ==>
            && r.timers == [] && |r.log| == |k.log| + |k.timers| && r.log[..|k.log|] == k.log
            && forall i :: 0 <= i < |k.timers| ==> r.log[|k.log| + i] == Firing(k.timers[i], k.jiffies))
      && (k.timers == [] || k.timers[0].fire >= k.jiffies ==> r == k)
    decreases |k.timers|
  {
    if k.timers != [] && k.timers[0].fire < k.jiffies {
      var e := k.timers[0];
      var u := SetState(k, e.proc, Ready).(timers := k.timers[1..], log := k.log + [Firing(e, k.jiffies)]);
      assert Descending(u.timers) && (u.timers != [] ==> u.timers[0].fire <= e.fire);
      hide Descending;
      FiresAllOrNothing(u);
      var r := FireTimers(k);
      if |k.timers| == 1 {
        assert r == u;
      } else {
        forall i | 0 <= i < |k.timers|
          ensures r.log[|k.log| + i] == Firing(k.timers[i], k.jiffies)
        {
          if i == 0 {
            assert r.log[..|u.log|][|k.log|] == u.log[|k.log|];
          } else {
            assert u.timers[i - 1] == k.timers[i];
            assert r.log[|u.log| + (i - 1)] == Firing(u.timers[i - 1], k.jiffies);
          }
        }
        assert r.log[..|k.log|] == r.log[..|u.log|][..|k.log|];
      }
    }
  }

  lemma FireKeepsInv(k: Kernel)
    requires TimerInv(k)
    ensures TimerInv(FireTimers(k))
  {
    hide FireTimers, Seen;
    var r := FireTimers(k);
    FiresAllOrNothing(k);
    if k.timers != [] && k.timers[0].fire < k.jiffies {
      forall i | 0 <= i < |r.log|
        ensures Late(r.log[i]) && r.log[i].at <= r.jiffies
      {
        if i < |k.log| {
          assert r.log[..|k.log|][i] == k.log[i];
        } else {
          assert r.log[|k.log| + (i - |k.log|)] == Firing(k.timers[i - |k.log|], k.jiffies);
        }
      }
      FireKeepsSeen(k, r);
    }
  }

  /** Firing the whole list moves every sleep from pending to fired. */
  lemma FireKeepsSeen(k: Kernel, r: Kernel)
    requires r.timers == [] && |r.log| == |k.log| + |k.timers| && r.log[..|k.log|] == k.log
    requires forall i :: 0 <= i < |k.timers| ==> r.log[|k.log| + i] == Firing(k.timers[i], k.jiffies)
    ensures Seen(r.timers, r.log) == Seen(k.timers, k.log)
  {
    forall i | 0 <= i < |r.log|
      ensures FiredIds(r.log)[i] == (FiredIds(k.log) + Ids(k.timers))[i]
    {
      if i < |k.log| {
        assert r.log[..|k.log|][i] == k.log[i];
      } else {
        assert r.log[|k.log| + (i - |k.log|)] == Firing(k.timers[i - |k.log|], k.jiffies);
      }
    }
    assert FiredIds(r.log) == FiredIds(k.log) + Ids(k.timers);
    assert Ids(r.timers) == [];
  }

  // ---- Steps -------------------------------------------------------------------------

  /** Scheduling does not touch the timers. */
  ghost predicate SameTimers(k: Kernel, r: Kernel) {
    r.timers == k.timers && r.log == k.log && r.jiffies == k.jiffies && r.sleeps == k.sleeps
  }

  lemma {:induction false} ScheduleSameTimers(k: Kernel, i: nat)
    ensures SameTimers(k, ScheduleFrom(k, i))
    ensures ScheduleFrom(k, i).cur == k.cur && ScheduleFrom(k, i).procs == k.procs &&
        ScheduleFrom(k, i).idleCredit == k.idleCredit
    decreases |k.procs| - i
  {
    if i < |k.procs| {
      var p := k.procs[i];
      if p in k.tasks && k.tasks[p].state == Ready {
        ScheduleSameTimers(k.(tasks := k.tasks[p := Task(Ready, QUANTUM)], runqueue := [p] + k.runqueue), i + 1);
      } else {
        ScheduleSameTimers(k, i + 1);
      }
    }
  }

  lemma TickTimers(k: Kernel)
    ensures SameTimers(FireTimers(k.(jiffies := k.jiffies + 1)), Tick(k))
  {
    hide FireTimers, ScheduleFrom;
    var charged := Charge(FireTimers(k.(jiffies := k.jiffies + 1)));
    ScheduleSameTimers(charged, 0);
  }

  lemma StepKeepsTimers(k: Kernel, op: Op)
    requires TimerInv(k)
    ensures TimerInv(Step(k, op))
  {
    hide FireTimers, Tick, Seen, Deadline;
    match op
    case TickOp =>
      var now := k.(jiffies := k.jiffies + 1);
      FireKeepsInv(now);
      TickTimers(k);
    case SleepOp(sec, nsec, granted) =>
      if k.cur.Proc? && granted {
        var e := Event(k.sleeps, Deadline(sec, nsec, k.jiffies), k.cur.id);
        InsertKeepsOrder(k.timers, e);
        SeenInsert(k.timers, k.log, e);
      }
    case WaitOp =>
    case WakeOp(p) =>
  }

  /** Over every run of ticks and system calls the pending list stays ordered,
      every sleep is pending or has fired exactly once, and no event fired
      before the clock had passed its deadline. */
  lemma {:induction false} TimersOverRuns(k: Kernel, ops: seq<Op>)
    requires TimerInv(k)
    ensures TimerInv(Run(k, ops))
    decreases |ops|
  {
    hide TimerInv, Step;
    if ops != [] {
      StepKeepsTimers(k, ops[0]);
      TimersOverRuns(Step(k, ops[0]), ops[1..]);
    }
  }

  ghost predicate AllBefore(timers: seq<Event>, now: nat) {
    forall i :: 0 <= i < |timers| ==> timers[i].fire < now
  }

  /** A tick empties the pending list exactly when every pending deadline has
      passed; otherwise it fires nothing.  So an overdue sleeper is woken
      promptly exactly when no pending deadline still lies ahead, and all pending
      events have fired by the first tick after the largest deadline. */
  lemma PromptExactlyWhenAllDue(k: Kernel)
    requires TimerInv(k)
    ensures AllBefore(k.timers, k.jiffies + 1) <==> Tick(k).timers == []
    ensures !AllBefore(k.timers, k.jiffies + 1) ==> Tick(k).timers == k.timers && Tick(k).log == k.log
  {
    TickTimers(k);
    FiresAllOrNothing(k.(jiffies := k.jiffies + 1));
    if k.timers != [] && k.timers[0].fire < k.jiffies + 1 {
      assert AllBefore(k.timers, k.jiffies + 1);
    }
  }

  /** Dividing by a positive number keeps distances that are long enough apart. */
  lemma QuotientsDiffer(x: int, y: int)
    requires x != y && (x - y) % WORD == 0 && -200 * HALF_WORD <= x - y <= 200 * HALF_WORD
    ensures var d := Truncated(x, BILLION) - Truncated(y, BILLION);
      d != 0 && -(WORD as int) < d < WORD
  {
    assert x - y >= WORD || y - x >= WORD;
  }

  /** A sleep ends the ticks it asks for from now exactly when the product of the nanoseconds
      is a signed, and that moment an unsigned, 64-bit number. */
  lemma DeadlineExactly(sec: int, nsec: int, now: nat)
    requires IsLong(sec) && IsLong(nsec) && now < WORD
    ensures Deadline(sec, nsec, now) == now + Ticks(sec, nsec) <==>
      IsLong(nsec * HZ) && 0 <= now + Ticks(sec, nsec) < WORD
  {
    var x := nsec * HZ;
    if !IsLong(x) {
      QuotientsDiffer(ToLong(x), x);
      hide Truncated;
      var a, b := now + Ticks(sec, nsec), sec * HZ + Truncated(ToLong(x), BILLION) + now;
      assert b % WORD != a by { SameRest(b, a); }
    }
  }

  lemma SameRest(b: int, a: int)
    requires b != a && -(WORD as int) < b - a < WORD
    ensures b % WORD != a
  {
  }

  /** 10^17 nanoseconds after boot are 10^10 ticks, and come out more than 8 * 10^9 ticks
      before the clock wraps. */
  lemma LongSleepWraps(procs: seq<nat>, tasks: map<nat, Task>)
    ensures Ticks(0, 100_000_000_000_000_000) == 10_000_000_000
    ensures Deadline(0, 100_000_000_000_000_000, Boot(procs, tasks).jiffies) == WORD - 8_446_744_073
  {
    var x := 100_000_000_000_000_000 * HZ;
    assert ToLong(x) == -8_446_744_073_709_551_616;
    assert Truncated(ToLong(x), BILLION) == -8_446_744_073;
  }

  /** A sleep of minus one second just after boot is due a second before the clock wraps. */
  lemma NegativeSleep(procs: seq<nat>, tasks: map<nat, Task>)
    ensures Ticks(-1, 0) == -100 && Deadline(-1, 0, Boot(procs, tasks).jiffies) == WORD - 100
  {
  }

  /** Sleeping for the time an interrupted sleep reports as left keeps its deadline; of a
      deadline that has passed nothing is left. */
  lemma ResumedSleep(fire: nat, now: nat)
    requires fire < WORD
    ensures var (sec, nsec) := TimeLeft(fire, now);
      if now <= fire then nsec < BILLION && Deadline(sec, nsec, now) == fire else sec == 0 && nsec == 0
  {
    if fire < now { return; }
    var d := fire - now;
    var (sec, nsec) := TimeLeft(fire, now);
    assert nsec == d % HZ * 10_000_000;
    assert nsec * HZ / BILLION == d % HZ;
    assert Ticks(sec, nsec) == d;
  }

  lemma BootTimers(procs: seq<nat>, tasks: map<nat, Task>)
    ensures TimerInv(Boot(procs, tasks))
  {
  }

  // ---- A sleeper overlooked -------------------------------------------------------------

  /** Process 1 runs and process 2 is queued. */
  function TwoProcesses(): Kernel {
    Kernel([1, 2], map[1 := Task(Running, 2), 2 := Task(Ready, QUANTUM)], [2], Proc(1), 0, 0, [], 0, [])
  }

  lemma FirstSleep()
    ensures TimerInv(TwoProcesses())
    ensures var k := Step(TwoProcesses(), SleepOp(0, 10_000_000, true));
      TimerInv(k) && k.timers == [Event(0, 1, 1)] && k.cur == Idle && k.runqueue == [2] && k.jiffies == 0 && k.log == []
      && k.idleCredit == 0 && k.sleeps == 1
  {
    assert Ticks(0, 10_000_000) == 1;
    StepKeepsTimers(TwoProcesses(), SleepOp(0, 10_000_000, true));
  }

  /** A tick that fires nothing and hands the processor to the queued process. */
  lemma TickToQueued(k: Kernel)
    requires TimerInv(k) && k.timers == [Event(0, 1, 1)] && k.cur == Idle && k.runqueue == [2] && k.jiffies == 0
    requires k.log == [] && k.idleCredit == 0
    ensures TimerInv(Tick(k)) && Tick(k).cur == Proc(2) && Tick(k).timers == k.timers && Tick(k).jiffies == 1
    ensures Tick(k).log == [] && Tick(k).sleeps == k.sleeps
  {
    assert FireTimers(k.(jiffies := 1)) == k.(jiffies := 1);
    StepKeepsTimers(k, TickOp);
  }

  lemma SecondSleep(k: Kernel)
    requires TimerInv(k) && k.timers == [Event(0, 1, 1)] && k.cur == Proc(2) && k.jiffies == 1 && k.log == [] &&
        k.sleeps == 1
    ensures var r := Step(k, SleepOp(1, 0, true));
      TimerInv(r) && r.timers == [Event(1, 101, 2), Event(0, 1, 1)] && r.jiffies == 1 && r.log == []
  {
    hide TimerInv;
    assert Ticks(1, 0) == 100;
    StepKeepsTimers(k, SleepOp(1, 0, true));
  }

  /** Process 1 sleeps for a tick, then process 2 for a second: at the next ticks the first
      sleep is overdue, and nothing fires. */
  lemma SleeperOverlooked()
    ensures var k := Run(TwoProcesses(), [SleepOp(0, 10_000_000, true), TickOp, SleepOp(1, 0, true), TickOp]);
      && TimerInv(TwoProcesses()) && k.timers == [Event(1, 101, 2), Event(0, 1, 1)]
      && k.timers[1].fire < k.jiffies && Tick(k).timers == k.timers && Tick(k).log == []
  {
    hide Step, Tick, TimerInv;
    var ops := [SleepOp(0, 10_000_000, true), TickOp, SleepOp(1, 0, true), TickOp];
    FirstSleep();
    var s1 := Step(TwoProcesses(), ops[0]);
    TickToQueued(s1);
    assert Step(s1, TickOp) == Tick(s1) by { StepIsTick(s1); }
    SecondSleep(Tick(s1));
    var s3 := Step(Tick(s1), ops[2]);
    StepIsTick(s3);
    NothingFires(s3);
    NothingFires(Tick(s3));
    assert ops[1..] == [TickOp, SleepOp(1, 0, true), TickOp] && ops[1..][1..] == [SleepOp(1, 0, true), TickOp];
    assert ops[1..][1..][1..] == [TickOp] && [TickOp][1..] == [];
    assert Run(s3, [TickOp]) == Tick(s3);
    assert Run(Tick(s1), [SleepOp(1, 0, true), TickOp]) == Tick(s3);
    assert Run(s1, [TickOp, SleepOp(1, 0, true), TickOp]) == Tick(s3);
  }

  lemma StepIsTick(k: Kernel)
    ensures Step(k, TickOp) == Tick(k)
  {
  }

  /** While the latest deadline lies ahead, a tick only moves the clock. */
  lemma NothingFires(k: Kernel)
    requires TimerInv(k) && k.timers != [] && k.timers[0].fire > k.jiffies
    ensures TimerInv(Tick(k)) && Tick(k).timers == k.timers && Tick(k).log == k.log && Tick(k).jiffies == k.jiffies + 1
  {
    StepKeepsTimers(k, TickOp);
    TickTimers(k);
    FiresAllOrNothing(k.(jiffies := k.jiffies + 1));
  }
}
