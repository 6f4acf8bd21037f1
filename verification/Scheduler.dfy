/** The scheduler itself: static queues, process table and pid pool, changed in place (scheduler.cpp). */
module SchedulerState {
  import opened Basics
  import opened Processes
  import opened SchedulerLaws
  import opened SchedulerSteps
  import opened Outcomes

  class Scheduler {
    var ready: seq<nat>
    var keys: seq<nat>
    var sleepers: seq<nat>
    var readers: seq<nat>
    var procs: map<nat, Proc>
    var pool: seq<bool>
    var running: nat
    var tick: nat

    ghost function S(): State
      reads this
    {
      State(ready, keys, sleepers, readers, procs, pool, running, tick)
    }

    /** The machine after start-up: the kernel's own process, ready and not yet chosen. */
    constructor (priority: nat)
      requires 1 <= priority && priority * TICK < 0x1_0000_0000
      ensures Inv(S()) && ready == [0] && running == MAX
    {
      ready, keys, sleepers, readers := [0], [], [], [];
      procs := map[0 := NewProc(0, priority)];
      pool := seq(MAX, i => i == 0);
      running, tick := MAX, 0;
      new;
      assert RecordOk(procs, 0);
      assert PlaceOk(S(), 0);
    }

    /** Marks the lowest free pid used, or returns MAX. */
    method GetFreePid() returns (pid: nat)
      requires |pool| == MAX
      modifies this`pool
      ensures pid == FreePid(old(pool), 0)
      ensures pool == if pid < MAX then old(pool)[pid := true] else old(pool)
    {
      pid := 0;
      while pid < MAX
        invariant pid <= MAX && pool == old(pool) && FreePid(pool, 0) == FreePid(pool, pid)
      {
        if !pool[pid] {
          pool := pool[pid := true];
          return;
        }
        pid := pid + 1;
      }
    }

    /** The parent is queued unless it is the one running, and neither waits for the other any more. */
    method WakeUpParent(k: nat)
      requires k in procs && procs[k].ppid in procs
      modifies this`ready, this`procs
      ensures S() == Notified(old(S()), k)
    {
      var pp := procs[k].ppid;
      procs := procs[k := procs[k].Answered()];
      procs := procs[pp := procs[pp].Resumed()];
      assert procs == Notified(old(S()), k).procs;
      if pp != running { ready := Enqueue(ready, pp); }
    }

    method FreeTerminatedProcess(k: nat)
      requires k in procs && procs[k].ppid in procs && k < |pool|
      modifies this
      ensures S() == FreeTerminated(old(S()), k)
    {
      if procs[k].exec { return; }
      if procs[k].waited || procs[procs[k].ppid].waitAny { WakeUpParent(k); }
      procs := Orphaned(procs, k);
      pool := pool[k := false];
    }

    method RelinquishFirstReady()
      requires FrontOk(S())
      modifies this
      ensures S() == Relinquish(old(S()))
    {
      running := ready[0];
      var k, p := running, procs[running];
      if !p.exec { ready := ready[1..]; }
      if p.ppid == k {
        FreeTerminatedProcess(k);
      } else if !procs[p.ppid].waitAny && !p.waited && !p.exec {
        procs := procs[k := p.(zombie := true)];
      } else {
        FreeTerminatedProcess(k);
      }
    }

    /** The body of the search loop. */
    method TakeTurn() returns (chosen: Option<nat>)
      requires FrontOk(S())
      modifies this
      ensures Pick(S(), chosen) == Turn(old(S()))
    {
      chosen := None;
      running := ready[0];
      var k, p := running, procs[running];
      if p.terminated {
        RelinquishFirstReady();
      } else if p.waitKey {
        ready, keys := ready[1..], Enqueue(keys, k);
      } else if p.Blocked() {
        ready := ready[1..];
      } else {
        chosen := RunFront();
      }
    }

    method RunFront() returns (chosen: Option<nat>)
      requires FrontOk(S()) && running == ready[0]
      modifies this
      ensures FrontOk(Replaced(old(S()))) && Pick(S(), chosen) == Spend(Replaced(old(S())))
    {
      ghost var s := S();
      ReplacedShape(s);
      var k := running;
      var p := procs[k];
      if p.exec {
        procs := procs[k := p.(terminated := true)];
        RelinquishFirstReady();
        procs := procs[k := p.Replacement()];
        p := p.Replacement();
      }
      assert S() == Replaced(s);
      if p.quantum != 0 {
        chosen := Some(k);
        procs := procs[k := p.(quantum := (p.quantum - TICK) % 0x1_0000_0000)];
      } else {
        chosen := None;
        ready := Enqueue(ready[1..], k);
        procs := procs[k := p.Reset()];
      }
    }

    /** Always ends; null only with nothing ready, else a process that neither ended nor waits, with its quantum
        charged one tick. */
    method GetNextProcess() returns (chosen: Option<nat>)
      requires Loose(S())
      modifies this
      ensures Loose(old(S()).(running := MAX)) && Pick(S(), chosen) == GetNext(old(S()).(running := MAX))
      ensures Loose(S()) && (chosen == None <==> ready == [])
      ensures chosen.Some? ==>
                chosen.value in procs && procs[chosen.value].Runnable() && running == chosen.value == ready[0]
    {
      RunningFree(S(), MAX);
      running := MAX;
      ghost var r := GetNext(S());
      while true
        invariant Loose(S()) && GetNext(S()) == r
        decreases |Alive(S())|, |ready|, |Execs(S())|, |Spent(S())|
      {
        if ready == [] { return None; }
        FrontIsOk(S());
        TurnKeeps(S());
        ghost var s := S();
        chosen := TakeTurn();
        if chosen.Some? { return; }
        TurnShrinks(s);
      }
    }

    /** Every due sleeper goes to the back of the ready queue. */
    method CheckForProcessesToWakeUp()
      requires Loose(S()) && FrontLater(S())
      modifies this`ready, this`procs, this`sleepers
      ensures S() == WakeSleepers(old(S())) && Loose(S())
      ensures forall k | k in sleepers :: k in procs && procs[k].wakeAt > tick
    {
      ghost var r := WakeSleepers(S());
      SleepersKeep(S());
      while sleepers != [] && procs[sleepers[0]].wakeAt <= tick
        invariant Loose(S()) && FrontLater(S()) && WakeSleepers(S()) == r
        decreases |sleepers|
      {
        WakeFirstSleeper();
      }
    }

    method WakeFirstSleeper()
      requires Loose(S()) && FrontLater(S()) && sleepers != [] && procs[sleepers[0]].wakeAt <= tick
      modifies this`ready, this`procs, this`sleepers
      ensures var k := old(sleepers)[0];
              S() == Woken(old(S()), k, old(procs)[k].(asleep := false)).(sleepers := old(sleepers)[1..])
      ensures Loose(S()) && FrontLater(S())
    {
      ghost var s := S();
      var k := sleepers[0];
      ready := Enqueue(ready, k);
      procs := procs[k := procs[k].(asleep := false)];
      sleepers := sleepers[1..];
      SleeperKeeps(s, S());
    }

    /** The timer interrupt. */
    method Schedule()
      requires Loose(S()) && FrontLater(S().(tick := tick + 1))
      modifies this
      ensures S() == Trap(old(S()))
    {
      ghost var s := S();
      Advance();
      assert S().(running := MAX) == Ticked(s);
      RunNext();
    }

    method Advance()
      requires Loose(S()) && FrontLater(S().(tick := tick + 1))
      modifies this`tick, this`ready, this`procs, this`sleepers
      ensures S() == WakeSleepers(old(S()).(tick := old(tick) + 1)) && Loose(S())
    {
      TickKeeps(S(), S().(tick := tick + 1));
      tick := tick + 1;
      CheckForProcessesToWakeUp();
    }

    method RunNext()
      requires Loose(S())
      modifies this
      ensures Loose(old(S()).(running := MAX)) && S() == Next(old(S()).(running := MAX))
      ensures running == MAX <==> ready == []
    {
      var chosen := GetNextProcess();
      if chosen == None { running := MAX; }
    }

    method WakeFirstKeyWaiter()
      requires Inv(S()) && keys != []
      modifies this`ready, this`procs, this`keys
      ensures S() == Woken(old(S()), old(keys)[0], old(procs)[old(keys)[0]].(waitKey := false)).(keys := old(keys)[1..])
      ensures Inv(S())
    {
      ghost var s := S();
      var k := keys[0];
      keys := keys[1..];
      ready := Enqueue(ready, k);
      procs := procs[k := procs[k].(waitKey := false)];
      KeyKeeps(s, S());
    }

    /** A key press wakes half the waiters, rounded up. */
    method WakeUpKeyWaiting()
      requires Inv(S())
      modifies this`ready, this`procs, this`keys
      ensures S() == WakeKeys(old(S()), 0) && Inv(S())
    {
      ghost var r := WakeKeys(S(), 0);
      var i := 0;
      while i < |keys|
        invariant Inv(S()) && WakeKeys(S(), i) == r
        decreases |keys|
      {
        WakeFirstKeyWaiter();
        i := i + 1;
      }
    }

    /** Readers of `fd` get their share of the bytes; those whose read is over are collected, then resumed. */
    method WakeUpReadWaiting(fd: int, count: nat, drained: bool)
      requires Inv(S())
      modifies this`ready, this`procs, this`readers
      ensures S() == AfterWrite(old(S()), fd, count, drained) && Inv(S())
    {
      WriteKeeps(S(), fd, count, drained);
      ghost var s := S();
      ResumedSome(Progressed(s, fd, count).procs, s.readers, fd, drained);
      var toBeResumed := ShareOut(fd, count, drained);
      ProgressKeeps(s, fd, count, S());
      ResumeAll(toBeResumed);
    }

    /** The first loop. */
    method ShareOut(fd: int, count: nat, drained: bool) returns (toBeResumed: seq<nat>)
      requires NoDup(readers) && forall k | k in readers :: k in procs
      modifies this`procs
      ensures S() == Progressed(old(S()), fd, count)
      ensures (forall k | k in readers :: k in procs) && toBeResumed == Resumed(procs, readers, fd, drained)
    {
      ghost var was := procs;
      toBeResumed := [];
      assert Shared(was, [], fd, count) == was;
      for i := 0 to |readers|
        invariant procs == Shared(was, readers[..i], fd, count)
        invariant forall k | k in readers :: k in procs
        invariant toBeResumed == Resumed(procs, readers[..i], fd, drained)
      {
        var k := readers[i];
        SharedStep(was, readers, i, fd, count, drained);
        procs := procs[k := Progress(procs[k], fd, count)];
        if Satisfied(procs[k], fd, drained) { toBeResumed := toBeResumed + [k]; }
      }
      assert readers[..|readers|] == readers;
    }

    /** The second loop. */
    method ResumeAll(q: seq<nat>)
      requires Inv(S()) && NoDup(q) && forall k | k in q :: k in readers
      modifies this`ready, this`procs, this`readers
      ensures forall k | k in q :: k in old(procs)
      ensures S() == WakeReaders(old(S()), q)
    {
      ghost var r := WakeReaders(S(), q);
      var i := 0;
      while i < |q|
        invariant i <= |q| && Inv(S()) && (forall k | k in q[i..] :: k in readers) && NoDup(q[i..])
        invariant WakeReaders(S(), q[i..]) == r
      {
        assert q[i..][0] == q[i] && q[i..][1..] == q[i + 1..];
        Tail(q[i..]);
        ResumeReader(q[i]);
        i := i + 1;
      }
    }

    method ResumeReader(k: nat)
      requires Inv(S()) && k in readers
      modifies this`ready, this`procs, this`readers
      ensures k in old(procs)
      ensures S() == Woken(old(S()), k, old(procs)[k].(waitRead := false)).(readers := Without(old(readers), k))
      ensures Inv(S()) && forall j :: j in readers <==> j in old(readers) && j != k
    {
      ghost var s := S();
      WithoutOne(readers, k);
      readers := Without(readers, k);
      procs := procs[k := procs[k].(waitRead := false)];
      ready := Enqueue(ready, k);
      ReaderKeeps(s, k, S());
    }

    // ---- calls of the running process ----

    method GetKey()
      requires Inv(S()) && running != MAX
      modifies this
      ensures S() == Apply(old(S()), Step.GetKey)
      ensures old(running) in keys && old(running) !in ready
    {
      GetKeyOutcome(S());
      EffectKeeps(S(), Step.GetKey);
      procs := procs[running := procs[running].(waitKey := true)];
      Schedule();
    }

    /** Milliseconds to ticks, at least one. */
    method SetAsleep(ms: nat)
      requires Inv(S()) && running != MAX
      modifies this`procs, this`sleepers
      ensures S() == Asleep(old(S()), TicksFor(ms)) && running in procs
      ensures procs[running].asleep && procs[running].wakeAt == tick + (if ms < 10 then 1 else ms / 10)
    {
      var ticks := ms * (1000 / TICK) / 1000;
      if ticks == 0 { ticks := 1; }
      procs := procs[running := procs[running].(asleep := true, wakeAt := tick + ticks)];
      sleepers := InsertSleeper(procs, sleepers, running);
    }

    method Sleep(ms: nat)
      requires Inv(S()) && running != MAX && ms >= 2 * TICK
      modifies this
      ensures S() == Apply(old(S()), Step.Sleep(TicksFor(ms)))
      ensures old(running) in sleepers && old(running) !in ready && old(running) in procs
      ensures procs[old(running)].wakeAt == old(tick) + ms / 10
    {
      SleepOutcome(S(), TicksFor(ms));
      EffectKeeps(S(), Step.Sleep(TicksFor(ms)));
      SetAsleep(ms);
      Schedule();
    }

    method DoReadWait(fd: int, n: nat)
      requires Inv(S()) && running != MAX
      modifies this
      ensures S() == Apply(old(S()), Step.ReadWait(fd, n))
      ensures old(running) in readers && old(running) !in ready
    {
      ghost var s := S();
      EffectKeeps(s, Step.ReadWait(fd, n));
      readers := readers + [running];
      procs := procs[running := procs[running].(waitRead := true, readFd := fd, readWant := n, readGot := 0)];
      Schedule();
      ReadOutcome(s, fd, n);
    }

    /** The running process ends. */
    method Exit()
      requires Inv(S()) && running != MAX
      modifies this
      ensures S() == Apply(old(S()), Step.Exit) && EndOf(old(S()), S(), old(running))
    {
      ExitOutcome(S());
      EffectKeeps(S(), Step.Exit);
      procs := procs[running := procs[running].(terminated := true)];
      Schedule();
    }

    method Execve()
      requires Inv(S()) && running != MAX
      modifies this
      ensures S() == Apply(old(S()), Step.Exec)
      ensures old(running) in ready && old(running) in procs && Steady(procs[old(running)])
    {
      ghost var s := S();
      EffectKeeps(s, Step.Exec);
      procs := procs[running := procs[running].(exec := true)];
      Schedule();
      ExecOutcome(s);
    }

    /** waitpid on one process: an error if it is no child, its pid at once if it is a zombie, else a wait. */
    method WaitPid(c: nat) returns (r: Option<nat>)
      requires Inv(S()) && running != MAX
      modifies this
      ensures S() == Apply(old(S()), Step.WaitChild(c))
      ensures r == None <==> !(c in old(procs) && c != old(running) && old(procs)[c].ppid == old(running))
      ensures r.Some? && old(procs)[c].zombie ==> r == Some(c) && c !in procs && running == old(running)
      ensures r.Some? && !old(procs)[c].zombie ==> WaitsUntilGone(S(), old(running), c)
    {
      ghost var s := S();
      if c !in procs || c == running || procs[c].ppid != running { return None; }
      if procs[c].zombie {
        Reap(c);
        return Some(c);
      }
      WaitForChild(c);
      WaitChildOutcome(s, c);
      r := Some(0);
    }

    method Reap(c: nat)
      requires Inv(S()) && running != MAX && c in procs && c != running && procs[c].ppid == running && procs[c].zombie
      modifies this
      ensures S() == Apply(old(S()), Step.WaitChild(c)) && c !in procs && running == old(running)
    {
      EffectKeeps(S(), Step.WaitChild(c));
      ReapKeeps(S(), c);
      procs := procs[c := procs[c].(waited := true)];
      FreeTerminatedProcess(c);
    }

    method WaitForChild(c: nat)
      requires Inv(S()) && running != MAX && c in procs && c != running && procs[c].ppid == running && !procs[c].zombie
      modifies this
      ensures S() == Apply(old(S()), Step.WaitChild(c))
    {
      EffectKeeps(S(), Step.WaitChild(c));
      procs := procs[c := procs[c].(waited := true)];
      procs := procs[running := procs[running].(waitProc := true)];
      Schedule();
    }

    /** fork's part in the scheduler: a fresh pid, and a child at the back of the queue. */
    method Fork() returns (pid: nat)
      requires Inv(S()) && running != MAX && FreePid(pool, 0) < |pool|
      modifies this
      ensures S() == Apply(old(S()), Step.Fork) && pid !in old(procs) && ready == old(ready) + [pid] && pid in procs
      ensures NewAs(procs[pid], old(running), old(procs)[old(running)].priority)
    {
      ForkOutcome(S());
      FreshPid(S());
      EffectKeeps(S(), Step.Fork);
      pid := GetFreePid();
      ready := Enqueue(ready, pid);
      procs := procs[pid := NewProc(running, procs[running].priority)];
    }

    /** Waiting for any child, when none is a zombie: an error without children, else a wait. */
    method WaitAny() returns (ok: bool)
      requires Inv(S()) && Enabled(S(), Step.WaitAny)
      modifies this
      ensures S() == Apply(old(S()), Step.WaitAny) && ok == HasChild(old(S()), old(running))
      ensures ok ==> WaitsUntilAnyGone(old(S()), S(), old(running))
    {
      ghost var s := S();
      ok := exists j | j in procs && j != running :: procs[j].ppid == running;
      if ok { WaitForAnyChild(); }
      WaitAnyOutcome(s);
    }

    method WaitForAnyChild()
      requires Inv(S()) && Enabled(S(), Step.WaitAny) && HasChild(S(), running)
      modifies this
      ensures S() == Apply(old(S()), Step.WaitAny)
    {
      EffectKeeps(S(), Step.WaitAny);
      procs := procs[running := procs[running].(waitProc := true, waitAny := true)];
      Schedule();
    }

    /** A fatal signal to any process. */
    method Kill(target: nat)
      requires Inv(S()) && Enabled(S(), Step.Kill(target))
      modifies this
      ensures S() == Apply(old(S()), Step.Kill(target))
    {
      EffectKeeps(S(), Step.Kill(target));
      procs := procs[target := procs[target].(terminated := true)];
      Schedule();
    }

    /** A kernel process: its own parent. */
    method StartProcess(priority: nat) returns (pid: nat)
      requires Inv(S()) && Enabled(S(), Step.Start(priority))
      modifies this
      ensures S() == Apply(old(S()), Step.Start(priority)) && pid !in old(procs) && ready == old(ready) + [pid]
      ensures pid in procs && NewAs(procs[pid], pid, priority)
    {
      StartOutcome(S(), priority);
      FreshPid(S());
      EffectKeeps(S(), Step.Start(priority));
      pid := GetFreePid();
      ready := Enqueue(ready, pid);
      procs := procs[pid := NewProc(pid, priority)];
    }

    /** Interrupts, and calls that do not trap or come with a tick count. */
    method Interrupt(step: Step)
      requires Inv(S()) && Enabled(S(), step) && (step.Tick? || step.KeyPress? || step.Written?)
      modifies this
      ensures S() == Apply(old(S()), step)
    {
      EffectKeeps(S(), step);
      match step
      case Tick => Schedule();
      case KeyPress => WakeUpKeyWaiting();
      case Written(fd, count, drained) => WakeUpReadWaiting(fd, count, drained);
    }

    method Call(step: Step)
      requires Inv(S()) && Enabled(S(), step) && !step.Tick? && !step.KeyPress? && !step.Written? && !step.Sleep?
      modifies this
      ensures S() == Apply(old(S()), step)
    {
      match step
      case GetKey => this.GetKey();
      case ReadWait(fd, n) => DoReadWait(fd, n);
      case WaitChild(c) => var _ := WaitPid(c);
      case WaitAny => var _ := this.WaitAny();
      case Exit => this.Exit();
      case Kill(target) => this.Kill(target);
      case Exec => Execve();
      case Fork => var _ := this.Fork();
      case Start(priority) => var _ := StartProcess(priority);
    }

    /** Any step. */
    method Perform(step: Step)
      requires Inv(S()) && Enabled(S(), step)
      modifies this
      ensures S() == Apply(old(S()), step)
    {
      if step.Sleep? {
        TicksBack(step.ticks);
        Sleep(step.ticks * TICK);
      } else if step.Tick? || step.KeyPress? || step.Written? {
        Interrupt(step);
      } else {
        Call(step);
      }
    }

    /** The machine in place does what the run of steps says, and every state on the way is sound. */
    method RunAll(steps: seq<Step>)
      requires Inv(S()) && Allowed(S(), steps)
      modifies this
      ensures Inv(old(S())) && Allowed(old(S()), steps) && S() == Run(old(S()), steps)
    {
      ghost var end := Run(S(), steps);
      var i := 0;
      assert steps[0..] == steps;
      while i < |steps|
        invariant i <= |steps| && Upcoming(S(), steps[i..], end)
      {
        Onward(S(), steps[i..], end);
        assert steps[i..][0] == steps[i] && steps[i..][1..] == steps[i + 1..];
        Perform(steps[i]);
        i := i + 1;
      }
    }
  }

  /** The steps can be taken from `s` and lead to `end`. */
  ghost predicate Upcoming(s: State, steps: seq<Step>, end: State) {
    Inv(s) && Allowed(s, steps) && Run(s, steps) == end
  }

  lemma Onward(s: State, steps: seq<Step>, end: State)
    requires Upcoming(s, steps, end) && steps != []
    ensures Enabled(s, steps[0]) && Upcoming(Apply(s, steps[0]), steps[1..], end)
  {
  }

  lemma TicksBack(ticks: nat)
    requires ticks >= 2
    ensures TicksFor(ticks * TICK) == ticks && ticks * TICK >= 2 * TICK
  {
  }

  function TicksFor(ms: nat): nat {
    if ms * (1000 / TICK) / 1000 == 0 then 1 else ms * (1000 / TICK) / 1000
  }

  lemma SharedStep(was: map<nat, Proc>, q: seq<nat>, i: nat, fd: int, count: nat, drained: bool)
    requires NoDup(q) && i < |q| && forall k | k in q :: k in was
    ensures q[i] in Shared(was, q[..i], fd, count)
    ensures var procs := Shared(was, q[..i], fd, count);
      && (forall k | k in q :: k in procs)
      && procs[q[i] := Progress(procs[q[i]], fd, count)] == Shared(was, q[..i + 1], fd, count)
      && Resumed(procs, q[..i], fd, drained) == Resumed(Shared(was, q[..i + 1], fd, count), q[..i], fd, drained)
    ensures q[..i + 1][..i] == q[..i]
  {
    assert q[..i + 1] == q[..i] + [q[i]];
    var procs, procs' := Shared(was, q[..i], fd, count), Shared(was, q[..i + 1], fd, count);
    assert q[i] !in q[..i];
    assert procs[q[i] := Progress(procs[q[i]], fd, count)] == procs';
    ResumedSame(procs, procs', q[..i], fd, drained);
  }

  lemma {:induction false} ResumedSame(procs: map<nat, Proc>, procs': map<nat, Proc>, q: seq<nat>, fd: int,
                                       drained: bool)
    requires forall k | k in q :: k in procs && k in procs' && procs'[k] == procs[k]
    ensures Resumed(procs', q, fd, drained) == Resumed(procs, q, fd, drained)
  {
    if q != [] { ResumedSame(procs, procs', q[..|q| - 1], fd, drained); }
  }
}
