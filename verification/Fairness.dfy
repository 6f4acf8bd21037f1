/** Bounded waiting: a process that stays runnable is chosen before the others have had two rounds of quanta. */
module Fairness {
  import opened Basics
  import opened Processes
  import opened SchedulerLaws
  import opened SchedulerSteps

  function Turns(p: Proc): nat { p.quantum / TICK }

  /** How often the processes queued before `t` can be chosen before each is sent behind it. */
  ghost function Ahead(procs: map<nat, Proc>, q: seq<nat>, t: nat): nat
    requires forall k | k in q :: k in procs
  {
    if q == [] || q[0] == t then 0 else Turns(procs[q[0]]) + Ahead(procs, q[1..], t)
  }

  /** A process without quantum goes once more through the whole queue when it gets to the front. */
  ghost function Rank(s: State, t: nat, most: nat): nat
    requires t in s.procs && forall k | k in s.ready :: k in s.procs
  {
    Ahead(s.procs, s.ready, t) + if s.procs[t].quantum == 0 then (MAX - 1) * most else 0
  }

  /** No process has a priority above `most`. */
  ghost predicate Capped(procs: map<nat, Proc>, most: nat) {
    forall k {:trigger Turns(procs[k])} | k in procs :: procs[k].priority <= most && Turns(procs[k]) <= most
  }

  /** `t` is queued and can run. */
  predicate Waits(s: State, t: nat) {
    t in s.ready && t in s.procs && s.procs[t].Runnable() && !s.procs[t].exec
  }

  // ---- how the count changes ----

  lemma {:induction false} AheadLess(procs: map<nat, Proc>, procs': map<nat, Proc>, q: seq<nat>, t: nat)
    requires forall k | k in q :: k in procs && k in procs' && procs'[k].quantum == procs[k].quantum
    ensures Ahead(procs', q, t) == Ahead(procs, q, t)
  {
    if q != [] && q[0] != t { AheadLess(procs, procs', q[1..], t); }
  }

  /** Arrivals at the back change nothing for those already queued. */
  lemma {:induction false} AheadAppend(procs: map<nat, Proc>, q: seq<nat>, r: seq<nat>, t: nat)
    requires (forall k | k in q :: k in procs) && (forall k | k in r :: k in procs) && t in q
    ensures forall k | k in q + r :: k in procs
    ensures Ahead(procs, q + r, t) == Ahead(procs, q, t)
  {
    if q[0] != t {
      assert (q + r)[0] == q[0] && (q + r)[1..] == q[1..] + r;
      assert t in q[1..] by { assert q == [q[0]] + q[1..]; }
      AheadAppend(procs, q[1..], r, t);
    }
  }

  lemma {:induction false} AheadBound(procs: map<nat, Proc>, q: seq<nat>, t: nat, most: nat)
    requires (forall k | k in q :: k in procs) && Capped(procs, most) && t !in q && t in procs
    ensures Ahead(procs, q + [t], t) <= |q| * most
  {
    if q != [] {
      assert (q + [t])[0] == q[0] && (q + [t])[1..] == q[1..] + [t];
      AheadBound(procs, q[1..], t, most);
      assert Turns(procs[q[0]]) <= most;
      assert |q| * most == most + (|q| - 1) * most;
    }
  }

  /** Same quanta, and the queue has only grown at the back. */
  ghost predicate OnlyArrivals(s: State, s': State, t: nat) {
    && s.ready <= s'.ready && t in s.ready
    && (forall k | k in s.ready :: k in s.procs) && (forall k | k in s'.ready :: k in s'.procs)
    && (forall k | k in s.ready :: k in s'.procs && s'.procs[k].quantum == s.procs[k].quantum)
  }

  lemma ArrivalsKeep(s: State, s': State, t: nat, most: nat)
    requires OnlyArrivals(s, s', t)
    ensures Rank(s', t, most) == Rank(s, t, most)
  {
    assert s'.ready == s.ready + s'.ready[|s.ready|..];
    AheadLess(s.procs, s'.procs, s.ready, t);
    AheadAppend(s'.procs, s.ready, s'.ready[|s.ready|..], t);
  }

  /** The front, another process, is gone. */
  lemma FrontGone(s: State, s': State, t: nat, most: nat)
    requires NoDup(s.ready) && s.ready != [] && s.ready[0] != t && t in s.ready
    requires forall k | k in s.ready :: k in s.procs
    requires OnlyArrivals(s.(ready := s.ready[1..]), s', t)
    ensures Rank(s', t, most) <= Rank(s, t, most)
  {
    ArrivalsKeep(s.(ready := s.ready[1..]), s', t, most);
  }

  /** Another front is chosen: one turn less before `t`. */
  lemma FrontSpends(s: State, s': State, t: nat, most: nat)
    requires NoDup(s.ready) && s.ready != [] && s.ready[0] != t && t in s.ready && s'.ready == s.ready
    requires forall k | k in s.ready :: k in s.procs
    requires var k := s.ready[0];
             s.procs[k].quantum >= TICK && s'.procs == s.procs[k := s.procs[k].(quantum := s.procs[k].quantum - TICK)]
    ensures Rank(s', t, most) < Rank(s, t, most)
  {
    Tail(s.ready);
    AheadLess(s.procs, s'.procs, s.ready[1..], t);
  }

  /** `t` itself goes to the back with a new quantum. */
  lemma SelfRotates(s: State, s': State, t: nat, most: nat)
    requires NoDup(s.ready) && s.ready != [] && s.ready[0] == t && |s.ready| <= MAX
    requires forall k | k in s.ready :: k in s.procs
    requires s.procs[t].quantum == 0 && s.procs[t].priority >= 1 && Capped(s.procs, most)
    requires s'.ready == s.ready[1..] + [t] && s'.procs == s.procs[t := s.procs[t].Reset()]
    ensures Rank(s', t, most) <= Rank(s, t, most)
  {
    Tail(s.ready);
    var q := s.ready[1..];
    assert s.procs[t].priority <= most by { assert Turns(s.procs[t]) <= most; }
    forall k | k in s'.procs ensures Turns(s'.procs[k]) <= most && s'.procs[k].priority <= most {
      if k != t { assert Turns(s.procs[k]) <= most; }
    }
    AheadBound(s'.procs, q, t, most);
    Scaled(|q|, MAX - 1, most);
  }

  lemma Scaled(a: nat, b: nat, m: nat)
    requires a <= b
    ensures a * m <= b * m
  {
  }

  // ---- one pass of the search ----

  /** Everyone left has the quantum and priority it had, and who could run still can. */
  ghost predicate Kept(procs: map<nat, Proc>, procs': map<nat, Proc>) {
    forall k {:trigger procs'[k]} | k in procs' :: k in procs && Same(procs[k], procs'[k])
  }

  ghost predicate Same(p: Proc, p': Proc) {
    && p'.quantum == p.quantum && p'.priority == p.priority
    && (p.Runnable() && !p.exec ==> p'.Runnable() && !p'.exec)
  }

  lemma KeptCapped(procs: map<nat, Proc>, procs': map<nat, Proc>, most: nat)
    requires Kept(procs, procs') && Capped(procs, most)
    ensures Capped(procs', most)
  {
    forall k | k in procs' ensures procs'[k].priority <= most && Turns(procs'[k]) <= most {
      assert Turns(procs[k]) <= most;
    }
  }

  lemma OrphanedKept(procs: map<nat, Proc>, k: nat)
    ensures Kept(procs, Orphaned(procs, k)) && forall j | j in procs && j != k :: j in Orphaned(procs, k)
  {
  }

  lemma NotifiedKept(s: State, k: nat)
    requires k in s.procs && s.procs[k].ppid in s.procs
    ensures Kept(s.procs, Notified(s, k).procs) && Notified(s, k).procs.Keys == s.procs.Keys
  {
  }

  lemma FreedKept(s: State, k: nat)
    requires k in s.procs && s.procs[k].ppid in s.procs && k < |s.pool| && !s.procs[k].exec
    ensures Kept(s.procs, FreeTerminated(s, k).procs)
    ensures forall j | j in s.procs && j != k :: j in FreeTerminated(s, k).procs
  {
    NotifiedKept(s, k);
    var s1 := if Awaited(s, k) then Notified(s, k) else s;
    OrphanedKept(s1.procs, k);
    var procs' := FreeTerminated(s, k).procs;
    forall j | j in procs' ensures j in s.procs && Same(s.procs[j], procs'[j]) { assert Same(s1.procs[j], procs'[j]); }
  }

  lemma RelinquishKept(s: State)
    requires FrontOk(s) && s.procs[s.ready[0]].terminated && !s.procs[s.ready[0]].exec
    ensures Kept(s.procs, Relinquish(s).procs)
    ensures forall k | k in s.procs && k != s.ready[0] :: k in Relinquish(s).procs
  {
    FreedKept(s.(running := s.ready[0], ready := s.ready[1..]), s.ready[0]);
  }

  /** A pass never makes `t` wait longer, and a pass that chooses another makes it wait one turn less. */
  lemma TurnRank(s: State, t: nat, most: nat)
    requires Loose(s) && s.ready != [] && FrontOk(s) && Waits(s, t) && Capped(s.procs, most)
    requires Loose(Turn(s).state)
    ensures var r := Turn(s);
      && Waits(r.state, t) && Capped(r.state.procs, most)
      && (r.chosen == None ==> Rank(r.state, t, most) <= Rank(s, t, most))
      && (r.chosen != None && r.chosen != Some(t) ==> Rank(r.state, t, most) < Rank(s, t, most))
  {
    var k, s' := s.ready[0], Turn(s).state;
    Tail(s.ready);
    FrontIsOk(s);
    if s.procs[k].terminated {
      var s1 := s.(running := k);
      RunningFree(s, k);
      RelinquishKeeps(s1);
      RelinquishKept(s1);
      KeptCapped(s.procs, s'.procs, most);
      assert s.ready[1..] <= s'.ready;
      FrontGone(s, s', t, most);
    } else if s.procs[k].Blocked() {
      FrontGone(s, s', t, most);
    } else {
      RunTurn(s);
      RunRank(s, t, most);
    }
  }

  lemma RunCapped(procs: map<nat, Proc>, k: nat, p: Proc, most: nat)
    requires Capped(procs, most) && k in procs && p.priority <= most && Turns(p) <= most
    ensures Capped(procs[k := p], most)
  {
    var procs' := procs[k := p];
    forall j | j in procs' ensures procs'[j].priority <= most && Turns(procs'[j]) <= most {
      if j != k { assert Turns(procs[j]) <= most; }
    }
  }

  lemma MarkCapped(procs: map<nat, Proc>, k: nat, p: Proc, most: nat)
    requires Capped(procs, most) && k in procs && p.priority == procs[k].priority && p.quantum == procs[k].quantum
    ensures Capped(procs[k := p], most)
  {
    assert Turns(procs[k]) <= most;
    RunCapped(procs, k, p, most);
  }

  lemma RunRank(s: State, t: nat, most: nat)
    requires Loose(s) && s.ready != [] && FrontOk(s) && Waits(s, t) && Capped(s.procs, most)
    requires !s.procs[s.ready[0]].terminated && !s.procs[s.ready[0]].Blocked()
    ensures var r := Turn(s);
      && Waits(r.state, t) && Capped(r.state.procs, most) && (forall k | k in r.state.ready :: k in r.state.procs)
      && (r.chosen == None ==> Rank(r.state, t, most) <= Rank(s, t, most))
      && (r.chosen != None && r.chosen != Some(t) ==> Rank(r.state, t, most) < Rank(s, t, most))
  {
    var k, s' := s.ready[0], Turn(s).state;
    Tail(s.ready);
    FrontIsOk(s);
    RunTurn(s);
    NeverFull(s);
    assert Turns(s.procs[k]) <= most;
    RunCapped(s.procs, k, s'.procs[k], most);
    if Turn(s).chosen != None {
      if k != t { FrontSpends(s, s', t, most); }
    } else if k != t {
      FrontGone(s, s', t, most);
    } else {
      SelfRotates(s, s', t, most);
    }
  }

  /** The search chooses someone while `t` waits, and `t` or else a process with a turn before it. */
  lemma {:induction false} NextRank(s: State, t: nat, most: nat)
    requires Loose(s) && Waits(s, t) && Capped(s.procs, most)
    ensures var r := GetNext(s);
      && r.chosen != None && Waits(r.state, t) && Capped(r.state.procs, most)
      && (r.chosen != Some(t) ==> Rank(r.state, t, most) < Rank(s, t, most))
    decreases |Alive(s)|, |s.ready|, |Execs(s)|, |Spent(s)|
  {
    FrontIsOk(s);
    TurnKeeps(s);
    TurnRank(s, t, most);
    if Turn(s).chosen == None {
      TurnShrinks(s);
      NextRank(Turn(s).state, t, most);
    }
  }

  // ---- steps ----

  ghost predicate Grew(s: State, s': State) {
    s.ready <= s'.ready && s'.procs.Keys == s.procs.Keys && Kept(s.procs, s'.procs)
  }

  lemma GrewTwice(s: State, s1: State, s2: State)
    requires Grew(s, s1) && Grew(s1, s2)
    ensures Grew(s, s2)
  {
  }

  lemma {:induction false} SleepersGrow(s: State)
    requires forall k | k in s.sleepers :: k in s.procs
    ensures Grew(s, WakeSleepers(s))
    decreases |s.sleepers|
  {
    if s.sleepers != [] && s.procs[s.sleepers[0]].wakeAt <= s.tick {
      var k := s.sleepers[0];
      var s1 := Woken(s, k, s.procs[k].(asleep := false)).(sleepers := s.sleepers[1..]);
      SleepersGrow(s1);
      GrewTwice(s, s1, WakeSleepers(s1));
    }
  }

  lemma {:induction false} KeysGrow(s: State, i: nat)
    requires forall k | k in s.keys :: k in s.procs
    ensures Grew(s, WakeKeys(s, i))
    decreases |s.keys|
  {
    if i < |s.keys| {
      var k := s.keys[0];
      var s1 := Woken(s, k, s.procs[k].(waitKey := false)).(keys := s.keys[1..]);
      KeysGrow(s1, i + 1);
      GrewTwice(s, s1, WakeKeys(s1, i + 1));
    }
  }

  lemma {:induction false} ReadersGrow(s: State, q: seq<nat>)
    requires forall k | k in q :: k in s.procs
    ensures Grew(s, WakeReaders(s, q))
    decreases |q|
  {
    if q != [] {
      var k := q[0];
      var s1 := Woken(s, k, s.procs[k].(waitRead := false)).(readers := Without(s.readers, k));
      ReadersGrow(s1, q[1..]);
      GrewTwice(s, s1, WakeReaders(s1, q[1..]));
    }
  }

  lemma WrittenGrows(s: State, fd: int, count: nat, drained: bool)
    requires NoDup(s.readers) && forall k | k in s.readers :: k in s.procs
    ensures Grew(s, AfterWrite(s, fd, count, drained))
  {
    var s1 := Progressed(s, fd, count);
    ProgressShape(s, fd, count, s1);
    forall k | k in s1.procs ensures k in s.procs && Same(s.procs[k], s1.procs[k]) {
      assert SameButRead(s.procs[k], s1.procs[k]);
    }
    ResumedSome(s1.procs, s.readers, fd, drained);
    ReadersGrow(s1, Resumed(s1.procs, s.readers, fd, drained));
    GrewTwice(s, s1, AfterWrite(s, fd, count, drained));
  }

  lemma GrewRank(s: State, s': State, t: nat, most: nat)
    requires Grew(s, s') && Waits(s, t) && Capped(s.procs, most) && (forall k | k in s.ready :: k in s.procs)
    requires forall k | k in s'.ready :: k in s'.procs
    ensures Waits(s', t) && Capped(s'.procs, most) && Rank(s', t, most) == Rank(s, t, most)
  {
    assert Same(s.procs[t], s'.procs[t]);
    assert t in s'.ready by { var i :| 0 <= i < |s.ready| && s.ready[i] == t; assert s'.ready[i] == t; }
    KeptCapped(s.procs, s'.procs, most);
    forall k | k in s.ready ensures k in s'.procs && s'.procs[k].quantum == s.procs[k].quantum {
      assert Same(s.procs[k], s'.procs[k]);
    }
    ArrivalsKeep(s, s', t, most);
  }

  /** What one call leaves of the quanta, up to its trap. */
  lemma CallRank(s: State, step: Step, t: nat, most: nat)
    requires Inv(s) && Enabled(s, step) && t in s.ready && Capped(s.procs, most)
    requires (step.Start? ==> step.priority <= most)
    requires !step.KeyPress? && !step.Written? && Loose(Effect(s, step))
    ensures OnlyArrivals(s, Effect(s, step), t) && Capped(Effect(s, step).procs, most)
  {
    var k, s' := s.running, Effect(s, step);
    match step
    case Tick =>
    case Kill(j) => MarkRank(s, j, s', t, most);
    case WaitChild(c) => WaitRank(s, c, t, most);
    case Fork =>
      assert s.procs[k].priority <= most by { assert Turns(s.procs[k]) <= most; }
      AddRank(s, FreePid(s.pool, 0), NewProc(k, s.procs[k].priority), most);
    case Start(priority) => AddRank(s, FreePid(s.pool, 0), NewProc(FreePid(s.pool, 0), priority), most);
    case _ => MarkRank(s, k, s', t, most);
  }

  /** One process's marks change, not its quantum, and the queue stays. */
  lemma MarkRank(s: State, k: nat, s': State, t: nat, most: nat)
    requires Loose(s) && Loose(s') && t in s.ready && Capped(s.procs, most)
    requires k in s.procs && k in s'.procs && s'.procs == s.procs[k := s'.procs[k]] && s'.ready == s.ready
    requires s'.procs[k].quantum == s.procs[k].quantum && s'.procs[k].priority == s.procs[k].priority
    ensures OnlyArrivals(s, s', t) && Capped(s'.procs, most)
  {
    MarkCapped(s.procs, k, s'.procs[k], most);
  }

  lemma AddRank(s: State, k: nat, p: Proc, most: nat)
    requires Inv(s) && k < |s.pool| && !s.pool[k] && p.priority <= most && Capped(s.procs, most)
    ensures Capped(Added(s, k, p).procs, most) && s.ready <= Added(s, k, p).ready && k !in s.ready
  {
    var procs' := Added(s, k, p).procs;
    assert k !in s.procs;
    forall j | j in procs' ensures procs'[j].priority <= most && Turns(procs'[j]) <= most {
      if j != k { assert Turns(s.procs[j]) <= most; }
    }
  }

  lemma WaitRank(s: State, c: nat, t: nat, most: nat)
    requires Inv(s) && s.running != MAX && t in s.ready && Capped(s.procs, most) && Loose(Effect(s, WaitChild(c)))
    ensures OnlyArrivals(s, Effect(s, WaitChild(c)), t) && Capped(Effect(s, WaitChild(c)).procs, most)
  {
    var k, s' := s.running, Effect(s, WaitChild(c));
    if c in s.procs && c != k && s.procs[c].ppid == k {
      if s.procs[c].zombie {
        ReapKeeps(s, c);
        assert PlaceOk(s, c);
        OrphanedKept(s.procs, c);
        KeptCapped(s.procs, s'.procs, most);
        forall j | j in s.ready ensures j in s'.procs && s'.procs[j].quantum == s.procs[j].quantum {
          assert Same(s.procs[j], s'.procs[j]);
        }
      } else {
        var s1 := s.With(c, s.procs[c].(waited := true));
        MarkCapped(s.procs, c, s1.procs[c], most);
        MarkCapped(s1.procs, k, s'.procs[k], most);
      }
    }
  }

  lemma EffectRank(s: State, step: Step, t: nat, most: nat)
    requires Inv(s) && Enabled(s, step) && Waits(s, t) && Capped(s.procs, most)
    requires (step.Start? ==> step.priority <= most)
    requires Loose(Effect(s, step)) && Waits(Effect(s, step), t)
    ensures Capped(Effect(s, step).procs, most) && Rank(Effect(s, step), t, most) == Rank(s, t, most)
  {
    var s' := Effect(s, step);
    match step
    case KeyPress => KeysGrow(s, 0); GrewRank(s, s', t, most);
    case Written(fd, count, drained) => WrittenGrows(s, fd, count, drained); GrewRank(s, s', t, most);
    case _ => CallRank(s, step, t, most); ArrivalsKeep(s, s', t, most);
  }

  lemma TickedRank(s: State, t: nat, most: nat)
    requires Loose(s) && FrontLater(s.(tick := s.tick + 1)) && Waits(s, t) && Capped(s.procs, most)
    ensures Waits(Ticked(s), t) && Capped(Ticked(s).procs, most) && Rank(Ticked(s), t, most) == Rank(s, t, most)
  {
    var s1 := s.(tick := s.tick + 1);
    SleepersGrow(s1);
    GrewRank(s, Ticked(s), t, most);
  }

  /** No step makes `t` wait longer; a step that chooses another brings it one turn nearer. */
  lemma StepRank(s: State, step: Step, t: nat, most: nat)
    requires Inv(s) && Enabled(s, step) && Waits(s, t) && Capped(s.procs, most)
    requires (step.Start? ==> step.priority <= most)
    requires Waits(Effect(s, step), t)
    ensures var s' := Apply(s, step);
      && Waits(s', t) && Capped(s'.procs, most)
      && (!Traps(s, step) ==> Rank(s', t, most) <= Rank(s, t, most))
      && (Traps(s, step) && s'.running != t ==> Rank(s', t, most) < Rank(s, t, most))
  {
    EffectKeeps(s, step);
    var s1 := Effect(s, step);
    EffectRank(s, step, t, most);
    if Traps(s, step) {
      TickedRank(s1, t, most);
      NextRank(Ticked(s1), t, most);
    }
  }

  // ---- runs ----

  /** Along the run `t` stays runnable and no search chooses it. */
  ghost predicate PassedOver(s: State, steps: seq<Step>, t: nat, most: nat)
    requires Inv(s)
    decreases |steps|
  {
    steps == [] ||
    (&& Enabled(s, steps[0]) && (steps[0].Start? ==> steps[0].priority <= most)
     && Waits(Effect(s, steps[0]), t)
     && (Traps(s, steps[0]) ==> Apply(s, steps[0]).running != t)
     && PassedOver(Apply(s, steps[0]), steps[1..], t, most))
  }

  /** How many times the run searches for a process. */
  ghost function Searches(s: State, steps: seq<Step>): nat
    requires Inv(s) && Allowed(s, steps)
    decreases |steps|
  {
    if steps == [] then 0
    else (if Traps(s, steps[0]) then 1 else 0) + Searches(Apply(s, steps[0]), steps[1..])
  }

  lemma {:induction false} PassedRank(s: State, steps: seq<Step>, t: nat, most: nat)
    requires Inv(s) && Waits(s, t) && Capped(s.procs, most) && PassedOver(s, steps, t, most)
    ensures Allowed(s, steps) && Searches(s, steps) <= Rank(s, t, most)
    decreases |steps|
  {
    if steps != [] {
      StepRank(s, steps[0], t, most);
      PassedRank(Apply(s, steps[0]), steps[1..], t, most);
    }
  }

  lemma {:induction false} AheadSum(procs: map<nat, Proc>, q: seq<nat>, t: nat, most: nat)
    requires (forall k | k in q :: k in procs) && Capped(procs, most) && t in q
    ensures Ahead(procs, q, t) <= (|q| - 1) * most
  {
    if q[0] != t {
      assert t in q[1..] by { assert q == [q[0]] + q[1..]; }
      AheadSum(procs, q[1..], t, most);
      assert Turns(procs[q[0]]) <= most;
      assert (|q| - 1) * most == most + (|q| - 2) * most;
    } else {
      Scaled(0, |q| - 1, most);
    }
  }

  /** Whatever wakes, arrives, blocks, ends or execs, a process that stays runnable is passed over at most two
      rounds of the others' quanta: at most `Rank`, which is at most 62 times the highest priority. */
  lemma BoundedWaiting(s: State, steps: seq<Step>, t: nat, most: nat)
    requires Inv(s) && Waits(s, t) && Capped(s.procs, most) && PassedOver(s, steps, t, most)
    ensures Allowed(s, steps) && Searches(s, steps) <= Rank(s, t, most) <= 2 * (MAX - 1) * most
  {
    PassedRank(s, steps, t, most);
    RankBound(s, t, most);
  }

  lemma RankBound(s: State, t: nat, most: nat)
    requires Loose(s) && Waits(s, t) && Capped(s.procs, most)
    ensures Rank(s, t, most) <= 2 * (MAX - 1) * most
  {
    NeverFull(s);
    AheadSum(s.procs, s.ready, t, most);
    Scaled(|s.ready| - 1, MAX - 1, most);
  }
}
