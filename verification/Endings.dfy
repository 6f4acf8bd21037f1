/** A process killed while it is ready ends before the processes queued ahead of it have used up their quanta. */
module Endings {
  import opened Basics
  import opened Processes
  import opened SchedulerLaws
  import opened SchedulerSteps
  import opened Outcomes
  import opened Fairness

  /** Marked to end, and waiting for its turn to do so. */
  ghost predicate Doomed(s: State, t: nat) {
    t in s.ready && t in s.procs && s.procs[t].terminated
  }

  /** How often others can be chosen before `t` comes to the front. */
  ghost function Delay(s: State, t: nat): nat
    requires t in s.procs && forall k | k in s.ready :: k in s.procs
  {
    Rank(s, t, 0)
  }

  // ---- one search ----

  lemma TurnDoomed(s: State, t: nat)
    requires Loose(s) && Doomed(s, t)
    ensures FrontOk(s) && Loose(Turn(s).state)
    ensures var r := Turn(s);
            if s.ready[0] == t then r.chosen == None && Ended(r.state, t)
            else Doomed(r.state, t) && r.chosen != Some(t)
                 && Delay(r.state, t) + (if r.chosen == None then 0 else 1) <= Delay(s, t)
  {
    FrontIsOk(s);
    TurnKeeps(s);
    var k, s' := s.ready[0], Turn(s).state;
    Tail(s.ready);
    if s.procs[k].terminated {
      EndDoomed(s, t);
    } else if s.procs[k].Blocked() {
      FrontGone(s, s', t, 0);
    } else {
      RunDoomed(s, t);
    }
  }

  lemma EndDoomed(s: State, t: nat)
    requires Loose(s) && FrontOk(s) && Doomed(s, t) && s.procs[s.ready[0]].terminated && Loose(Turn(s).state)
    ensures var s' := Turn(s).state;
            if s.ready[0] == t then Ended(s', t) else Doomed(s', t) && Delay(s', t) <= Delay(s, t)
  {
    var k := s.ready[0];
    var s1 := s.(running := k);
    Tail(s.ready);
    FrontIsOk(s);
    RunningFree(s, k);
    RelinquishKeeps(s1);
    assert PlaceOk(s, t) && RecordOk(s.procs, t);
    if k != t {
      RelinquishKept(s1);
      RelinquishSpares(s1, t);
      FrontGone(s, Turn(s).state, t, 0);
    }
  }

  lemma RunDoomed(s: State, t: nat)
    requires Loose(s) && FrontOk(s) && Doomed(s, t) && !s.procs[s.ready[0]].terminated && !s.procs[s.ready[0]].Blocked()
    ensures var r := Turn(s);
            && Doomed(r.state, t) && (forall k | k in r.state.ready :: k in r.state.procs) && r.chosen != Some(t)
            && Delay(r.state, t) + (if r.chosen == None then 0 else 1) <= Delay(s, t)
  {
    var k, s' := s.ready[0], Turn(s).state;
    Tail(s.ready);
    RunTurn(s);
    if Turn(s).chosen != None { FrontSpends(s, s', t, 0); } else { FrontGone(s, s', t, 0); }
  }

  /** A search ends `t`, or chooses another and brings `t` one turn nearer its end. */
  lemma {:induction false} SearchDoomed(s: State, t: nat)
    requires Loose(s) && Doomed(s, t)
    ensures var r := GetNext(s);
            || Ended(r.state, t)
            || (Doomed(r.state, t) && r.chosen != Some(t) && Delay(r.state, t) < Delay(s, t))
    decreases |Alive(s)|, |s.ready|, |Execs(s)|, |Spent(s)|
  {
    TurnDoomed(s, t);
    if Turn(s).chosen == None {
      TurnShrinks(s);
      if s.ready[0] == t { SearchEnded(Turn(s).state, t); } else { SearchDoomed(Turn(s).state, t); }
    }
  }

  // ---- one step ----

  const CAP: nat := 0x1_0000_0000

  lemma AllCapped(procs: map<nat, Proc>)
    requires RecordsOk(procs)
    ensures Capped(procs, CAP)
  {
    forall k | k in procs ensures procs[k].priority <= CAP && Turns(procs[k]) <= CAP { assert RecordOk(procs, k); }
  }

  /** What a step does before its trap leaves `t` marked and no further back in the queue. */
  lemma EffectDoomed(s: State, step: Step, t: nat)
    requires Inv(s) && Enabled(s, step) && Doomed(s, t)
    ensures Doomed(Effect(s, step), t) && Loose(Effect(s, step)) && Delay(Effect(s, step), t) == Delay(s, t)
  {
    var s' := Effect(s, step);
    EffectKeeps(s, step);
    AllCapped(s.procs);
    if step.KeyPress? || step.Written? {
      InterruptDoomed(s, step, t);
    } else {
      CallRank(s, step, t, CAP);
      ArrivalsKeep(s, s', t, 0);
      CallMarks(s, step, t);
    }
  }

  lemma InterruptDoomed(s: State, step: Step, t: nat)
    requires Inv(s) && Enabled(s, step) && Doomed(s, t) && (step.KeyPress? || step.Written?) && Inv(Effect(s, step))
    ensures Doomed(Effect(s, step), t) && Delay(Effect(s, step), t) == Delay(s, t)
  {
    assert PlaceOk(s, t);
    match step {
      case KeyPress =>
        WokenKeys(s, 0, t);
        KeysGrow(s, 0);
      case Written(fd, count, drained) =>
        OneReader(s, t, fd, count, drained);
        WrittenGrows(s, fd, count, drained);
    }
    GrewDelay(s, Effect(s, step), t);
  }

  lemma CallMarks(s: State, step: Step, t: nat)
    requires Inv(s) && Enabled(s, step) && Doomed(s, t) && !step.KeyPress? && !step.Written?
    ensures t in Effect(s, step).procs && Effect(s, step).procs[t].terminated
  {
    assert PlaceOk(s, t);
    match step
    case WaitChild(c) =>
      if c in s.procs && c != s.running && s.procs[c].ppid == s.running && s.procs[c].zombie {
        ReapKeeps(s, c);
        assert PlaceOk(s, c);
      }
    case Fork => FreshPid(s);
    case Start(_) => FreshPid(s);
    case _ =>
  }

  lemma GrewDelay(s: State, s': State, t: nat)
    requires Grew(s, s') && t in s.ready && t in s.procs && t in s'.procs
    requires (forall k | k in s.ready :: k in s.procs) && (forall k | k in s'.ready :: k in s'.procs)
    ensures t in s'.ready && Delay(s', t) == Delay(s, t)
  {
    assert t in s'.ready by { var i :| 0 <= i < |s.ready| && s.ready[i] == t; assert s'.ready[i] == t; }
    forall k | k in s.ready ensures k in s'.procs && s'.procs[k].quantum == s.procs[k].quantum {
      assert Same(s.procs[k], s'.procs[k]);
    }
    ArrivalsKeep(s, s', t, 0);
  }

  lemma TickedDoomed(s: State, t: nat)
    requires Loose(s) && FrontLater(s.(tick := s.tick + 1)) && Doomed(s, t)
    ensures Doomed(Ticked(s), t) && Delay(Ticked(s), t) == Delay(s, t)
  {
    TickedOne(s, t);
    var s1 := s.(tick := s.tick + 1);
    SleepersGrow(s1);
    GrewDelay(s, Ticked(s), t);
  }

  /** Every step leaves `t` ended, or marked and no further from its end; a step that searches brings it nearer. */
  lemma StepDoomed(s: State, step: Step, t: nat)
    requires Inv(s) && Enabled(s, step) && Doomed(s, t)
    ensures var s' := Apply(s, step);
            || Ended(s', t)
            || (Doomed(s', t) && s'.running != t && Delay(s', t) + (if Traps(s, step) then 1 else 0) <= Delay(s, t))
  {
    var s1 := Effect(s, step);
    EffectKeeps(s, step);
    EffectDoomed(s, step, t);
    if Traps(s, step) {
      TickedDoomed(s1, t);
      SearchDoomed(Ticked(s1), t);
    }
  }

  // ---- runs ----

  /** Killed while ready, a process ends, whatever happens: at the latest when there have been more searches than those
      queued ahead of it had turns. */
  lemma {:induction false} KillEnds(s: State, steps: seq<Step>, t: nat)
    requires Inv(s) && Doomed(s, t) && Allowed(s, steps) && Searches(s, steps) > Delay(s, t)
    ensures exists i: nat :: EndedAfter(s, steps, i, t)
    decreases |steps|
  {
    var s' := Apply(s, steps[0]);
    StepDoomed(s, steps[0], t);
    if Ended(s', t) {
      EndedAlready(s', steps[1..], t);
      OneMore(s, steps, 0, t);
    } else {
      KillEnds(s', steps[1..], t);
      var i: nat :| EndedAfter(s', steps[1..], i, t);
      OneMore(s, steps, i, t);
    }
  }

  lemma EndedAlready(s: State, steps: seq<Step>, t: nat)
    requires Inv(s) && Ended(s, t)
    ensures EndedAfter(s, steps, 0, t)
  {
    assert steps[..0] == [];
  }

  /** After the first `i` steps of the run `t` has ended. */
  ghost predicate EndedAfter(s: State, steps: seq<Step>, i: nat, t: nat)
    requires Inv(s)
  {
    i <= |steps| && Allowed(s, steps[..i]) && Ended(Run(s, steps[..i]), t)
  }

  lemma OneMore(s: State, steps: seq<Step>, i: nat, t: nat)
    requires Inv(s) && steps != [] && Enabled(s, steps[0]) && EndedAfter(Apply(s, steps[0]), steps[1..], i, t)
    ensures EndedAfter(s, steps, i + 1, t)
  {
    assert steps[..i + 1][0] == steps[0] && steps[..i + 1][1..] == steps[1..][..i];
  }

  /** That is at most one round of the others. */
  lemma DelayBound(s: State, t: nat, most: nat)
    requires Loose(s) && Doomed(s, t) && Capped(s.procs, most)
    ensures Delay(s, t) <= (MAX - 1) * most
  {
    NeverFull(s);
    AheadSum(s.procs, s.ready, t, most);
    Scaled(|s.ready| - 1, MAX - 1, most);
  }

  /** The kill of another ready process: it has ended by the next search's end, or is on its way there. */
  lemma KillOutcome(s: State, target: nat)
    requires Inv(s) && s.running != MAX && target in s.ready && target != s.running
    ensures var s' := Apply(s, Step.Kill(target));
            s'.running != target && (Ended(s', target) || Doomed(s', target))
  {
    var step := Step.Kill(target);
    EffectKeeps(s, step);
    var s1 := Effect(s, step);
    TickedDoomed(s1, target);
    SearchDoomed(Ticked(s1), target);
  }
}
