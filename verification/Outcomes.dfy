/** What each system call has come to once its timer trap is over: where the caller is, and what became of it. */
module Outcomes {
  import opened Basics
  import opened Processes
  import opened SchedulerLaws
  import opened SchedulerSteps

  // ---- the trap up to the search ----

  /** As it was, or woken because its tick has come. */
  ghost predicate Woke(p: Proc, p': Proc, tick: nat) {
    p' == p || (p.asleep && p.wakeAt <= tick && p' == p.(asleep := false))
  }

  lemma {:induction false} WakeRecords(s: State)
    requires forall k | k in s.sleepers :: k in s.procs
    ensures var s' := WakeSleepers(s);
            && s'.procs.Keys == s.procs.Keys && s'.tick == s.tick && s.ready <= s'.ready
            && (forall k {:trigger s'.procs[k]} | k in s.procs :: Woke(s.procs[k], s'.procs[k], s.tick))
    decreases |s.sleepers|
  {
    if s.sleepers != [] && s.procs[s.sleepers[0]].wakeAt <= s.tick {
      var j := s.sleepers[0];
      var s1 := Woken(s, j, s.procs[j].(asleep := false)).(sleepers := s.sleepers[1..]);
      WakeRecords(s1);
      forall k | k in s.procs ensures Woke(s.procs[k], WakeSleepers(s).procs[k], s.tick) {
        assert Woke(s1.procs[k], WakeSleepers(s1).procs[k], s.tick);
      }
    }
  }

  lemma TickedRecords(s: State)
    requires Loose(s) && FrontLater(s.(tick := s.tick + 1))
    ensures var s' := Ticked(s);
            && s'.procs.Keys == s.procs.Keys && s'.tick == s.tick + 1 && s.ready <= s'.ready
            && (forall k {:trigger s'.procs[k]} | k in s.procs :: Woke(s.procs[k], s'.procs[k], s.tick + 1))
  {
    WakeRecords(s.(tick := s.tick + 1));
  }

  lemma TickedOne(s: State, k: nat)
    requires Loose(s) && FrontLater(s.(tick := s.tick + 1)) && k in s.procs
    ensures var t := Ticked(s);
            && k in t.procs && Woke(s.procs[k], t.procs[k], s.tick + 1) && t.tick == s.tick + 1
            && (s.ready != [] ==> t.Front(s.ready[0])) && (k in s.ready ==> k in t.ready)
  {
    TickedRecords(s);
    if k in s.ready {
      var i :| 0 <= i < |s.ready| && s.ready[i] == k;
      assert Ticked(s).ready[i] == k;
    }
  }

  // ---- what a search does to one process ----

  /** Process `k` has lost nothing but quantum, and perhaps its parent. */
  ghost predicate Carried(p: Proc, p': Proc, k: nat) {
    p' == p.(quantum := p'.quantum, ppid := p'.ppid) && (p'.ppid == p.ppid || p'.ppid == k)
  }

  /** Nothing left to act on: it neither ended nor waits nor is being replaced. */
  predicate Steady(p: Proc) { !p.terminated && !p.Blocked() && !p.exec }

  lemma TurnReady(s: State, k: nat)
    requires Loose(s) && k in s.ready && k in s.procs && Steady(s.procs[k])
    ensures FrontOk(s)
    ensures var s' := Turn(s).state; k in s'.ready && k in s'.procs && Carried(s.procs[k], s'.procs[k], k)
  {
    var f := s.ready[0];
    Tail(s.ready);
    FrontIsOk(s);
    assert RecordOk(s.procs, k);
    if s.procs[f].terminated {
      RunningFree(s, f);
      RelinquishKeeps(s.(running := f));
      RelinquishSpares(s.(running := f), k);
    } else if !s.procs[f].Blocked() {
      RunTurn(s);
    }
  }

  lemma {:induction false} SearchReady(s: State, k: nat)
    requires Loose(s) && k in s.ready && k in s.procs && Steady(s.procs[k])
    ensures var s' := GetNext(s).state; k in s'.ready && k in s'.procs && Carried(s.procs[k], s'.procs[k], k)
    decreases |Alive(s)|, |s.ready|, |Execs(s)|, |Spent(s)|
  {
    FrontIsOk(s);
    TurnKeeps(s);
    TurnReady(s, k);
    if Turn(s).chosen == None {
      TurnShrinks(s);
      SearchReady(Turn(s).state, k);
    }
  }

  /** Process `j`, if it is still there, has its parent, or is its own because that parent is gone. */
  ghost predicate ParentKept(s: State, s': State, j: nat) {
    j in s'.procs ==>
      && j in s.procs
      && (s'.procs[j].ppid == s.procs[j].ppid || (s'.procs[j].ppid == j && s.procs[j].ppid !in s'.procs))
  }

  lemma NotifyParent(s: State, x: nat, j: nat)
    requires x in s.procs && s.procs[x].ppid in s.procs
    ensures j in Notified(s, x).procs <==> j in s.procs
    ensures j in s.procs ==> Notified(s, x).procs[j].ppid == s.procs[j].ppid
                             && (j != x ==> Notified(s, x).procs[j].waited == s.procs[j].waited)
  {
  }

  lemma OrphanParent(procs: map<nat, Proc>, x: nat, j: nat)
    ensures var procs' := Orphaned(procs, x);
            && x !in procs' && (j in procs' <==> j in procs && j != x)
            && (j in procs' ==> procs'[j] == if procs[j].ppid == x then procs[j].(ppid := j) else procs[j])
  {
  }

  lemma FreeParent(s: State, x: nat, j: nat)
    requires x in s.procs && s.procs[x].ppid in s.procs && x < |s.pool| && !s.procs[x].exec
    ensures ParentKept(s, FreeTerminated(s, x), j)
    ensures j in s.procs && j != x ==>
              j in FreeTerminated(s, x).procs && FreeTerminated(s, x).procs[j].waited == s.procs[j].waited
  {
    NotifyParent(s, x, j);
    OrphanParent(if Awaited(s, x) then Notified(s, x).procs else s.procs, x, j);
  }

  lemma TurnParent(s: State, j: nat)
    requires Loose(s) && s.ready != []
    ensures FrontOk(s) && ParentKept(s, Turn(s).state, j) && Turn(s).state.tick == s.tick
  {
    var f := s.ready[0];
    FrontIsOk(s);
    if s.procs[f].terminated {
      FreeParent(s.(running := f, ready := s.ready[1..]), f, j);
    } else if !s.procs[f].Blocked() {
      RunTurn(s);
    }
  }

  lemma {:induction false} SearchParent(s: State, j: nat)
    requires Loose(s)
    ensures ParentKept(s, GetNext(s).state, j) && GetNext(s).state.tick == s.tick
    decreases |Alive(s)|, |s.ready|, |Execs(s)|, |Spent(s)|
  {
    if s.ready != [] {
      FrontIsOk(s);
      TurnKeeps(s);
      TurnParent(s, j);
      if Turn(s).chosen == None {
        TurnShrinks(s);
        SearchParent(Turn(s).state, j);
        if j in s.procs { SearchParent(Turn(s).state, s.procs[j].ppid); }
      }
    }
  }

  /** Ended and off the queue: gone, or a zombie. */
  ghost predicate Ended(s: State, k: nat) {
    k !in s.ready && (k in s.procs ==> s.procs[k].zombie)
  }

  lemma TurnEnded(s: State, k: nat)
    requires Loose(s) && s.ready != [] && Ended(s, k)
    ensures FrontOk(s) && Ended(Turn(s).state, k) && (k in Turn(s).state.procs <==> k in s.procs)
  {
    var f := s.ready[0];
    FrontIsOk(s);
    TurnKeeps(s);
    TurnParent(s, k);
    if k in s.procs { assert RecordOk(s.procs, k); }
    if s.procs[f].terminated {
      RunningFree(s, f);
      RelinquishKeeps(s.(running := f));
      if k in s.procs { RelinquishSpares(s.(running := f), k); }
    } else if !s.procs[f].Blocked() {
      RunTurn(s);
    }
    if k in Turn(s).state.procs { assert PlaceOk(Turn(s).state, k); }
  }

  /** What has ended stays so. */
  lemma {:induction false} SearchEnded(s: State, k: nat)
    requires Loose(s) && Ended(s, k)
    ensures Ended(GetNext(s).state, k) && (k in GetNext(s).state.procs <==> k in s.procs)
    decreases |Alive(s)|, |s.ready|, |Execs(s)|, |Spent(s)|
  {
    if s.ready != [] {
      FrontIsOk(s);
      TurnKeeps(s);
      TurnEnded(s, k);
      if Turn(s).chosen == None {
        TurnShrinks(s);
        SearchEnded(Turn(s).state, k);
      }
    }
  }

  // ---- waiting for a child ----

  /** `k` waits for its child `j`, in particular or as for any. */
  ghost predicate Awaits(procs: map<nat, Proc>, k: nat, j: nat) {
    && k in procs && j in procs && j != k && procs[j].ppid == k
    && (procs[j].waited || procs[k].waitAny)
  }

  ghost predicate WaitsOn(s: State, s': State, k: nat) {
    && k in s.procs && k in s'.procs && k !in s'.ready && SameButParent(s.procs[k], s'.procs[k], k)
    && forall j :: Awaits(s.procs, k, j) <==> Awaits(s'.procs, k, j)
  }

  /** A child has ended, and `k` is back in the queue. */
  ghost predicate Answered(s: State, s': State, k: nat) {
    && k in s.procs && k in s'.procs && k in s'.ready && Steady(s'.procs[k])
    && exists j | Awaits(s.procs, k, j) :: j !in s'.procs
  }

  lemma FreeOthers(s: State, x: nat, k: nat)
    requires x in s.procs && s.procs[x].ppid in s.procs && x < |s.pool| && !s.procs[x].exec && k in s.procs && k != x
    requires !(Awaited(s, x) && s.procs[x].ppid == k)
    ensures k in FreeTerminated(s, x).procs && SameButParent(s.procs[k], FreeTerminated(s, x).procs[k], k)
  {
    OrphanSpares(if Awaited(s, x) then Notified(s, x).procs else s.procs, x, k);
  }

  lemma FreeAnswers(s: State, x: nat, k: nat)
    requires x in s.procs && s.procs[x].ppid == k && k in s.procs && k != x && x < |s.pool| && !s.procs[x].exec
    requires Awaited(s, x)
    ensures k in FreeTerminated(s, x).procs
    ensures SameButParent(s.procs[k].Resumed(), FreeTerminated(s, x).procs[k], k)
  {
    OrphanSpares(Notified(s, x).procs, x, k);
  }

  lemma AwaitsKept(s: State, x: nat, k: nat, j: nat)
    requires x in s.procs && s.procs[x].ppid in s.procs && x < |s.pool| && !s.procs[x].exec && k in s.procs && k != x
    requires !(Awaited(s, x) && s.procs[x].ppid == k) && j != x
    ensures Awaits(s.procs, k, j) <==> Awaits(FreeTerminated(s, x).procs, k, j)
  {
    FreeOthers(s, x, k);
    FreeParent(s, x, j);
  }

  /** The front ends while `k` waits, for another child if for any. */
  lemma EndUnawaited(s: State, k: nat)
    requires FrontOk(s) && !s.procs[s.ready[0]].exec && s.running == s.ready[0] && k in s.procs && k != s.ready[0]
    requires !(Awaited(s, s.ready[0]) && s.procs[s.ready[0]].ppid == k)
    requires k !in Relinquish(s).ready
    requires s.ready[0] in Relinquish(s).procs ==> !Awaited(s, s.ready[0])
    ensures WaitsOn(s, Relinquish(s), k)
  {
    var f, s' := s.ready[0], Relinquish(s);
    var s1 := s.(ready := s.ready[1..]);
    FreeOthers(s1, f, k);
    forall j ensures Awaits(s.procs, k, j) <==> Awaits(s'.procs, k, j) {
      if j != f { AwaitsKept(s1, f, k, j); }
    }
  }

  /** The front ends while `k` waits for a child. */
  lemma EndWhileWaiting(s: State, k: nat)
    requires Loose(s) && s.ready != [] && s.procs[s.ready[0]].terminated && s.running == s.ready[0]
    requires k in s.procs && k !in s.ready && s.procs[k].waitProc && !s.procs[k].terminated
    ensures FrontOk(s) && (WaitsOn(s, Relinquish(s), k) || Answered(s, Relinquish(s), k))
  {
    FrontIsOk(s);
    var f := s.ready[0];
    Tail(s.ready);
    assert RecordOk(s.procs, k);
    RelinquishKeeps(s);
    if s.procs[f].ppid == k && Awaited(s, f) {
      FreeAnswers(s.(ready := s.ready[1..]), f, k);
      assert Awaits(s.procs, k, f);
    } else {
      EndUnawaited(s, k);
    }
  }

  lemma TurnWaits(s: State, k: nat)
    requires Loose(s) && s.ready != [] && k in s.procs && k !in s.ready && s.procs[k].waitProc && !s.procs[k].terminated
    ensures FrontOk(s) && (WaitsOn(s, Turn(s).state, k) || Answered(s, Turn(s).state, k))
  {
    var f := s.ready[0];
    FrontIsOk(s);
    if s.procs[f].terminated {
      RunningFree(s, f);
      EndWhileWaiting(s.(running := f), k);
    } else if s.procs[f].Blocked() {
      Tail(s.ready);
    } else {
      RunWhileWaiting(s, k);
    }
  }

  lemma StillAwaits(procs: map<nat, Proc>, procs': map<nat, Proc>, f: nat, k: nat, j: nat)
    requires f in procs && f in procs' && procs' == procs[f := procs'[f]] && k in procs && k != f
    requires procs'[f].ppid == procs[f].ppid && procs'[f].waited == procs[f].waited
    ensures Awaits(procs, k, j) <==> Awaits(procs', k, j)
  {
  }

  lemma RunWhileWaiting(s: State, k: nat)
    requires Loose(s) && s.ready != [] && k in s.procs && k !in s.ready
    requires !s.procs[s.ready[0]].terminated && !s.procs[s.ready[0]].Blocked()
    ensures FrontOk(s) && WaitsOn(s, Turn(s).state, k)
  {
    FrontIsOk(s);
    var f, s' := s.ready[0], Turn(s).state;
    RunOthers(s, f, s');
    forall j ensures Awaits(s.procs, k, j) <==> Awaits(s'.procs, k, j) {
      StillAwaits(s.procs, s'.procs, f, k, j);
    }
  }

  /** Through a whole search `k` waits on, or one of the children it waits for is gone and it is queued. */
  lemma {:induction false} SearchWaits(s: State, k: nat)
    requires Loose(s) && k in s.procs && k !in s.ready && s.procs[k].waitProc && !s.procs[k].terminated
    ensures WaitsOn(s, GetNext(s).state, k) || Answered(s, GetNext(s).state, k)
    decreases |Alive(s)|, |s.ready|, |Execs(s)|, |Spent(s)|, 0
  {
    if s.ready != [] {
      FrontIsOk(s);
      TurnKeeps(s);
      TurnWaits(s, k);
      if Turn(s).chosen == None {
        TurnShrinks(s);
        WaitsOnwards(s, Turn(s).state, k);
      }
    }
  }

  lemma {:induction false} WaitsOnwards(s: State, mid: State, k: nat)
    requires Loose(mid) && (WaitsOn(s, mid, k) || Answered(s, mid, k))
    requires s.procs[k].waitProc && !s.procs[k].terminated
    ensures WaitsOn(s, GetNext(mid).state, k) || Answered(s, GetNext(mid).state, k)
    decreases |Alive(mid)|, |mid.ready|, |Execs(mid)|, |Spent(mid)|, 1
  {
    if Answered(s, mid, k) {
      SearchReady(mid, k);
      var j :| Awaits(s.procs, k, j) && j !in mid.procs;
      SearchParent(mid, j);
    } else {
      SearchWaits(mid, k);
      if Answered(mid, GetNext(mid).state, k) {
        var j :| Awaits(mid.procs, k, j) && j !in GetNext(mid).state.procs;
        assert Awaits(s.procs, k, j);
      }
    }
  }

  // ---- the calls ----

  /** The trap begins with the caller's own turn. */
  lemma FirstTurn(s: State)
    requires Loose(s) && FrontLater(s.(tick := s.tick + 1)) && s.ready != []
    ensures var t := Ticked(s);
            && t.ready != [] && t.ready[0] == s.ready[0] && FrontOk(t) && Loose(Turn(t).state)
            && (Turn(t).chosen == None ==> Trap(s) == Next(Turn(t).state))
  {
    TickedRecords(s);
    FrontIsOk(Ticked(s));
    TurnKeeps(Ticked(s));
  }

  /** A front that has come to wait leaves the queue. */
  lemma FrontBlocks(t: State, k: nat)
    requires Loose(t) && t.Front(k) && t.procs[k].Blocked() && !t.procs[k].terminated
    ensures FrontOk(t) && Turn(t).chosen == None
    ensures var u := Turn(t).state; Loose(u) && k !in u.ready && u.procs == t.procs && u.tick == t.tick
  {
    FrontIsOk(t);
    TurnKeeps(t);
    Tail(t.ready);
  }

  /** The end of the running process `k`: off the queue for good; a zombie exactly if it has a parent that does not
      wait for it, otherwise gone, its children their own parents, and a parent that waited is ready. */
  ghost predicate EndOf(s: State, s': State, k: nat) {
    k in s.procs && s.procs[k].ppid in s.procs &&
    var pp := s.procs[k].ppid;
    var awaited := s.procs[k].waited || s.procs[pp].waitAny;
    && k !in s'.ready
    && (k in s'.procs <==> pp != k && !awaited)
    && (k in s'.procs ==> s'.procs[k].zombie)
    && (k !in s'.procs ==> forall j | j in s'.procs && j in s.procs && s.procs[j].ppid == k :: s'.procs[j].ppid == j)
    && (pp != k && awaited && !s.procs[pp].terminated ==> pp in s'.ready && pp in s'.procs && Steady(s'.procs[pp]))
  }

  /** The parent that waited for the front is ready once the front has ended. */
  lemma WaiterReady(t: State, k: nat, pp: nat)
    requires Loose(t) && t.Front(k) && t.procs[k].terminated && pp == t.procs[k].ppid && pp != k && pp in t.procs
    requires (t.procs[k].waited || t.procs[pp].waitAny) && !t.procs[pp].terminated
    ensures FrontOk(t)
    ensures var u := Turn(t).state; pp in u.ready && pp in u.procs && Steady(u.procs[pp])
  {
    FrontIsOk(t);
    assert RecordOk(t.procs, pp) && PlaceOk(t, pp);
    RunningFree(t, k);
    RelinquishKeeps(t.(running := k));
    EndWhileWaiting(t.(running := k), pp);
  }

  lemma FrontEnds(t: State, k: nat)
    requires Loose(t) && t.Front(k) && t.procs[k].terminated
    ensures EndOf(t, Next(t), k)
  {
    FrontIsOk(t);
    RunningFree(t, k);
    RelinquishKeeps(t.(running := k));
    TurnKeeps(t);
    var pp, u := t.procs[k].ppid, Turn(t).state;
    SearchEnded(u, k);
    if pp != k && Awaited(t, k) && !t.procs[pp].terminated {
      WaiterReady(t, k, pp);
      SearchReady(u, pp);
    }
    if k !in u.procs { ChildrenFreed(t, k); }
  }

  lemma ChildrenFreed(t: State, k: nat)
    requires Loose(t) && t.Front(k) && FrontOk(t) && t.procs[k].terminated && k !in Turn(t).state.procs
    ensures Loose(Turn(t).state)
    ensures var s' := GetNext(Turn(t).state).state;
            forall j | j in s'.procs && j in t.procs && t.procs[j].ppid == k :: s'.procs[j].ppid == j
  {
    TurnKeeps(t);
    var u := Turn(t).state;
    var s' := GetNext(u).state;
    forall j | j in s'.procs && j in t.procs && t.procs[j].ppid == k ensures s'.procs[j].ppid == j {
      TurnParent(t, j);
      SearchParent(u, j);
      assert RecordOk(u.procs, j);
    }
  }

  lemma TickedParents(s: State)
    requires Loose(s) && FrontLater(s.(tick := s.tick + 1))
    ensures forall j | j in s.procs :: j in Ticked(s).procs && Ticked(s).procs[j].ppid == s.procs[j].ppid
  {
    forall j | j in s.procs ensures j in Ticked(s).procs && Ticked(s).procs[j].ppid == s.procs[j].ppid {
      TickedOne(s, j);
    }
  }

  lemma EndSeenFrom(s: State, t: State, s': State, k: nat)
    requires k in s.procs && k in t.procs && s.procs[k].ppid in s.procs && t.procs[k].ppid in t.procs
    requires t.procs[k].waited == s.procs[k].waited
    requires forall j | j in s.procs :: j in t.procs && t.procs[j].ppid == s.procs[j].ppid
    requires var pp := s.procs[k].ppid;
             && pp in t.procs && t.procs[pp].waitAny == s.procs[pp].waitAny
             && (pp != k ==> t.procs[pp].terminated == s.procs[pp].terminated)
    requires EndOf(t, s', k)
    ensures EndOf(s, s', k)
  {
  }

  lemma MarkedFrontEnds(s: State, k: nat)
    requires Loose(s) && FrontLater(s.(tick := s.tick + 1)) && s.Front(k) && s.procs[k].terminated
    ensures EndOf(s, Trap(s), k)
  {
    FrontIsOk(s);
    TickedOne(s, k);
    TickedOne(s, s.procs[k].ppid);
    TickedParents(s);
    FrontEnds(Ticked(s), k);
    EndSeenFrom(s, Ticked(s), Trap(s), k);
  }

  lemma EndOutcome(s: State, s1: State)
    requires Inv(s) && s.running != MAX && s1 == s.With(s.running, s.procs[s.running].(terminated := true))
    requires Loose(s1) && FrontLater(s1.(tick := s.tick + 1))
    ensures EndOf(s, Trap(s1), s.running)
  {
    assert RecordOk(s.procs, s.running);
    MarkedFrontEnds(s1, s.running);
    EndSeenFrom(s, s1, Trap(s1), s.running);
  }

  /** exit: the caller ends. */
  lemma ExitOutcome(s: State)
    requires Inv(s) && s.running != MAX
    ensures EndOf(s, Apply(s, Step.Exit), s.running)
  {
    EffectKeeps(s, Step.Exit);
    EndOutcome(s, s.With(s.running, s.procs[s.running].(terminated := true)));
  }

  /** So does a process that kills itself. */
  lemma SelfKillOutcome(s: State)
    requires Inv(s) && s.running != MAX
    ensures s.running in s.procs && EndOf(s, Apply(s, Step.Kill(s.running)), s.running)
  {
    assert RecordOk(s.procs, s.running);
    EffectKeeps(s, Step.Kill(s.running));
    EndOutcome(s, s.With(s.running, s.procs[s.running].(terminated := true)));
  }

  /** The pass that carries out an exec: the replacement, with the lowest priority, goes to the back of the queue with
      one tick of quantum. */
  lemma ExecTurn(t: State, k: nat)
    requires Loose(t) && t.Front(k) && t.procs[k].exec
    ensures FrontOk(t)
    ensures Turn(t) == Pick(t.(running := k, ready := t.ready[1..] + [k])
                             .With(k, t.procs[k].(priority := 1, quantum := 10, exec := false)), None)
  {
    assert RecordOk(t.procs, k);
    RunTurn(t);
  }

  /** exec: the caller keeps its pid and its parent, unless that one ends in the meantime, and stays in the queue, with
      the lowest priority and no more than one tick of quantum. */
  lemma ExecOutcome(s: State)
    requires Inv(s) && s.running != MAX
    ensures var k, s' := s.running, Apply(s, Step.Exec);
            && k in s'.procs && k in s'.ready && Steady(s'.procs[k]) && !s'.procs[k].zombie
            && s'.procs[k].priority == 1 && s'.procs[k].quantum <= 10
            && (s'.procs[k].ppid == s.procs[k].ppid || (s'.procs[k].ppid == k && s.procs[k].ppid !in s'.procs))
            && s'.procs[k].waited == s.procs[k].waited
  {
    var k := s.running;
    var s1 := s.With(k, s.procs[k].(exec := true));
    EffectKeeps(s, Step.Exec);
    assert PlaceOk(s, k);
    TickedRecords(s1);
    FirstTurn(s1);
    var t := Ticked(s1);
    assert Woke(s1.procs[k], t.procs[k], t.tick);
    RunTurn(t);
    var u := Turn(t).state;
    SearchReady(u, k);
    TurnParent(t, k);
    SearchParent(u, k);
    assert PlaceOk(Apply(s, Step.Exec), k) && RecordOk(Apply(s, Step.Exec).procs, k);
  }

  /** A wait for anything but a child: the caller is out of the queue, its record as the call left it. */
  lemma BlockOutcome(s: State, s1: State)
    requires Inv(s) && s.running != MAX && Loose(s1) && FrontLater(s1.(tick := s1.tick + 1)) && s1.Front(s.running)
    requires var p := s1.procs[s.running]; p.Blocked() && !p.waitProc && !p.terminated
    ensures var k, s' := s.running, Trap(s1);
            && k in s'.procs && k !in s'.ready && SameButParent(s1.procs[k], s'.procs[k], k)
            && (k in s'.keys <==> s1.procs[k].waitKey) && (k in s'.sleepers <==> s1.procs[k].asleep)
            && (k in s'.readers <==> s1.procs[k].waitRead)
  {
    var k, t := s.running, Ticked(s1);
    TickedOne(s1, k);
    FirstTurn(s1);
    FrontBlocks(t, k);
    StaysBlocked(Turn(t).state, k);
  }

  lemma StaysBlocked(u: State, k: nat)
    requires Loose(u) && k in u.procs && k !in u.ready && u.procs[k].Blocked() && !u.procs[k].waitProc
    ensures var (s', p) := (Next(u), u.procs[k]);
            && k in s'.procs && k !in s'.ready && SameButParent(p, s'.procs[k], k)
            && (k in s'.keys <==> p.waitKey) && (k in s'.sleepers <==> p.asleep) && (k in s'.readers <==> p.waitRead)
  {
    SearchSpares(u, k);
    NextKeeps(u);
    assert PlaceOk(Next(u), k);
  }

  /** A wait for a key. */
  lemma GetKeyOutcome(s: State)
    requires Inv(s) && s.running != MAX
    ensures var k, s' := s.running, Apply(s, Step.GetKey);
            k in s'.keys && k !in s'.ready && k !in s'.sleepers && k !in s'.readers
  {
    EffectKeeps(s, Step.GetKey);
    assert PlaceOk(s, s.running) && RecordOk(s.procs, s.running);
    BlockOutcome(s, s.With(s.running, s.procs[s.running].(waitKey := true)));
  }

  /** A wait for `n` bytes from `fd`. */
  lemma ReadOutcome(s: State, fd: int, n: nat)
    requires Inv(s) && s.running != MAX
    ensures var k, s' := s.running, Apply(s, Step.ReadWait(fd, n));
            && k in s'.readers && k !in s'.ready && k !in s'.keys && k !in s'.sleepers && k in s'.procs
            && s'.procs[k].readFd == fd && s'.procs[k].readWant == n && s'.procs[k].readGot == 0
  {
    EffectKeeps(s, Step.ReadWait(fd, n));
    assert PlaceOk(s, s.running) && RecordOk(s.procs, s.running);
    BlockOutcome(s, Reading(s, fd, n));
  }

  /** A sleep of `ticks`. */
  lemma SleepOutcome(s: State, ticks: nat)
    requires Inv(s) && s.running != MAX && ticks >= 2
    ensures var k, s' := s.running, Apply(s, Step.Sleep(ticks));
            && k in s'.sleepers && k !in s'.ready && k !in s'.keys && k !in s'.readers && k in s'.procs
            && s'.procs[k].wakeAt == s.tick + ticks
  {
    EffectKeeps(s, Step.Sleep(ticks));
    assert PlaceOk(s, s.running) && RecordOk(s.procs, s.running);
    AsleepKeeps(s, ticks, Asleep(s, ticks));
    BlockOutcome(s, Asleep(s, ticks));
  }

  /** In no queue at all, waiting for a child. */
  ghost predicate InNoQueue(s: State, k: nat) {
    && k in s.procs && s.procs[k].waitProc && !s.procs[k].terminated
    && k !in s.ready && k !in s.keys && k !in s.sleepers && k !in s.readers
  }

  /** The caller waits for a child: for as long as none of those it waits for is gone, it is in no queue, and as soon
      as one is, it is ready. */
  lemma ChildWaitOutcome(s: State, s1: State)
    requires Inv(s) && s.running != MAX && Loose(s1) && FrontLater(s1.(tick := s1.tick + 1)) && s1.Front(s.running)
    requires s1.procs[s.running].waitProc && !s1.procs[s.running].terminated
    ensures var k, s' := s.running, Trap(s1);
            if forall j | Awaits(s1.procs, k, j) :: j in s'.procs then InNoQueue(s', k)
            else k in s'.ready && k in s'.procs && Steady(s'.procs[k])
  {
    var k, t := s.running, Ticked(s1);
    assert RecordOk(s1.procs, k);
    TickedOne(s1, k);
    FirstTurn(s1);
    FrontBlocks(t, k);
    var u := Turn(t).state;
    SearchWaits(u, k);
    NextKeeps(u);
    assert PlaceOk(Next(u), k);
    AwaitsTicked(s1, k);
    assert WaitsOn(u, Next(u), k) || Answered(u, Next(u), k);
  }

  lemma AwaitsTicked(s: State, k: nat)
    requires Loose(s) && FrontLater(s.(tick := s.tick + 1)) && k in s.procs
    ensures forall j :: Awaits(s.procs, k, j) <==> Awaits(Ticked(s).procs, k, j)
  {
    TickedRecords(s);
    forall j ensures Awaits(s.procs, k, j) <==> Awaits(Ticked(s).procs, k, j) {
      assert Woke(s.procs[k], Ticked(s).procs[k], s.tick + 1);
      if j in s.procs { assert Woke(s.procs[j], Ticked(s).procs[j], s.tick + 1); }
    }
  }

  /** `c` is a child of `k`. */
  predicate Child(s: State, k: nat, c: nat) { c in s.procs && c != k && s.procs[c].ppid == k }

  /** The step as its effect and a trap. */
  lemma Trapping(s: State, step: Step, s1: State)
    requires Inv(s) && Enabled(s, step) && Traps(s, step) && s1 == Effect(s, step)
    ensures Loose(s1) && FrontLater(s1.(tick := s1.tick + 1)) && Apply(s, step) == Trap(s1)
  {
    EffectKeeps(s, step);
  }

  lemma WaitsForOne(s: State, c: nat, s1: State)
    requires Inv(s) && s.running != MAX && Child(s, s.running, c)
    requires s1 == Waiting(s.With(c, s.procs[c].(waited := true)), false)
    ensures s1.Front(s.running) && s1.procs[s.running].waitProc && !s1.procs[s.running].terminated
    ensures forall j :: Awaits(s1.procs, s.running, j) <==> j == c
  {
    var k := s.running;
    assert RecordOk(s.procs, k);
    NotWaited(s.procs, k);
    forall j ensures Awaits(s1.procs, k, j) <==> j == c {
      if j in s.procs { assert RecordOk(s.procs, j); }
    }
  }

  /** The caller waits for the one child `c`. */
  ghost predicate WaitsUntilGone(s': State, k: nat, c: nat) {
    if c in s'.procs then InNoQueue(s', k) else k in s'.ready && k in s'.procs && Steady(s'.procs[k])
  }

  lemma WaitOne(s: State, c: nat, s1: State)
    requires Inv(s) && s.running != MAX && Child(s, s.running, c)
    requires s1 == Waiting(s.With(c, s.procs[c].(waited := true)), false)
    requires Loose(s1) && FrontLater(s1.(tick := s1.tick + 1))
    ensures WaitsUntilGone(Trap(s1), s.running, c)
  {
    WaitsForOne(s, c, s1);
    ChildWaitOutcome(s, s1);
    assert Awaits(s1.procs, s.running, c);
  }

  /** waitpid on one process: refused for a stranger, over at once for a zombie, which goes; otherwise the caller waits
      until that child has gone. */
  lemma WaitChildOutcome(s: State, c: nat)
    requires Inv(s) && s.running != MAX
    ensures var k, s' := s.running, Apply(s, Step.WaitChild(c));
            if !Child(s, k, c) then s' == s
            else if s.procs[c].zombie then
              && c !in s'.procs && s'.running == k && s'.ready == s.ready
              && (forall j | j in s.procs && j != c :: j in s'.procs)
            else WaitsUntilGone(s', k, c)
  {
    if Child(s, s.running, c) {
      if s.procs[c].zombie {
        ReapKeeps(s, c);
      } else {
        var s1 := Waiting(s.With(c, s.procs[c].(waited := true)), false);
        Trapping(s, Step.WaitChild(c), s1);
        WaitOne(s, c, s1);
      }
    }
  }

  lemma WaitsForAny(s: State, s1: State)
    requires Inv(s) && s.running != MAX && s1 == Waiting(s, true)
    ensures s1.Front(s.running) && s1.procs[s.running].waitProc && !s1.procs[s.running].terminated
    ensures forall j :: Awaits(s1.procs, s.running, j) <==> Child(s, s.running, j)
  {
  }

  ghost predicate WaitsUntilAnyGone(s: State, s': State, k: nat) {
    if forall j | Child(s, k, j) :: j in s'.procs then InNoQueue(s', k)
    else k in s'.ready && k in s'.procs && Steady(s'.procs[k])
  }

  lemma WaitForAny(s: State, s1: State)
    requires Inv(s) && s.running != MAX && s1 == Waiting(s, true)
    requires Loose(s1) && FrontLater(s1.(tick := s1.tick + 1))
    ensures WaitsUntilAnyGone(s, Trap(s1), s.running)
  {
    WaitsForAny(s, s1);
    ChildWaitOutcome(s, s1);
  }

  /** waitpid on any child, none of them a zombie: refused without children, otherwise the caller waits until one of
      them has gone. */
  lemma WaitAnyOutcome(s: State)
    requires Inv(s) && s.running != MAX && Enabled(s, Step.WaitAny)
    ensures var k, s' := s.running, Apply(s, Step.WaitAny);
            if HasChild(s, k) then WaitsUntilAnyGone(s, s', k) else s' == s
    ensures HasChild(s, s.running) <==> exists j :: Child(s, s.running, j)
  {
    if HasChild(s, s.running) {
      Trapping(s, Step.WaitAny, Waiting(s, true));
      WaitForAny(s, Waiting(s, true));
      var j :| j in s.procs && j != s.running && s.procs[j].ppid == s.running;
      assert Child(s, s.running, j);
    }
  }

  /** fork: a child of the caller under a pid that named nobody, last in the queue with its full quantum; nobody else
      changes. */
  lemma ForkOutcome(s: State)
    requires Inv(s) && s.running != MAX && Enabled(s, Step.Fork)
    ensures var k, s' := s.running, Apply(s, Step.Fork);
            exists c: nat | c !in s.procs && c < MAX ::
              && s' == s.(ready := s.ready + [c], procs := s'.procs, pool := s'.pool)
              && s'.procs == s.procs[c := s'.procs[c]] && NewAs(s'.procs[c], k, s.procs[k].priority)
  {
    FreshPid(s);
    EffectKeeps(s, Step.Fork);
    assert RecordOk(s.procs, s.running);
    var c := FreePid(s.pool, 0);
    AddKeeps(s, c, NewProc(s.running, s.procs[s.running].priority), Apply(s, Step.Fork));
  }

  /** A kernel process: the same, its own parent. */
  lemma StartOutcome(s: State, priority: nat)
    requires Inv(s) && s.running != MAX && Enabled(s, Step.Start(priority))
    ensures var s' := Apply(s, Step.Start(priority));
            exists c: nat | c !in s.procs && c < MAX ::
              && s' == s.(ready := s.ready + [c], procs := s'.procs, pool := s'.pool)
              && s'.procs == s.procs[c := s'.procs[c]] && NewAs(s'.procs[c], c, priority)
  {
    FreshPid(s);
    EffectKeeps(s, Step.Start(priority));
    var c := FreePid(s.pool, 0);
    AddKeeps(s, c, NewProc(c, priority), Apply(s, Step.Start(priority)));
  }

  /** A new process: its whole quantum before it, nothing to wait for. */
  predicate NewAs(p: Proc, ppid: nat, priority: nat) {
    && p.ppid == ppid && p.priority == priority && p.quantum == 10 * priority
    && Steady(p) && !p.zombie && !p.waited && !p.waitAny
  }

  lemma DueWakes(s: State, k: nat)
    requires Loose(s) && FrontLater(s.(tick := s.tick + 1)) && k in s.sleepers && k in s.procs
    requires s.procs[k].wakeAt <= s.tick + 1
    ensures k in Ticked(s).procs && !Ticked(s).procs[k].asleep
  {
    var s1 := s.(tick := s.tick + 1);
    TickKeeps(s, s1);
    SleepersKeep(s1);
    TickedOne(s, k);
    assert PlaceOk(Ticked(s), k);
  }

  /** A sleeper is ready if its tick has come. */
  lemma DueReady(s: State, k: nat)
    requires Loose(s) && FrontLater(s.(tick := s.tick + 1)) && k in s.sleepers && !s.procs[k].terminated
    requires s.procs[k].wakeAt <= s.tick + 1
    ensures k in Trap(s).ready && k in Trap(s).procs
  {
    assert PlaceOk(s, k) && RecordOk(s.procs, k);
    TickedOne(s, k);
    DueWakes(s, k);
    assert PlaceOk(Ticked(s), k);
    SearchReady(Ticked(s), k);
  }

  lemma TrapTick(s: State)
    requires Loose(s) && FrontLater(s.(tick := s.tick + 1))
    ensures Trap(s).tick == s.tick + 1
  {
    TickedRecords(s);
    SearchParent(Ticked(s), 0);
  }

  /** Sleepers wake exactly when their tick has come. */
  lemma WakeOutcome(s: State, k: nat)
    requires Inv(s) && k in s.sleepers && !s.procs[k].terminated
    ensures var s' := Apply(s, Step.Tick);
            && s'.tick == s.tick + 1 && k in s'.procs
            && (k in s'.ready <==> s.procs[k].wakeAt <= s'.tick) && (k in s'.sleepers <==> s.procs[k].wakeAt > s'.tick)
  {
    Trapping(s, Step.Tick, s);
    TrapTick(s);
    assert PlaceOk(s, k) && RecordOk(s.procs, k);
    if s.procs[k].wakeAt <= s.tick + 1 { DueReady(s, k); } else { TrapSpares(s, k); }
    assert PlaceOk(Apply(s, Step.Tick), k);
  }

  /** A tick takes nobody out of the queue who can run. */
  lemma TickOutcome(s: State, k: nat)
    requires Inv(s) && k in s.ready && !s.procs[k].terminated
    ensures var s' := Apply(s, Step.Tick); k in s'.ready && k in s'.procs && Steady(s'.procs[k])
  {
    EffectKeeps(s, Step.Tick);
    assert PlaceOk(s, k) && RecordOk(s.procs, k);
    TickedRecords(s);
    var t := Ticked(s);
    assert Woke(s.procs[k], t.procs[k], t.tick);
    SearchReady(t, k);
  }

  // ---- writes ----

  lemma {:induction false} WokenReaders(s: State, q: seq<nat>, k: nat)
    requires (forall j | j in q :: j in s.procs) && NoDup(q) && NoDup(s.readers) && k in s.procs
    ensures var s' := WakeReaders(s, q);
            && k in s'.procs && s'.procs[k] == (if k in q then s.procs[k].(waitRead := false) else s.procs[k])
            && (k in s'.readers <==> k in s.readers && k !in q)
    decreases |q|
  {
    if q != [] {
      Tail(q);
      WithoutOne(s.readers, q[0]);
      WokenReaders(Woken(s, q[0], s.procs[q[0]].(waitRead := false)).(readers := Without(s.readers, q[0])), q[1..], k);
    }
  }

  ghost predicate Before(q: seq<nat>, x: nat, y: nat) {
    exists m, n | 0 <= m < n < |q| :: q[m] == x && q[n] == y
  }

  /** `q` has some of the readers, in the order they came. */
  ghost predicate InOrder(q: seq<nat>, readers: seq<nat>) {
    forall i, j | 0 <= i < j < |q| :: Before(readers, q[i], q[j])
  }

  lemma {:induction false} ResumedInOrder(procs: map<nat, Proc>, q: seq<nat>, fd: int, drained: bool)
    requires (forall k | k in q :: k in procs) && NoDup(q)
    ensures InOrder(Resumed(procs, q, fd, drained), q)
  {
    if q != [] {
      var init, last := q[..|q| - 1], q[|q| - 1];
      ResumedInOrder(procs, init, fd, drained);
      ResumedSome(procs, init, fd, drained);
      OrderKept(Resumed(procs, init, fd, drained), init, last, q);
    }
  }

  lemma OrderKept(r: seq<nat>, init: seq<nat>, last: nat, q: seq<nat>)
    requires InOrder(r, init) && (forall k | k in r :: k in init) && q == init + [last]
    ensures InOrder(r, q) && InOrder(r + [last], q)
  {
    var s := r + [last];
    forall i, j | 0 <= i < j < |s| ensures Before(q, s[i], s[j]) {
      if j < |r| {
        assert Before(init, r[i], r[j]);
        var m, n :| 0 <= m < n < |init| && init[m] == r[i] && init[n] == r[j];
        assert q[m] == s[i] && q[n] == s[j];
      } else {
        assert r[i] in init;
        var m :| 0 <= m < |init| && init[m] == r[i];
        assert q[m] == s[i] && q[|init|] == s[j];
      }
    }
    forall i, j | 0 <= i < j < |r| ensures Before(q, r[i], r[j]) {
      assert Before(q, s[i], s[j]);
    }
  }

  /** What a reader has after `count` bytes were written to `fd`: up to what it asked for, if it reads from there. */
  function Got(p: Proc, fd: int, count: nat): nat {
    if p.readFd != fd then p.readGot else if p.readGot + count < p.readWant then p.readGot + count else p.readWant
  }

  /** Its read is over: it has all it asked for, or the pipe is not to be waited for any more. */
  predicate Over(p: Proc, fd: int, count: nat, drained: bool) {
    p.readFd == fd && (p.readGot + count >= p.readWant || drained)
  }

  /** What a write leaves of reader `k`. */
  ghost predicate HasRead(s: State, s': State, k: nat, fd: int, count: nat, drained: bool)
    requires k in s.procs
  {
    var (p, over) := (s.procs[k], Over(s.procs[k], fd, count, drained));
    && k in s'.procs && s'.procs[k] == p.(readGot := Got(p, fd, count), waitRead := !over)
    && (k in s'.ready <==> over) && (k in s'.readers <==> !over)
  }

  lemma Share(procs: map<nat, Proc>, readers: seq<nat>, k: nat, fd: int, count: nat)
    requires k in procs
    ensures k in Shared(procs, readers, fd, count)
    ensures Shared(procs, readers, fd, count)[k] == if k in readers then Progress(procs[k], fd, count) else procs[k]
  {
  }

  lemma Progresses(p: Proc, fd: int, count: nat, drained: bool)
    requires p.readGot <= p.readWant
    ensures Progress(p, fd, count) == p.(readGot := Got(p, fd, count))
    ensures Satisfied(Progress(p, fd, count), fd, drained) <==> Over(p, fd, count, drained)
  {
    var got := Got(p, fd, count);
    assert p.readFd == fd ==> p.readGot + Least(p.readWant - p.readGot, count) == got;
    assert p.readFd != fd ==> p.(readGot := got) == p;
  }

  lemma ReaderRecord(s: State, k: nat, fd: int, count: nat, drained: bool)
    requires k in s.procs && s.procs[k].readGot <= s.procs[k].readWant
    requires NoDup(s.readers) && (forall j | j in s.readers :: j in s.procs) && (k in s.readers ==> s.procs[k].waitRead)
    ensures var s' := AfterWrite(s, fd, count, drained); var p := s.procs[k];
            && k in s'.procs
            && (k !in s.readers ==> s'.procs[k] == p)
            && (k in s.readers ==>
                  s'.procs[k] == p.(readGot := Got(p, fd, count), waitRead := !Over(p, fd, count, drained)))
            && (k in s'.readers <==> k in s.readers && !Over(p, fd, count, drained))
  {
    var s1 := Progressed(s, fd, count);
    Share(s.procs, s.readers, k, fd, count);
    Progresses(s.procs[k], fd, count, drained);
    ResumedSome(s1.procs, s.readers, fd, drained);
    WokenReaders(s1, Resumed(s1.procs, s.readers, fd, drained), k);
  }

  lemma OneReader(s: State, k: nat, fd: int, count: nat, drained: bool)
    requires Inv(s) && k in s.procs
    ensures var s' := AfterWrite(s, fd, count, drained);
            if k in s.readers then HasRead(s, s', k, fd, count, drained) else k in s'.procs && s'.procs[k] == s.procs[k]
  {
    assert RecordOk(s.procs, k) && PlaceOk(s, k);
    ReaderRecord(s, k, fd, count, drained);
    WriteKeeps(s, fd, count, drained);
    assert PlaceOk(AfterWrite(s, fd, count, drained), k);
  }

  /** A write: each reader of `fd` gets its share, those whose read is over go to the back of the queue in the order
      they came, and nobody else changes. */
  lemma WriteOutcome(s: State, fd: int, count: nat, drained: bool)
    requires Inv(s)
    ensures var s' := Apply(s, Step.Written(fd, count, drained));
            && s.ready <= s'.ready && InOrder(s'.ready[|s.ready|..], s.readers)
            && (forall k | k in s.readers :: HasRead(s, s', k, fd, count, drained))
            && (forall k | k in s.procs && k !in s.readers :: k in s'.procs && s'.procs[k] == s.procs[k])
  {
    var s', s1 := Apply(s, Step.Written(fd, count, drained)), Progressed(s, fd, count);
    WriteKeeps(s, fd, count, drained);
    ResumedInOrder(s1.procs, s.readers, fd, drained);
    assert s'.ready[|s.ready|..] == Resumed(s1.procs, s.readers, fd, drained);
    forall k | k in s.procs
      ensures k in s.readers ==> HasRead(s, s', k, fd, count, drained)
      ensures k !in s.readers ==> k in s'.procs && s'.procs[k] == s.procs[k]
    {
      OneReader(s, k, fd, count, drained);
    }
  }

  // ---- key presses ----

  lemma {:induction false} WokenKeys(s: State, i: nat, k: nat)
    requires (forall j | j in s.keys :: j in s.procs) && NoDup(s.keys) && k in s.procs
    ensures var s' := WakeKeys(s, i);
            && k in s'.procs
            && s'.procs[k] == (if k in s.keys && k !in s'.keys then s.procs[k].(waitKey := false) else s.procs[k])
            && (k in s'.keys ==> k in s.keys)
    decreases |s.keys|
  {
    if i < |s.keys| {
      Tail(s.keys);
      WokenKeys(Woken(s, s.keys[0], s.procs[s.keys[0]].(waitKey := false)).(keys := s.keys[1..]), i + 1, k);
    }
  }

  /** A key press: the first half of the waiters, rounded up, go to the back of the queue in order, no longer waiting;
      nobody else changes. */
  lemma KeyOutcome(s: State, n: nat)
    requires Inv(s) && (n == |s.keys| / 2 + |s.keys| % 2)
    ensures var s' := Apply(s, Step.KeyPress);
            && s'.ready == s.ready + s.keys[..n] && s'.keys == s.keys[n..]
            && (forall k | k in s.procs :: k in s'.procs && s'.procs[k]
                  == if k in s.keys[..n] then s.procs[k].(waitKey := false) else s.procs[k])
  {
    EffectKeeps(s, Step.KeyPress);
    KeysKeep(s, 0, n);
    forall k | k in s.procs
      ensures k in WakeKeys(s, 0).procs
      ensures WakeKeys(s, 0).procs[k] == if k in s.keys[..n] then s.procs[k].(waitKey := false) else s.procs[k]
    {
      OneKey(s, n, k, WakeKeys(s, 0));
    }
  }

  lemma OneKey(s: State, n: nat, k: nat, s': State)
    requires (forall j | j in s.keys :: j in s.procs) && NoDup(s.keys) && k in s.procs && n <= |s.keys|
    requires s' == WakeKeys(s, 0) && s'.keys == s.keys[n..]
    ensures k in s'.procs
    ensures s'.procs[k] == if k in s.keys[..n] then s.procs[k].(waitKey := false) else s.procs[k]
  {
    WokenKeys(s, 0, k);
    Halves(s.keys, n, k);
  }

  lemma Halves(q: seq<nat>, n: nat, k: nat)
    requires NoDup(q) && n <= |q|
    ensures k in q[..n] <==> k in q && k !in q[n..]
  {
  }
}
