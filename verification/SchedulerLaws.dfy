/** What one pass of the scheduler's search keeps, and why the search ends. */
module SchedulerLaws {
  import opened Basics
  import opened Processes

  // ---- queues ----

  lemma Tail(q: seq<nat>)
    requires NoDup(q) && q != []
    ensures NoDup(q[1..]) && q[0] !in q[1..]
    ensures forall k :: k in q <==> k == q[0] || k in q[1..]
  {
  }

  lemma Append(q: seq<nat>, k: nat)
    requires NoDup(q) && k !in q
    ensures NoDup(q + [k])
    ensures forall j :: j in q + [k] <==> j in q || j == k
  {
  }

  ghost function Members(q: seq<nat>): set<nat> { set k | k in q }

  lemma {:induction false} MembersSize(q: seq<nat>)
    requires NoDup(q)
    ensures |Members(q)| == |q|
  {
    if q != [] {
      Tail(q);
      MembersSize(q[1..]);
      assert Members(q) == Members(q[1..]) + {q[0]};
    }
  }

  lemma {:induction false} BelowSize(m: set<nat>, n: nat)
    requires forall k | k in m :: k < n
    ensures |m| <= n
  {
    if n > 0 {
      BelowSize(m - {n - 1}, n - 1);
      if n - 1 in m { assert m == (m - {n - 1}) + {n - 1}; } else { assert m == m - {n - 1}; }
    }
  }

  /** A queue of distinct pids has room for one more that is not in it. */
  lemma Room(q: seq<nat>, k: nat)
    requires NoDup(q) && (forall j | j in q :: j < MAX) && k < MAX && k !in q
    ensures |q| < MAX && Enqueue(q, k) == q + [k]
  {
    Append(q, k);
    MembersSize(q + [k]);
    BelowSize(Members(q + [k]), MAX);
  }

  /** No queue ever overflows. */
  lemma NeverFull(s: State)
    requires Loose(s)
    ensures |s.ready| <= MAX && |s.keys| <= MAX && |s.sleepers| <= MAX && |s.readers| <= MAX
  {
    forall q | q == s.ready || q == s.keys || q == s.sleepers || q == s.readers ensures |q| <= MAX {
      MembersSize(q);
      BelowSize(Members(q), MAX);
    }
  }

  // ---- one pass ----

  /** No queued process has a wait or an exec left to act on. */
  ghost predicate Settled(s: State) {
    forall k | k in s.ready && k in s.procs :: !s.procs[k].Blocked() && !s.procs[k].exec
  }

  /** Once the front is gone, the rest is settled. */
  lemma DequeueEnded(s: State, s': State)
    requires Loose(s) && s.ready != [] && s.procs[s.ready[0]].terminated
    requires s' == s.(ready := s.ready[1..], running := s.ready[0])
    ensures LooseBut(s', s.ready[0]) && Settled(s') && !s.procs[s.ready[0]].Blocked()
  {
    Tail(s.ready);
    assert RecordOk(s.procs, s.ready[0]) && PlaceOk(s, s.ready[0]);
    forall k | k in s'.procs && k != s.ready[0] ensures PlaceOk(s', k) { assert PlaceOk(s, k); }
    forall k | k in s'.ready ensures !s.procs[k].Blocked() && !s.procs[k].exec { assert PlaceOk(s, k); }
  }

  lemma DequeueBlocked(s: State, s': State)
    requires Loose(s) && s.ready != []
    requires var k := s.ready[0]; var p := s.procs[k];
             p.Blocked()
             && s' == s.(ready := s.ready[1..], running := k, keys := if p.waitKey then Enqueue(s.keys, k) else s.keys)
    ensures Loose(s') && Settled(s')
  {
    var f := s.ready[0];
    Tail(s.ready);
    assert RecordOk(s.procs, f) && PlaceOk(s, f);
    Room(s.keys, f);
    Append(s.keys, f);
    forall k | k in s'.procs ensures PlaceOk(s', k) { assert PlaceOk(s, k); }
    forall k | k in s'.ready ensures !s.procs[k].Blocked() && !s.procs[k].exec { assert PlaceOk(s, k); }
  }

  /** No child of `x` is waited for in particular. */
  ghost predicate NoneWaited(procs: map<nat, Proc>, x: nat) {
    forall k {:trigger RecordOk(procs, k)} | k in procs && procs[k].ppid == x :: !procs[k].waited
  }

  /** One record changes: its parent stays, it is not newly waited for, and if its own waits change, none of its
      children is waited for in particular. Then all records stay sound. */
  lemma RecordChange(procs: map<nat, Proc>, x: nat, p: Proc, procs': map<nat, Proc>)
    requires RecordsOk(procs) && x in procs && ProcOk(p) && procs' == procs[x := p]
    requires p.ppid == procs[x].ppid && (p.waited ==> procs[x].waited)
    requires (p.waitProc == procs[x].waitProc && p.waitAny == procs[x].waitAny) || NoneWaited(procs, x)
    ensures RecordsOk(procs')
  {
    forall k | k in procs' ensures RecordOk(procs', k) { RecordStays(procs, x, p, procs', k); }
    forall j, k | j in procs' && k in procs' && Siblings(procs', j, k) ensures j == k { assert Siblings(procs, j, k); }
  }

  lemma RecordStays(procs: map<nat, Proc>, x: nat, p: Proc, procs': map<nat, Proc>, k: nat)
    requires RecordsOk(procs) && x in procs && k in procs && ProcOk(p) && procs' == procs[x := p]
    requires p.ppid == procs[x].ppid && (p.waited ==> procs[x].waited)
    requires (p.waitProc == procs[x].waitProc && p.waitAny == procs[x].waitAny) || NoneWaited(procs, x)
    ensures RecordOk(procs', k)
  {
    assert RecordOk(procs, k) && RecordOk(procs, x);
    var pp := procs[k].ppid;
    assert procs'[k].ppid == pp && pp in procs';
  }

  lemma BecomeZombie(s: State, x: nat, s': State)
    requires LooseBut(s, x) && Settled(s) && x in s.procs && s.procs[x].terminated && !s.procs[x].Blocked()
    requires s' == s.With(x, s.procs[x].(zombie := true))
    ensures Loose(s') && Settled(s')
  {
    assert RecordOk(s.procs, x);
    RecordChange(s.procs, x, s'.procs[x], s.procs[x := s'.procs[x]]);
    forall k | k in s'.procs ensures PlaceOk(s', k) { if k != x { assert PlaceOk(s, k); } }
  }

  /** Once `x` is answered its parent has no other child to wait for in particular. */
  lemma OnlyWaited(procs: map<nat, Proc>, x: nat, procs': map<nat, Proc>)
    requires RecordsOk(procs) && x in procs && procs[x].ppid in procs && procs' == procs[x := procs[x].Answered()]
    requires procs[x].waited || procs[procs[x].ppid].waitAny
    ensures NoneWaited(procs', procs[x].ppid)
  {
    forall k | k in procs' && procs'[k].ppid == procs[x].ppid ensures !procs'[k].waited {
      assert RecordOk(procs, k) && RecordOk(procs, x);
      if k != x && procs[k].waited && procs[x].waited { assert Siblings(procs, k, x); }
    }
  }

  lemma AnswerKeeps(s: State, x: nat, s': State)
    requires LooseBut(s, x) && Settled(s) && x in s.procs && s' == s.With(x, s.procs[x].Answered())
    ensures LooseBut(s', x) && Settled(s')
  {
    assert RecordOk(s.procs, x);
    RecordChange(s.procs, x, s'.procs[x], s'.procs);
    StillSorted(s.procs, s'.procs, s.sleepers);
    forall k | k in s'.procs && k != x ensures PlaceOk(s', k) { assert PlaceOk(s, k); }
  }

  lemma ResumeKeeps(s: State, x: nat, pp: nat, s': State)
    requires LooseBut(s, x) && Settled(s) && pp in s.procs && pp != x && s.procs[pp].waitProc
    requires NoneWaited(s.procs, pp)
    requires s' == s.(ready := Enqueue(s.ready, pp)).With(pp, s.procs[pp].Resumed())
    ensures LooseBut(s', x) && Settled(s') && s'.ready == s.ready + [pp]
  {
    assert RecordOk(s.procs, pp) && PlaceOk(s, pp);
    assert pp !in s.ready;
    Room(s.ready, pp);
    Append(s.ready, pp);
    RecordChange(s.procs, pp, s'.procs[pp], s'.procs);
    StillSorted(s.procs, s'.procs, s.sleepers);
    forall k | k in s'.procs && k != x ensures PlaceOk(s', k) { assert PlaceOk(s, k); }
  }

  /** The parent of a process that ended was not queued; now it is, once. */
  lemma NotifyKeeps(s: State, x: nat, s': State)
    requires LooseBut(s, x) && Settled(s) && x in s.procs && s.running == x
    requires s.procs[x].ppid in s.procs && s.procs[x].ppid != x && Awaited(s, x) && s' == Notified(s, x)
    ensures LooseBut(s', x) && Settled(s') && s'.ready == s.ready + [s.procs[x].ppid]
    ensures x in s'.procs && s'.procs[x] == s.procs[x].Answered()
  {
    var pp := s.procs[x].ppid;
    var s1 := s.With(x, s.procs[x].Answered());
    assert RecordOk(s.procs, x) && RecordOk(s.procs, pp);
    AnswerKeeps(s, x, s1);
    OnlyWaited(s.procs, x, s1.procs);
    ResumeKeeps(s1, x, pp, s');
  }

  lemma DropRecord(procs: map<nat, Proc>, x: nat, procs': map<nat, Proc>, k: nat)
    requires RecordsOk(procs) && x in procs && !procs[x].waitProc && k in procs && k != x
    requires procs' == Orphaned(procs, x)
    ensures k in procs' && RecordOk(procs', k)
    ensures procs'[k].waited ==> procs'[k] == procs[k]
  {
    assert RecordOk(procs, k);
    var pp := procs[k].ppid;
    if pp != x { assert procs'[pp].waitProc == procs[pp].waitProc && procs'[pp].waitAny == procs[pp].waitAny; }
  }

  lemma DropRecords(procs: map<nat, Proc>, x: nat)
    requires RecordsOk(procs) && x in procs && !procs[x].waitProc
    ensures RecordsOk(Orphaned(procs, x))
  {
    var procs' := Orphaned(procs, x);
    forall k | k in procs' ensures RecordOk(procs', k) { DropRecord(procs, x, procs', k); }
    forall j, k | j in procs' && k in procs' && Siblings(procs', j, k) ensures j == k {
      DropRecord(procs, x, procs', j);
      DropRecord(procs, x, procs', k);
      assert Siblings(procs, j, k);
    }
  }

  lemma DropPlaces(s: State, x: nat, s': State)
    requires LooseBut(s, x) && x < |s.pool| && s' == Dropped(s, x)
    ensures forall k {:trigger PlaceOk(s', k)} | k in s'.procs :: PlaceOk(s', k)
  {
    forall k | k in s'.procs ensures PlaceOk(s', k) { assert PlaceOk(s, k); }
  }

  /** The order of the sleepers depends on their own wake-up ticks alone. */
  lemma StillSorted(procs: map<nat, Proc>, procs': map<nat, Proc>, q: seq<nat>)
    requires SortedBy(procs, q)
    requires forall k | k in q && k in procs' :: k in procs && procs'[k].wakeAt == procs[k].wakeAt
    ensures SortedBy(procs', q)
  {
  }

  lemma DropKeeps(s: State, x: nat, s': State)
    requires LooseBut(s, x) && x in s.procs && !s.procs[x].Blocked() && x < |s.pool| && s' == Dropped(s, x)
    ensures Loose(s') && x !in s'.procs && (Settled(s) ==> Settled(s'))
  {
    assert RecordOk(s.procs, x);
    DropRecords(s.procs, x);
    DropPlaces(s, x, s');
    StillSorted(s.procs, s'.procs, s.sleepers);
  }

  /** A front given another quantum stays in its right place. */
  lemma SpendKeeps(s: State, p: Proc, s': State)
    requires Loose(s) && s.ready != [] && ProcOk(p) && s' == s.With(s.ready[0], p)
    requires var o := s.procs[s.ready[0]];
             !o.Blocked() && p == o.(quantum := p.quantum, priority := p.priority, exec := false)
    ensures Loose(s') && Settled(s')
  {
    var f := s.ready[0];
    assert PlaceOk(s, f);
    RecordChange(s.procs, f, p, s.procs[f := p]);
    forall k | k in s'.procs ensures PlaceOk(s', k) { assert PlaceOk(s, k); }
    forall k | k in s'.ready ensures !s'.procs[k].Blocked() && !s'.procs[k].exec { assert PlaceOk(s, k); }
  }

  /** A settled front may go to the back. */
  lemma RotateKeeps(s: State, s': State)
    requires Loose(s) && Settled(s) && s.ready != [] && s' == s.(ready := Enqueue(s.ready[1..], s.ready[0]))
    ensures Loose(s') && Settled(s') && s'.ready == s.ready[1..] + [s.ready[0]]
  {
    var f := s.ready[0];
    Tail(s.ready);
    Room(s.ready[1..], f);
    Append(s.ready[1..], f);
    forall k | k in s'.procs ensures PlaceOk(s', k) { assert PlaceOk(s, k); }
  }

  lemma RunningFree(s: State, k: nat)
    requires Loose(s)
    ensures Loose(s.(running := k)) && (Settled(s) ==> Settled(s.(running := k)))
  {
    var s' := s.(running := k);
    forall j | j in s'.procs ensures PlaceOk(s', j) { assert PlaceOk(s, j); }
  }

  lemma FrontIsOk(s: State)
    requires Loose(s) && s.ready != []
    ensures FrontOk(s) && RecordOk(s.procs, s.ready[0]) && !s.procs[s.ready[0]].zombie
  {
    assert RecordOk(s.procs, s.ready[0]) && PlaceOk(s, s.ready[0]);
  }

  /** The terminated front becomes a zombie, or goes and its parent is woken. */
  lemma RelinquishKeeps(s: State)
    requires Loose(s) && s.ready != [] && s.procs[s.ready[0]].terminated && s.running == s.ready[0]
    ensures FrontOk(s) && Loose(Relinquish(s)) && Settled(Relinquish(s))
    ensures var k, s' := s.ready[0], Relinquish(s);
            && s'.ready == s.ready[1..] + (if s.procs[k].ppid != k && Awaited(s, k) then [s.procs[k].ppid] else [])
            && (k in s'.procs <==> s.procs[k].ppid != k && !Awaited(s, k))
            && (k in s'.procs ==> s'.procs[k].zombie)
  {
    var k := s.ready[0];
    FrontIsOk(s);
    var s1 := s.(running := k, ready := s.ready[1..]);
    DequeueEnded(s, s1);
    if s.procs[k].ppid == k {
      DropKeeps(s1, k, Dropped(s1, k));
    } else if Awaited(s, k) {
      NotifyKeeps(s1, k, Notified(s1, k));
      DropKeeps(Notified(s1, k), k, Dropped(Notified(s1, k), k));
    } else {
      BecomeZombie(s1, k, s1.With(k, s1.procs[k].(zombie := true)));
    }
  }

  /** Spending keeps everything; a chosen process had at least one tick of quantum left, so its quantum never wraps.
      */
  lemma SpendOutcome(s: State, r: Pick)
    requires Loose(s) && Settled(s) && s.ready != [] && !s.procs[s.ready[0]].terminated && r == Spend(s)
    ensures Loose(r.state) && Settled(r.state)
    ensures var k := s.ready[0]; var p := s.procs[k];
      if p.quantum >= TICK then
        && r.chosen == Some(k) && r.state == s.With(k, p.(quantum := p.quantum - TICK))
      else
        && p.quantum == 0 && r.chosen == None && r.state == s.(ready := s.ready[1..] + [k]).With(k, p.Reset())
  {
    var k := s.ready[0];
    var p := s.procs[k];
    assert RecordOk(s.procs, k) && PlaceOk(s, k);
    Quantum(p);
    if p.quantum != 0 {
      SpendKeeps(s, p.(quantum := p.quantum - TICK), r.state);
    } else {
      var s1 := s.With(k, p.Reset());
      SpendKeeps(s, p.Reset(), s1);
      RotateKeeps(s1, r.state);
    }
  }

  lemma Quantum(p: Proc)
    requires ProcOk(p)
    ensures p.quantum != 0 ==>
              p.quantum >= TICK && (p.quantum - TICK) % 0x1_0000_0000 == p.quantum - TICK
              && (p.quantum - TICK) % TICK == 0
    ensures p.Reset().quantum % TICK == 0 && p.Reset().quantum >= TICK
  {
  }

  ghost predicate Decided(r: Pick) {
    match r.chosen
    case None => true
    case Some(k) =>
      r.state.Front(k) && r.state.running == k
      && k in r.state.procs && r.state.procs[k].Runnable() && !r.state.procs[k].exec
  }

  /** A front that can run is chosen while it has quantum, else goes to the back with a new one. An exec replacement
      has none. */
  lemma RunTurn(s: State)
    requires Loose(s) && s.ready != [] && !s.procs[s.ready[0]].terminated && !s.procs[s.ready[0]].Blocked()
    ensures FrontOk(s) && Loose(Turn(s).state) && Settled(Turn(s).state) && Decided(Turn(s))
    ensures var k := s.ready[0]; var p := if s.procs[k].exec then s.procs[k].Replacement() else s.procs[k];
      Turn(s) == if p.quantum >= TICK then Pick(s.(running := k).With(k, p.(quantum := p.quantum - TICK)), Some(k))
                 else Pick(s.(running := k, ready := s.ready[1..] + [k]).With(k, p.Reset()), None)
    ensures var k := s.ready[0]; s.procs[k].exec || s.procs[k].quantum >= TICK || s.procs[k].quantum == 0
  {
    var k := s.ready[0];
    FrontIsOk(s);
    var s1 := s.(running := k);
    RunningFree(s, k);
    ReplaceKeeps(s1);
    TurnSpends(s, s1);
    RunFrom(s1, Replaced(s1), if s.procs[k].exec then s.procs[k].Replacement() else s.procs[k], Turn(s));
  }

  /** The front of `t`, which is `s` with the front's record replaced by `p`, spends or rotates. */
  lemma RunFrom(s: State, t: State, p: Proc, r: Pick)
    requires Loose(t) && Settled(t) && s.ready != [] && s.ready[0] in s.procs && t == s.With(s.ready[0], p)
    requires !p.terminated && s.running == s.ready[0] && r == Spend(t)
    ensures Loose(r.state) && Settled(r.state) && Decided(r)
    ensures r == if p.quantum >= TICK then Pick(s.With(s.ready[0], p.(quantum := p.quantum - TICK)), Some(s.ready[0]))
                 else Pick(s.(ready := s.ready[1..] + [s.ready[0]]).With(s.ready[0], p.Reset()), None)
    ensures p.quantum >= TICK || p.quantum == 0
  {
    var k := s.ready[0];
    SpendOutcome(t, r);
    assert RecordOk(t.procs, k) && PlaceOk(t, k);
    if p.quantum >= TICK {
      WithTwice(s, k, p, p.(quantum := p.quantum - TICK));
    } else {
      WithTwice(s.(ready := s.ready[1..] + [k]), k, p, p.Reset());
    }
  }

  lemma WithTwice(s: State, k: nat, p: Proc, q: Proc)
    ensures s.With(k, p).With(k, q) == s.With(k, q)
  {
    assert s.procs[k := p][k := q] == s.procs[k := q];
  }

  lemma TurnSpends(s: State, s1: State)
    requires FrontOk(s) && !s.procs[s.ready[0]].terminated && !s.procs[s.ready[0]].Blocked()
    requires s1 == s.(running := s.ready[0])
    ensures FrontOk(Replaced(s1)) && Turn(s) == Spend(Replaced(s1))
  {
    ReplacedShape(s1);
  }

  /** A front that can run changes nothing about the others, nor about who waits for whom. */
  lemma RunOthers(s: State, f: nat, s': State)
    requires Loose(s) && s.Front(f) && !s.procs[f].terminated && !s.procs[f].Blocked()
    requires FrontOk(s) && s' == Turn(s).state
    ensures f in s'.procs && s'.procs == s.procs[f := s'.procs[f]]
    ensures s'.procs[f].ppid == s.procs[f].ppid && s'.procs[f].waited == s.procs[f].waited
    ensures forall k :: k in s'.ready <==> k in s.ready
  {
    RunTurn(s);
    Tail(s.ready);
  }

  lemma ReplaceKeeps(s: State)
    requires Loose(s) && FrontOk(s) && s.running == s.ready[0]
    requires !s.procs[s.ready[0]].terminated && !s.procs[s.ready[0]].Blocked()
    ensures Loose(Replaced(s)) && Settled(Replaced(s))
    ensures var k := s.ready[0]; Replaced(s) == if s.procs[k].exec then s.With(k, s.procs[k].Replacement()) else s
  {
    var p := s.procs[s.ready[0]];
    assert RecordOk(s.procs, s.ready[0]);
    ReplacedShape(s);
    if p.exec {
      SpendKeeps(s, p.Replacement(), Replaced(s));
    } else {
      Unchanged(s, s.ready[0]);
      SpendKeeps(s, p, s);
    }
  }

  lemma Unchanged(s: State, k: nat)
    requires k in s.procs
    ensures s.With(k, s.procs[k]) == s
  {
  }

  /** Each pass keeps the queues sound, and settles them. */
  lemma TurnKeeps(s: State)
    requires Loose(s) && s.ready != []
    ensures FrontOk(s) && Loose(Turn(s).state) && Settled(Turn(s).state) && Decided(Turn(s))
  {
    var k := s.ready[0];
    FrontIsOk(s);
    if s.procs[k].terminated {
      RunningFree(s, k);
      RelinquishKeeps(s.(running := k));
    } else if s.procs[k].Blocked() {
      DequeueBlocked(s, Turn(s).state);
    } else {
      RunTurn(s);
    }
  }

  // ---- why the search ends ----

  ghost function Alive(s: State): set<nat> { set k | k in s.procs && !s.procs[k].zombie }

  ghost function Execs(s: State): set<nat> { set k | k in s.procs && s.procs[k].exec }

  ghost function Spent(s: State): set<nat> { set k | k in s.procs && s.procs[k].quantum == 0 }

  /** Freeing a process brings nobody to life. */
  lemma FreeAlive(s: State, x: nat, j: nat)
    requires x in s.procs && s.procs[x].ppid in s.procs && x < |s.pool|
    requires j in FreeTerminated(s, x).procs && !FreeTerminated(s, x).procs[j].zombie
    ensures j in s.procs && !s.procs[j].zombie
  {
    var mid := if Awaited(s, x) then Notified(s, x).procs else s.procs;
    assert j in mid ==> j in s.procs && mid[j].zombie == s.procs[j].zombie;
  }

  /** Reaping may queue a parent, but it uses up a live process. */
  lemma RelinquishShrinks(s: State)
    requires Loose(s) && s.ready != [] && s.procs[s.ready[0]].terminated && s.running == s.ready[0] && FrontOk(s)
    ensures |Alive(Relinquish(s))| < |Alive(s)|
  {
    var k := s.ready[0];
    FrontIsOk(s);
    RelinquishKeeps(s);
    forall j | j in Alive(Relinquish(s)) ensures j in Alive(s) - {k} {
      FreeOrZombie(s, j);
    }
    SubsetSize(Alive(Relinquish(s)), Alive(s) - {k});
  }

  lemma FreeOrZombie(s: State, j: nat)
    requires FrontOk(s) && j in Relinquish(s).procs && !Relinquish(s).procs[j].zombie
    ensures j in s.procs && !s.procs[j].zombie
  {
    var k := s.ready[0];
    var s1 := s.(running := k, ready := if s.procs[k].exec then s.ready else s.ready[1..]);
    if j in FreeTerminated(s1, k).procs && !FreeTerminated(s1, k).procs[j].zombie { FreeAlive(s1, k, j); }
  }

  /** Each pass ends a live process, shortens the queue, carries out an exec, or refills a spent quantum. */
  lemma TurnShrinks(s: State)
    requires Loose(s) && s.ready != [] && FrontOk(s) && Turn(s).chosen == None
    ensures var s' := Turn(s).state;
      || |Alive(s')| < |Alive(s)|
      || (|Alive(s')| == |Alive(s)| && |s'.ready| < |s.ready|)
      || (|Alive(s')| == |Alive(s)| && |s'.ready| == |s.ready| && |Execs(s')| < |Execs(s)|)
      || (|Alive(s')| == |Alive(s)| && |s'.ready| == |s.ready| && |Execs(s')| == |Execs(s)| && |Spent(s')| < |Spent(s)|)
  {
    var k := s.ready[0];
    FrontIsOk(s);
    if s.procs[k].terminated {
      RunningFree(s, k);
      RelinquishShrinks(s.(running := k));
      assert Alive(s.(running := k)) == Alive(s);
    } else if s.procs[k].Blocked() {
      assert Alive(Turn(s).state) == Alive(s);
    } else {
      RunTurn(s);
      RefillShrinks(s, Turn(s).state, k);
    }
  }

  lemma RefillShrinks(s: State, s': State, k: nat)
    requires k in s.procs && ProcOk(s.procs[k]) && !s.procs[k].zombie
    requires s'.procs == s.procs[k := (if s.procs[k].exec then s.procs[k].Replacement() else s.procs[k]).Reset()]
    requires s.procs[k].exec || s.procs[k].quantum == 0
    ensures |Alive(s')| == |Alive(s)|
    ensures |Execs(s')| < |Execs(s)| || (|Execs(s')| == |Execs(s)| && |Spent(s')| < |Spent(s)|)
  {
    assert Alive(s') == Alive(s);
    if s.procs[k].exec {
      assert k in Execs(s) && Execs(s') == Execs(s) - {k};
    } else {
      assert Execs(s') == Execs(s);
      assert k in Spent(s) && Spent(s') == Spent(s) - {k};
    }
  }

  /** `get_next_process`, from its loop head. */
  function GetNext(s: State): (r: Pick)
    requires Loose(s)
    ensures Loose(r.state) && Decided(r) && Settled(r.state)
    ensures r.chosen == None <==> r.state.ready == []
    decreases |Alive(s)|, |s.ready|, |Execs(s)|, |Spent(s)|
  {
    if s.ready == [] then Pick(s, None)
    else
      FrontIsOk(s);
      TurnKeeps(s);
      var t := Turn(s);
      if t.chosen.Some? then t
      else
        TurnShrinks(s);
        GetNext(t.state)
  }
}
