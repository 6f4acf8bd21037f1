/** Everything that can happen to the scheduler: interrupts, and system calls of the running process. A call that ends
    in a timer trap is one step with the trap. */
module SchedulerSteps {
  import opened Basics
  import opened Processes
  import opened SchedulerLaws

  // ---- waking ----

  /** `k` leaves one wait list for the back of the ready queue. */
  function Woken(s: State, k: nat, p: Proc): State {
    s.(ready := Enqueue(s.ready, k)).With(k, p)
  }

  /** Wakes every sleeper whose tick has come. */
  function WakeSleepers(s: State): State
    requires forall k | k in s.sleepers :: k in s.procs
    decreases |s.sleepers|
  {
    if s.sleepers == [] || s.procs[s.sleepers[0]].wakeAt > s.tick then s
    else
      var k := s.sleepers[0];
      WakeSleepers(Woken(s, k, s.procs[k].(asleep := false)).(sleepers := s.sleepers[1..]))
  }

  /** A key press: the bound of the loop shrinks as the loop dequeues. */
  function WakeKeys(s: State, i: nat): State
    requires forall k | k in s.keys :: k in s.procs
    decreases |s.keys|
  {
    if i >= |s.keys| then s
    else
      var k := s.keys[0];
      WakeKeys(Woken(s, k, s.procs[k].(waitKey := false)).(keys := s.keys[1..]), i + 1)
  }

  /** The queue without `k`. */
  function Without(q: seq<nat>, k: nat): seq<nat> {
    if q == [] then [] else if q[0] == k then q[1..] else [q[0]] + Without(q[1..], k)
  }

  /** A reader's progress when `count` bytes are written to the descriptor it reads from. */
  function Progress(p: Proc, fd: int, count: nat): Proc {
    if p.readFd == fd && p.readGot <= p.readWant then p.(readGot := p.readGot + Least(p.readWant - p.readGot, count))
    else p
  }

  /** The readers in `q` have had their share. */
  function Shared(procs: map<nat, Proc>, q: seq<nat>, fd: int, count: nat): map<nat, Proc> {
    map k | k in procs :: if k in q then Progress(procs[k], fd, count) else procs[k]
  }

  function Progressed(s: State, fd: int, count: nat): State {
    s.(procs := Shared(s.procs, s.readers, fd, count))
  }

  predicate Satisfied(p: Proc, fd: int, drained: bool) {
    p.readFd == fd && (p.readGot == p.readWant || drained)
  }

  /** Those of `q`, in order, whose read is over. */
  function Resumed(procs: map<nat, Proc>, q: seq<nat>, fd: int, drained: bool): seq<nat>
    requires forall k | k in q :: k in procs
  {
    if q == [] then []
    else
      Resumed(procs, q[..|q| - 1], fd, drained) + if Satisfied(procs[q[|q| - 1]], fd, drained) then [q[|q| - 1]] else []
  }

  /** Resumes the readers in `q`, in order. */
  function WakeReaders(s: State, q: seq<nat>): State
    requires forall k | k in q :: k in s.procs
    decreases |q|
  {
    if q == [] then s
    else
      var k := q[0];
      WakeReaders(Woken(s, k, s.procs[k].(waitRead := false)).(readers := Without(s.readers, k)), q[1..])
  }

  lemma {:induction false} ResumedSome(procs: map<nat, Proc>, q: seq<nat>, fd: int, drained: bool)
    requires (forall k | k in q :: k in procs) && NoDup(q)
    ensures NoDup(Resumed(procs, q, fd, drained))
    ensures forall k :: k in Resumed(procs, q, fd, drained) <==> k in q && Satisfied(procs[k], fd, drained)
  {
    if q != [] {
      var k := q[|q| - 1];
      assert q == q[..|q| - 1] + [k];
      ResumedSome(procs, q[..|q| - 1], fd, drained);
      assert k !in Resumed(procs, q[..|q| - 1], fd, drained);
    }
  }

  /** A write to `fd` of `count` bytes. */
  function AfterWrite(s: State, fd: int, count: nat, drained: bool): State
    requires NoDup(s.readers) && forall k | k in s.readers :: k in s.procs
  {
    var s1 := Progressed(s, fd, count);
    ResumedSome(s1.procs, s.readers, fd, drained);
    WakeReaders(s1, Resumed(s1.procs, s.readers, fd, drained))
  }

  // ---- the running process's calls, up to the trap ----

  /** Sleepers in order of their wake-up ticks. */
  function InsertSleeper(procs: map<nat, Proc>, q: seq<nat>, k: nat): seq<nat>
    requires k in procs && forall j | j in q :: j in procs
  {
    if q == [] || procs[k].wakeAt < procs[q[0]].wakeAt then [k] + q
    else [q[0]] + InsertSleeper(procs, q[1..], k)
  }

  function Asleep(s: State, ticks: nat): State
    requires s.running in s.procs && forall k | k in s.sleepers :: k in s.procs
  {
    var s1 := s.With(s.running, s.procs[s.running].(asleep := true, wakeAt := s.tick + ticks));
    s1.(sleepers := InsertSleeper(s1.procs, s.sleepers, s.running))
  }

  function Reading(s: State, fd: int, n: nat): State
    requires s.running in s.procs
  {
    s.With(s.running, s.procs[s.running].(waitRead := true, readFd := fd, readWant := n, readGot := 0))
    .(readers := s.readers + [s.running])
  }

  /** The lowest free pid, or MAX. */
  function FreePid(pool: seq<bool>, from: nat): (r: nat)
    requires from <= |pool|
    ensures from <= r <= |pool| && (r < |pool| ==> !pool[r]) && forall k | from <= k < r :: pool[k]
    decreases |pool| - from
  {
    if from == |pool| || !pool[from] then from else FreePid(pool, from + 1)
  }

  /** A new process under pid `k`, queued with a full quantum. */
  function Added(s: State, k: nat, p: Proc): State
    requires k < |s.pool|
  {
    s.With(k, p.Reset()).(ready := Enqueue(s.ready, k), pool := s.pool[k := true])
  }

  // ---- steps ----

  datatype Step =
    | Tick
    | KeyPress
    | Written(fd: int, count: nat, drained: bool)
    | GetKey
    | Sleep(ticks: nat)
    | ReadWait(fd: int, n: nat)
    | WaitChild(child: nat)
    | WaitAny
    | Exit
    | Kill(target: nat)
    | Exec
    | Fork
    | Start(priority: nat)

  predicate HasChild(s: State, k: nat) {
    exists j | j in s.procs && j != k :: s.procs[j].ppid == k
  }

  /** What the callers and the kernel guarantee when the step is taken. */
  ghost predicate Enabled(s: State, step: Step) {
    match step
    case Tick => true
    case KeyPress => true
    case Written(_, _, _) => true
    case Sleep(ticks) => s.running != MAX && ticks >= 2
    case WaitAny => s.running != MAX
      && !exists j | j in s.procs && j != s.running :: s.procs[j].ppid == s.running && s.procs[j].zombie
    case Kill(target) => s.running != MAX && target in s.procs
    case Fork => s.running != MAX && FreePid(s.pool, 0) < |s.pool|
    case Start(priority) => s.running != MAX && FreePid(s.pool, 0) < |s.pool|
      && 1 <= priority && priority * TICK < 0x1_0000_0000
    case _ => s.running != MAX
  }

  /** Whether the step ends in a timer trap. */
  predicate Traps(s: State, step: Step) {
    match step
    case KeyPress => false
    case Written(_, _, _) => false
    case WaitChild(c) => c in s.procs && c != s.running && s.procs[c].ppid == s.running && !s.procs[c].zombie
    case WaitAny => HasChild(s, s.running)
    case Fork => false
    case Start(_) => false
    case _ => true
  }

  /** The step up to its timer trap. */
  function Effect(s: State, step: Step): State
    requires Inv(s) && Enabled(s, step)
  {
    match step
    case Tick => s
    case KeyPress => WakeKeys(s, 0)
    case Written(fd, count, drained) => AfterWrite(s, fd, count, drained)
    case GetKey => s.With(s.running, s.procs[s.running].(waitKey := true))
    case Sleep(ticks) => Asleep(s, ticks)
    case ReadWait(fd, n) => Reading(s, fd, n)
    case WaitChild(c) =>
      if c !in s.procs || c == s.running || s.procs[c].ppid != s.running then s
      else if s.procs[c].zombie then FreeTerminated(s.With(c, s.procs[c].(waited := true)), c)
      else Waiting(s.With(c, s.procs[c].(waited := true)), false)
    case WaitAny => if HasChild(s, s.running) then Waiting(s, true) else s
    case Exit => s.With(s.running, s.procs[s.running].(terminated := true))
    case Kill(target) => s.With(target, s.procs[target].(terminated := true))
    case Exec => s.With(s.running, s.procs[s.running].(exec := true))
    case Fork => Added(s, FreePid(s.pool, 0), NewProc(s.running, s.procs[s.running].priority))
    case Start(priority) => Added(s, FreePid(s.pool, 0), NewProc(FreePid(s.pool, 0), priority))
  }

  function Waiting(s: State, any: bool): State
    requires s.running in s.procs
  {
    s.With(s.running, s.procs[s.running].(waitProc := true, waitAny := any || s.procs[s.running].waitAny))
  }

  /** The timer trap up to the search: time passes and due sleepers wake. */
  function Ticked(s: State): (r: State)
    requires Loose(s) && FrontLater(s.(tick := s.tick + 1))
    ensures Loose(r)
  {
    var s1 := s.(tick := s.tick + 1);
    TickKeeps(s, s1);
    SleepersKeep(s1);
    RunningFree(WakeSleepers(s1), MAX);
    WakeSleepers(s1).(running := MAX)
  }

  /** The next process is chosen, or the machine waits. */
  function Next(s: State): State
    requires Loose(s)
  {
    var r := GetNext(s);
    if r.chosen == None then r.state.(running := MAX) else r.state
  }

  function Trap(s: State): State
    requires Loose(s) && FrontLater(s.(tick := s.tick + 1))
  {
    Next(Ticked(s))
  }

  lemma TickKeeps(s: State, s': State)
    requires Loose(s) && s' == s.(tick := s.tick + 1)
    ensures Loose(s')
  {
    forall j | j in s'.procs ensures PlaceOk(s', j) { assert PlaceOk(s, j); }
  }

  /** A front about to be put to sleep is not due yet. */
  ghost predicate FrontLater(s: State) {
    s.ready != [] && s.ready[0] in s.procs && s.procs[s.ready[0]].asleep ==> s.procs[s.ready[0]].wakeAt > s.tick
  }

  /** Moving a waiting process from its wait list to the ready queue. */
  lemma WokenKeeps(s: State, k: nat, s': State)
    requires Loose(s) && k in s.procs && k !in s.ready
    requires s.procs[k].Blocked() && !s.procs[k].waitProc
    requires s'.procs == s.procs[k := s.procs[k].(waitKey := false, asleep := false, waitRead := false)]
    requires s' == s.(ready := Enqueue(s.ready, k), procs := s'.procs, keys := s'.keys,
                    sleepers := s'.sleepers, readers := s'.readers)
    requires NoDup(s'.keys) && NoDup(s'.sleepers) && NoDup(s'.readers) && SortedBy(s.procs, s'.sleepers)
    requires forall j :: (j in s'.keys <==> j in s.keys && j != k)
    requires forall j :: (j in s'.sleepers <==> j in s.sleepers && j != k)
    requires forall j :: (j in s'.readers <==> j in s.readers && j != k)
    ensures Loose(s') && s'.ready == s.ready + [k]
  {
    assert RecordOk(s.procs, k) && PlaceOk(s, k);
    Room(s.ready, k);
    Append(s.ready, k);
    RecordChange(s.procs, k, s'.procs[k], s'.procs);
    StillSorted(s.procs, s'.procs, s'.sleepers);
    forall j | j in s'.procs ensures PlaceOk(s', j) { assert PlaceOk(s, j); }
  }

  lemma SortedTail(procs: map<nat, Proc>, q: seq<nat>)
    requires SortedBy(procs, q) && q != []
    ensures SortedBy(procs, q[1..])
  {
  }

  lemma SleeperKeeps(s: State, s': State)
    requires Loose(s) && FrontLater(s) && s.sleepers != [] && s.procs[s.sleepers[0]].wakeAt <= s.tick
    requires var k := s.sleepers[0]; s' == Woken(s, k, s.procs[k].(asleep := false)).(sleepers := s.sleepers[1..])
    ensures Loose(s') && FrontLater(s') && s'.ready == s.ready + [s.sleepers[0]]
  {
    var k := s.sleepers[0];
    assert RecordOk(s.procs, k) && PlaceOk(s, k);
    Tail(s.sleepers);
    SortedTail(s.procs, s.sleepers);
    WokenKeeps(s, k, s');
  }

  /** After it, no sleeper is due. */
  lemma {:induction false} SleepersKeep(s: State)
    requires Loose(s) && FrontLater(s)
    ensures Loose(WakeSleepers(s))
    ensures forall k | k in WakeSleepers(s).sleepers ::
              k in WakeSleepers(s).procs && WakeSleepers(s).procs[k].wakeAt > s.tick
    ensures WakeSleepers(s).tick == s.tick
    decreases |s.sleepers|
  {
    if s.sleepers != [] && s.procs[s.sleepers[0]].wakeAt <= s.tick {
      var k := s.sleepers[0];
      var s' := Woken(s, k, s.procs[k].(asleep := false)).(sleepers := s.sleepers[1..]);
      SleeperKeeps(s, s');
      SleepersKeep(s');
    }
  }

  /** The machine is always back in a sound state after a trap, and idles only with nothing ready. */
  lemma NextKeeps(s: State)
    requires Loose(s)
    ensures Inv(Next(s)) && (Next(s).running == MAX <==> Next(s).ready == [])
  {
    var r := GetNext(s);
    RunningFree(r.state, MAX);
  }

  // ---- key presses and writes ----

  lemma KeyKeeps(s: State, s': State)
    requires Inv(s) && s.keys != []
    requires var k := s.keys[0]; s' == Woken(s, k, s.procs[k].(waitKey := false)).(keys := s.keys[1..])
    ensures Inv(s') && s'.ready == s.ready + [s.keys[0]]
  {
    var k := s.keys[0];
    assert RecordOk(s.procs, k) && PlaceOk(s, k);
    Tail(s.keys);
    WokenKeeps(s, k, s');
  }

  /** How many a key press wakes: half, rounded up. */
  function Half(n: nat): nat { (n + 1) / 2 }

  /** A key press wakes half the waiters, first come first served. */
  lemma {:induction false} KeysKeep(s: State, i: nat, n: nat)
    requires Inv(s) && n == (if i >= |s.keys| then 0 else Half(|s.keys| - i))
    ensures n <= |s.keys| && Inv(WakeKeys(s, i))
    ensures WakeKeys(s, i).keys == s.keys[n..] && WakeKeys(s, i).ready == s.ready + s.keys[..n]
    decreases |s.keys|
  {
    if i < |s.keys| {
      var k := s.keys[0];
      var s' := Woken(s, k, s.procs[k].(waitKey := false)).(keys := s.keys[1..]);
      KeyKeeps(s, s');
      HalfStep(|s.keys|, i);
      KeysKeep(s', i + 1, n - 1);
      Regroup(s.ready, s.keys, n);
    }
  }

  /** The queue loses one and the counter gains one. */
  lemma HalfStep(m: nat, i: nat)
    requires i < m
    ensures 1 <= Half(m - i) <= m
    ensures Half(m - i) - 1 == if i + 1 >= m - 1 then 0 else Half(m - 1 - (i + 1))
  {
  }

  lemma Regroup(ready: seq<nat>, keys: seq<nat>, n: nat)
    requires 1 <= n <= |keys|
    ensures keys[1..][n - 1..] == keys[n..]
    ensures ready + [keys[0]] + keys[1..][..n - 1] == ready + keys[..n]
  {
  }

  lemma {:induction false} WithoutOne(q: seq<nat>, k: nat)
    requires NoDup(q)
    ensures NoDup(Without(q, k)) && forall j :: j in Without(q, k) <==> j in q && j != k
  {
    if q != [] {
      Tail(q);
      WithoutOne(q[1..], k);
      if q[0] != k { assert forall j :: j in [q[0]] + Without(q[1..], k) <==> j == q[0] || j in Without(q[1..], k); }
    }
  }

  lemma ReaderKeeps(s: State, k: nat, s': State)
    requires Inv(s) && k in s.readers
    requires s' == Woken(s, k, s.procs[k].(waitRead := false)).(readers := Without(s.readers, k))
    ensures Inv(s') && s'.ready == s.ready + [k]
  {
    assert RecordOk(s.procs, k) && PlaceOk(s, k);
    WithoutOne(s.readers, k);
    WokenKeeps(s, k, s');
  }

  lemma {:induction false} ReadersKeep(s: State, q: seq<nat>)
    requires Inv(s) && NoDup(q) && forall k | k in q :: k in s.readers
    ensures forall k | k in q :: k in s.procs
    ensures Inv(WakeReaders(s, q)) && WakeReaders(s, q).ready == s.ready + q
    decreases |q|
  {
    if q != [] {
      var k := q[0];
      Tail(q);
      var s' := Woken(s, k, s.procs[k].(waitRead := false)).(readers := Without(s.readers, k));
      ReaderKeeps(s, k, s');
      WithoutOne(s.readers, k);
      ReadersKeep(s', q[1..]);
      AppendAll(s.ready, q);
    }
  }

  lemma AppendAll(ready: seq<nat>, q: seq<nat>)
    requires q != []
    ensures ready + [q[0]] + q[1..] == ready + q
  {
  }

  /** Exactly the satisfied readers go to the back of the queue. */
  lemma WriteKeeps(s: State, fd: int, count: nat, drained: bool)
    requires Inv(s)
    ensures Inv(AfterWrite(s, fd, count, drained))
    ensures AfterWrite(s, fd, count, drained).ready
         == s.ready + Resumed(Progressed(s, fd, count).procs, s.readers, fd, drained)
  {
    var s1 := Progressed(s, fd, count);
    ProgressKeeps(s, fd, count, s1);
    ResumedSome(s1.procs, s.readers, fd, drained);
    ReadersKeep(s1, Resumed(s1.procs, s.readers, fd, drained));
  }

  lemma ProgressKeeps(s: State, fd: int, count: nat, s': State)
    requires Inv(s) && s' == Progressed(s, fd, count)
    ensures Inv(s')
  {
    ProgressShape(s, fd, count, s');
    ReadRecords(s.procs, s'.procs);
    ReadPlaces(s, s');
  }

  lemma ProgressShape(s: State, fd: int, count: nat, s': State)
    requires s' == Progressed(s, fd, count)
    ensures s' == s.(procs := s'.procs) && s'.procs.Keys == s.procs.Keys
    ensures forall k {:trigger SameButRead(s.procs[k], s'.procs[k])} | k in s.procs ::
              SameButRead(s.procs[k], s'.procs[k])
  {
    assert s'.procs.Keys == s.procs.Keys;
    forall k | k in s.procs ensures SameButRead(s.procs[k], s'.procs[k]) {
      assert s'.procs[k] == s.procs[k] || s'.procs[k] == Progress(s.procs[k], fd, count);
    }
  }

  lemma ReadRecords(procs: map<nat, Proc>, procs': map<nat, Proc>)
    requires RecordsOk(procs) && procs.Keys == procs'.Keys
    requires forall k {:trigger SameButRead(procs[k], procs'[k])} | k in procs :: SameButRead(procs[k], procs'[k])
    ensures RecordsOk(procs')
  {
    forall k | k in procs' ensures RecordOk(procs', k) {
      assert RecordOk(procs, k) && SameButRead(procs[k], procs'[k]);
      assert SameButRead(procs[procs[k].ppid], procs'[procs[k].ppid]);
    }
    forall j, k | j in procs' && k in procs' && Siblings(procs', j, k) ensures j == k {
      assert SameButRead(procs[j], procs'[j]) && SameButRead(procs[k], procs'[k]);
      assert Siblings(procs, j, k);
    }
  }

  lemma ReadPlaces(s: State, s': State)
    requires Inv(s) && s' == s.(procs := s'.procs) && s.procs.Keys == s'.procs.Keys && RecordsOk(s'.procs)
    requires forall k {:trigger SameButRead(s.procs[k], s'.procs[k])} | k in s.procs ::
               SameButRead(s.procs[k], s'.procs[k])
    ensures Inv(s')
  {
    forall k | k in s'.procs ensures PlaceOk(s', k) { assert PlaceOk(s, k) && SameButRead(s.procs[k], s'.procs[k]); }
    forall k | k in s.sleepers ensures s'.procs[k].wakeAt == s.procs[k].wakeAt {
      assert SameButRead(s.procs[k], s'.procs[k]);
    }
    StillSorted(s.procs, s'.procs, s.sleepers);
    if s.ready != [] { assert SameButRead(s.procs[s.ready[0]], s'.procs[s.ready[0]]); }
  }

  ghost predicate SameButRead(p: Proc, p': Proc) {
    p' == p.(readGot := p'.readGot) && (p.readGot <= p.readWant ==> p'.readGot <= p.readWant)
  }

  /** A wait, end or exec mark on the front. */
  lemma MarkKeeps(s: State, k: nat, p: Proc, s': State)
    requires Inv(s) && s.Front(k) && s' == s.With(k, p) && ProcOk(p) && (p.terminated ==> !p.Blocked())
    requires p == s.procs[k].(terminated := p.terminated, waitKey := p.waitKey, exec := p.exec)
    ensures Loose(s')
  {
    assert PlaceOk(s, k);
    RecordChange(s.procs, k, p, s'.procs);
    forall j | j in s'.procs ensures PlaceOk(s', j) { assert PlaceOk(s, j); }
  }

  lemma {:induction false} InsertOne(procs: map<nat, Proc>, q: seq<nat>, k: nat)
    requires k in procs && (forall j | j in q :: j in procs) && NoDup(q) && k !in q && SortedBy(procs, q)
    ensures var q' := InsertSleeper(procs, q, k);
            NoDup(q') && SortedBy(procs, q') && forall j :: j in q' <==> j in q || j == k
    decreases |q|
  {
    if q != [] && procs[k].wakeAt >= procs[q[0]].wakeAt {
      Tail(q);
      SortedTail(procs, q);
      InsertOne(procs, q[1..], k);
      var r := InsertSleeper(procs, q[1..], k);
      Cons(procs, q, k, r);
    } else {
      Cons2(procs, q, k);
    }
  }

  lemma Cons(procs: map<nat, Proc>, q: seq<nat>, k: nat, r: seq<nat>)
    requires q != [] && q[0] in procs && k in procs && NoDup(r) && SortedBy(procs, r)
    requires procs[k].wakeAt >= procs[q[0]].wakeAt
    requires SortedBy(procs, q) && q[0] !in q[1..] && q[0] != k
    requires forall j :: j in r <==> j in q[1..] || j == k
    ensures NoDup([q[0]] + r) && SortedBy(procs, [q[0]] + r)
    ensures forall j :: j in [q[0]] + r <==> j in q || j == k
  {
    assert q == [q[0]] + q[1..];
    forall j | j in r && j in procs ensures procs[j].wakeAt >= procs[q[0]].wakeAt {
      if j != k {
        var i :| 0 <= i < |q[1..]| && q[1..][i] == j;
        assert q[i + 1] == j;
      }
    }
  }

  lemma Cons2(procs: map<nat, Proc>, q: seq<nat>, k: nat)
    requires k in procs && (forall j | j in q :: j in procs) && NoDup(q) && k !in q && SortedBy(procs, q)
    requires q != [] ==> procs[k].wakeAt < procs[q[0]].wakeAt
    ensures NoDup([k] + q) && SortedBy(procs, [k] + q)
    ensures forall j :: j in [k] + q <==> j in q || j == k
  {
  }

  lemma AsleepKeeps(s: State, ticks: nat, s': State)
    requires Inv(s) && s.running != MAX && s' == Asleep(s, ticks)
    ensures Loose(s') && s'.ready == s.ready && s'.tick == s.tick && s'.procs[s.running].wakeAt == s.tick + ticks
  {
    var k := s.running;
    assert RecordOk(s.procs, k) && PlaceOk(s, k);
    RecordChange(s.procs, k, s'.procs[k], s'.procs);
    StillSorted(s.procs, s'.procs, s.sleepers);
    InsertOne(s'.procs, s.sleepers, k);
    forall j | j in s'.procs ensures PlaceOk(s', j) { assert PlaceOk(s, j); }
  }

  lemma ReadingKeeps(s: State, fd: int, n: nat, s': State)
    requires Inv(s) && s.running != MAX && s' == Reading(s, fd, n)
    ensures Loose(s')
  {
    var k := s.running;
    assert RecordOk(s.procs, k) && PlaceOk(s, k);
    RecordChange(s.procs, k, s'.procs[k], s'.procs);
    Append(s.readers, k);
    forall j | j in s'.procs ensures PlaceOk(s', j) { assert PlaceOk(s, j); }
  }

  /** Waiting for one child: it is the only one waited for in particular, because its parent was running. */
  lemma WaitChildKeeps(s: State, c: nat, s': State)
    requires Inv(s) && s.running != MAX && c in s.procs && c != s.running && s.procs[c].ppid == s.running
    requires !s.procs[c].zombie
    requires s' == Waiting(s.With(c, s.procs[c].(waited := true)), false)
    ensures Loose(s')
  {
    var k := s.running;
    assert RecordOk(s.procs, k) && PlaceOk(s, k) && RecordOk(s.procs, c);
    WaitChildRecords(s.procs, k, c, s'.procs);
    StillSorted(s.procs, s'.procs, s.sleepers);
    forall j | j in s'.procs ensures PlaceOk(s', j) { assert PlaceOk(s, j); }
  }

  lemma WaitChildRecords(procs: map<nat, Proc>, k: nat, c: nat, procs': map<nat, Proc>)
    requires RecordsOk(procs) && k in procs && c in procs && c != k && procs[c].ppid == k
    requires procs[k].Runnable() && !procs[k].exec
    requires procs' == procs[c := procs[c].(waited := true)][k := procs[k].(waitProc := true)]
    ensures RecordsOk(procs')
  {
    var mid := procs[k := procs[k].(waitProc := true)];
    NotWaited(procs, k);
    assert RecordOk(procs, k);
    RecordChange(procs, k, mid[k], mid);
    StillNotWaited(procs, k, mid[k], mid);
    assert procs' == mid[c := mid[c].(waited := true)];
    WaitedRecords(mid, k, c, procs');
  }

  lemma StillNotWaited(procs: map<nat, Proc>, k: nat, p: Proc, procs': map<nat, Proc>)
    requires NoneWaited(procs, k) && k in procs && procs' == procs[k := p] && p.ppid == procs[k].ppid
    requires p.waited == procs[k].waited
    requires RecordsOk(procs)
    ensures NoneWaited(procs', k)
  {
    forall j | j in procs' && procs'[j].ppid == k ensures !procs'[j].waited { assert RecordOk(procs, j); }
  }

  /** The one child waited for in particular by a process that waits for no other. */
  lemma WaitedRecords(procs: map<nat, Proc>, k: nat, c: nat, procs': map<nat, Proc>)
    requires RecordsOk(procs) && k in procs && c in procs && c != k && procs[c].ppid == k && NoneWaited(procs, k)
    requires procs[k].waitProc && !procs[k].waitAny && procs' == procs[c := procs[c].(waited := true)]
    ensures RecordsOk(procs')
  {
    forall j | j in procs' ensures RecordOk(procs', j) { WaitedRecord(procs, k, c, procs', j); }
    forall i, j | i in procs' && j in procs' && Siblings(procs', i, j) ensures i == j {
      assert RecordOk(procs, i) && RecordOk(procs, j);
      if i != c && j != c { assert Siblings(procs, i, j); }
    }
  }

  lemma WaitedRecord(procs: map<nat, Proc>, k: nat, c: nat, procs': map<nat, Proc>, j: nat)
    requires RecordsOk(procs) && k in procs && c in procs && c != k && procs[c].ppid == k && j in procs
    requires procs[k].waitProc && !procs[k].waitAny && procs' == procs[c := procs[c].(waited := true)]
    ensures RecordOk(procs', j)
  {
    assert RecordOk(procs, j) && RecordOk(procs, c);
    var pp := procs[j].ppid;
    assert procs'[j].ppid == pp && pp in procs';
    assert procs'[pp].waitProc == procs[pp].waitProc && procs'[pp].waitAny == procs[pp].waitAny;
  }

  /** Nobody is waited for by a process that does not wait. */
  lemma NotWaited(procs: map<nat, Proc>, k: nat)
    requires RecordsOk(procs) && k in procs && !procs[k].waitProc
    ensures NoneWaited(procs, k)
  {
    forall j | j in procs && procs[j].ppid == k ensures !procs[j].waited { assert RecordOk(procs, j); }
  }

  lemma WaitAnyKeeps(s: State, s': State)
    requires Inv(s) && s.running != MAX && s' == Waiting(s, true)
    ensures Loose(s')
  {
    var k := s.running;
    assert RecordOk(s.procs, k) && PlaceOk(s, k);
    NotWaited(s.procs, k);
    RecordChange(s.procs, k, s'.procs[k], s'.procs);
    StillSorted(s.procs, s'.procs, s.sleepers);
    forall j | j in s'.procs ensures PlaceOk(s', j) { assert PlaceOk(s, j); }
  }

  /** Waiting for a zombie frees it and leaves its parent running. */
  lemma ReapKeeps(s: State, c: nat)
    requires Inv(s) && s.running != MAX && c in s.procs && c != s.running && s.procs[c].ppid == s.running
    requires s.procs[c].zombie
    requires c < |s.pool|
    ensures var s' := FreeTerminated(s.With(c, s.procs[c].(waited := true)), c);
            Inv(s') && s'.ready == s.ready && s'.running == s.running && c !in s'.procs && s' == Dropped(s, c)
  {
    var k := s.running;
    var s1 := s.With(c, s.procs[c].(waited := true));
    assert RecordOk(s.procs, c) && PlaceOk(s, c) && RecordOk(s.procs, k);
    assert Notified(s1, c).procs == s.procs;
    DropKeeps(s, c, Dropped(s, c));
    assert k in Dropped(s, c).procs;
  }

  /** A fresh pid is in no queue and names no process. */
  lemma AddKeeps(s: State, k: nat, p: Proc, s': State)
    requires Inv(s) && k < |s.pool| && !s.pool[k] && s' == Added(s, k, p)
    requires ProcOk(p.Reset()) && p.Runnable() && !p.exec && !p.waited && (p.ppid == k || p.ppid in s.procs)
    ensures Inv(s') && k !in s.procs && s'.ready == s.ready + [k]
  {
    Room(s.ready, k);
    Append(s.ready, k);
    AddRecords(s.procs, k, p.Reset(), s'.procs);
    forall j | j in s'.procs ensures PlaceOk(s', j) { if j != k { assert PlaceOk(s, j); } }
    StillSorted(s.procs, s'.procs, s.sleepers);
  }

  /** A new record that nobody waits for. */
  lemma AddRecords(procs: map<nat, Proc>, k: nat, p: Proc, procs': map<nat, Proc>)
    requires RecordsOk(procs) && k !in procs && ProcOk(p) && !p.waited && (p.ppid == k || p.ppid in procs)
    requires procs' == procs[k := p]
    ensures RecordsOk(procs')
  {
    forall j | j in procs' ensures RecordOk(procs', j) { if j != k { OldRecord(procs, k, p, procs', j); } }
    forall i, j | i in procs' && j in procs' && Siblings(procs', i, j) ensures i == j { assert Siblings(procs, i, j); }
  }

  lemma OldRecord(procs: map<nat, Proc>, k: nat, p: Proc, procs': map<nat, Proc>, j: nat)
    requires RecordsOk(procs) && k !in procs && procs' == procs[k := p] && j in procs
    ensures RecordOk(procs', j)
  {
    assert RecordOk(procs, j);
    var pp := procs[j].ppid;
    assert pp in procs && procs'[pp] == procs[pp] && procs'[j] == procs[j];
  }

  // ---- every step, every run ----

  /** What holds once the step has been taken up to its trap. */
  lemma EffectKeeps(s: State, step: Step)
    requires Inv(s) && Enabled(s, step)
    ensures Loose(Effect(s, step))
    ensures if Traps(s, step) then FrontLater(Effect(s, step).(tick := Effect(s, step).tick + 1))
            else Inv(Effect(s, step))
  {
    match step
    case KeyPress => KeysKeep(s, 0, Half(|s.keys|));
    case Written(fd, count, drained) =>
      WriteKeeps(s, fd, count, drained);
    case Kill(target) => KillKeeps(s, target, Effect(s, step));
    case Tick =>
    case _ => CallKeeps(s, step, Effect(s, step));
  }

  /** The running process's own calls. */
  lemma CallKeeps(s: State, step: Step, s': State)
    requires Inv(s) && Enabled(s, step) && s.running != MAX && s' == Effect(s, step)
    requires !step.KeyPress? && !step.Written? && !step.Kill? && !step.Tick?
    ensures Loose(s')
    ensures if Traps(s, step) then FrontLater(s'.(tick := s'.tick + 1)) else Inv(s')
  {
    var k := s.running;
    match step
    case Sleep(ticks) => AsleepKeeps(s, ticks, s');
    case ReadWait(fd, n) => ReadingKeeps(s, fd, n, s');
    case WaitChild(c) => WaitCallKeeps(s, c, s');
    case WaitAny => if HasChild(s, k) { WaitAnyKeeps(s, s'); }
    case Fork => ForkKeeps(s, s');
    case Start(priority) => AddKeeps(s, FreePid(s.pool, 0), NewProc(FreePid(s.pool, 0), priority), s');
    case GetKey => FrontMarkKeeps(s, s'.procs[k], s');
    case Exit => FrontMarkKeeps(s, s'.procs[k], s');
    case Exec => FrontMarkKeeps(s, s'.procs[k], s');
  }

  lemma FrontMarkKeeps(s: State, p: Proc, s': State)
    requires Inv(s) && s.running in s.procs && s.running != MAX && s' == s.With(s.running, p)
    requires var o := s.procs[s.running];
      p == o.(waitKey := true) || p == o.(terminated := true) || p == o.(exec := true)
    ensures Loose(s') && FrontLater(s'.(tick := s'.tick + 1))
  {
    assert RecordOk(s.procs, s.running) && PlaceOk(s, s.running);
    MarkKeeps(s, s.running, p, s');
  }

  lemma ForkKeeps(s: State, s': State)
    requires Inv(s) && Enabled(s, Step.Fork) && s' == Effect(s, Step.Fork)
    ensures Inv(s')
  {
    assert RecordOk(s.procs, s.running);
    AddKeeps(s, FreePid(s.pool, 0), NewProc(s.running, s.procs[s.running].priority), s');
  }

  lemma WaitCallKeeps(s: State, c: nat, s': State)
    requires Inv(s) && s.running != MAX && s' == Effect(s, Step.WaitChild(c))
    ensures Loose(s')
    ensures if Traps(s, Step.WaitChild(c)) then FrontLater(s'.(tick := s'.tick + 1)) else Inv(s')
  {
    var k := s.running;
    assert PlaceOk(s, k);
    if c in s.procs && c != k && s.procs[c].ppid == k {
      if s.procs[c].zombie { ReapKeeps(s, c); } else { WaitChildKeeps(s, c, s'); }
    }
  }

  /** An end mark on any process at all: the queues stay as they are. */
  lemma KillKeeps(s: State, target: nat, s': State)
    requires Inv(s) && target in s.procs && s' == s.With(target, s.procs[target].(terminated := true))
    ensures Loose(s') && FrontLater(s'.(tick := s'.tick + 1))
  {
    assert RecordOk(s.procs, target) && PlaceOk(s, target);
    RecordChange(s.procs, target, s'.procs[target], s'.procs);
    StillSorted(s.procs, s'.procs, s.sleepers);
    forall j | j in s'.procs ensures PlaceOk(s', j) { assert PlaceOk(s, j); }
  }

  function Apply(s: State, step: Step): (s': State)
    requires Inv(s) && Enabled(s, step)
    ensures Inv(s')
  {
    EffectKeeps(s, step);
    if Traps(s, step) then
      NextKeeps(Ticked(Effect(s, step)));
      Trap(Effect(s, step))
    else Effect(s, step)
  }

  ghost predicate Allowed(s: State, steps: seq<Step>)
    requires Inv(s)
    decreases |steps|
  {
    steps == [] || (Enabled(s, steps[0]) && Allowed(Apply(s, steps[0]), steps[1..]))
  }

  /** Every run keeps the queues sound. */
  function Run(s: State, steps: seq<Step>): (s': State)
    requires Inv(s) && Allowed(s, steps)
    ensures Inv(s')
    decreases |steps|
  {
    if steps == [] then s else Run(Apply(s, steps[0]), steps[1..])
  }

  // ---- what the invariant says ----

  /** Each process is in exactly one place: a zombie, waiting for a child, ready, or in one wait list, and once
      there. */
  lemma OnePlace(s: State, k: nat)
    requires Inv(s)
    ensures k in s.procs ==> Places(s, k) == 1
    ensures k !in s.procs ==> Places(s, k) == 0 && k !in s.ready
    ensures NoDup(s.ready) && NoDup(s.keys) && NoDup(s.sleepers) && NoDup(s.readers)
    ensures |s.ready| <= MAX && |s.keys| <= MAX && |s.sleepers| <= MAX
  {
    NeverFull(s);
    if k in s.procs { assert RecordOk(s.procs, k) && PlaceOk(s, k); }
  }

  ghost function Places(s: State, k: nat): nat {
    (if k in s.ready then 1 else 0) + (if k in s.keys then 1 else 0) + (if k in s.sleepers then 1 else 0)
    + (if k in s.readers then 1 else 0)
    + (if k in s.procs && (s.procs[k].zombie || s.procs[k].waitProc) then 1 else 0)
  }

  /** A pid handed out names no process and is in no queue. */
  lemma FreshPid(s: State)
    requires Inv(s) && FreePid(s.pool, 0) < MAX
    ensures FreePid(s.pool, 0) !in s.procs && Places(s, FreePid(s.pool, 0)) == 0
  {
  }

  // ---- a sleep of one tick ----

  /** How many sleepers at the head of the list are due. */
  function Due(procs: map<nat, Proc>, q: seq<nat>, tick: nat): nat
    requires forall k | k in q :: k in procs
  {
    if q == [] || procs[q[0]].wakeAt > tick then 0 else 1 + Due(procs, q[1..], tick)
  }

  /** Whatever is queued stays queued. */
  lemma {:induction false} WakePrefix(s: State)
    requires forall k | k in s.sleepers :: k in s.procs
    ensures s.ready <= WakeSleepers(s).ready
    decreases |s.sleepers|
  {
    if s.sleepers != [] && s.procs[s.sleepers[0]].wakeAt <= s.tick {
      var k := s.sleepers[0];
      WakePrefix(Woken(s, k, s.procs[k].(asleep := false)).(sleepers := s.sleepers[1..]));
    }
  }

  /** A due sleeper that is still queued is queued twice, unless the queue is full by its turn. */
  lemma {:induction false} WakesTwice(s: State, k: nat, i: nat)
    requires (forall j | j in s.sleepers :: j in s.procs) && i < |s.sleepers| && s.sleepers[i] == k && k in s.ready
    requires forall j | 0 <= j <= i :: s.procs[s.sleepers[j]].wakeAt <= s.tick
    requires NoDup(s.sleepers) && NoDup(s.ready) && (forall j | j in s.sleepers && j != k :: j !in s.ready)
    requires |s.ready| <= MAX
    ensures NoDup(WakeSleepers(s).ready) <==> |s.ready| + i >= MAX
    decreases i
  {
    var f := s.sleepers[0];
    var s' := Woken(s, f, s.procs[f].(asleep := false)).(sleepers := s.sleepers[1..]);
    Tail(s.sleepers);
    if |s.ready| == MAX {
      FullStays(s);
    } else if i == 0 {
      WakePrefix(s');
      var n :| 0 <= n < |s.ready| && s.ready[n] == k;
      assert s'.ready[n] == k && s'.ready[|s.ready|] == k;
    } else {
      assert k in s.sleepers[1..] by { assert s.sleepers[1..][i - 1] == k; }
      Append(s.ready, f);
      forall j | 0 <= j <= i - 1 ensures s'.procs[s'.sleepers[j]].wakeAt <= s.tick {
        assert s'.sleepers[j] == s.sleepers[j + 1];
      }
      WakesTwice(s', k, i - 1);
    }
  }

  lemma {:induction false} FullStays(s: State)
    requires (forall j | j in s.sleepers :: j in s.procs) && |s.ready| == MAX
    ensures WakeSleepers(s).ready == s.ready
    decreases |s.sleepers|
  {
    if s.sleepers != [] && s.procs[s.sleepers[0]].wakeAt <= s.tick {
      var k := s.sleepers[0];
      FullStays(Woken(s, k, s.procs[k].(asleep := false)).(sleepers := s.sleepers[1..]));
    }
  }

  /** Where a sleeper of one tick goes: right behind those that are due with it. */
  lemma {:induction false} InsertedAt(procs: map<nat, Proc>, q: seq<nat>, k: nat, tick: nat)
    requires k in procs && (forall j | j in q :: j in procs) && procs[k].wakeAt == tick && SortedBy(procs, q)
    ensures var i, r := Due(procs, q, tick), InsertSleeper(procs, q, k);
      i < |r| && r[i] == k && (forall j | 0 <= j <= i :: r[j] in procs && procs[r[j]].wakeAt <= tick)
    decreases |q|
  {
    if q != [] && procs[q[0]].wakeAt <= tick {
      SortedTail(procs, q);
      InsertedAt(procs, q[1..], k, tick);
      var r := InsertSleeper(procs, q, k);
      forall j | 0 <= j <= Due(procs, q, tick) ensures r[j] in procs && procs[r[j]].wakeAt <= tick {
        if j > 0 { assert r[j] == InsertSleeper(procs, q[1..], k)[j - 1]; }
      }
    }
  }

  /** Going to sleep leaves the queue without duplicates if and only if the sleep is of two ticks or more, or the
      queue is full when the trap wakes the sleeper again. */
  lemma SleepDuplicates(s: State, ticks: nat)
    requires Inv(s) && s.running != MAX && ticks >= 1
    ensures var s1 := Asleep(s, ticks).(tick := s.tick + 1);
      && (forall k | k in s1.sleepers :: k in s1.procs)
      && (NoDup(WakeSleepers(s1).ready) <==> ticks >= 2 || |s.ready| + Due(s.procs, s.sleepers, s.tick + 1) >= MAX)
  {
    var k := s.running;
    var s0 := Asleep(s, ticks);
    var s1 := s0.(tick := s.tick + 1);
    AsleepKeeps(s, ticks, s0);
    TickKeeps(s0, s1);
    assert PlaceOk(s, k) && RecordOk(s.procs, k);
    if ticks >= 2 {
      SleepersKeep(s1);
    } else {
      StillSorted(s.procs, s1.procs, s.sleepers);
      SameDue(s.procs, s1.procs, s.sleepers, s.tick + 1);
      InsertedAt(s1.procs, s.sleepers, k, s.tick + 1);
      NeverFull(s);
      forall j | j in s1.sleepers && j != k ensures j !in s1.ready { assert PlaceOk(s1, j); }
      WakesTwice(s1, k, Due(s.procs, s.sleepers, s.tick + 1));
    }
  }

  lemma {:induction false} SameDue(procs: map<nat, Proc>, procs': map<nat, Proc>, q: seq<nat>, tick: nat)
    requires forall k | k in q :: k in procs && k in procs' && procs'[k].wakeAt == procs[k].wakeAt
    ensures Due(procs', q, tick) == Due(procs, q, tick)
  {
    if q != [] { SameDue(procs, procs', q[1..], tick); }
  }

  // ---- a kill of a process that waits ----

  /** A pass of the search ends its front and nobody else, and leaves a process alone that waits for anything but a
      child. */
  lemma TurnSpares(s: State, k: nat)
    requires Loose(s) && s.ready != [] && FrontOk(s) && k in s.procs && k !in s.ready
    requires s.procs[k].Blocked() && !s.procs[k].waitProc
    ensures var s' := Turn(s).state; k in s'.procs && k !in s'.ready && SameButParent(s.procs[k], s'.procs[k], k)
  {
    var f := s.ready[0];
    TurnKeeps(s);
    FrontIsOk(s);
    if s.procs[f].terminated {
      EndSpares(s, k);
    } else if !s.procs[f].Blocked() {
      RunOthers(s, f, Turn(s).state);
    }
    assert Turn(s).state.procs[k].Blocked();   // and nobody queued waits
  }

  lemma EndSpares(s: State, k: nat)
    requires Loose(s) && s.ready != [] && FrontOk(s) && k in s.procs && k !in s.ready && s.procs[s.ready[0]].terminated
    requires s.procs[k].Blocked() && !s.procs[k].waitProc
    ensures k in Turn(s).state.procs && SameButParent(s.procs[k], Turn(s).state.procs[k], k)
  {
    FrontIsOk(s);
    assert RecordOk(s.procs, k);
    RelinquishSpares(s.(running := s.ready[0]), k);
  }

  /** Process `k` is as it was, or has lost its parent and is its own now. */
  ghost predicate SameButParent(p: Proc, p': Proc, k: nat) {
    p' == p.(ppid := p'.ppid) && (p'.ppid == p.ppid || p'.ppid == k)
  }

  lemma ResumedSame(p: Proc)
    requires !p.waitProc && !p.waitAny
    ensures p.Resumed() == p
  {
  }

  lemma NotifySpares(s: State, x: nat, k: nat)
    requires x in s.procs && s.procs[x].ppid in s.procs && k in s.procs && k != x
    requires !s.procs[k].waitProc && !s.procs[k].waitAny
    ensures k in Notified(s, x).procs && Notified(s, x).procs[k] == s.procs[k]
  {
    ResumedSame(s.procs[k]);
  }

  lemma OrphanSpares(procs: map<nat, Proc>, x: nat, k: nat)
    requires k in procs && k != x
    ensures k in Orphaned(procs, x) && SameButParent(procs[k], Orphaned(procs, x)[k], k)
  {
  }

  lemma FreeSpares(s: State, x: nat, k: nat)
    requires x in s.procs && s.procs[x].ppid in s.procs && x < |s.pool| && k in s.procs && k != x && !s.procs[x].exec
    requires !s.procs[k].waitProc && !s.procs[k].waitAny
    ensures k in FreeTerminated(s, x).procs && SameButParent(s.procs[k], FreeTerminated(s, x).procs[k], k)
  {
    NotifySpares(s, x, k);
    OrphanSpares(if Awaited(s, x) then Notified(s, x).procs else s.procs, x, k);
  }

  lemma RelinquishSpares(s: State, k: nat)
    requires FrontOk(s) && k in s.procs && k != s.ready[0] && !s.procs[s.ready[0]].exec
    requires !s.procs[k].waitProc && !s.procs[k].waitAny
    ensures k in Relinquish(s).procs && SameButParent(s.procs[k], Relinquish(s).procs[k], k)
  {
    FreeSpares(s.(running := s.ready[0], ready := s.ready[1..]), s.ready[0], k);
  }

  lemma {:induction false} SearchSpares(s: State, k: nat)
    requires Loose(s) && k in s.procs && k !in s.ready && s.procs[k].Blocked() && !s.procs[k].waitProc
    ensures var s' := GetNext(s).state; k in s'.procs && k !in s'.ready && SameButParent(s.procs[k], s'.procs[k], k)
    decreases |Alive(s)|, |s.ready|, |Execs(s)|, |Spent(s)|
  {
    if s.ready != [] {
      FrontIsOk(s);
      TurnKeeps(s);
      TurnSpares(s, k);
      if Turn(s).chosen == None {
        TurnShrinks(s);
        SearchSpares(Turn(s).state, k);
      }
    }
  }

  /** A sleeper that is not due yet sleeps on. */
  lemma {:induction false} WakeSpares(s: State, k: nat)
    requires Loose(s) && FrontLater(s) && k in s.procs && (s.procs[k].asleep ==> s.procs[k].wakeAt > s.tick)
    requires k !in s.ready
    ensures var s' := WakeSleepers(s); k in s'.procs && s'.procs[k] == s.procs[k] && k !in s'.ready
    decreases |s.sleepers|
  {
    if s.sleepers != [] && s.procs[s.sleepers[0]].wakeAt <= s.tick {
      var j := s.sleepers[0];
      var s' := Woken(s, j, s.procs[j].(asleep := false)).(sleepers := s.sleepers[1..]);
      assert PlaceOk(s, j);
      SleeperKeeps(s, s');
      WakeSpares(s', k);
    }
  }

  lemma TrapSpares(s: State, k: nat)
    requires Loose(s) && FrontLater(s.(tick := s.tick + 1)) && k in s.procs && k !in s.ready
    requires s.procs[k].Blocked() && !s.procs[k].waitProc && (s.procs[k].asleep ==> s.procs[k].wakeAt > s.tick + 1)
    ensures var s' := Trap(s); k in s'.procs && k !in s'.ready && SameButParent(s.procs[k], s'.procs[k], k)
  {
    var s1 := s.(tick := s.tick + 1);
    TickKeeps(s, s1);
    WakeSpares(s1, k);
    SearchSpares(Ticked(s), k);
  }

  /** Places follow from marks. */
  lemma SamePlaces(s: State, s': State, k: nat)
    requires k in s.procs && k in s'.procs && PlaceOk(s, k) && PlaceOk(s', k) && k !in s.ready && k !in s'.ready
    requires s.procs[k].waitKey == s'.procs[k].waitKey && s.procs[k].asleep == s'.procs[k].asleep
    requires s.procs[k].waitRead == s'.procs[k].waitRead
    ensures (k in s'.keys <==> k in s.keys) && (k in s'.sleepers <==> k in s.sleepers)
    ensures k in s'.readers <==> k in s.readers
  {
  }

  /** The mark takes effect only when its target wakes: killed while it waits for a key, a read or its tick, a
      process is still there after the trap, marked, in the same wait list and not in the ready queue. */
  lemma KillWaits(s: State, target: nat)
    requires Inv(s) && s.running != MAX && target in s.procs && s.procs[target].Blocked() && !s.procs[target].waitProc
    requires s.procs[target].asleep ==> s.procs[target].wakeAt > s.tick + 1
    ensures var s' := Apply(s, Step.Kill(target));
      && target in s'.procs && s'.procs[target].terminated && s'.procs[target].Blocked() && target !in s'.ready
      && (target in s'.keys <==> target in s.keys)
      && (target in s'.sleepers <==> target in s.sleepers)
      && (target in s'.readers <==> target in s.readers)
  {
    var step := Step.Kill(target);
    assert PlaceOk(s, target);
    EffectKeeps(s, step);
    TrapSpares(Effect(s, step), target);
    var s' := Apply(s, step);
    assert PlaceOk(s', target);
    SamePlaces(s, s', target);
  }
}
