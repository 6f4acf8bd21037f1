/** The scheduler's data and one turn of each of its operations, as values (scheduler.cpp). */
module Processes {
  import opened Basics

  const MAX: nat := 32     // one pid per bit of the pool
  const TICK: nat := 10    // CLOCK_TICK_MS

  /** A process: its flag bits, and what the wait lists record about it. */
  datatype Proc = Proc(
    ppid: nat, priority: nat, quantum: nat,
    terminated: bool, zombie: bool, exec: bool,
    waitKey: bool, waitProc: bool, asleep: bool, waitRead: bool,
    waited: bool,    // its parent waits for it in particular
    waitAny: bool,   // it waits for any child
    wakeAt: nat, readFd: int, readWant: nat, readGot: nat)
  {
    predicate Blocked() { waitKey || waitProc || asleep || waitRead }

    /** Neither ended nor waiting. */
    predicate Runnable() { !terminated && !zombie && !Blocked() }

    /** Its parent's wait for it is over. */
    function Answered(): Proc { this.(waited := false) }

    /** Its wait for a child is over. */
    function Resumed(): Proc { this.(waitProc := false, waitAny := false) }

    function Reset(): Proc { this.(quantum := priority * TICK) }

    /** What takes its place when an exec is carried out. */
    function Replacement(): Proc { this.(priority := 1, quantum := 0, exec := false) }
  }

  function NewProc(ppid: nat, priority: nat): Proc {
    Proc(ppid, priority, 0, false, false, false, false, false, false, false, false, false, 0, 0, 0, 0).Reset()
  }

  /** `running` is MAX when nothing runs. Queues hold pids; sleepers are kept by wake-up tick. */
  datatype State = State(ready: seq<nat>, keys: seq<nat>, sleepers: seq<nat>, readers: seq<nat>,
                         procs: map<nat, Proc>, pool: seq<bool>, running: nat, tick: nat)
  {
    function With(k: nat, p: Proc): State { this.(procs := procs[k := p]) }

    predicate Front(k: nat) { ready != [] && ready[0] == k }
  }

  /** A full queue refuses silently. */
  function Enqueue(q: seq<nat>, k: nat): seq<nat> {
    if |q| < MAX then q + [k] else q
  }

  // ---- what holds of the queues and the processes ----

  ghost predicate NoDup(q: seq<nat>) {
    forall i, j | 0 <= i < j < |q| :: q[i] != q[j]
  }

  /** Whole ticks, at most the priority's worth. */
  ghost predicate QuantumOk(priority: nat, quantum: nat) {
    priority >= 1 && quantum % TICK == 0 && quantum <= priority * TICK < 0x1_0000_0000
  }

  ghost predicate ProcOk(p: Proc) {
    && QuantumOk(p.priority, p.quantum)
    && (p.zombie ==> p.terminated && !p.Blocked())
    && (p.terminated ==> !p.exec)
    && (p.exec ==> !p.Blocked())
    && (p.waitKey ==> !p.waitProc && !p.asleep && !p.waitRead)
    && (p.waitProc ==> !p.asleep && !p.waitRead)
    && (p.asleep ==> !p.waitRead)
    && (p.waitAny ==> p.waitProc)
    && p.readGot <= p.readWant
  }

  /** The bit of a pid is set exactly while the pid names a process. */
  ghost predicate PidsOk(s: State) {
    && |s.pool| == MAX
    && (forall k | k in s.procs :: k < MAX)
    && (forall k: nat | k < MAX :: s.pool[k] == (k in s.procs))
  }

  /** A process's own record is sound, its parent exists, and waits if this child is waited for in particular. */
  ghost predicate RecordOk(procs: map<nat, Proc>, k: nat)
    requires k in procs
  {
    var p := procs[k];
    && ProcOk(p)
    && p.ppid in procs
    && (p.waited ==> p.ppid != k && procs[p.ppid].waitProc && !procs[p.ppid].waitAny)
  }

  /** Two processes waited for in particular by the same parent. */
  ghost predicate Siblings(procs: map<nat, Proc>, j: nat, k: nat)
    requires j in procs && k in procs
  {
    procs[j].waited && procs[k].waited && procs[j].ppid == procs[k].ppid
  }

  ghost predicate RecordsOk(procs: map<nat, Proc>) {
    && (forall k {:trigger RecordOk(procs, k)} | k in procs :: RecordOk(procs, k))
    && (forall j, k {:trigger Siblings(procs, j, k)} | j in procs && k in procs && Siblings(procs, j, k) :: j == k)
  }

  /** A process is in the ready queue unless it is a zombie or waits, and then it is in the list its wait calls for.
      The front may carry a wait flag not yet acted on. A process killed while it waits goes on waiting. */
  ghost predicate PlaceOk(s: State, k: nat)
    requires k in s.procs
  {
    var p := s.procs[k];
    && (k in s.ready <==> !p.zombie && (!p.Blocked() || s.Front(k)))
    && (k in s.keys <==> p.waitKey && k !in s.ready)
    && (k in s.sleepers <==> p.asleep)
    && (k in s.readers <==> p.waitRead)
    && (p.exec ==> s.Front(k))
    && (p.terminated && k in s.ready ==> !p.Blocked())
  }

  ghost predicate QueueOk(procs: map<nat, Proc>, q: seq<nat>) {
    NoDup(q) && forall k | k in q :: k in procs
  }

  ghost predicate SortedBy(procs: map<nat, Proc>, q: seq<nat>) {
    forall i, j | 0 <= i < j < |q| && q[i] in procs && q[j] in procs :: procs[q[i]].wakeAt <= procs[q[j]].wakeAt
  }

  /** Everything but the place of process `x`, which is in no queue. */
  ghost predicate LooseBut(s: State, x: nat) {
    && PidsOk(s) && RecordsOk(s.procs)
    && QueueOk(s.procs, s.ready) && QueueOk(s.procs, s.keys) && QueueOk(s.procs, s.sleepers)
    && QueueOk(s.procs, s.readers)
    && SortedBy(s.procs, s.sleepers)
    && (forall k {:trigger PlaceOk(s, k)} | k in s.procs && k != x :: PlaceOk(s, k))
    && x !in s.ready && x !in s.keys && x !in s.sleepers && x !in s.readers
  }

  /** What holds while the scheduler looks for the next process. */
  ghost predicate Loose(s: State) {
    LooseBut(s, MAX)
  }

  /** What holds between two steps of the machine. */
  ghost predicate Inv(s: State) {
    && Loose(s)
    && (s.ready != [] ==> var f := s.procs[s.ready[0]]; !f.Blocked() && !f.exec)
    && (s.running != MAX ==> s.Front(s.running) && !s.procs[s.running].terminated)
  }

  // ---- get_next_process ----

  /** The others, with the children of `k` made their own parents. */
  function Orphaned(procs: map<nat, Proc>, k: nat): map<nat, Proc> {
    map j | j in procs && j != k :: if procs[j].ppid == k then procs[j].(ppid := j) else procs[j]
  }

  function Dropped(s: State, k: nat): State
    requires k < |s.pool|
  {
    s.(procs := Orphaned(s.procs, k), pool := s.pool[k := false])
  }

  /** Wakes the parent of `k`, which is already queued if it is the one running, and clears the wait marks of both. */
  function Notified(s: State, k: nat): State
    requires k in s.procs && s.procs[k].ppid in s.procs
  {
    var pp := s.procs[k].ppid;
    var procs := s.procs[k := s.procs[k].Answered()];
    s.(ready := if pp != s.running then Enqueue(s.ready, pp) else s.ready, procs := procs[pp := procs[pp].Resumed()])
  }

  predicate Awaited(s: State, k: nat)
    requires k in s.procs && s.procs[k].ppid in s.procs
  {
    s.procs[k].waited || s.procs[s.procs[k].ppid].waitAny
  }

  /** Ends a terminated process; one replaced by exec leaves its pid and its waiters to the replacement. */
  function FreeTerminated(s: State, k: nat): State
    requires k in s.procs && s.procs[k].ppid in s.procs && k < |s.pool|
  {
    if s.procs[k].exec then s
    else Dropped(if Awaited(s, k) then Notified(s, k) else s, k)
  }

  /** The terminated front leaves the queue: freed if it has no parent or its parent waits, else a zombie. */
  function Relinquish(s: State): State
    requires s.ready != [] && s.ready[0] in s.procs && s.procs[s.ready[0]].ppid in s.procs && s.ready[0] < |s.pool|
  {
    var k := s.ready[0];
    var p := s.procs[k];
    var s1 := s.(running := k, ready := if p.exec then s.ready else s.ready[1..]);
    if p.ppid == k then FreeTerminated(s1, k)
    else if !s.procs[p.ppid].waitAny && !p.waited && !p.exec then s1.With(k, p.(zombie := true))
    else FreeTerminated(s1, k)
  }

  datatype Pick = Pick(state: State, chosen: Option<nat>)

  /** The front and its parent exist. */
  predicate FrontOk(s: State) {
    && s.ready != [] && s.ready[0] < |s.pool|
    && s.ready[0] in s.procs && s.procs[s.ready[0]].ppid in s.procs
  }

  /** The exec replacement takes over in place. */
  function Replaced(s: State): State
    requires FrontOk(s)
  {
    var k := s.ready[0];
    var p := s.procs[k];
    if p.exec then Relinquish(s.With(k, p.(terminated := true))).With(k, p.Replacement()) else s
  }

  /** Runs the front if it has quantum left, else sends it to the back with a new one. The quantum is unsigned. */
  function Spend(s: State): Pick
    requires s.ready != [] && s.ready[0] in s.procs
  {
    var k := s.ready[0];
    var p := s.procs[k];
    if p.quantum != 0 then Pick(s.With(k, p.(quantum := (p.quantum - TICK) % 0x1_0000_0000)), Some(k))
    else Pick(s.(ready := Enqueue(s.ready[1..], k)).With(k, p.Reset()), None)
  }

  /** Exec goes through termination, yet nothing but the front's own record changes. */
  lemma ReplacedShape(s: State)
    requires FrontOk(s)
    ensures var k := s.ready[0]; var p := s.procs[k];
            Replaced(s) == if p.exec then s.(running := k).With(k, p.Replacement()) else s
  {
  }

  /** One pass of the search loop. */
  function Turn(s: State): Pick
    requires FrontOk(s)
  {
    var k := s.ready[0];
    var p := s.procs[k];
    var s1 := s.(running := k);
    if p.terminated then Pick(Relinquish(s1), None)
    else if p.waitKey then Pick(s1.(ready := s.ready[1..], keys := Enqueue(s.keys, k)), None)
    else if p.Blocked() then Pick(s1.(ready := s.ready[1..]), None)
    else
      ReplacedShape(s1);
      Spend(Replaced(s1))
  }
}
