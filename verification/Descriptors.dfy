/** Per-process descriptor tables over the reference-counted system table (process.cpp, process.h, VFS.cpp). */
module Descriptors {
  import opened Basics

  const MAX_FD: nat := 100
  const MAX_FD_PER_PROCESS: nat := 20

  /** An open file of the system: what it is, and how many descriptors name it. */
  datatype Entry = Entry(file: int, rc: nat)

  datatype Fd = Fd(num: nat, sys: nat, cloExec: bool)

  datatype Table = Table(fds: seq<Option<Fd>>, low: nat)

  datatype Slot = Slot(proc: nat, fd: nat)

  // ---- the lowest free place ----

  /** Everything below `low` is taken, and `low` itself is free or past the end. */
  ghost predicate LowOk<T>(t: seq<Option<T>>, low: int) {
    0 <= low <= |t| && (forall i | 0 <= i < low :: t[i].Some?) && (low < |t| ==> t[low].None?)
  }

  /** How many places are free. */
  ghost function Room<T(!new)>(t: seq<Option<T>>): nat { |Free(t)| }

  ghost function Free<T(!new)>(t: seq<Option<T>>): set<nat> { set i: nat | i < |t| && t[i].None? }

  lemma RoomTaken<T(!new)>(t: seq<Option<T>>, i: nat, v: T)
    requires i < |t| && t[i].None?
    ensures Room(t[i := Some(v)]) == Room(t) - 1
  {
    assert i in Free(t) && Free(t[i := Some(v)]) == Free(t) - {i};
  }

  lemma RoomLeft<T(!new)>(t: seq<Option<T>>, low: nat)
    requires LowOk(t, low)
    ensures Room(t) == 0 <==> low == |t|
  {
    if low < |t| { assert low in Free(t); } else { assert Free(t) == {}; }
  }

  /** Where nothing new has appeared there is at least as much room. */
  lemma RoomGrows<T(!new)>(t: seq<Option<T>>, t': seq<Option<T>>)
    requires |t'| == |t| && forall i | 0 <= i < |t| && t'[i].Some? :: t[i].Some?
    ensures Room(t) <= Room(t')
  {
    SubsetSize(Free(t), Free(t'));
  }

  lemma {:induction false} RoomAtStart<T(!new)>(t: seq<Option<T>>)
    requires forall i | 0 <= i < |t| :: t[i].None?
    ensures Room(t) == |t|
    decreases |t|
  {
    if t != [] {
      var n := |t| - 1;
      RoomAtStart(t[..n]);
      assert Free(t) == Free(t[..n]) + {n};
    }
  }

  // ---- who names what ----

  ghost predicate NamedBy(procs: map<nat, Table>, x: Slot, j: nat) {
    && x.proc in procs && x.fd < |procs[x.proc].fds|
    && procs[x.proc].fds[x.fd].Some? && procs[x.proc].fds[x.fd].value.sys == j
  }

  /** The descriptors, of all processes, that name system entry `j`. */
  ghost function Names(procs: map<nat, Table>, j: nat): set<Slot> {
    set p, i | p in procs && 0 <= i < |procs[p].fds| && NamedBy(procs, Slot(p, i), j) :: Slot(p, i)
  }

  ghost predicate TableOk(t: Table) {
    && |t.fds| == MAX_FD_PER_PROCESS
    && forall i | 0 <= i < |t.fds| && t.fds[i].Some? :: t.fds[i].value.num == i && t.fds[i].value.sys < MAX_FD
  }

  ghost predicate EntryOk(sys: seq<Option<Entry>>, procs: map<nat, Table>, j: nat)
    requires j < |sys|
  {
    match sys[j]
    case None => |Names(procs, j)| == 0
    case Some(e) => e.rc == |Names(procs, j)|
  }

  /** Every count is the number of descriptors that name the entry. */
  ghost predicate Counted(sys: seq<Option<Entry>>, low: int, procs: map<nat, Table>) {
    && |sys| == MAX_FD && LowOk(sys, low)
    && (forall p {:trigger procs[p]} | p in procs :: TableOk(procs[p]))
    && (forall j {:trigger EntryOk(sys, procs, j)} | 0 <= j < MAX_FD :: EntryOk(sys, procs, j))
  }

  /** No entry outlives its last descriptor. */
  ghost predicate NoIdle(sys: seq<Option<Entry>>) {
    forall j | 0 <= j < |sys| && sys[j].Some? :: sys[j].value.rc > 0
  }

  ghost predicate LowsOk(procs: map<nat, Table>) {
    forall p {:trigger procs[p]} | p in procs :: LowOk(procs[p].fds, procs[p].low)
  }

  ghost predicate Inv(sys: seq<Option<Entry>>, low: int, procs: map<nat, Table>) {
    Counted(sys, low, procs) && NoIdle(sys) && LowsOk(procs)
  }

  /** With that, an entry exists exactly while some descriptor names it. */
  lemma ExistsIffNamed(sys: seq<Option<Entry>>, low: int, procs: map<nat, Table>, j: nat)
    requires Inv(sys, low, procs) && j < MAX_FD
    ensures sys[j].Some? <==> Names(procs, j) != {}
  {
    assert EntryOk(sys, procs, j);
    assert |Names(procs, j)| == 0 <==> Names(procs, j) == {};
  }

  // ---- one descriptor changes ----

  function Put(procs: map<nat, Table>, p: nat, i: nat, v: Option<Fd>): map<nat, Table>
    requires p in procs && i < |procs[p].fds|
  {
    procs[p := procs[p].(fds := procs[p].fds[i := v])]
  }

  predicate Refers(v: Option<Fd>, j: nat) { v.Some? && v.value.sys == j }

  lemma PutNames(procs: map<nat, Table>, p: nat, i: nat, v: Option<Fd>, j: nat)
    requires p in procs && i < |procs[p].fds|
    ensures Names(Put(procs, p, i, v), j)
         == Names(procs, j) - {Slot(p, i)} + if Refers(v, j) then {Slot(p, i)} else {}
  {
  }

  lemma NamesIff(procs: map<nat, Table>, j: nat, x: Slot)
    ensures x in Names(procs, j) <==> NamedBy(procs, x, j)
  {
  }

  /** Taking an element out and perhaps putting it back. */
  lemma SwapSize(m: set<Slot>, x: Slot, back: bool)
    ensures |m - {x} + if back then {x} else {}| == |m| - (if x in m then 1 else 0) + (if back then 1 else 0)
  {
    if x in m { assert m == (m - {x}) + {x}; } else { assert m - {x} == m; }
  }

  /** The number of names goes with the one descriptor. */
  lemma PutCount(procs: map<nat, Table>, p: nat, i: nat, v: Option<Fd>, j: nat)
    requires p in procs && i < |procs[p].fds|
    ensures |Names(Put(procs, p, i, v), j)|
         == |Names(procs, j)| - (if Refers(procs[p].fds[i], j) then 1 else 0) + (if Refers(v, j) then 1 else 0)
  {
    PutNames(procs, p, i, v, j);
    NamesIff(procs, j, Slot(p, i));
    SwapSize(Names(procs, j), Slot(p, i), Refers(v, j));
  }

  /** The new descriptor is counted. */
  lemma AttachCounts(sys: seq<Option<Entry>>, low: int, procs: map<nat, Table>, p: nat, i: nat, fd: Fd)
    requires Counted(sys, low, procs) && p in procs && i < MAX_FD_PER_PROCESS && procs[p].fds[i].None?
    requires fd.num == i && fd.sys < MAX_FD && sys[fd.sys].Some?
    ensures Counted(sys[fd.sys := Some(sys[fd.sys].value.(rc := sys[fd.sys].value.rc + 1))], low,
                    Put(procs, p, i, Some(fd)))
  {
    var sys' := sys[fd.sys := Some(sys[fd.sys].value.(rc := sys[fd.sys].value.rc + 1))];
    var procs' := Put(procs, p, i, Some(fd));
    forall j | 0 <= j < MAX_FD ensures EntryOk(sys', procs', j) {
      assert EntryOk(sys, procs, j);
      PutCount(procs, p, i, Some(fd), j);
    }
  }

  /** The entry's count after one descriptor less; at zero it goes. */
  function Released(sys: seq<Option<Entry>>, j: nat): seq<Option<Entry>>
    requires j < |sys| && sys[j].Some? && sys[j].value.rc > 0
  {
    if sys[j].value.rc == 1 then sys[j := None] else sys[j := Some(sys[j].value.(rc := sys[j].value.rc - 1))]
  }

  /** The system cursor goes down if the entry was the last. */
  function LowAfter(sys: seq<Option<Entry>>, low: nat, j: nat): nat
    requires j < |sys| && sys[j].Some?
  {
    if sys[j].value.rc == 1 then Least(low, j) else low
  }

  lemma NamedHasCount(sys: seq<Option<Entry>>, low: int, procs: map<nat, Table>, p: nat, i: nat)
    requires Counted(sys, low, procs) && p in procs && i < MAX_FD_PER_PROCESS && procs[p].fds[i].Some?
    ensures var j := procs[p].fds[i].value.sys; j < MAX_FD && sys[j].Some? && sys[j].value.rc > 0
  {
    var j := procs[p].fds[i].value.sys;
    assert TableOk(procs[p]);
    assert EntryOk(sys, procs, j);
    NamesIff(procs, j, Slot(p, i));
  }

  /** The descriptor gone is no longer counted, and an entry without descriptors is destroyed. */
  lemma DetachCounts(sys: seq<Option<Entry>>, low: int, procs: map<nat, Table>, p: nat, i: nat)
    requires Counted(sys, low, procs) && p in procs && i < MAX_FD_PER_PROCESS && procs[p].fds[i].Some?
    ensures var j := procs[p].fds[i].value.sys;
      && j < |sys| && sys[j].Some? && sys[j].value.rc > 0
      && Counted(Released(sys, j), LowAfter(sys, low, j), Put(procs, p, i, None))
      && (NoIdle(sys) ==> NoIdle(Released(sys, j)))
  {
    NamedHasCount(sys, low, procs, p, i);
    var f := procs[p].fds[i].value.sys;
    var sys', procs' := Released(sys, f), Put(procs, p, i, None);
    forall j | 0 <= j < MAX_FD ensures EntryOk(sys', procs', j) {
      assert EntryOk(sys, procs, j);
      PutCount(procs, p, i, None, j);
    }
  }

  /** A descriptor that moves from one process to another keeps its entry's count. */
  lemma MoveCounts(sys: seq<Option<Entry>>, low: int, procs: map<nat, Table>, p: nat, q: nat, i: nat)
    requires Counted(sys, low, procs) && p in procs && q in procs && p != q && i < MAX_FD_PER_PROCESS
    requires procs[p].fds[i].Some? && procs[q].fds[i].None?
    ensures Counted(sys, low, Put(Put(procs, q, i, procs[p].fds[i]), p, i, None))
  {
    var v := procs[p].fds[i];
    var procs1 := Put(procs, q, i, v);
    var procs' := Put(procs1, p, i, None);
    assert TableOk(procs[p]);
    forall j | 0 <= j < MAX_FD ensures EntryOk(sys, procs', j) {
      assert EntryOk(sys, procs, j);
      PutCount(procs, q, i, v, j);
      PutCount(procs1, p, i, None, j);
    }
  }

  /** A new system entry, not yet named. */
  lemma EntryCounts(sys: seq<Option<Entry>>, low: int, low': int, procs: map<nat, Table>, j: nat, file: int)
    requires Counted(sys, low, procs) && j < MAX_FD && sys[j].None? && LowOk(sys[j := Some(Entry(file, 0))], low')
    ensures Counted(sys[j := Some(Entry(file, 0))], low', procs)
  {
    var sys' := sys[j := Some(Entry(file, 0))];
    forall k | 0 <= k < MAX_FD ensures EntryOk(sys', procs, k) { assert EntryOk(sys, procs, k); }
  }

  /** A process without descriptors may come and go. */
  lemma EmptyNames(procs: map<nat, Table>, procs': map<nat, Table>, p: nat, j: nat)
    requires forall q | q != p :: (q in procs <==> q in procs') && (q in procs ==> procs'[q].fds == procs[q].fds)
    requires p in procs ==> forall i | 0 <= i < |procs[p].fds| :: procs[p].fds[i].None?
    requires p in procs' ==> forall i | 0 <= i < |procs'[p].fds| :: procs'[p].fds[i].None?
    ensures Names(procs', j) == Names(procs, j)
  {
  }
}
