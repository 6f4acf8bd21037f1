/** The operations on descriptors, in place. */
module DescriptorTables {
  import opened Basics
  import opened Descriptors

  /** The first `i` terminals of a new process are open, as far as there was room. */
  ghost predicate Opened(sys0: seq<Option<Entry>>, sys: seq<Option<Entry>>, procs0: map<nat, Table>,
                         procs: map<nat, Table>, p: nat, terminals: seq<int>, i: nat)
  {
    && FilesKept(sys0, sys) && OthersKept(procs0, procs, p)
    && |procs[p].fds| == MAX_FD_PER_PROCESS && i <= 3 == |terminals|
    && (forall k | i <= k < MAX_FD_PER_PROCESS :: procs[p].fds[k].None?)
    && (forall k | 0 <= k < i && procs[p].fds[k].Some? ::
          !procs[p].fds[k].value.cloExec && NamesNew(sys0, sys, procs[p].fds[k], terminals[k]))
    && (forall k | 0 <= k < i :: procs[p].fds[k].Some? <==> k < Room(sys0))
    && Room(sys) == Room(sys0) - Least(i, Room(sys0))
    && (forall j | 0 <= j < |sys| && sys[j].None? :: sys0[j].None?)
  }

  /** The search both tables share: the first free place from `from` on. */
  method NextFree<T>(t: seq<Option<T>>, from: nat) returns (n: nat)
    requires from <= |t|
    ensures from <= n <= |t| && (forall i | from <= i < n :: t[i].Some?) && (n < |t| ==> t[n].None?)
  {
    n := from;
    while n < |t| && t[n].Some?
      invariant from <= n <= |t| && forall i | from <= i < n :: t[i].Some?
    {
      n := n + 1;
    }
  }

  /** Fewer than two places are free. */
  ghost predicate LacksTwo<T>(t: seq<Option<T>>) {
    forall i, j | 0 <= i < j < |t| :: t[i].Some? || t[j].Some?
  }

  /** The open files of the entries that live on are the same. */
  ghost predicate FilesKept(sys: seq<Option<Entry>>, sys': seq<Option<Entry>>) {
    |sys'| == |sys|
    && forall j {:trigger sys'[j]} | 0 <= j < |sys| && sys[j].Some? && sys'[j].Some?
       :: sys'[j].value.file == sys[j].value.file
  }

  /** No entry is new: what is there was there, the same open file. */
  ghost predicate NoneNew(sys: seq<Option<Entry>>, sys': seq<Option<Entry>>) {
    |sys'| == |sys|
    && forall j {:trigger sys'[j]} | 0 <= j < |sys| && sys'[j].Some?
       :: sys[j].Some? && sys'[j].value.file == sys[j].value.file
  }

  /** Everyone but `p` has the table it had. */
  ghost predicate OthersKept(procs: map<nat, Table>, procs': map<nat, Table>, p: nat) {
    p in procs' && procs' == procs[p := procs'[p]]
  }

  ghost predicate LowsBut(procs: map<nat, Table>, p: nat) {
    forall q {:trigger procs[q]} | q in procs && q != p :: LowOk(procs[q].fds, procs[q].low)
  }

  /** All cursors are right, that of `p` once its number `i` is taken. */
  ghost predicate Reserved(procs: map<nat, Table>, p: nat, i: nat) {
    && p in procs && i < |procs[p].fds| == MAX_FD_PER_PROCESS && procs[p].fds[i].None?
    && LowsBut(procs, p) && i < procs[p].low <= MAX_FD_PER_PROCESS
    && (forall k | 0 <= k < procs[p].low && k != i :: procs[p].fds[k].Some?)
    && (procs[p].low < MAX_FD_PER_PROCESS ==> procs[p].fds[procs[p].low].None?)
  }

  lemma KeptTwice(procs: map<nat, Table>, mid: map<nat, Table>, procs': map<nat, Table>, p: nat)
    requires OthersKept(procs, mid, p) && OthersKept(mid, procs', p)
    ensures OthersKept(procs, procs', p)
  {
  }

  lemma Restored(procs: map<nat, Table>, procs': map<nat, Table>, p: nat)
    requires p in procs && OthersKept(procs, procs', p) && procs'[p] == procs[p]
    ensures procs' == procs
  {
  }

  lemma LowRelease(fds: seq<Option<Fd>>, low: nat, i: nat)
    requires LowOk(fds, low) && i < |fds|
    ensures LowOk(fds[i := None], Least(low, i))
  {
  }

  class Files {
    var sys: seq<Option<Entry>>
    var low: int   // the code's cursor can become -1
    var procs: map<nat, Table>

    ghost predicate Valid()
      reads this
    {
      Inv(sys, low, procs)
    }

    constructor ()
      ensures Valid() && procs == map[] && Room(sys) == MAX_FD
    {
      sys, low, procs := seq(MAX_FD, _ => None), 0, map[];
      new;
      forall j | 0 <= j < MAX_FD ensures EntryOk(sys, procs, j) { assert Names(procs, j) == {}; }
      RoomAtStart(sys);
    }

    // ---- system table ----

    /** A new entry at the lowest free place, not yet named; None when the table is full. */
    method NewEntry(file: int) returns (r: Option<nat>)
      requires Counted(sys, low, procs)
      modifies this`sys, this`low
      ensures Counted(sys, low, procs)
      ensures r.None? <==> old(low) == MAX_FD
      ensures r.None? ==> sys == old(sys) && low == old(low)
      ensures r.Some? ==>
                r.value == old(low) && old(sys)[r.value].None? && sys == old(sys)[r.value := Some(Entry(file, 0))]
    {
      var i := NextFree(sys, low);
      if i == MAX_FD { return None; }
      ghost var was, wasLow := sys, low;
      low := NextFree(sys, i + 1);
      sys := sys[i := Some(Entry(file, 0))];
      EntryCounts(was, wasLow, low, procs, i, file);
      r := Some(i);
    }

    // ---- one descriptor ----

    /** The number under the cursor of `p`, reserved by moving the cursor to the next free one. */
    method GetFreeFd(p: nat) returns (r: Option<nat>)
      requires p in procs && |procs[p].fds| == MAX_FD_PER_PROCESS && procs[p].low <= MAX_FD_PER_PROCESS
      requires procs[p].low < MAX_FD_PER_PROCESS ==> procs[p].fds[procs[p].low].None?
      modifies this`procs
      ensures r == if old(procs)[p].low == MAX_FD_PER_PROCESS then None else Some(old(procs)[p].low)
      ensures p in procs && procs == old(procs)[p := Table(old(procs)[p].fds, procs[p].low)]
      ensures r.None? ==> procs == old(procs)
      ensures r.Some? ==>
        && r.value < procs[p].low <= MAX_FD_PER_PROCESS
        && (forall i | r.value < i < procs[p].low :: procs[p].fds[i].Some?)
        && (procs[p].low < MAX_FD_PER_PROCESS ==> procs[p].fds[procs[p].low].None?)
    {
      var t := procs[p];
      if t.low == MAX_FD_PER_PROCESS { return None; }
      var next := NextFree(t.fds, t.low + 1);
      procs := procs[p := t.(low := next)];
      r := Some(t.low);
    }

    /** `new file_descriptor`. */
    method Attach(p: nat, i: nat, j: nat, cloExec: bool)
      requires Counted(sys, low, procs) && p in procs && i < MAX_FD_PER_PROCESS && procs[p].fds[i].None? && j < MAX_FD
      requires sys[j].Some?
      modifies this`sys, this`procs
      ensures Counted(sys, low, procs) && procs == Put(old(procs), p, i, Some(Fd(i, j, cloExec)))
      ensures sys == old(sys)[j := Some(old(sys)[j].value.(rc := old(sys)[j].value.rc + 1))]
      ensures FilesKept(old(sys), sys)
    {
      AttachCounts(sys, low, procs, p, i, Fd(i, j, cloExec));
      sys := sys[j := Some(sys[j].value.(rc := sys[j].value.rc + 1))];
      procs := Put(procs, p, i, Some(Fd(i, j, cloExec)));
    }

    /** The reserved number `i` of `p` gets to name entry `j`. */
    method Fill(p: nat, i: nat, j: nat)
      requires Counted(sys, low, procs) && Reserved(procs, p, i) && j < MAX_FD && sys[j].Some? && NoIdle(sys[j := None])
      modifies this`sys, this`procs
      ensures Valid() && procs == Put(old(procs), p, i, Some(Fd(i, j, false))) && FilesKept(old(sys), sys)
      ensures sys == old(sys)[j := Some(old(sys)[j].value.(rc := old(sys)[j].value.rc + 1))]
    {
      Attach(p, i, j, false);
      forall k | 0 <= k < |sys| && sys[k].Some? ensures sys[k].value.rc > 0 {
        if k != j { assert old(sys)[j := None][k].Some?; }
      }
    }

    /** `release_fd` and the close of the system entry. */
    method Detach(p: nat, i: nat)
      requires Counted(sys, low, procs) && NoIdle(sys) && p in procs && i < MAX_FD_PER_PROCESS && procs[p].fds[i].Some?
      modifies this
      ensures Counted(sys, low, procs) && NoIdle(sys) && FilesKept(old(sys), sys) && NoneNew(old(sys), sys)
      ensures procs == old(procs)[p := Table(old(procs)[p].fds[i := None], Least(old(procs)[p].low, i))]
    {
      var j := procs[p].fds[i].value.sys;
      DetachCounts(sys, low, procs, p, i);
      ghost var gone := Put(procs, p, i, None);
      ghost var sys0, low0 := sys, low;
      sys := sys[j := Some(sys[j].value.(rc := sys[j].value.rc - 1))];
      procs := procs[p := Table(procs[p].fds[i := None], Least(procs[p].low, i))];
      if sys[j].value.rc == 0 {
        sys := sys[j := None];
        low := Least(low, j);
      }
      assert sys == Released(sys0, j) && low == LowAfter(sys0, low0, j);
      SameTables(sys, low, gone, procs);
    }

    /** Closes number `i` of `p` if it is open. */
    method Vacate(p: nat, i: nat)
      requires Counted(sys, low, procs) && NoIdle(sys) && p in procs && i < MAX_FD_PER_PROCESS
      modifies this
      ensures Counted(sys, low, procs) && NoIdle(sys) && FilesKept(old(sys), sys) && NoneNew(old(sys), sys)
      ensures OthersKept(old(procs), procs, p) && procs[p].fds == old(procs)[p].fds[i := None]
      ensures procs[p].low == if old(procs)[p].fds[i].Some? then Least(old(procs)[p].low, i) else old(procs)[p].low
    {
      if procs[p].fds[i].Some? { Detach(p, i); }
    }

    /** `close`: false for a number that is not open. */
    method Close(p: nat, fd: int) returns (ok: bool)
      requires Valid() && p in procs
      modifies this
      ensures Valid() && FilesKept(old(sys), sys) && NoneNew(old(sys), sys) && OthersKept(old(procs), procs, p)
      ensures ok == (0 <= fd < MAX_FD_PER_PROCESS && old(procs)[p].fds[fd].Some?)
      ensures procs[p].fds == if ok then old(procs)[p].fds[fd := None] else old(procs)[p].fds
    {
      ok := 0 <= fd < MAX_FD_PER_PROCESS && procs[p].fds[fd].Some?;
      if ok {
        LowRelease(procs[p].fds, procs[p].low, fd);
        Detach(p, fd);
      }
    }

    /** `open`: `file` is what the path resolves to, if it does. The new descriptor is the lowest free number. A
        system table found full leaves the system cursor at -1, and that is the only way to break the tables. */
    method Open(p: nat, file: Option<int>) returns (r: Option<nat>)
      requires Valid() && p in procs
      modifies this
      ensures Valid() <==> old(procs)[p].low == MAX_FD_PER_PROCESS || old(low) < MAX_FD
      ensures !Valid() ==> low == -1
      ensures FilesKept(old(sys), sys) && OthersKept(old(procs), procs, p)
      ensures r.Some? <==> file.Some? && old(procs)[p].low < MAX_FD_PER_PROCESS && old(low) < MAX_FD
      ensures r.None? ==> procs == old(procs) && sys == old(sys)
      ensures r.Some? ==>
        && r.value == old(procs)[p].low < MAX_FD_PER_PROCESS && old(procs)[p].fds[r.value].None?
        && (forall i | 0 <= i < r.value :: old(procs)[p].fds[i].Some?)
        && procs[p].fds == old(procs)[p].fds[r.value := Some(Fd(r.value, old(low), false))]
        && sys[old(low)] == Some(Entry(file.value, 1)) && old(sys)[old(low)].None?
    {
      r := GetFreeFd(p);
      if r.None? { return; }
      if low == MAX_FD || file.None? {
        if low == MAX_FD { low := -1; }
        LowerCursor(p, r.value);
        Restored(old(procs), procs, p);
        return None;
      }
      ghost var mid := procs;
      SameTables(sys, low, old(procs), procs);
      OpenAt(p, r.value, file.value);
      KeptTwice(old(procs), mid, procs, p);
    }

    method OpenAt(p: nat, i: nat, file: int)
      requires Counted(sys, low, procs) && NoIdle(sys) && low < MAX_FD && Reserved(procs, p, i)
      modifies this
      ensures Valid() && FilesKept(old(sys), sys) && procs == Put(old(procs), p, i, Some(Fd(i, old(low), false)))
      ensures OthersKept(old(procs), procs, p)
      ensures sys[old(low)] == Some(Entry(file, 1)) && old(sys)[old(low)].None?
    {
      var j := NewEntry(file);
      Fill(p, i, j.value);
    }

    /** `dup`: the lowest free number names the same entry. */
    method Dup(p: nat, fd: int) returns (r: Option<nat>)
      requires Valid() && p in procs
      modifies this
      ensures Valid() && FilesKept(old(sys), sys) && OthersKept(old(procs), procs, p)
      ensures r.Some?
              <==> (0 <= fd < MAX_FD_PER_PROCESS && old(procs)[p].fds[fd].Some?)
                   && old(procs)[p].low < MAX_FD_PER_PROCESS
      ensures r.None? ==> procs == old(procs) && sys == old(sys)
      ensures r.Some? ==>
        && r.value == old(procs)[p].low < MAX_FD_PER_PROCESS && old(procs)[p].fds[r.value].None?
        && (forall i | 0 <= i < r.value :: old(procs)[p].fds[i].Some?)
        && procs[p].fds == old(procs)[p].fds[r.value := Some(Fd(r.value, old(procs)[p].fds[fd].value.sys, false))]
    {
      if !(0 <= fd < MAX_FD_PER_PROCESS) || procs[p].fds[fd].None? { return None; }
      NamedHasCount(sys, low, procs, p, fd);
      var j := procs[p].fds[fd].value.sys;
      r := GetFreeFd(p);
      if r.None? { return; }
      SameTables(sys, low, old(procs), procs);
      Fill(p, r.value, j);
    }

    /** `dup2`: `newfd` is closed if open, then names what `fd` names. */
    method Dup2(p: nat, fd: int, newfd: nat) returns (ok: bool)
      requires Valid() && p in procs && newfd < MAX_FD_PER_PROCESS
      modifies this
      ensures Valid() && FilesKept(old(sys), sys) && OthersKept(old(procs), procs, p)
      ensures ok == (0 <= fd < MAX_FD_PER_PROCESS && old(procs)[p].fds[fd].Some?)
      ensures procs[p].fds == if ok && fd != newfd
                              then old(procs)[p].fds[newfd := Some(Fd(newfd, old(procs)[p].fds[fd].value.sys, false))]
                              else old(procs)[p].fds
    {
      ok := 0 <= fd < MAX_FD_PER_PROCESS && procs[p].fds[fd].Some?;
      if !ok || fd == newfd { return; }
      var j := procs[p].fds[fd].value.sys;
      ReplaceFd(p, fd, newfd, j);
      ghost var mid := procs;
      AdvanceLow(p);
      KeptTwice(old(procs), mid, procs, p);
    }

    /** Number `newfd` is closed if open, and names entry `j` like number `fd`. */
    method ReplaceFd(p: nat, fd: nat, newfd: nat, j: nat)
      requires Valid() && p in procs && fd < MAX_FD_PER_PROCESS && newfd < MAX_FD_PER_PROCESS && fd != newfd
      requires procs[p].fds[fd].Some? && procs[p].fds[fd].value.sys == j
      modifies this
      ensures Counted(sys, low, procs) && NoIdle(sys) && FilesKept(old(sys), sys) && OthersKept(old(procs), procs, p)
      ensures procs[p].fds == old(procs)[p].fds[newfd := Some(Fd(newfd, j, false))]
      ensures LowsBut(procs, p) && procs[p].low <= MAX_FD_PER_PROCESS
      ensures forall i | 0 <= i < procs[p].low :: procs[p].fds[i].Some?
    {
      Vacate(p, newfd);
      NamedHasCount(sys, low, procs, p, fd);
      Attach(p, newfd, j, false);
    }

    /** Moves the cursor of `p` over numbers in use. */
    method AdvanceLow(p: nat)
      requires Counted(sys, low, procs) && p in procs && LowsBut(procs, p)
      requires procs[p].low <= MAX_FD_PER_PROCESS && forall i | 0 <= i < procs[p].low :: procs[p].fds[i].Some?
      modifies this`procs
      ensures Counted(sys, low, procs) && LowsOk(procs) && p in procs
      ensures procs == old(procs)[p := Table(old(procs)[p].fds, procs[p].low)]
    {
      var next := NextFree(procs[p].fds, procs[p].low);
      ghost var before := procs;
      procs := procs[p := procs[p].(low := next)];
      SameTables(sys, low, before, procs);
    }

    /** Two new system entries, or none. */
    method NewPipe(reader: int, writer: int) returns (r: Option<(nat, nat)>)
      requires Counted(sys, low, procs)
      modifies this`sys, this`low
      ensures Counted(sys, low, procs)
      ensures r.None? ==> sys == old(sys) && low == old(low)
      ensures r.Some? ==>
        && r.value.0 < r.value.1 < MAX_FD && old(sys)[r.value.0].None? && old(sys)[r.value.1].None?
        && sys == old(sys)[r.value.0 := Some(Entry(reader, 0))][r.value.1 := Some(Entry(writer, 0))]
      ensures r.None? <==> LacksTwo(old(sys))
    {
      var i := NextFree(sys, low);
      if i == MAX_FD { return None; }
      var k := NextFree(sys, i + 1);
      if k == MAX_FD {
        low := Least(i, k);
        return None;
      }
      ghost var sys0, low0 := sys, low;
      low := NextFree(sys, k + 1);
      EntryCounts(sys0, low0, k, procs, i, reader);
      sys := sys[i := Some(Entry(reader, 0))];
      EntryCounts(sys, k, low, procs, k, writer);
      sys := sys[k := Some(Entry(writer, 0))];
      r := Some((i, k));
    }

    /** `pipe`: the two lowest free numbers, reading end first; nothing changes when there is no room for both. */
    method Pipe(p: nat, reader: int, writer: int) returns (r: Option<(nat, nat)>)
      requires Valid() && p in procs
      modifies this
      ensures Valid() && FilesKept(old(sys), sys) && OthersKept(old(procs), procs, p)
      ensures r.None? <==> LacksTwo(old(procs)[p].fds) || LacksTwo(old(sys))
      ensures r.None? ==> procs == old(procs) && sys == old(sys)
      ensures r.Some? ==>
        && r.value.0 < r.value.1 < MAX_FD_PER_PROCESS
        && old(procs)[p].fds[r.value.0].None? && old(procs)[p].fds[r.value.1].None?
        && (forall i | 0 <= i < r.value.1 && i != r.value.0 :: old(procs)[p].fds[i].Some?)
        && (forall i | 0 <= i < MAX_FD_PER_PROCESS && i != r.value.0 && i != r.value.1
               :: procs[p].fds[i] == old(procs)[p].fds[i])
        && NamesNew(old(sys), sys, procs[p].fds[r.value.0], reader)
        && NamesNew(old(sys), sys, procs[p].fds[r.value.1], writer)
    {
      r := ReserveTwo(p);
      if r.None? { return; }
      SameTables(sys, low, old(procs), procs);
      ghost var mid := procs;
      var ok := PipeAt(p, r.value.0, r.value.1, reader, writer);
      KeptTwice(old(procs), mid, procs, p);
      if !ok {
        Restored(old(procs), procs, p);
        r := None;
      }
    }

    /** `release_fd` on a number that is only reserved. */
    method LowerCursor(p: nat, i: nat)
      requires p in procs
      modifies this`procs
      ensures procs == old(procs)[p := Table(old(procs)[p].fds, Least(old(procs)[p].low, i))]
    {
      procs := procs[p := procs[p].(low := Least(procs[p].low, i))];
    }

    /** The two lowest free numbers of `p`, or none and the cursor back where it was. */
    method ReserveTwo(p: nat) returns (r: Option<(nat, nat)>)
      requires p in procs && TableOk(procs[p]) && LowsOk(procs)
      modifies this`procs
      ensures r.None? <==> LacksTwo(old(procs)[p].fds)
      ensures r.None? ==> procs == old(procs)
      ensures r.Some? ==>
        && OthersKept(old(procs), procs, p) && procs[p].fds == old(procs)[p].fds
        && r.value.0 == old(procs)[p].low && r.value.1 < procs[p].low
        && r.value.0 < r.value.1 < MAX_FD_PER_PROCESS && procs[p].fds[r.value.0].None? && procs[p].fds[r.value.1].None?
        && (forall i | 0 <= i < r.value.1 && i != r.value.0 :: procs[p].fds[i].Some?)
        && (forall v: Fd :: Reserved(Put(procs, p, r.value.0, Some(v)), p, r.value.1))
    {
      var rfd := GetFreeFd(p);
      if rfd.None? { return None; }
      var wfd := GetFreeFd(p);
      if wfd.None? {
        procs := procs[p := procs[p].(low := Least(procs[p].low, rfd.value))];
        assert procs == old(procs);
        return None;
      }
      r := Some((rfd.value, wfd.value));
    }

    /** Both reserved numbers get their ends, or nothing changes. */
    method PipeAt(p: nat, i: nat, k: nat, reader: int, writer: int) returns (ok: bool)
      requires Counted(sys, low, procs) && NoIdle(sys) && i < MAX_FD_PER_PROCESS && p in procs && procs[p].fds[i].None?
      requires forall v: Fd :: Reserved(Put(procs, p, i, Some(v)), p, k)
      requires i < k
      modifies this
      ensures OthersKept(old(procs), procs, p)
      ensures !ok ==>
                procs[p] == Table(old(procs)[p].fds, Least(Least(old(procs)[p].low, i), k))
                && sys == old(sys) && low == old(low)
      ensures ok <==> !LacksTwo(old(sys))
      ensures ok ==> Valid() && FilesKept(old(sys), sys)
      ensures ok ==>
        && |procs[p].fds| == |old(procs)[p].fds| == MAX_FD_PER_PROCESS && k < MAX_FD_PER_PROCESS
        && (forall n | 0 <= n < MAX_FD_PER_PROCESS && n != i && n != k :: procs[p].fds[n] == old(procs)[p].fds[n])
        && NamesNew(old(sys), sys, procs[p].fds[i], reader) && NamesNew(old(sys), sys, procs[p].fds[k], writer)
    {
      var ends := NewPipe(reader, writer);
      ok := ends.Some?;
      if ok {
        Attach(p, i, ends.value.0, false);
        Fill(p, k, ends.value.1);
      } else {
        LowerCursor(p, i);
        LowerCursor(p, k);
      }
    }

    // ---- processes ----

    /** One of the three terminals a process starts with, unless the system table is full. */
    method OpenTty(p: nat, i: nat, terminal: int)
      requires Counted(sys, low, procs) && NoIdle(sys) && p in procs && i < MAX_FD_PER_PROCESS && procs[p].fds[i].None?
      modifies this
      ensures Counted(sys, low, procs) && NoIdle(sys) && FilesKept(old(sys), sys) && OthersKept(old(procs), procs, p)
      ensures if old(low) == MAX_FD then sys == old(sys) && procs == old(procs) && low == old(low)
              else old(sys)[old(low)].None? && procs == Put(old(procs), p, i, Some(Fd(i, old(low), false)))
                   && sys == old(sys)[old(low) := Some(Entry(terminal, 1))]
    {
      var j := NewEntry(terminal);
      if j.Some? { Attach(p, i, j.value, false); }
    }

    /** A process starts with three terminals, as far as the system table has room. */
    method NewProcess(p: nat, terminals: seq<int>)
      requires Valid() && p !in procs && |terminals| == 3
      modifies this
      ensures Valid() && FilesKept(old(sys), sys) && OthersKept(old(procs), procs, p)
      ensures forall i | 3 <= i < MAX_FD_PER_PROCESS :: procs[p].fds[i].None?
      ensures forall i | 0 <= i < 3 && procs[p].fds[i].Some? :: NamesNew(old(sys), sys, procs[p].fds[i], terminals[i])
      ensures forall i | 0 <= i < 3 :: procs[p].fds[i].Some? <==> i < Room(old(sys))
      ensures forall i | 0 <= i < 3 && procs[p].fds[i].Some? :: !procs[p].fds[i].value.cloExec
      ensures Room(sys) == Room(old(sys)) - Least(3, Room(old(sys)))
    {
      procs := procs[p := Table(seq(MAX_FD_PER_PROCESS, _ => None), 3)];
      EmptyTable(sys, low, old(procs), procs, p);
      ghost var mid := procs;
      OpenTerminals(p, terminals);
      KeptTwice(old(procs), mid, procs, p);
      mid := procs;
      FindLow(p, 3);
      KeptTwice(old(procs), mid, procs, p);
    }

    method OpenTerminals(p: nat, terminals: seq<int>)
      requires Counted(sys, low, procs) && NoIdle(sys) && p in procs && |terminals| == 3
      requires forall k | 0 <= k < MAX_FD_PER_PROCESS :: procs[p].fds[k].None?
      modifies this
      ensures Counted(sys, low, procs) && NoIdle(sys) && FilesKept(old(sys), sys) && OthersKept(old(procs), procs, p)
      ensures forall i | 3 <= i < MAX_FD_PER_PROCESS :: procs[p].fds[i].None?
      ensures forall i | 0 <= i < 3 && procs[p].fds[i].Some? :: NamesNew(old(sys), sys, procs[p].fds[i], terminals[i])
      ensures forall i | 0 <= i < 3 :: procs[p].fds[i].Some? <==> i < Room(old(sys))
      ensures forall i | 0 <= i < 3 && procs[p].fds[i].Some? :: !procs[p].fds[i].value.cloExec
      ensures Room(sys) == Room(old(sys)) - Least(3, Room(old(sys)))
    {
      for i := 0 to 3
        invariant Counted(sys, low, procs) && NoIdle(sys) && Opened(old(sys), sys, old(procs), procs, p, terminals, i)
      {
        NextTerminal(p, terminals, i, old(sys), old(procs));
      }
    }

    method NextTerminal(p: nat, terminals: seq<int>, i: nat, ghost sys0: seq<Option<Entry>>,
                        ghost procs0: map<nat, Table>)
      requires Counted(sys, low, procs) && NoIdle(sys) && Opened(sys0, sys, procs0, procs, p, terminals, i) && i < 3
      modifies this
      ensures Counted(sys, low, procs) && NoIdle(sys) && Opened(sys0, sys, procs0, procs, p, terminals, i + 1)
    {
      RoomLeft(sys, low);
      if low < MAX_FD { RoomTaken(sys, low, Entry(terminals[i], 1)); }
      ghost var mid := procs;
      OpenTty(p, i, terminals[i]);
      KeptTwice(procs0, mid, procs, p);
    }

    /** Sets the cursor of `p` to its lowest free number below `n`, or `n`. */
    method FindLow(p: nat, n: nat)
      requires Counted(sys, low, procs) && LowsBut(procs, p) && p in procs && n <= MAX_FD_PER_PROCESS
      requires n < MAX_FD_PER_PROCESS ==> procs[p].fds[n].None?
      modifies this`procs
      ensures Counted(sys, low, procs) && LowsOk(procs) && OthersKept(old(procs), procs, p)
      ensures procs[p].fds == old(procs)[p].fds
    {
      var i, lowest := n, n;
      while i > 0
        invariant 0 <= i <= lowest <= n && (lowest < MAX_FD_PER_PROCESS ==> procs[p].fds[lowest].None?)
        invariant forall k | i <= k < lowest :: procs[p].fds[k].Some?
      {
        i := i - 1;
        if procs[p].fds[i].None? { lowest := i; }
      }
      procs := procs[p := procs[p].(low := lowest)];
      SameTables(sys, low, old(procs), procs);
    }

    /** One number of fork's copy loop: the child's own descriptor gives way to the parent's. */
    method CopyOne(parent: nat, child: nat, i: nat)
      requires Counted(sys, low, procs) && NoIdle(sys) && parent in procs && child in procs && parent != child
      requires i < MAX_FD_PER_PROCESS
      modifies this
      ensures Counted(sys, low, procs) && NoIdle(sys) && NoneNew(old(sys), sys) && OthersKept(old(procs), procs, child)
      ensures procs[child].fds ==
                 old(procs)[child].fds[i := Inherited(old(procs)[parent].fds[i], old(procs)[child].fds[i])]
    {
      if procs[parent].fds[i].None? { return; }
      var fd := procs[parent].fds[i].value;
      Vacate(child, i);
      NamedHasCount(sys, low, procs, parent, i);
      assert TableOk(procs[parent]);
      Attach(child, i, fd.sys, fd.cloExec);
    }

    /** fork's copy of the parent's descriptors over the child's terminals. The cursor copied with them is right
        exactly if the child has nothing of its own at the parent's lowest free number. */
    method CopyDescriptors(parent: nat, child: nat)
      requires Valid() && parent in procs && child in procs && parent != child
      modifies this
      ensures Counted(sys, low, procs) && NoIdle(sys) && NoneNew(old(sys), sys) && OthersKept(old(procs), procs, child)
      ensures |procs[child].fds| == MAX_FD_PER_PROCESS && procs[child].low == old(procs)[parent].low
      ensures forall i | 0 <= i < MAX_FD_PER_PROCESS ::
        procs[child].fds[i] == Inherited(old(procs)[parent].fds[i], old(procs)[child].fds[i])
      ensures Valid() <==> var n := old(procs)[parent].low; n == MAX_FD_PER_PROCESS || old(procs)[child].fds[n].None?
    {
      var i := 0;
      while i < MAX_FD_PER_PROCESS
        invariant i <= MAX_FD_PER_PROCESS && Counted(sys, low, procs) && NoIdle(sys)
        invariant NoneNew(old(sys), sys) && CopiedTo(old(procs), procs, parent, child, i)
      {
        ghost var mid := procs;
        CopyOne(parent, child, i);
        CopyStep(old(procs), mid, procs, parent, child, i);
        i := i + 1;
      }
      SetLow(child, procs[parent].low);
      LowCopied(old(procs), procs, parent, child);
    }

    method SetLow(p: nat, n: nat)
      requires Counted(sys, low, procs) && p in procs
      modifies this`procs
      ensures Counted(sys, low, procs) && procs == old(procs)[p := Table(old(procs)[p].fds, n)]
    {
      procs := procs[p := procs[p].(low := n)];
      SameTables(sys, low, old(procs), procs);
    }

    /** One number of execve's transfer loop: closed if marked close-on-exec, else moved over whatever `q` has
        there. */
    method MoveOne(p: nat, q: nat, i: nat)
      requires Counted(sys, low, procs) && NoIdle(sys) && p in procs && q in procs && p != q && i < MAX_FD_PER_PROCESS
      modifies this
      ensures Counted(sys, low, procs) && NoIdle(sys) && NoneNew(old(sys), sys) && PairKept(old(procs), procs, p, q)
      ensures procs[p].fds == old(procs)[p].fds[i := None]
      ensures procs[q].fds == old(procs)[q].fds[i := Transferred(old(procs)[p].fds[i], old(procs)[q].fds[i])]
    {
      if procs[p].fds[i].None? { return; }
      if procs[p].fds[i].value.cloExec {
        Vacate(p, i);
        return;
      }
      Vacate(q, i);
      MoveCounts(sys, low, procs, p, q, i);
      procs := Put(procs, q, i, procs[p].fds[i]);
      procs := Put(procs, p, i, None);
    }

    /** execve: `q` takes over every descriptor of `p` not marked close-on-exec, keeps its terminals elsewhere, and
        `p` goes. Entry counts change only for what was closed. */
    method ExecveTransfer(p: nat, q: nat)
      requires Valid() && p in procs && q in procs && p != q
      modifies this
      ensures Valid() && NoneNew(old(sys), sys) && OthersKept(old(procs) - {p}, procs, q)
      ensures forall i | 0 <= i < MAX_FD_PER_PROCESS && old(procs)[p].fds[i].Some? ::
                procs[q].fds[i] == if old(procs)[p].fds[i].value.cloExec then old(procs)[q].fds[i]
                                   else old(procs)[p].fds[i]
      ensures forall i | 0 <= i < MAX_FD_PER_PROCESS && old(procs)[p].fds[i].None? ::
                procs[q].fds[i] == old(procs)[q].fds[i]
      // an open file that only marked descriptors name is closed
      ensures forall j | 0 <= j < MAX_FD && OnlyMarked(old(procs), p, j) :: sys[j].None?
    {
      var i := 0;
      while i < MAX_FD_PER_PROCESS
        invariant i <= MAX_FD_PER_PROCESS && Counted(sys, low, procs) && NoIdle(sys) && NoneNew(old(sys), sys)
        invariant MovedTo(old(procs), procs, p, q, i)
      {
        ghost var mid := procs;
        MoveOne(p, q, i);
        MoveStep(old(procs), mid, procs, p, q, i);
        i := i + 1;
      }
      ghost var mid := procs;
      AllMoved(old(procs), mid, p, q);
      Retire(p, q);
      Retired(old(procs), mid, procs, p, q);
      forall j | 0 <= j < MAX_FD && OnlyMarked(old(procs), p, j) ensures sys[j].None? {
        MarkedGone(old(procs), procs, p, q, j);
        ExistsIffNamed(sys, low, procs, j);
      }
    }

    /** The old process, now without descriptors, goes; the cursor of the new one is found afresh. */
    method Retire(p: nat, q: nat)
      requires Counted(sys, low, procs) && NoIdle(sys) && p in procs && q in procs && p != q
      requires forall k | k in procs && k != p && k != q :: LowOk(procs[k].fds, procs[k].low)
      requires forall k | 0 <= k < MAX_FD_PER_PROCESS :: procs[p].fds[k].None?
      modifies this`procs
      ensures Valid() && OthersKept(old(procs) - {p}, procs, q) && procs[q].fds == old(procs)[q].fds
    {
      EmptyTable(sys, low, procs, procs - {p}, p);
      procs := procs - {p};
      FindLow(q, MAX_FD_PER_PROCESS);
    }

    /** `pre_free` and deletion: every descriptor of `p` is closed. */
    method Exit(p: nat)
      requires Valid() && p in procs
      modifies this
      ensures Valid() && NoneNew(old(sys), sys) && procs == old(procs) - {p}
    {
      var i := 0;
      while i < MAX_FD_PER_PROCESS
        invariant i <= MAX_FD_PER_PROCESS && Counted(sys, low, procs) && NoIdle(sys) && LowsBut(procs, p)
        invariant NoneNew(old(sys), sys) && OthersKept(old(procs), procs, p)
        invariant forall k | 0 <= k < i :: procs[p].fds[k].None?
      {
        ghost var mid := procs;
        Vacate(p, i);
        KeptTwice(old(procs), mid, procs, p);
        i := i + 1;
      }
      EmptyTable(sys, low, procs, procs - {p}, p);
      procs := procs - {p};
    }

    /** fork. The child has its parent's descriptors, and at numbers its parent has closed those of its own
        terminals for which there was room. Its cursor, its parent's, is right if and only if the parent's lowest free
        number is no terminal's, or there was no room for that terminal. */
    method Fork(parent: nat, child: nat, terminals: seq<int>)
      requires Valid() && parent in procs && child !in procs && |terminals| == 3
      modifies this
      ensures Counted(sys, low, procs) && NoIdle(sys) && child in procs && procs == old(procs)[child := procs[child]]
      ensures forall i | 0 <= i < MAX_FD_PER_PROCESS && old(procs)[parent].fds[i].Some? ::
                procs[child].fds[i] == old(procs)[parent].fds[i]
      ensures forall i | 0 <= i < MAX_FD_PER_PROCESS && old(procs)[parent].fds[i].None? ::
                procs[child].fds[i].Some? <==> i < 3 && i < Room(old(sys))
      ensures procs[child].low == old(procs)[parent].low
      ensures Valid() <==> procs[child].low >= 3 || Room(old(sys)) <= procs[child].low
    {
      NewProcess(child, terminals);
      ghost var mid := procs;
      assert LowOk(procs[parent].fds, procs[parent].low);
      CopyDescriptors(parent, child);
      KeptTwice(old(procs), mid, procs, child);
    }

    /** With 0 to 2 open the child has exactly its parent's descriptors. */
    method ForkOpen(parent: nat, child: nat, terminals: seq<int>)
      requires Valid() && parent in procs && child !in procs && |terminals| == 3 && procs[parent].low >= 3
      modifies this
      ensures Valid() && child in procs && procs == old(procs)[child := procs[child]]
      ensures procs[child] == old(procs)[parent]
    {
      assert LowOk(procs[parent].fds, procs[parent].low);
      Fork(parent, child, terminals);
      assert TableOk(procs[child]) && TableOk(old(procs)[parent]);
      assert procs[child].fds == old(procs)[parent].fds;
    }

    /** execve: a new process takes over from `p`. A descriptor marked close-on-exec does not pass; where `p` has
        none to pass on, the new process has at most a terminal of its own, and it has no marked descriptor. */
    method Execve(p: nat, q: nat, terminals: seq<int>)
      requires Valid() && p in procs && q !in procs && |terminals| == 3
      modifies this
      ensures Valid() && q in procs && p !in procs && procs == (old(procs) - {p})[q := procs[q]]
      ensures forall i | 0 <= i < MAX_FD_PER_PROCESS && Passes(old(procs)[p].fds[i]) ::
                procs[q].fds[i] == old(procs)[p].fds[i]
      ensures forall i | 0 <= i < MAX_FD_PER_PROCESS && !Passes(old(procs)[p].fds[i]) ::
                procs[q].fds[i].Some? <==> i < 3 && i < Room(old(sys))
      ensures forall i | 0 <= i < MAX_FD_PER_PROCESS && procs[q].fds[i].Some? :: !procs[q].fds[i].value.cloExec
      ensures forall j | 0 <= j < MAX_FD && old(sys)[j].Some? && OnlyMarked(old(procs), p, j) :: sys[j].None?
    {
      assert TableOk(procs[p]);
      NewProcess(q, terminals);
      ghost var mid := procs;
      forall j | 0 <= j < MAX_FD && old(sys)[j].Some? && OnlyMarked(old(procs), p, j)
        ensures OnlyMarked(mid, p, j)
      {
        TerminalsApart(old(procs), mid, q, old(sys), sys, p, j);
      }
      ExecveTransfer(p, q);
    }

    /** fcntl with F_SETFD: the mark of an open number becomes the lowest bit of the flags; nothing else changes. */
    method SetCloseOnExec(p: nat, fd: int, flags: int) returns (ok: bool)
      requires Valid() && p in procs
      modifies this`procs
      ensures Valid() && OthersKept(old(procs), procs, p)
      ensures ok == (0 <= fd < MAX_FD_PER_PROCESS && old(procs)[p].fds[fd].Some?)
      ensures !ok ==> procs == old(procs)
      ensures procs[p].low == old(procs)[p].low
      ensures ok ==> var was := old(procs)[p].fds;
                     procs[p].fds == was[fd := Some(Fd(fd, was[fd].value.sys, flags % 2 == 1))]
    {
      assert TableOk(procs[p]);
      ok := 0 <= fd < MAX_FD_PER_PROCESS && procs[p].fds[fd].Some?;
      if ok {
        var marked := procs[p].fds[fd].value.(cloExec := flags % 2 == 1);
        MarkCounts(sys, low, procs, p, fd, marked);
        procs := Put(procs, p, fd, Some(marked));
      }
    }

    ghost function Now(): Snapshot
      reads this
    {
      Snapshot(sys, low, procs)
    }

    /** A request for one process's numbers. */
    method NumberStep(op: Op)
      requires Valid() && (op.Open? || op.Close? || op.Dup? || op.Dup2? || op.Pipe? || op.SetCloseOnExec?)
      requires op.p in procs && (op.Open? ==> low < MAX_FD) && (op.Dup2? ==> op.newfd < MAX_FD_PER_PROCESS)
      modifies this
      ensures Valid() && Did(op, old(Now()), Now())
    {
      match op
      case Open(p, file) => OpenStep(p, file);
      case Close(p, fd) => CloseStep(p, fd);
      case Dup(p, fd) => DupStep(p, fd);
      case Dup2(p, fd, newfd) => Dup2Step(p, fd, newfd);
      case Pipe(p, reader, writer) => PipeStep(p, reader, writer);
      case SetCloseOnExec(p, fd, flags) => MarkStep(p, fd, flags);
    }

    method OpenStep(p: nat, file: Option<int>)
      requires Valid() && p in procs && low < MAX_FD
      modifies this
      ensures Valid() && Did(Op.Open(p, file), old(Now()), Now())
    {
      ghost var s := Now();
      assert TableOk(procs[p]) && LowOk(procs[p].fds, procs[p].low);
      var r := this.Open(p, file);
      if r.Some? { BecomesOne(s, Now(), p, r.value, Some(Fd(r.value, s.low, false))); }
    }

    method CloseStep(p: nat, fd: int)
      requires Valid() && p in procs
      modifies this
      ensures Valid() && Did(Op.Close(p, fd), old(Now()), Now())
    {
      ghost var s := Now();
      assert TableOk(procs[p]);
      var ok := this.Close(p, fd);
      if ok { BecomesOne(s, Now(), p, fd, None); } else { SameAgain(s, Now(), p); }
    }

    method DupStep(p: nat, fd: int)
      requires Valid() && p in procs
      modifies this
      ensures Valid() && Did(Op.Dup(p, fd), old(Now()), Now())
    {
      ghost var s := Now();
      assert TableOk(procs[p]) && LowOk(procs[p].fds, procs[p].low);
      var r := this.Dup(p, fd);
      if r.Some? { BecomesOne(s, Now(), p, r.value, Some(Fd(r.value, s.At(p, fd).value.sys, false))); }
    }

    method Dup2Step(p: nat, fd: int, newfd: nat)
      requires Valid() && p in procs && newfd < MAX_FD_PER_PROCESS
      modifies this
      ensures Valid() && Did(Op.Dup2(p, fd, newfd), old(Now()), Now())
    {
      ghost var s := Now();
      assert TableOk(procs[p]);
      var ok := this.Dup2(p, fd, newfd);
      if ok && fd != newfd {
        BecomesOne(s, Now(), p, newfd, Some(Fd(newfd, s.At(p, fd).value.sys, false)));
      } else {
        SameAgain(s, Now(), p);
      }
    }

    method MarkStep(p: nat, fd: int, flags: int)
      requires Valid() && p in procs
      modifies this
      ensures Valid() && Did(Op.SetCloseOnExec(p, fd, flags), old(Now()), Now())
    {
      ghost var s := Now();
      assert TableOk(procs[p]);
      var ok := this.SetCloseOnExec(p, fd, flags);
      if ok { BecomesOne(s, Now(), p, fd, Some(s.At(p, fd).value.(cloExec := flags % 2 == 1))); }
    }

    method PipeStep(p: nat, reader: int, writer: int)
      requires Valid() && p in procs
      modifies this
      ensures Valid() && Did(Op.Pipe(p, reader, writer), old(Now()), Now())
    {
      ghost var s := Now();
      assert TableOk(procs[p]);
      var r := this.Pipe(p, reader, writer);
      assert TableOk(procs[p]);
      if r.Some? { assert PipeMade(s, Now(), p, r.value.0, r.value.1, reader, writer); }
    }

    /** A request that makes or ends a process. */
    method ProcessStep(op: Op)
      requires Valid() && (op.Start? || op.Fork? || op.Execve? || op.Exit?)
      modifies this
      ensures Valid() && Did(op, old(Now()), Now())
    {
      match op
      case Start(p, terminals) =>
        if p !in procs && |terminals| == 3 {
          NewProcess(p, terminals);
          assert TableOk(procs[p]);
        }
      case Fork(parent, child, terminals) =>
        if parent in procs && child !in procs && |terminals| == 3 && procs[parent].low >= 3 {
          ForkOpen(parent, child, terminals);
        }
      case Execve(p, q, terminals) =>
        if p in procs && q !in procs && |terminals| == 3 {
          assert TableOk(procs[p]);
          this.Execve(p, q, terminals);
          assert TableOk(procs[q]);
        }
      case Exit(p) => if p in procs { this.Exit(p); }
    }

    /** One request, if it can be made at all. */
    method Step(op: Op)
      requires Valid()
      modifies this
      ensures Valid() && Did(op, old(Now()), Now())
    {
      if op.Start? || op.Fork? || op.Execve? || op.Exit? {
        ProcessStep(op);
      } else if op.p in procs && (op.Open? ==> low < MAX_FD) && (op.Dup2? ==> op.newfd < MAX_FD_PER_PROCESS) {
        NumberStep(op);
      }
    }

    /** Over every run, each request does what it should, each count is the number of descriptors naming the entry,
        and an entry exists exactly while one does. */
    method Run(ops: seq<Op>) returns (ghost states: seq<Snapshot>)
      requires Valid()
      modifies this
      ensures Valid() && |states| == |ops| + 1 && states[0] == old(Now()) && states[|ops|] == Now()
      ensures forall i | 0 <= i < |ops| :: Did(ops[i], states[i], states[i + 1])
      ensures forall j | 0 <= j < MAX_FD :: sys[j].Some? <==> Names(procs, j) != {}
      ensures forall j | 0 <= j < MAX_FD && sys[j].Some? :: sys[j].value.rc == |Names(procs, j)|
    {
      states := [Now()];
      for i := 0 to |ops|
        invariant Valid() && |states| == i + 1 && states[0] == old(Now()) && states[i] == Now()
        invariant forall j | 0 <= j < i :: Did(ops[j], states[j], states[j + 1])
      {
        Step(ops[i]);
        states := states + [Now()];
      }
      forall j | 0 <= j < MAX_FD ensures EntryOk(sys, procs, j) && (sys[j].Some? <==> Names(procs, j) != {}) {
        ExistsIffNamed(sys, low, procs, j);
      }
    }
  }

  /** The failing fork: a process that has closed its standard input forks, and the child's cursor is on a number
      that is in use, which stops the kernel at the child's next open. */
  method ForkWithoutInput(terminals: seq<int>) returns (files: Files)
    requires |terminals| == 3
    ensures fresh(files) && !files.Valid() && 2 in files.procs && |files.procs[2].fds| == MAX_FD_PER_PROCESS
    ensures files.procs[2].low == 0 && files.procs[2].fds[0].Some?
  {
    files := new Files();
    files.NewProcess(1, terminals);
    ghost var sys := files.sys;
    var _ := files.Close(1, 0);
    RoomGrows(sys, files.sys);
    assert LowOk(files.procs[1].fds, files.procs[1].low);
    files.Fork(1, 2, terminals);
    assert TableOk(files.procs[2]);
  }

  datatype Op =
    | Start(p: nat, terminals: seq<int>)
    | Open(p: nat, file: Option<int>)
    | Close(p: nat, fd: int)
    | Dup(p: nat, fd: int)
    | Dup2(p: nat, fd: int, newfd: nat)
    | Pipe(p: nat, reader: int, writer: int)
    | Fork(parent: nat, child: nat, terminals: seq<int>)
    | Execve(p: nat, q: nat, terminals: seq<int>)
    | Exit(p: nat)
    | SetCloseOnExec(p: nat, fd: int, flags: int)

  /** The tables at one moment. */
  datatype Snapshot = Snapshot(sys: seq<Option<Entry>>, low: int, procs: map<nat, Table>) {
    /** What number `i` of process `p` names, if it is open. */
    function At(p: nat, i: int): Option<Fd> {
      if p in procs && 0 <= i < |procs[p].fds| then procs[p].fds[i] else None
    }

    predicate FullFor(p: nat) { p !in procs || procs[p].low == MAX_FD_PER_PROCESS }
  }

  ghost predicate SameNumbers(s: Snapshot, s': Snapshot) {
    s'.procs.Keys == s.procs.Keys && forall p, i :: s'.At(p, i) == s.At(p, i)
  }

  /** Number `n` of process `p` is `v` now, and no other number of any process has changed. */
  ghost predicate Becomes(s: Snapshot, s': Snapshot, p: nat, n: int, v: Option<Fd>) {
    && s'.procs.Keys == s.procs.Keys && s'.At(p, n) == v
    && forall q, i | q != p || i != n :: s'.At(q, i) == s.At(q, i)
  }

  /** What a request should do. */
  ghost predicate Did(op: Op, s: Snapshot, s': Snapshot) {
    match op
    case Start(p, terminals) =>
      if p in s.procs || |terminals| != 3 then s' == s
      else
        && OthersKept(s.procs, s'.procs, p)
        && forall i :: s'.At(p, i).Some? <==> 0 <= i < 3 && i < Room(s.sys)
    case Open(p, file) =>
      if s.FullFor(p) || s.low == MAX_FD || file.None? then SameNumbers(s, s')
      else
        && 0 <= s.low < |s'.sys| && s'.sys[s.low] == Some(Entry(file.value, 1))
        && Becomes(s, s', p, s.procs[p].low, Some(Fd(s.procs[p].low, s.low, false)))
    case Close(p, fd) => if s.At(p, fd).None? then SameNumbers(s, s') else Becomes(s, s', p, fd, None)
    case Dup(p, fd) =>
      if s.At(p, fd).None? || s.FullFor(p) then SameNumbers(s, s')
      else Becomes(s, s', p, s.procs[p].low, Some(Fd(s.procs[p].low, s.At(p, fd).value.sys, false)))
    case Dup2(p, fd, newfd) =>
      if s.At(p, fd).None? || newfd >= MAX_FD_PER_PROCESS || fd == newfd then SameNumbers(s, s')
      else Becomes(s, s', p, newfd, Some(Fd(newfd, s.At(p, fd).value.sys, false)))
    case Pipe(p, reader, writer) =>
      if p !in s.procs || LacksTwo(s.procs[p].fds) || LacksTwo(s.sys) then SameNumbers(s, s')
      else exists a, b :: PipeMade(s, s', p, a, b, reader, writer)
    case Fork(parent, child, terminals) =>
      if parent !in s.procs || child in s.procs || |terminals| != 3 || s.procs[parent].low < 3 then s' == s
      else s'.procs == s.procs[child := s.procs[parent]]
    case Execve(p, q, terminals) =>
      if p !in s.procs || q in s.procs || |terminals| != 3 then s' == s
      else
        && q in s'.procs && s'.procs == (s.procs - {p})[q := s'.procs[q]]
        && forall i | 0 <= i < MAX_FD_PER_PROCESS ::
             if Passes(s.At(p, i)) then s'.At(q, i) == s.At(p, i)
             else s'.At(q, i).Some? ==> i < 3 && !s'.At(q, i).value.cloExec
    case Exit(p) => s'.procs == s.procs - {p}
    case SetCloseOnExec(p, fd, flags) =>
      if s.At(p, fd).None? then SameNumbers(s, s')
      else Becomes(s, s', p, fd, Some(s.At(p, fd).value.(cloExec := flags % 2 == 1)))
  }

  /** Two numbers that were free, the lowest ones, name the ends of a new pipe. */
  ghost predicate PipeMade(s: Snapshot, s': Snapshot, p: nat, a: nat, b: nat, reader: int, writer: int) {
    && s'.procs.Keys == s.procs.Keys && a < b
    && (forall i | 0 <= i < b :: s.At(p, i).None? <==> i == a) && s.At(p, b).None?
    && NamesNew(s.sys, s'.sys, s'.At(p, a), reader) && NamesNew(s.sys, s'.sys, s'.At(p, b), writer)
    && forall q, i | q != p || (i != a && i != b) :: s'.At(q, i) == s.At(q, i)
  }

  lemma BecomesOne(s: Snapshot, s': Snapshot, p: nat, n: nat, v: Option<Fd>)
    requires OthersKept(s.procs, s'.procs, p) && p in s.procs && n < |s.procs[p].fds|
    requires s'.procs[p].fds == s.procs[p].fds[n := v]
    ensures Becomes(s, s', p, n, v)
  {
  }

  lemma SameAgain(s: Snapshot, s': Snapshot, p: nat)
    requires p in s.procs && OthersKept(s.procs, s'.procs, p) && s'.procs[p].fds == s.procs[p].fds
    ensures SameNumbers(s, s')
  {
  }

  /** Open, and not to be closed on exec. */
  predicate Passes(fd: Option<Fd>) { fd.Some? && !fd.value.cloExec }

  /** Every descriptor that names entry `j` is one of `p` marked close-on-exec. */
  ghost predicate OnlyMarked(procs: map<nat, Table>, p: nat, j: nat) {
    forall x: Slot | NamedBy(procs, x, j) :: x.proc == p && procs[p].fds[x.fd].value.cloExec
  }

  lemma MarkedGone(was: map<nat, Table>, procs: map<nat, Table>, p: nat, q: nat, j: nat)
    requires OnlyMarked(was, p, j) && p in was && q in was && p != q && OthersKept(was - {p}, procs, q)
    requires |was[p].fds| == |was[q].fds| == |procs[q].fds| == MAX_FD_PER_PROCESS
    requires forall i | 0 <= i < MAX_FD_PER_PROCESS ::
               procs[q].fds[i] == if Passes(was[p].fds[i]) then was[p].fds[i] else was[q].fds[i]
    ensures Names(procs, j) == {}
  {
    forall x: Slot ensures !NamedBy(procs, x, j) {
      assert NamedBy(was, x, j) ==> x.proc == p;
      assert NamedBy(was, Slot(p, x.fd), j) ==> was[p].fds[x.fd].value.cloExec;
    }
    forall x: Slot ensures x !in Names(procs, j) { NamesIff(procs, j, x); }
  }

  /** A new process's terminals are entries that were not there. */
  lemma TerminalsApart(was: map<nat, Table>, procs: map<nat, Table>, q: nat, sys: seq<Option<Entry>>,
                       sys': seq<Option<Entry>>, p: nat, j: nat)
    requires OnlyMarked(was, p, j) && p in was && q !in was && OthersKept(was, procs, q) && j < |sys| && sys[j].Some?
    requires forall i | 0 <= i < |procs[q].fds| && procs[q].fds[i].Some? ::
               procs[q].fds[i].value.sys < |sys| && sys[procs[q].fds[i].value.sys].None?
    ensures OnlyMarked(procs, p, j)
  {
    forall x: Slot | NamedBy(procs, x, j) ensures x.proc == p && procs[p].fds[x.fd].value.cloExec {
      assert NamedBy(was, x, j);
    }
  }

  /** The mark does not matter to the counts. */
  lemma MarkCounts(sys: seq<Option<Entry>>, low: int, procs: map<nat, Table>, p: nat, i: nat, fd: Fd)
    requires Counted(sys, low, procs) && p in procs && i < MAX_FD_PER_PROCESS && procs[p].fds[i].Some?
    requires fd == procs[p].fds[i].value.(cloExec := fd.cloExec)
    ensures Counted(sys, low, Put(procs, p, i, Some(fd)))
  {
    var procs' := Put(procs, p, i, Some(fd));
    assert TableOk(procs[p]);
    forall j | 0 <= j < MAX_FD ensures EntryOk(sys, procs', j) {
      assert EntryOk(sys, procs, j);
      forall x: Slot ensures x in Names(procs', j) <==> x in Names(procs, j) {
        NamesIff(procs, j, x);
        NamesIff(procs', j, x);
      }
      assert Names(procs', j) == Names(procs, j);
    }
  }

  /** What a child has at a number: the parent's descriptor, or else its own. */
  function Inherited(parents: Option<Fd>, own: Option<Fd>): Option<Fd> {
    if parents.Some? then parents else own
  }

  /** What the replacement has at a number: the old process's descriptor unless that closes on exec, or else its
      own. */
  function Transferred(old': Option<Fd>, own: Option<Fd>): Option<Fd> {
    if old'.Some? && !old'.value.cloExec then old' else own
  }

  /** The first `i` numbers of `parent` have been copied to `child`. */
  ghost predicate CopiedTo(was: map<nat, Table>, procs: map<nat, Table>, parent: nat, child: nat, i: nat) {
    && parent in was && child in was && OthersKept(was, procs, child)
    && |was[parent].fds| == |was[child].fds| == |procs[child].fds| == MAX_FD_PER_PROCESS
    && forall k | 0 <= k < MAX_FD_PER_PROCESS ::
         procs[child].fds[k] == if k < i then Inherited(was[parent].fds[k], was[child].fds[k]) else was[child].fds[k]
  }

  lemma CopyStep(was: map<nat, Table>, mid: map<nat, Table>, procs: map<nat, Table>, parent: nat, child: nat, i: nat)
    requires parent != child && i < MAX_FD_PER_PROCESS && CopiedTo(was, mid, parent, child, i)
    requires OthersKept(mid, procs, child)
    requires procs[child].fds == mid[child].fds[i := Inherited(mid[parent].fds[i], mid[child].fds[i])]
    ensures CopiedTo(was, procs, parent, child, i + 1)
  {
    KeptTwice(was, mid, procs, child);
  }

  ghost predicate PairKept(procs: map<nat, Table>, procs': map<nat, Table>, p: nat, q: nat) {
    p in procs' && q in procs' && procs' == procs[p := procs'[p]][q := procs'[q]]
  }

  /** The first `i` numbers have been transferred from `p` to `q`. */
  ghost predicate MovedTo(was: map<nat, Table>, procs: map<nat, Table>, p: nat, q: nat, i: nat) {
    && p in was && q in was && PairKept(was, procs, p, q)
    && |was[p].fds| == |was[q].fds| == |procs[p].fds| == |procs[q].fds| == MAX_FD_PER_PROCESS
    && (forall k | 0 <= k < MAX_FD_PER_PROCESS ::
          procs[q].fds[k] == if k < i then Transferred(was[p].fds[k], was[q].fds[k]) else was[q].fds[k])
    && (forall k | 0 <= k < MAX_FD_PER_PROCESS :: procs[p].fds[k] == if k < i then None else was[p].fds[k])
  }

  lemma MoveStep(was: map<nat, Table>, mid: map<nat, Table>, procs: map<nat, Table>, p: nat, q: nat, i: nat)
    requires p != q && i < MAX_FD_PER_PROCESS && MovedTo(was, mid, p, q, i) && PairKept(mid, procs, p, q)
    requires procs[p].fds == mid[p].fds[i := None]
    requires procs[q].fds == mid[q].fds[i := Transferred(mid[p].fds[i], mid[q].fds[i])]
    ensures MovedTo(was, procs, p, q, i + 1)
  {
    PairTwice(was, mid, procs, p, q);
  }

  lemma AllMoved(was: map<nat, Table>, procs: map<nat, Table>, p: nat, q: nat)
    requires p != q && MovedTo(was, procs, p, q, MAX_FD_PER_PROCESS) && LowsOk(was)
    ensures forall k | k in procs && k != p && k != q :: LowOk(procs[k].fds, procs[k].low)
    ensures forall k | 0 <= k < MAX_FD_PER_PROCESS :: procs[p].fds[k].None?
  {
  }

  lemma Retired(was: map<nat, Table>, mid: map<nat, Table>, procs: map<nat, Table>, p: nat, q: nat)
    requires p != q && MovedTo(was, mid, p, q, MAX_FD_PER_PROCESS)
    requires OthersKept(mid - {p}, procs, q) && procs[q].fds == mid[q].fds
    ensures OthersKept(was - {p}, procs, q)
    ensures forall i | 0 <= i < MAX_FD_PER_PROCESS :: procs[q].fds[i] == Transferred(was[p].fds[i], was[q].fds[i])
  {
  }

  lemma PairTwice(procs: map<nat, Table>, mid: map<nat, Table>, procs': map<nat, Table>, p: nat, q: nat)
    requires p != q && PairKept(procs, mid, p, q) && PairKept(mid, procs', p, q)
    ensures PairKept(procs, procs', p, q)
  {
  }

  lemma LowCopied(was: map<nat, Table>, procs: map<nat, Table>, parent: nat, child: nat)
    requires LowsOk(was) && parent in was && child in was && parent != child && OthersKept(was, procs, child)
    requires |was[parent].fds| == |was[child].fds| == |procs[child].fds| == MAX_FD_PER_PROCESS
    requires forall i | 0 <= i < MAX_FD_PER_PROCESS ::
               procs[child].fds[i] == Inherited(was[parent].fds[i], was[child].fds[i])
    requires procs[child].low == was[parent].low
    ensures LowsOk(procs) <==> var n := was[parent].low; n == MAX_FD_PER_PROCESS || was[child].fds[n].None?
  {
  }

  /** A process without descriptors comes or goes. */
  lemma EmptyTable(sys: seq<Option<Entry>>, low: int, procs: map<nat, Table>, procs': map<nat, Table>, p: nat)
    requires Counted(sys, low, procs) && procs' - {p} == procs - {p}
    requires p in procs ==> forall i | 0 <= i < |procs[p].fds| :: procs[p].fds[i].None?
    requires p in procs' ==>
               |procs'[p].fds| == MAX_FD_PER_PROCESS && forall i | 0 <= i < |procs'[p].fds| :: procs'[p].fds[i].None?
    ensures Counted(sys, low, procs')
  {
    forall q | q != p ensures (q in procs <==> q in procs') && (q in procs ==> procs'[q] == procs[q]) {
      assert q in procs - {p} <==> q in procs' - {p};
      if q in procs { assert (procs' - {p})[q] == (procs - {p})[q]; }
    }
    forall j | 0 <= j < MAX_FD ensures EntryOk(sys, procs', j) {
      assert EntryOk(sys, procs, j);
      EmptyNames(procs, procs', p, j);
    }
  }

  /** The descriptor names a new entry, alone. */
  ghost predicate NamesNew(was: seq<Option<Entry>>, sys: seq<Option<Entry>>, fd: Option<Fd>, file: int) {
    && fd.Some? && fd.value.sys < |was| && fd.value.sys < |sys|
    && was[fd.value.sys].None? && sys[fd.value.sys] == Some(Entry(file, 1))
  }

  /** Counts do not depend on the cursors of the processes. */
  lemma SameTables(sys: seq<Option<Entry>>, low: int, procs: map<nat, Table>, procs': map<nat, Table>)
    requires Counted(sys, low, procs) && procs.Keys == procs'.Keys
    requires forall p {:trigger procs'[p]} | p in procs :: procs'[p].fds == procs[p].fds
    ensures Counted(sys, low, procs')
  {
    forall j | 0 <= j < MAX_FD ensures EntryOk(sys, procs', j) {
      assert EntryOk(sys, procs, j);
      forall x: Slot ensures NamedBy(procs', x, j) == NamedBy(procs, x, j) {
        if x.proc in procs { assert procs'[x.proc].fds == procs[x.proc].fds; }
      }
      forall x: Slot ensures x in Names(procs', j) <==> x in Names(procs, j) {
        NamesIff(procs, j, x);
        NamesIff(procs', j, x);
      }
      assert Names(procs', j) == Names(procs, j);
    }
  }
}
