/** The kernel's page frames, the processes' page tables, and the faults that materialise shared and lazy pages. */
module Paging {
  import opened Basics
  import opened PageEntries
  import opened PageSearch

  /** Start-up clears the counts of the frames below this one; of those above, some are left as memory had them. */
  const COUNTED: nat := 767 * 1024

  /** The free frames whose counts start-up has cleared. */
  ghost function FreeFrames(frameToPage: seq<int>): set<nat> {
    set f: nat | f < |frameToPage| && f < COUNTED && frameToPage[f] == -1
  }

  /** Frames given to processes stay marked used, free frames that start-up cleared have count zero, and no frame
      below the cursor is free. */
  ghost predicate FramesOk(rc: seq<nat>, frameToPage: seq<int>, low: nat, user: set<nat>) {
    && |rc| == FRAMES && |frameToPage| == FRAMES && low <= FRAMES
    && frameToPage[0] != -1
    && (forall f | f in user :: f < FRAMES && frameToPage[f] != -1)
    && (forall f: nat | f < COUNTED && frameToPage[f] == -1 :: rc[f] == 0)
    && (forall f: nat | f < low :: frameToPage[f] != -1)
  }

  ghost predicate PagesOk(memory: seq<Page>) {
    |memory| == FRAMES && forall p | p in memory :: |p| == PAGE_SIZE
  }

  /** Changing counts of used frames only keeps the frame table sound. */
  lemma RecountFrames(pt: Tables, rc: seq<nat>, frameToPage: seq<int>, low: nat, user: set<nat>, was: Pte, val: Pte)
    requires FramesOk(rc, frameToPage, low, user) && EntryOk(user, was) && EntryOk(user, val) && Counted(pt, rc, user)
    ensures FramesOk(Recount(rc, was, val), frameToPage, low, user)
  {
  }

  lemma TakenFrames(frameToPage: seq<int>, f: nat, page: nat)
    requires f < |frameToPage| && frameToPage[f] == -1
    ensures |FreeFrames(frameToPage[f := page])| == |FreeFrames(frameToPage)| - (if f < COUNTED then 1 else 0)
  {
    if f < COUNTED { assert f in FreeFrames(frameToPage); }
    assert FreeFrames(frameToPage[f := page]) == FreeFrames(frameToPage) - {f};
  }

  /** An entry that maps nothing, and a writable entry for an unmapped frame, both keep exclusivity. */
  lemma FreshKeeps(pt: Tables, k: Key, val: Pte)
    requires Exclusive(pt) && (val.Maps() ==> Mappers(pt, val.frame) <= {k})
    ensures Exclusive(pt[k := val])
  {
    forall j | j in pt && j != k && pt[j].Maps() && val.Maps() ensures pt[j].frame != val.frame {
      assert j !in Mappers(pt, val.frame);
    }
    ExclusiveUpdate(pt, k, val);
  }

  /** Adding a mapper. */
  lemma MapperAdded(pt: Tables, k: Key, val: Pte, f: nat)
    ensures Mappers(pt[k := val], f) <= Mappers(pt, f) + {k}
    ensures !val.MapsTo(f) ==> k !in Mappers(pt[k := val], f)
  {
  }

  /** What everyone sees once the copied page has replaced the shared one and the scratch mapping is gone. */
  lemma CowSeen(pt: Tables, memory: seq<Page>, k: Key, scratch: Key, val: Pte, j: Key)
    requires |memory| == FRAMES && k != scratch && val.Maps() && val.frame < FRAMES && val.write
    requires EntryAt(pt, k).Maps() && EntryAt(pt, k).frame < FRAMES && EntryAt(pt, k).cow
    requires EntryAt(pt, scratch).Maps() == false && !EntryAt(pt, scratch).lazy && Mappers(pt, val.frame) == {}
    ensures Sees(pt[scratch := EntryAt(pt, k)][k := val][scratch := ZERO],
                 memory[val.frame := memory[EntryAt(pt, k).frame]], j) == Sees(pt, memory, j)
  {
    assert j !in Mappers(pt, val.frame);
  }

  /** The same for a lazy page given a zeroed frame. */
  lemma LazySeen(pt: Tables, memory: seq<Page>, k: Key, val: Pte, j: Key)
    requires |memory| == FRAMES && val.Maps() && val.frame < FRAMES && val.write && Mappers(pt, val.frame) == {}
    requires !val.lazy
    ensures Sees(pt[k := val], memory[val.frame := ZeroPage()], j)
         == if j == k then Mapped(ZeroPage(), true) else Sees(pt, memory, j)
  {
    assert j !in Mappers(pt, val.frame);
  }

  lemma WriteKeepsPages(memory: seq<Page>, f: nat, p: Page)
    requires PagesOk(memory) && f < FRAMES && |p| == PAGE_SIZE
    ensures PagesOk(memory[f := p])
  {
  }

  /** Nobody maps a frame that was not given out. */
  lemma NobodyMaps(pt: Tables, user: set<nat>, f: nat)
    requires EntriesOk(pt, user) && f !in user
    ensures Mappers(pt, f) == {}
  {
    forall k | k in pt ensures !pt[k].MapsTo(f) { assert EntryOk(user, pt[k]); }
  }

  /** `init_frame_rc`: the counts `was` found in memory are cleared but for two ranges; in the upper of them each is
      set to whether the kernel page of that number is used, and in the lower one it is left alone. */
  method InitFrameRc(was: seq<nat>, used: seq<bool>) returns (rc: seq<nat>)
    requires |was| == |used| == FRAMES
    ensures |rc| == FRAMES
    ensures forall f: nat | f < COUNTED || 771 * 1024 <= f < FRAMES :: rc[f] == 0
    ensures forall f: nat | COUNTED <= f < 768 * 1024 :: rc[f] == was[f]
    ensures forall f: nat | 768 * 1024 <= f < 771 * 1024 :: rc[f] == if used[f] then 1 else 0
  {
    rc := seq(COUNTED, _ => 0) + was[COUNTED..771 * 1024] + seq(FRAMES - 771 * 1024, _ => 0);
    for f := 768 * 1024 to 771 * 1024
      invariant |rc| == FRAMES
      invariant forall h: nat | h < COUNTED || 771 * 1024 <= h < FRAMES :: rc[h] == 0
      invariant forall h: nat | COUNTED <= h < 768 * 1024 :: rc[h] == was[h]
      invariant forall h: nat | 768 * 1024 <= h < f :: rc[h] == if used[h] then 1 else 0
    {
      rc := rc[f := if used[f] then 1 else 0];
    }
  }

  /** Whatever memory held, the counts are such that frames can be given out; frame 0 is the kernel's. */
  method Boot(was: seq<nat>, used: seq<bool>, frameToPage: seq<int>, memory: seq<Page>) returns (kernel: Kernel)
    requires |was| == |used| == |frameToPage| == FRAMES && frameToPage[0] != -1 && PagesOk(memory)
    ensures fresh(kernel) && kernel.Valid() && kernel.pt == map[] && kernel.frameToPage == frameToPage
  {
    var rc := InitFrameRc(was, used);
    kernel := new Kernel(frameToPage, rc, memory);
  }

  class Kernel {
    var pt: Tables
    var rc: seq<nat>            // frame_rc
    var frameToPage: seq<int>   // -1 marks a free frame
    var lowestFreeFrame: nat
    var memory: seq<Page>       // contents, by frame
    ghost var user: set<nat>    // frames ever given to processes

    ghost predicate Valid()
      reads this
    {
      && EntriesOk(pt, user) && Counted(pt, rc, user) && Exclusive(pt)
      && FramesOk(rc, frameToPage, lowestFreeFrame, user)
      && PagesOk(memory)
    }

    /** The tables as start-up leaves them: the kernel's own frames, frame 0 among them, marked used, and the counts
        cleared below COUNTED. */
    constructor (frameToPage: seq<int>, rc: seq<nat>, memory: seq<Page>)
      requires FramesOk(rc, frameToPage, 0, {}) && rc[0] == 0 && PagesOk(memory)
      ensures Valid() && pt == map[] && user == {}
      ensures this.frameToPage == frameToPage && this.rc == rc && this.memory == memory
    {
      pt, lowestFreeFrame, user := map[], 0, {};
      this.frameToPage, this.rc, this.memory := frameToPage, rc, memory;
    }

    /** The lowest free frame, or FRAMES if none: never one that a process maps, and one with count zero as long as
        any frame that start-up cleared is left. */
    method GetFreeFrame() returns (f: nat)
      requires Valid()
      modifies this`lowestFreeFrame
      ensures Valid() && f == lowestFreeFrame
      ensures f == FRAMES <==> forall g: nat | g < FRAMES :: frameToPage[g] != -1
      ensures f < FRAMES ==> frameToPage[f] == -1 && f !in user && Mappers(pt, f) == {}
      ensures forall g: nat | g < FRAMES && frameToPage[g] == -1 :: f <= g
      ensures f < COUNTED <==> FreeFrames(frameToPage) != {}
      ensures f < COUNTED ==> rc[f] == 0
    {
      while lowestFreeFrame < FRAMES && frameToPage[lowestFreeFrame] != -1
        invariant Valid()
        decreases FRAMES - lowestFreeFrame
      {
        lowestFreeFrame := lowestFreeFrame + 1;
      }
      f := lowestFreeFrame;
      if f < COUNTED { assert f in FreeFrames(frameToPage); }
      if f < FRAMES { NobodyMaps(pt, user, f); }
    }

    /** `allocate_page`: the kernel's own mapping, at whichever of its pages is free, is the frame's first
        reference. A count other than zero stops the kernel; that cannot happen below COUNTED. */
    method AllocateFrame(f: nat)
      requires Valid() && f < FRAMES && frameToPage[f] == -1 && f !in user && (f >= COUNTED ==> rc[f] == 0)
      modifies this`rc, this`frameToPage, this`user
      ensures Valid() && user == old(user) + {f} && Mappers(pt, f) == {}
      ensures old(rc)[f] == 0 && rc == old(rc)[f := 1]
      ensures |FreeFrames(frameToPage)| == |FreeFrames(old(frameToPage))| - (if f < COUNTED then 1 else 0)
    {
      JoinCounts(pt, rc, user, f);
      var sysPe: nat :| sysPe < PAGES;
      TakenFrames(frameToPage, f, sysPe);
      frameToPage := frameToPage[f := sysPe];
      rc := rc[f := rc[f] + 1];
      user := user + {f};
    }

    /** Replaces one entry; a mapped frame always has a reference to lose. */
    method UpdatePte(k: Key, val: Pte)
      requires Valid() && EntryOk(user, val) && Exclusive(pt[k := val])
      modifies this`pt, this`rc
      ensures Valid() && pt == old(pt)[k := val]
      ensures EntryAt(old(pt), k).Maps() ==> old(rc)[EntryAt(old(pt), k).frame] > 0
    {
      UpdateCounts(pt, rc, user, k, val);
      RecountFrames(pt, rc, frameToPage, lowestFreeFrame, user, EntryAt(pt, k), val);
      rc := Recount(rc, EntryAt(pt, k), val);
      pt := pt[k := val];
    }

    /** Gives `k` a private writable copy. Nobody's view changes, and the old frame stays with whoever else maps it.
        The count read at the end is the new frame's, so nothing is freed there. */
    method HandleCow(k: Key)
      requires Valid() && EntryAt(pt, k).cow
      requires FreeFrames(frameToPage) != {} && HasSpare(pt, k.pid)
      modifies this
      ensures Valid() && EntryAt(pt, k).Maps() && EntryAt(pt, k).write
      ensures Mappers(pt, EntryAt(pt, k).frame) == {k} && rc[EntryAt(pt, k).frame] == 2
      ensures forall j :: Sees(pt, memory, j) == Sees(old(pt), old(memory), j)
      ensures |FreeFrames(frameToPage)| == |FreeFrames(old(frameToPage))| - 1
    {
      var frame := GetFreeFrame();
      assert EntryOk(user, EntryAt(pt, k));
      AllocateFrame(frame);
      var page: nat :| page < PAGES && !EntryAt(pt, Key(k.pid, page)).InUse();
      SwitchToCopy(k, Key(k.pid, page), EntryAt(pt, k).(frame := frame, cow := false, write := true));
    }

    /** Maps the old page at `scratch`, the new frame at `k`, copies, and unmaps `scratch`. */
    method SwitchToCopy(k: Key, scratch: Key, val: Pte)
      requires Valid() && EntryAt(pt, k).cow && k != scratch && !EntryAt(pt, scratch).InUse()
      requires EntryOk(user, val) && val.Maps() && val.write && Mappers(pt, val.frame) == {}
      modifies this`pt, this`rc, this`memory
      ensures Valid() && EntryAt(pt, k) == val
      ensures Mappers(pt, val.frame) == {k} && rc[val.frame] == 2
      ensures forall j :: Sees(pt, memory, j) == Sees(old(pt), old(memory), j)
    {
      ghost var pt0, m0 := pt, memory;
      var e := EntryAt(pt, k);
      assert EntryOk(user, e);
      ScratchExclusive(pt, k, scratch);
      UpdatePte(scratch, e);
      MapperAdded(pt0, scratch, e, val.frame);
      assert k !in Mappers(pt0, val.frame);
      assert Mappers(pt, val.frame) == {};
      FreshKeeps(pt, k, val);
      UpdatePte(k, val);
      CopyPage(k, scratch);
      FreshKeeps(pt, scratch, ZERO);
      UpdatePte(scratch, ZERO);
      forall j ensures Sees(pt, memory, j) == Sees(pt0, m0, j) { CowSeen(pt0, m0, k, scratch, val, j); }
      OneMapper(pt0, k, scratch, val);
      assert rc[val.frame] == 1 + |{k}|;
    }

    /** memcpy of one page through the tables. */
    method CopyPage(to: Key, from: Key)
      requires Valid() && EntryAt(pt, to).Maps() && EntryAt(pt, to).write && EntryAt(pt, from).Maps()
      modifies this`memory
      ensures Valid()
      ensures EntryAt(pt, to).frame < FRAMES && EntryAt(pt, from).frame < FRAMES
      ensures memory == old(memory)[EntryAt(pt, to).frame := old(memory)[EntryAt(pt, from).frame]]
    {
      assert EntryOk(user, EntryAt(pt, to)) && EntryOk(user, EntryAt(pt, from));
      var f, g := EntryAt(pt, to).frame, EntryAt(pt, from).frame;
      assert memory[g] in memory;
      WriteKeepsPages(memory, f, memory[g]);
      memory := memory[f := memory[g]];
    }

    /** A lazy page gets a frame of its own, zeroed and writable. */
    method HandleLazyZero(k: Key)
      requires Valid() && EntryAt(pt, k).lazy && FreeFrames(frameToPage) != {}
      modifies this
      ensures Valid() && EntryAt(pt, k).Maps() && EntryAt(pt, k).write
      ensures Mappers(pt, EntryAt(pt, k).frame) == {k} && rc[EntryAt(pt, k).frame] == 2
      ensures forall j ::
                Sees(pt, memory, j) == if j == k then Mapped(ZeroPage(), true) else Sees(old(pt), old(memory), j)
      ensures |FreeFrames(frameToPage)| == |FreeFrames(old(frameToPage))| - 1
    {
      var frame := GetFreeFrame();
      var e := EntryAt(pt, k);
      assert EntryOk(user, e);
      var val := Pte(frame, true, true, e.user, false, false, false);
      forall j ensures Sees(pt[k := val], memory[frame := ZeroPage()], j)
                    == if j == k then Mapped(ZeroPage(), true) else Sees(pt, memory, j)
      {
        LazySeen(pt, memory, k, val, j);
      }
      FreshKeeps(pt, k, val);
      AllocateFrame(frame);
      UpdateCounts(pt, rc, user, k, val);
      RecountFrames(pt, rc, frameToPage, lowestFreeFrame, user, e, val);
      WriteKeepsPages(memory, frame, ZeroPage());
      assert Mappers(pt[k := val], frame) == {k};
      pt := pt[k := val];
      memory := memory[frame := ZeroPage()];
      rc := rc[frame := rc[frame] + 1];
      assert rc[frame] == 1 + |{k}|;
    }

    /** True when the access can be retried: exactly for copy-on-write and lazy pages. */
    method PageFault(k: Key) returns (handled: bool)
      requires Valid() && FreeFrames(frameToPage) != {} && (EntryAt(pt, k).cow ==> HasSpare(pt, k.pid))
      modifies this
      ensures Valid() && |FreeFrames(frameToPage)| >= |FreeFrames(old(frameToPage))| - 1
      ensures handled == (EntryAt(old(pt), k).cow || EntryAt(old(pt), k).lazy)
      ensures handled ==> EntryAt(pt, k).Maps() && EntryAt(pt, k).write && Mappers(pt, EntryAt(pt, k).frame) == {k}
      ensures !handled ==> pt == old(pt) && memory == old(memory)
      ensures forall j :: Sees(pt, memory, j)
                       == if j == k && EntryAt(old(pt), k).lazy then Mapped(ZeroPage(), true)
                          else Sees(old(pt), old(memory), j)
    {
      var e := EntryAt(pt, k);
      assert EntryOk(user, e);
      handled := false;
      if e.cow {
        HandleCow(k);
        handled := true;
      }
      if !e.lazy { return; }
      HandleLazyZero(k);
      handled := true;
    }

    /** A write to a present writable entry reaches its frame. */
    method Poke(k: Key, off: nat, v: int)
      requires Valid() && off < PAGE_SIZE && EntryAt(pt, k).Maps() && EntryAt(pt, k).write
      modifies this`memory
      ensures Valid() && Sees(pt, memory, k) == Stored(Sees(pt, old(memory), k), off, v)
      ensures BytePut(Sees(pt, old(memory), k), Sees(pt, memory, k), off, v)
      ensures forall j | j != k :: Sees(pt, memory, j) == Sees(pt, old(memory), j)
    {
      var f := EntryAt(pt, k).frame;
      assert EntryOk(user, EntryAt(pt, k));
      assert memory[f] in memory;
      var p := Put(memory[f], off, v);
      WritableAlone(pt, k);
      forall j | j != k ensures Sees(pt, memory[f := p], j) == Sees(pt, memory, j) {
        WriteSeen(pt, memory, f, p, k, j);
      }
      WriteKeepsPages(memory, f, p);
      memory := memory[f := p];
    }

    /** A process's store: straight through, or through the fault handler and again. Refused only when neither
        helps. */
    method StoreByte(k: Key, off: nat, v: int) returns (ok: bool)
      requires Valid() && FreeFrames(frameToPage) != {} && Allowed(View(pt, memory), Op.Store(k, off, v))
      modifies this
      ensures Valid() && |FreeFrames(frameToPage)| >= |FreeFrames(old(frameToPage))| - 1
      ensures ok == (EntryAt(old(pt), k).lazy || EntryAt(old(pt), k).cow
              || (EntryAt(old(pt), k).present && EntryAt(old(pt), k).write))
      ensures Same(View(pt, memory), After(View(old(pt), old(memory)), Op.Store(k, off, v)))
      // the byte is there, the page's other bytes are as they were, or zero if it was lazy, and no other page changes
      ensures if ok then BytePut(Sees(old(pt), old(memory), k), Sees(pt, memory, k), off, v)
              else Sees(pt, memory, k) == Sees(old(pt), old(memory), k)
      ensures forall j | j != k :: Sees(pt, memory, j) == Sees(old(pt), old(memory), j)
    {
      assert EntryOk(user, EntryAt(pt, k));
      ok := EntryAt(pt, k).present && EntryAt(pt, k).write;
      if !ok {
        SpareSeen(pt, memory, user, k.pid);
        ok := PageFault(k);
      }
      if ok { Poke(k, off, v); }
    }

    /** A process's load. */
    method LoadByte(k: Key, off: nat) returns (r: Option<int>)
      requires Valid() && FreeFrames(frameToPage) != {} && off < PAGE_SIZE
      modifies this
      ensures Valid() && |FreeFrames(frameToPage)| >= |FreeFrames(old(frameToPage))| - 1
      ensures Same(View(pt, memory), After(View(old(pt), old(memory)), Op.Load(k)))
      ensures match Sees(pt, memory, k)
              case Mapped(p, _) => |p| == PAGE_SIZE && r == Some(p[off])
              case _ => r == None
      // a lazy page reads as zero, a mapped one stays as it is
      ensures Sees(old(pt), old(memory), k).Lazy? ==> r == Some(0)
      ensures Sees(old(pt), old(memory), k).Unmapped? ==> r == None
      ensures Sees(old(pt), old(memory), k).Mapped? ==> Sees(pt, memory, k) == Sees(old(pt), old(memory), k)
      ensures forall j | j != k :: Sees(pt, memory, j) == Sees(old(pt), old(memory), j)
    {
      assert EntryOk(user, EntryAt(pt, k));
      var ok := EntryAt(pt, k).present;
      if !ok { ok := PageFault(k); }
      if !ok { return None; }
      assert EntryOk(user, EntryAt(pt, k));
      assert memory[EntryAt(pt, k).frame] in memory;
      r := Some(memory[EntryAt(pt, k).frame][off]);
    }

    /** User `sbrk` of one present page: a private frame nobody else maps, contents as the frame had them. */
    method AllocPage(k: Key, writable: bool)
      requires Valid() && FreeFrames(frameToPage) != {} && !EntryAt(pt, k).InUse()
      modifies this
      ensures Valid() && |FreeFrames(frameToPage)| == |FreeFrames(old(frameToPage))| - 1
      ensures memory == old(memory) && EntryAt(pt, k).Maps() && EntryAt(pt, k).write == writable && !EntryAt(pt, k).cow
      ensures Mappers(pt, EntryAt(pt, k).frame) == {k} && rc[EntryAt(pt, k).frame] == 2
      ensures forall j | j != k :: Sees(pt, memory, j) == Sees(old(pt), old(memory), j)
    {
      var frame := GetFreeFrame();
      AllocateFrame(frame);
      var val := Pte(frame, true, writable, true, false, false, false);
      FreshKeeps(pt, k, val);
      UpdatePte(k, val);
      assert Mappers(pt, frame) == {k};
      assert rc[frame] == 1 + |{k}|;
    }

    /** User `sbrk` of one lazy page. */
    method ReservePage(k: Key)
      requires Valid() && Allowed(View(pt, memory), Op.Reserve(k))
      modifies this`pt, this`rc
      ensures Valid() && Same(View(pt, memory), After(View(old(pt), memory), Op.Reserve(k)))
      ensures Sees(pt, memory, k).Lazy? && forall j | j != k :: Sees(pt, memory, j) == Sees(old(pt), memory, j)
    {
      var val := Pte(0, false, true, true, true, false, false);
      FreshKeeps(pt, k, val);
      UpdatePte(k, val);
    }

    /** User `free_page`: the page goes, the kernel's own reference stays, so the frame is never given back. */
    method FreePage(k: Key)
      requires Valid() && Allowed(View(pt, memory), Op.Free(k))
      modifies this`pt, this`rc
      ensures Valid() && Same(View(pt, memory), After(View(old(pt), memory), Op.Free(k)))
      ensures Sees(pt, memory, k).Unmapped? && forall j | j != k :: Sees(pt, memory, j) == Sees(old(pt), memory, j)
      ensures EntryAt(old(pt), k).Maps() ==>
                rc[EntryAt(old(pt), k).frame] >= 1 && EntryAt(old(pt), k).frame !in FreeFrames(frameToPage)
    {
      var e := EntryAt(pt, k);
      assert EntryOk(user, e);
      FreshKeeps(pt, k, ZERO);
      UpdatePte(k, ZERO);
      assert e.Maps() ==> rc[e.frame] >= 1;   // so the branch that would release the frame is not taken
    }

    /** Shares one page with the child; only present pages are inherited. */
    method SharePage(parent: nat, child: nat, page: nat)
      requires Valid() && parent != child
      modifies this`pt, this`rc
      ensures Valid() && pt == SharedTable(old(pt), parent, child, page)
    {
      var e := EntryAt(pt, Key(parent, page));
      if !e.present { return; }
      ShareKeeps(pt, rc, user, parent, child, page);
      assert EntryOk(user, e);
      ExclusiveUpdate(pt, Key(parent, page), SharedPte(e)) by { ParentExclusive(pt, Key(parent, page)); }
      UpdatePte(Key(parent, page), SharedPte(e));
      UpdatePte(Key(child, page), SharedPte(e));
    }

    /** Fork's page loop: afterwards everyone sees what an eager copy would have given. */
    method ForkPages(parent: nat, child: nat)
      requires Valid() && Allowed(View(pt, memory), Op.Fork(parent, child))
      modifies this`pt, this`rc
      ensures Valid() && Same(View(pt, memory), After(View(old(pt), memory), Op.Fork(parent, child)))
      ensures forall j: Key | j.pid != child :: Sees(pt, memory, j) == Sees(old(pt), memory, j)
      ensures forall j: Key | j.pid == child ::
                var seen := Sees(old(pt), memory, Key(parent, j.page));
                Sees(pt, memory, j) == if j.page < SHARED_PAGES && seen.Mapped? then seen else Unmapped
    {
      ghost var pt0 := pt;
      for page := 0 to SHARED_PAGES
        invariant Valid() && parent != child
        invariant forall k :: EntryAt(pt, k) == Forked(pt0, parent, child, page, k)
      {
        ForkedStep(pt0, pt, parent, child, page);
        if EntryAt(pt, Key(parent, page)).InUse() { SharePage(parent, child, page); }
      }
      forall k ensures Sees(pt, memory, k) == EagerStep(View(pt0, memory), Op.Fork(parent, child), k) {
        ForkedSeen(pt0, user, memory, parent, child, k);
      }
    }

    /** One operation; `did` is the operation with the bytes a new page turned out to hold. */
    method Step(op: Op) returns (ghost did: Op)
      requires Valid() && FreeFrames(frameToPage) != {} && Allowed(View(pt, memory), op)
      modifies this
      ensures Valid() && |FreeFrames(frameToPage)| >= |FreeFrames(old(frameToPage))| - 1
      ensures SameOp(op, did) && Same(View(pt, memory), After(View(old(pt), old(memory)), did))
    {
      did := op;
      match op
      case Fork(parent, child) => ForkPages(parent, child);
      case Store(k, off, v) => var _ := StoreByte(k, off, v);
      case Load(k) => var _ := LoadByte(k, 0);
      case Reserve(k) => ReservePage(k);
      case Alloc(k, _, writable) =>
        UnmappedUnused(pt, memory, user, k);
        AllocPage(k, writable);
        did := Op.Alloc(k, Sees(pt, memory, k).content, writable);
      case Free(k) => FreePage(k);
    }

    /** Over every run, each process sees exactly what it would see if fork copied every shared page at once.
        `trace` is the run with the bytes new pages turned out to hold. */
    method Run(ops: seq<Op>) returns (ghost trace: seq<Op>)
      requires Valid() && |FreeFrames(frameToPage)| >= |ops| && AllAllowed(View(pt, memory), ops)
      modifies this
      ensures Valid() && |trace| == |ops| && (forall i | 0 <= i < |ops| :: SameOp(ops[i], trace[i]))
      ensures Same(View(pt, memory), EagerRun(View(old(pt), old(memory)), trace))
      ensures |FreeFrames(frameToPage)| >= |FreeFrames(old(frameToPage))| - |ops|
    {
      ghost var w0 := View(pt, memory);
      trace := [];
      var i := 0;
      while i < |ops|
        invariant i <= |ops| && Valid() && |FreeFrames(frameToPage)| >= |FreeFrames(old(frameToPage))| - i
        invariant |trace| == i && forall j | 0 <= j < i :: SameOp(ops[j], trace[j])
        invariant AllAllowed(View(pt, memory), ops[i..])
        invariant Same(View(pt, memory), EagerRun(w0, trace))
      {
        ghost var w := View(pt, memory);
        assert ops[i..][0] == ops[i] && ops[i..][1..] == ops[i + 1..];
        ghost var did := Step(ops[i]);
        OneStep(w0, trace, w, View(pt, memory), ops[i], did, ops[i + 1..]);
        trace := trace + [did];
        i := i + 1;
      }
    }

    /** What a process stored is what it loads, whatever the others do in between. */
    method StoreThenLoad(k: Key, off: nat, v: int, after: seq<Op>) returns (ok: bool, r: Option<int>)
      requires Valid() && |FreeFrames(frameToPage)| >= |after| + 2
      requires Allowed(View(pt, memory), Op.Store(k, off, v))
      requires AllAllowed(After(View(pt, memory), Op.Store(k, off, v)), after)
      requires forall op | op in after :: !Touches(op, k.pid)
      modifies this
      ensures Valid() && (ok ==> r == Some(v))
    {
      ghost var w := View(pt, memory);
      ok := StoreByte(k, off, v);
      AllowedAlike(After(w, Op.Store(k, off, v)), View(pt, memory), after);
      r := LoadLater(k, off, after);
    }

    /** Other processes' operations do not change what a load finds. */
    method LoadLater(k: Key, off: nat, ops: seq<Op>) returns (r: Option<int>)
      requires Valid() && |FreeFrames(frameToPage)| > |ops| && off < PAGE_SIZE && AllAllowed(View(pt, memory), ops)
      requires forall op | op in ops :: !Touches(op, k.pid)
      modifies this
      ensures Valid()
      ensures match Sees(old(pt), old(memory), k)
              case Mapped(p, _) => off < |p| ==> r == Some(p[off])
              case Lazy => r == Some(0)
              case Unmapped => r == None
    {
      ghost var w := View(pt, memory);
      ghost var trace := Run(ops);
      SameTouch(ops, trace, k.pid);
      Isolation(w, trace, k.pid, k.page);
      assert Sees(pt, memory, k) == w(Key(k.pid, k.page));
      r := LoadByte(k, off);
    }

    /** So the last store of any run, if it succeeds, is what later loads find. */
    method LastStore(before: seq<Op>, k: Key, off: nat, v: int, after: seq<Op>) returns (ok: bool, r: Option<int>)
      requires Valid() && |FreeFrames(frameToPage)| >= |before| + |after| + 2
      requires AllAllowed(View(pt, memory), before + ([Op.Store(k, off, v)] + after))
      requires forall op | op in after :: !Touches(op, k.pid)
      modifies this
      ensures Valid() && (ok ==> r == Some(v))
    {
      ghost var w, rest := View(pt, memory), [Op.Store(k, off, v)] + after;
      AllowedFirst(w, before, rest);
      ghost var trace := Run(before);
      AllowedLater(w, w, before, trace, View(pt, memory), rest);
      assert rest[0] == Op.Store(k, off, v) && rest[1..] == after;
      ok, r := StoreThenLoad(k, off, v, after);
    }
  }

  /** `s'` is `s` with byte `off` set to `v`; a lazy page has zeros elsewhere. */
  ghost predicate BytePut(s: Seen, s': Seen, off: nat, v: int) {
    && s'.Mapped? && s'.writable && |s'.content| == PAGE_SIZE && off < PAGE_SIZE && s'.content[off] == v
    && match s
       case Unmapped => false
       case Lazy => forall i | 0 <= i < PAGE_SIZE && i != off :: s'.content[i] == 0
       case Mapped(c, _) => |c| == PAGE_SIZE && forall i | 0 <= i < PAGE_SIZE && i != off :: s'.content[i] == c[i]
  }

  lemma {:induction false} AllowedFirst(w: World, ops: seq<Op>, rest: seq<Op>)
    requires AllAllowed(w, ops + rest)
    ensures AllAllowed(w, ops)
    decreases |ops|
  {
    if ops != [] {
      assert (ops + rest)[0] == ops[0] && (ops + rest)[1..] == ops[1..] + rest;
      AllowedFirst(After(w, ops[0]), ops[1..], rest);
    }
  }

  /** What was allowed after `ops` is allowed after the run they turned out to be. */
  lemma {:induction false} AllowedLater(w: World, v: World, ops: seq<Op>, trace: seq<Op>, end: World, rest: seq<Op>)
    requires AllAllowed(w, ops + rest) && Alike(w, v)
    requires |trace| == |ops| && (forall i | 0 <= i < |ops| :: SameOp(ops[i], trace[i]))
    requires Same(end, EagerRun(v, trace))
    ensures AllAllowed(end, rest)
    decreases |ops|
  {
    if ops == [] {
      assert ops + rest == rest;
      AllowedAlike(w, end, rest);
    } else {
      assert (ops + rest)[0] == ops[0] && (ops + rest)[1..] == ops[1..] + rest;
      StepsAlike(w, v, ops[0], trace[0]);
      AllowedLater(After(w, ops[0]), After(v, trace[0]), ops[1..], trace[1..], end, rest);
    }
  }

  lemma SameTouch(ops: seq<Op>, trace: seq<Op>, q: nat)
    requires |trace| == |ops| && (forall i | 0 <= i < |ops| :: SameOp(ops[i], trace[i]))
    requires forall op | op in ops :: !Touches(op, q)
    ensures forall op | op in trace :: !Touches(op, q)
  {
    forall i | 0 <= i < |trace| ensures !Touches(trace[i], q) { assert ops[i] in ops; }
  }

  /** The run goes on: the same requests are allowed, and the trace is one operation longer. */
  lemma OneStep(w0: World, trace: seq<Op>, w: World, w': World, op: Op, did: Op, rest: seq<Op>)
    requires Same(w, EagerRun(w0, trace)) && SameOp(op, did) && Same(w', After(w, did))
    requires AllAllowed(After(w, op), rest)
    ensures AllAllowed(w', rest) && Same(w', EagerRun(w0, trace + [did]))
  {
    RunSnoc(w0, trace, did);
    StepsAgree(w, EagerRun(w0, trace), did);
    StepsAlike(w, w, op, did);
    forall k ensures SameKind(After(w, op)(k), w'(k)) { assert w'(k) == After(w, did)(k); }
    AllowedAlike(After(w, op), w', rest);
  }

  lemma UnmappedUnused(pt: Tables, memory: seq<Page>, user: set<nat>, k: Key)
    requires EntriesOk(pt, user) && |memory| == FRAMES && (forall f | f in user :: f < FRAMES)
    requires View(pt, memory)(k).Unmapped?
    ensures !EntryAt(pt, k).InUse()
  {
  }

  ghost predicate HasSpare(pt: Tables, pid: nat) {
    exists page: nat :: page < PAGES && !EntryAt(pt, Key(pid, page)).InUse()
  }

  lemma SpareSeen(pt: Tables, memory: seq<Page>, user: set<nat>, pid: nat)
    requires EntriesOk(pt, user) && |memory| == FRAMES && (forall f | f in user :: f < FRAMES)
    requires exists page: nat :: page < PAGES && View(pt, memory)(Key(pid, page)).Unmapped?
    ensures HasSpare(pt, pid)
  {
  }

  /** The entry at `k` once the first `n` pages have been shared. */
  function Forked(pt: Tables, parent: nat, child: nat, n: nat, k: Key): Pte {
    var e := EntryAt(pt, Key(parent, k.page));
    if k.page < n && e.present && (k.pid == parent || k.pid == child) then SharedPte(e) else EntryAt(pt, k)
  }

  lemma ForkedStep(pt0: Tables, pt: Tables, parent: nat, child: nat, n: nat)
    requires parent != child && forall k :: EntryAt(pt, k) == Forked(pt0, parent, child, n, k)
    ensures forall k :: EntryAt(SharedTable(pt, parent, child, n), k) == Forked(pt0, parent, child, n + 1, k)
  {
    forall k ensures EntryAt(SharedTable(pt, parent, child, n), k) == Forked(pt0, parent, child, n + 1, k) {
      assert EntryAt(pt, k) == Forked(pt0, parent, child, n, k);
      assert EntryAt(pt, Key(parent, n)) == Forked(pt0, parent, child, n, Key(parent, n));
    }
  }

  lemma ForkedSeen(pt: Tables, user: set<nat>, memory: seq<Page>, parent: nat, child: nat, k: Key)
    requires EntriesOk(pt, user) && |memory| == FRAMES && (forall f | f in user :: f < FRAMES)
    requires Allowed(View(pt, memory), Op.Fork(parent, child))
    ensures var e := Forked(pt, parent, child, SHARED_PAGES, k);
            (if e.lazy then Lazy
             else if e.present && e.frame < |memory| then Mapped(memory[e.frame], e.write || e.cow)
             else Unmapped)
            == EagerStep(View(pt, memory), Op.Fork(parent, child), k)
  {
  }

  lemma ParentExclusive(pt: Tables, k: Key)
    requires Exclusive(pt)
    ensures forall j | j in pt && j != k && k in pt && pt[k].Maps() && pt[j].Maps() && pt[j].frame == pt[k].frame ::
              !pt[j].write
  {
    forall j | j in pt && j != k && k in pt && pt[k].Maps() && pt[j].Maps() && pt[j].frame == pt[k].frame
      ensures !pt[j].write {
      assert Share(pt, j, k);
    }
  }

  /** A writable entry is its frame's only one. */
  lemma WritableAlone(pt: Tables, k: Key)
    requires Exclusive(pt) && EntryAt(pt, k).Maps() && EntryAt(pt, k).write
    ensures Mappers(pt, EntryAt(pt, k).frame) <= {k}
  {
    forall j | j in Mappers(pt, EntryAt(pt, k).frame) ensures j == k {
      if j != k { assert Share(pt, j, k); }
    }
  }

  /** Mapping the shared frame a second time in the same process keeps exclusivity: a copy-on-write entry is
      read-only. */
  lemma ScratchExclusive(pt: Tables, k: Key, scratch: Key)
    requires Exclusive(pt) && k != scratch && EntryAt(pt, k).Maps() && !EntryAt(pt, k).write
    ensures Exclusive(pt[scratch := EntryAt(pt, k)])
  {
    forall j | j in pt && j != scratch && pt[j].Maps() && pt[j].frame == pt[k].frame ensures !pt[j].write {
      if j != k { assert Share(pt, j, k); }
    }
    ExclusiveUpdate(pt, scratch, EntryAt(pt, k));
  }

  lemma OneMapper(pt: Tables, k: Key, scratch: Key, val: Pte)
    requires Mappers(pt, val.frame) == {} && val.Maps() && k != scratch && EntryAt(pt, k).Maps()
    ensures Mappers(pt[scratch := EntryAt(pt, k)][k := val][scratch := ZERO], val.frame) == {k}
  {
  }
}
