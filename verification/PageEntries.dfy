/** Page table entries, the frames they map and the reference counts, as values. */
module PageEntries {
  import opened PageSearch

  const FRAMES: nat := 1024 * 1024

  /** A page table entry: frame number and the flag bits the kernel uses. */
  datatype Pte = Pte(frame: nat, present: bool, write: bool, user: bool, lazy: bool, cow: bool, shro: bool) {
    /** The entry really maps its frame. */
    predicate Maps() { present && !lazy }

    predicate MapsTo(f: nat) { Maps() && frame == f }

    predicate InUse() { present || lazy }
  }

  const ZERO: Pte := Pte(0, false, false, false, false, false, false)

  /** A page of a process. */
  datatype Key = Key(pid: nat, page: nat)

  /** All processes' page tables together; a key without an entry holds the zero entry. */
  type Tables = map<Key, Pte>

  function EntryAt(pt: Tables, k: Key): Pte {
    if k in pt then pt[k] else ZERO
  }

  /** The process pages that map frame `f`. */
  ghost function Mappers(pt: Tables, f: nat): set<Key> {
    set k | k in pt && pt[k].MapsTo(f)
  }

  /** `frame_rc` after `update_pte` replaces entry `was` by `val`: the old frame loses a reference if it has any,
      the new one gains one if it is really mapped. */
  function Recount(rc: seq<nat>, was: Pte, val: Pte): (r: seq<nat>)
    requires was.frame < |rc| && val.frame < |rc|
    ensures |r| == |rc|
  {
    var rc1 := if rc[was.frame] > 0 then rc[was.frame := rc[was.frame] - 1] else rc;
    if val.Maps() then rc1[val.frame := rc1[val.frame] + 1] else rc1
  }

  /** Every entry is well formed: it maps a frame of `user`, or names frame 0 only. */
  ghost predicate EntryOk(user: set<nat>, e: Pte) {
    && (e.Maps() ==> e.frame in user)
    && (!e.Maps() ==> e.frame == 0)
    && (e.cow ==> e.Maps() && !e.write)
    && !(e.present && e.lazy)
  }

  ghost predicate EntriesOk(pt: Tables, user: set<nat>) {
    forall k | k in pt :: EntryOk(user, pt[k])
  }

  /** Frames handed to processes are counted once for the kernel's own mapping and once per process entry. */
  ghost predicate Counted(pt: Tables, rc: seq<nat>, user: set<nat>) {
    && |rc| == FRAMES && rc[0] == 0
    && (forall f | f in user :: 0 < f < FRAMES)
    && (forall f | f in user :: rc[f] == 1 + |Mappers(pt, f)|)
  }

  lemma SameMappers(pt: Tables, pt': Tables, k: Key, f: nat)
    requires forall j | j != k :: EntryAt(pt', j) == EntryAt(pt, j)
    ensures Mappers(pt', f) - {k} == Mappers(pt, f) - {k}
  {
    forall j | j != k ensures j in Mappers(pt', f) <==> j in Mappers(pt, f) {
      assert EntryAt(pt', j) == EntryAt(pt, j);
    }
  }

  lemma MappersUpdate(pt: Tables, k: Key, val: Pte, f: nat)
    ensures var e := EntryAt(pt, k);
            |Mappers(pt[k := val], f)| == |Mappers(pt, f)|
            - (if e.MapsTo(f) then 1 else 0) + (if val.MapsTo(f) then 1 else 0)
  {
    var pt' := pt[k := val];
    SameMappers(pt, pt', k, f);
    RemoveOne(Mappers(pt, f), k);
    RemoveOne(Mappers(pt', f), k);
    assert k in pt' && pt'[k] == val;
  }

  lemma RemoveOne(m: set<Key>, k: Key)
    ensures |m - {k}| == |m| - if k in m then 1 else 0
  {
  }

  /** Every `update_pte` with a sound value keeps the counts right and never finds a mapped frame with count zero. */
  lemma UpdateCounts(pt: Tables, rc: seq<nat>, user: set<nat>, k: Key, val: Pte)
    requires EntriesOk(pt, user) && Counted(pt, rc, user) && EntryOk(user, val)
    ensures EntryAt(pt, k).frame < |rc| && val.frame < |rc|
    ensures EntriesOk(pt[k := val], user) && Counted(pt[k := val], Recount(rc, EntryAt(pt, k), val), user)
    ensures EntryAt(pt, k).Maps() ==> rc[EntryAt(pt, k).frame] > 0
  {
    var e := EntryAt(pt, k);
    assert EntryOk(user, e);
    var rc' := Recount(rc, e, val);
    forall f | f in user ensures rc'[f] == 1 + |Mappers(pt[k := val], f)| {
      MappersUpdate(pt, k, val, f);
      if e.Maps() && e.frame == f { assert k in Mappers(pt, f); }
    }
  }

  /** A frame that joins with count one and no mapper is counted right. */
  lemma JoinCounts(pt: Tables, rc: seq<nat>, user: set<nat>, f: nat)
    requires EntriesOk(pt, user) && Counted(pt, rc, user) && f !in user && 0 < f < FRAMES && rc[f] == 0
    ensures EntriesOk(pt, user + {f}) && Counted(pt, rc[f := 1], user + {f}) && Mappers(pt, f) == {}
  {
  }

  /** A frame mapped from two places is writable from neither. */
  ghost predicate Exclusive(pt: Tables) {
    forall j, k {:trigger Share(pt, j, k)} | j in pt && k in pt && j != k && Share(pt, j, k)
       :: !pt[j].write && !pt[k].write
  }

  ghost predicate Share(pt: Tables, j: Key, k: Key)
    requires j in pt && k in pt
  {
    pt[j].Maps() && pt[k].Maps() && pt[j].frame == pt[k].frame
  }

  /** A new entry keeps this if it maps nothing, maps a frame nobody else maps, or is itself not writable and
      neither is any other entry for its frame. */
  lemma ExclusiveUpdate(pt: Tables, k: Key, val: Pte)
    requires Exclusive(pt)
    requires val.Maps() ==>
               forall j | j in pt && j != k && pt[j].Maps() && pt[j].frame == val.frame :: !val.write && !pt[j].write
    ensures Exclusive(pt[k := val])
  {
    var pt' := pt[k := val];
    forall i, j | i in pt' && j in pt' && i != j && Share(pt', i, j) ensures !pt'[i].write && !pt'[j].write {
      if i != k && j != k { assert Share(pt, i, j); }
    }
  }

  // ---- what processes see ----

  type Page = seq<int>

  function ZeroPage(): (p: Page)
    ensures |p| == PAGE_SIZE
    ensures forall v | v in p :: v == 0
  {
    seq(PAGE_SIZE, _ => 0)
  }

  /** Storing past the end of a page is a store to another page, so it leaves this one alone. */
  function Put(p: Page, off: nat, v: int): Page {
    if off < |p| then p[off := v] else p
  }

  /** What a process can tell about one of its pages. */
  datatype Seen = Unmapped | Lazy | Mapped(content: Page, writable: bool)

  /** A copy-on-write page counts as writable: a store to it succeeds. */
  function Sees(pt: Tables, memory: seq<Page>, k: Key): Seen {
    var e := EntryAt(pt, k);
    if e.lazy then Lazy
    else if e.present && e.frame < |memory| then Mapped(memory[e.frame], e.write || e.cow)
    else Unmapped
  }

  /** Writing a frame is seen by its mappers only. */
  lemma WriteSeen(pt: Tables, memory: seq<Page>, f: nat, p: Page, k: Key, j: Key)
    requires f < |memory| && Mappers(pt, f) <= {k}
    ensures j != k ==> Sees(pt, memory[f := p], j) == Sees(pt, memory, j)
  {
    if EntryAt(pt, j).MapsTo(f) { assert j in Mappers(pt, f); }
  }

  // ---- sharing a page with a child ----

  /** Pages below the stacks are the ones fork shares. */
  const SHARED_PAGES: nat := 767 * 1024

  /** The entry parent and child both hold once a page is shared. */
  function SharedPte(e: Pte): (r: Pte)
    ensures r.MapsTo(e.frame) == e.Maps() && !r.write && (r.write || r.cow) == (e.write || e.cow)
  {
    if e.write || e.cow then e.(cow := true, write := false) else e.(shro := true, write := false)
  }

  /** The table after sharing page `page`. */
  function SharedTable(pt: Tables, parent: nat, child: nat, page: nat): Tables {
    var e := EntryAt(pt, Key(parent, page));
    if e.present then pt[Key(parent, page) := SharedPte(e)][Key(child, page) := SharedPte(e)] else pt
  }

  /** Sharing through two `update_pte` calls keeps counts and exclusivity. */
  lemma ShareKeeps(pt: Tables, rc: seq<nat>, user: set<nat>, parent: nat, child: nat, page: nat)
    requires EntriesOk(pt, user) && Counted(pt, rc, user) && Exclusive(pt) && parent != child
    requires EntryAt(pt, Key(parent, page)).present
    ensures var k, j, e := Key(parent, page), Key(child, page), EntryAt(pt, Key(parent, page));
            && EntryOk(user, SharedPte(e))
            && EntriesOk(pt[k := SharedPte(e)], user)
            && e.frame < |rc|
            && Counted(pt[k := SharedPte(e)], Recount(rc, e, SharedPte(e)), user)
            && Exclusive(SharedTable(pt, parent, child, page))
  {
    var k, j, e := Key(parent, page), Key(child, page), EntryAt(pt, Key(parent, page));
    var val := SharedPte(e);
    UpdateCounts(pt, rc, user, k, val);
    forall i | i in pt && i != k && pt[i].Maps() && pt[i].frame == e.frame ensures !pt[i].write {
      assert Share(pt, i, k);
    }
    ExclusiveUpdate(pt, k, val);
    ExclusiveUpdate(pt[k := val], j, val);
  }

  // ---- the machine that copies eagerly ----

  type World = Key -> Seen

  function View(pt: Tables, memory: seq<Page>): World {
    k => Sees(pt, memory, k)
  }

  datatype Op =
    | Fork(parent: nat, child: nat)
    | Store(k: Key, off: nat, v: int)
    | Load(k: Key)
    | Reserve(k: Key)
    | Alloc(k: Key, content: Page, writable: bool)   // a present page comes with whatever its frame held
    | Free(k: Key)

  function Stored(s: Seen, off: nat, v: int): Seen {
    match s
    case Unmapped => Unmapped
    case Lazy => Mapped(Put(ZeroPage(), off, v), true)
    case Mapped(c, w) => if w then Mapped(Put(c, off, v), w) else s
  }

  /** What page `k` looks like after one operation when fork copies every mapped page there and then. */
  function EagerStep(w: World, op: Op, k: Key): Seen {
    match op
    case Fork(parent, child) =>
      if k.pid != child then w(k)
      else if k.page < SHARED_PAGES && w(Key(parent, k.page)).Mapped? then w(Key(parent, k.page))
      else Unmapped
    case Store(j, off, v) => if k == j then Stored(w(k), off, v) else w(k)
    case Load(j) => if k == j && w(k).Lazy? then Mapped(ZeroPage(), true) else w(k)
    case Reserve(j) => if k == j then Lazy else w(k)
    case Alloc(j, p, writable) => if k == j then Mapped(p, writable) else w(k)
    case Free(j) => if k == j then Unmapped else w(k)
  }

  function After(w: World, op: Op): World {
    k => EagerStep(w, op, k)
  }

  function EagerRun(w: World, ops: seq<Op>): World
    decreases |ops|
  {
    if ops == [] then w else EagerRun(After(w, ops[0]), ops[1..])
  }

  ghost predicate Same(w: World, w': World) {
    forall k :: w(k) == w'(k)
  }

  /** When the kernel's callers may ask for `op`: a fresh child, a page to reserve that is unused, a page to free
      that is used, and one unused page where a store may need to map the old frame. */
  ghost predicate Allowed(w: World, op: Op) {
    match op
    case Fork(parent, child) => parent != child && forall page :: w(Key(child, page)).Unmapped?
    case Store(k, off, _) => off < PAGE_SIZE && exists page: nat :: page < PAGES && w(Key(k.pid, page)).Unmapped?
    case Load(k) => true
    case Reserve(k) => w(k).Unmapped?
    case Alloc(k, _, _) => w(k).Unmapped?
    case Free(k) => !w(k).Unmapped?
  }

  ghost predicate AllAllowed(w: World, ops: seq<Op>)
    decreases |ops|
  {
    ops == [] || (Allowed(w, ops[0]) && AllAllowed(After(w, ops[0]), ops[1..]))
  }

  /** The same request, whatever a new page turns out to hold. */
  predicate SameOp(op: Op, op': Op) {
    op' == op || (op.Alloc? && op'.Alloc? && op'.k == op.k && op'.writable == op.writable)
  }

  /** Worlds that differ in the bytes of pages at most. */
  ghost predicate Alike(w: World, w': World) {
    forall k :: SameKind(w(k), w'(k))
  }

  predicate SameKind(s: Seen, s': Seen) {
    s.Unmapped? == s'.Unmapped? && s.Lazy? == s'.Lazy? && (s.Mapped? && s'.Mapped? ==> s.writable == s'.writable)
  }

  /** Which requests are allowed next does not depend on bytes. */
  lemma StepsAlike(w: World, w': World, op: Op, op': Op)
    requires Alike(w, w') && SameOp(op, op')
    ensures Alike(After(w, op), After(w', op')) && Allowed(w, op) == Allowed(w', op')
  {
  }

  lemma {:induction false} AllowedAlike(w: World, w': World, ops: seq<Op>)
    requires Alike(w, w')
    ensures AllAllowed(w, ops) == AllAllowed(w', ops)
    decreases |ops|
  {
    if ops != [] {
      StepsAlike(w, w', ops[0], ops[0]);
      AllowedAlike(After(w, ops[0]), After(w', ops[0]), ops[1..]);
    }
  }

  /** One more operation at the end of a run. */
  lemma {:induction false} RunSnoc(w: World, ops: seq<Op>, op: Op)
    ensures EagerRun(w, ops + [op]) == After(EagerRun(w, ops), op)
    decreases |ops|
  {
    if ops == [] {
      assert (ops + [op])[0] == op && (ops + [op])[1..] == [];
      assert EagerRun(w, ops + [op]) == EagerRun(After(w, op), []);
    } else {
      assert (ops + [op])[0] == ops[0] && (ops + [op])[1..] == ops[1..] + [op];
      RunSnoc(After(w, ops[0]), ops[1..], op);
    }
  }

  /** Worlds that agree on every page still do after the same operation. */
  lemma StepsAgree(w: World, w': World, op: Op)
    requires Same(w, w')
    ensures Same(After(w, op), After(w', op))
  {
  }

  /** The operation acts on process `q`: it is q's own, or it creates q. */
  predicate Touches(op: Op, q: nat) {
    match op
    case Fork(_, child) => child == q
    case Store(k, _, _) => k.pid == q
    case Load(k) => k.pid == q
    case Reserve(k) => k.pid == q
    case Alloc(k, _, _) => k.pid == q
    case Free(k) => k.pid == q
  }

  /** Whatever the others do, forks of `q` included, `q` sees the same pages. */
  lemma {:induction false} Isolation(w: World, ops: seq<Op>, q: nat, page: nat)
    requires forall op | op in ops :: !Touches(op, q)
    ensures EagerRun(w, ops)(Key(q, page)) == w(Key(q, page))
    decreases |ops|
  {
    if ops != [] {
      assert ops[0] in ops;
      assert forall op | op in ops[1..] :: op in ops;
      Isolation(After(w, ops[0]), ops[1..], q, page);
    }
  }

  /** A child starts with its parent's shared pages and keeps seeing those contents whatever the parent stores
      later. */
  lemma ForkIsSnapshot(w: World, parent: nat, child: nat, ops: seq<Op>, page: nat)
    requires page < SHARED_PAGES && w(Key(parent, page)).Mapped?
    requires forall op | op in ops :: !Touches(op, child)
    ensures EagerRun(w, [Fork(parent, child)] + ops)(Key(child, page)) == w(Key(parent, page))
  {
    var run := [Fork(parent, child)] + ops;
    assert run[0] == Fork(parent, child) && run[1..] == ops;
    Isolation(After(w, run[0]), ops, child, page);
  }
}
