/** A process heap: the block tree over the process's page table (Memtree.cpp). */
module Heap {
  import opened Basics
  import opened Bytes
  import opened PageSearch
  import opened MemBlocks
  import opened HeapTree

  datatype FreeState = Ok | DoubleFree | NotFound

  /** PAGE_PRESENT and PAGE_LAZY_ZERO are bits 0 and 9; an allocation asks for exactly one of them. */
  predicate ValidPolicy(policy: nat) {
    (policy % 2 == 1) != (policy / 0x200 % 2 == 1)
  }

  /** How many pages `node_physical_alloc` asks for, in 32-bit arithmetic. */
  function PagesFor(size: nat): nat {
    var base := (size + PAGE_SIZE - 1) % TWO_32 / PAGE_SIZE;
    if base > 2 then base else 2
  }

  /** They hold the request exactly when rounding it up to a page does not wrap; there are at least two of them, and
      no more than two unless the request needs every one. */
  lemma PagesForWraps(size: nat)
    requires size < TWO_32
    ensures PagesFor(size) * PAGE_SIZE >= size <==> size + PAGE_SIZE - 1 < TWO_32
    ensures PagesFor(size) >= 2 && (PagesFor(size) > 2 ==> (PagesFor(size) - 1) * PAGE_SIZE < size)
  {
  }

  /** Every covered byte is on a page in use. */
  ghost predicate Backed(s: seq<Block>, pages: seq<bool>) {
    forall a: nat :: Covers(s, a) ==> a / PAGE_SIZE < |pages| && pages[a / PAGE_SIZE]
  }

  function MarkPages(pages: seq<bool>, from: nat, n: nat, v: bool): (r: seq<bool>)
    requires from + n <= |pages|
    ensures |r| == |pages|
    ensures forall i | 0 <= i < |pages| :: r[i] == if from <= i < from + n then v else pages[i]
  {
    pages[..from] + seq(n, _ => v) + pages[from + n..]
  }

  /** Two blocks are apart or share the byte where the later one starts. */
  lemma ApartOrMeet(x: Block, b: Block)
    requires x.start < x.end && b.start < b.end
    ensures var m := if x.start > b.start then x.start else b.start;
            x.end <= b.start || b.end <= x.start || (In(x, m) && In(b, m))
  {
  }

  lemma UncoveredIsClear(s: seq<Block>, b: Block)
    requires Ordered(s) && b.start < b.end && forall a: nat | In(b, a) :: !Covers(s, a)
    ensures Clear(s, b)
  {
    forall x | x in s ensures x.end <= b.start || b.end <= x.start {
      Member(s, x);
      ApartOrMeet(x, b);
      var m := if x.start > b.start then x.start else b.start;
      var i :| 0 <= i < |s| && s[i] == x;
      assert In(s[i], m) ==> Covers(s, m);
    }
  }

  /** Whole unused pages are clear of everything the heap covers. */
  lemma WindowIsClear(s: seq<Block>, pages: seq<bool>, page: nat, n: nat, b: Block)
    requires Ordered(s) && Backed(s, pages) && FreeWindow(pages, page, n) && n > 0
    requires b.start == page * PAGE_SIZE && b.end == b.start + n * PAGE_SIZE
    ensures Clear(s, b) && forall a: nat | In(b, a) :: page <= a / PAGE_SIZE < page + n
  {
    forall a: nat | In(b, a) ensures page <= a / PAGE_SIZE < page + n { }
    UncoveredIsClear(s, b);
  }

  /** The page an address or a block starts on. */
  function StartPage(r: Option<nat>): Option<nat> {
    if r.Some? then Some(r.value / PAGE_SIZE) else None
  }

  /** Every free block is too small or not where the hint wants it. */
  ghost predicate Unfit(s: seq<Block>, size: nat, hint: Hint) {
    forall b | b in s && !b.used ::
      b.end - b.start < size || (if hint.mandatory then b.start != hint.address else b.start < hint.address)
  }

  predicate AtHint(address: nat, hint: Hint) {
    if hint.mandatory then address == hint.address else address / PAGE_SIZE >= hint.address / PAGE_SIZE
  }

  function PageOf(r: Option<Block>): Option<nat> {
    if r.Some? then Some(r.value.start / PAGE_SIZE) else None
  }

  class MemTree {
    var root: Tree
    var pages: seq<bool>
    var lowestFreePage: nat

    ghost function Blocks(): seq<Block>
      reads this
    {
      InOrder(root)
    }

    /** Ordered, disjoint, non-empty blocks that cover whole pages, all of them in use in the page table. */
    ghost predicate Valid()
      reads this
    {
      && Ordered(Blocks()) && WholePages(Blocks())
      && |pages| == PAGES && 1 <= lowestFreePage <= PAGES && Backed(Blocks(), pages)
    }

    constructor (pages: seq<bool>, lowest: nat)
      requires |pages| == PAGES && 1 <= lowest <= PAGES
      ensures Valid() && Blocks() == [] && this.pages == pages && lowestFreePage == lowest
    {
      root, this.pages, lowestFreePage := Leaf, pages, lowest;
    }

    /** `sbrk`: finds unused pages, marks them used, and moves the lowest-free cursor over used ones. */
    method Sbrk(n: nat, hint: Hint, full: bool) returns (r: Option<nat>)
      requires Valid() && 0 < n && n + 2 * PAGES < TWO_32 && hint.address < PAGES * PAGE_SIZE
      requires hint.mandatory ==> hint.address % PAGE_SIZE == 0 && hint.address != 0
      modifies this`pages, this`lowestFreePage
      ensures |pages| == PAGES && 1 <= lowestFreePage <= PAGES
      ensures if full then r == None else FirstFit(old(pages), n, hint, old(lowestFreePage), r)
      ensures r.None? ==> pages == old(pages) && lowestFreePage == old(lowestFreePage)
      ensures r.Some? ==>
                r.value > 0 && FreeWindow(old(pages), r.value, n) && pages == MarkPages(old(pages), r.value, n, true)
      ensures r.Some? ==> old(lowestFreePage) <= lowestFreePage && (lowestFreePage < PAGES ==> !pages[lowestFreePage])
                          && forall p | old(lowestFreePage) <= p < lowestFreePage :: pages[p]
    {
      if full { return None; }
      r := GetContiguousPages(pages, n, hint, lowestFreePage);
      if r.None? { return; }
      pages := MarkPages(pages, r.value, n, true);
      while lowestFreePage < PAGES && pages[lowestFreePage]
        invariant 1 <= old(lowestFreePage) <= lowestFreePage <= PAGES
        invariant pages == MarkPages(old(pages), r.value, n, true)
        invariant forall p | old(lowestFreePage) <= p < lowestFreePage :: pages[p]
      {
        lowestFreePage := lowestFreePage + 1;
      }
    }

    /** `node_physical_alloc`: new whole pages enter the tree as one free block. */
    method PhysicalAlloc(size: nat, info: PageInfo, hint: Hint, full: bool) returns (r: Option<Block>)
      requires Valid() && 0 < size && size + PAGE_SIZE - 1 < TWO_32 && HintOk(hint)
      modifies this
      ensures Valid()
      ensures if full then r == None
              else FirstFit(old(pages), PagesFor(size), hint, old(lowestFreePage), PageOf(r))
      ensures r.None? ==> root == old(root) && pages == old(pages) && lowestFreePage == old(lowestFreePage)
      ensures r.Some? ==> var b := r.value;
                          && b in Blocks() && !b.used && b.Size() == PagesFor(size) * PAGE_SIZE >= size
                          && b.start % PAGE_SIZE == 0 && b.start > 0
                          && Clear(old(Blocks()), b)
                          && (forall a: nat :: Covers(Blocks(), a) <==> Covers(old(Blocks()), a) || In(b, a))
                          && Used(Blocks()) == Used(old(Blocks()))
    {
      PagesForWraps(size);
      var n := PagesFor(size);
      var page := Sbrk(n, hint, full);
      if page.None? { return None; }
      var start := page.value * PAGE_SIZE;
      var b := Block(start, start + n * PAGE_SIZE, info, false);
      WindowIsClear(Blocks(), old(pages), page.value, n, b);
      AddKeeps(root, b);
      root := AddNode(root, b);
      WholePagesPlus(old(Blocks()), Blocks(), b.start, b.end);
      r := Some(b);
    }

    /** Turns the first `size` bytes of a free block into a used block; what is left of it, if anything, becomes a
        free block with the page information of the request. */
    method Carve(found: Block, size: nat, info: PageInfo)
      requires Valid() && found in Blocks() && !found.used && 0 < size <= found.Size()
      modifies this`root
      ensures Valid()
      ensures forall a: nat :: Covers(Blocks(), a) <==> Covers(old(Blocks()), a)
      ensures Used(Blocks()) == Used(old(Blocks())) + {Block(found.start, found.start + size, found.info, true)}
      ensures found.Size() > size ==> Block(found.start + size, found.end, info, false) in Blocks()
    {
      var b := found;
      ghost var t := root;
      Search(root, b.start);
      if found.Size() > size {
        b := found.(end := found.start + size);
        SplitKeeps(root, found, b, info);
        root := SetData(root, b.start, b);
        root := AddNode(root, Block(b.end, found.end, info, false));
      }
      UseKeeps(root, b);
      root := SetData(root, b.start, b.(used := true));
      WholePagesFramed(InOrder(t), Blocks());
    }

    /** A free block of the tree that fits, or else one made of new pages. */
    method Obtain(size: nat, info: PageInfo, hint: Hint, full: bool) returns (r: Option<Block>, ghost window: Block)
      requires Valid() && 0 < size && size + PAGE_SIZE - 1 < TWO_32 && HintOk(hint)
      modifies this
      ensures Valid() && Used(Blocks()) == Used(old(Blocks()))
      ensures Unfit(old(Blocks()), size, hint) ==>
                if full then r == None
                else FirstFit(old(pages), PagesFor(size), hint, old(lowestFreePage), PageOf(r))
      ensures r.Some? && Unfit(old(Blocks()), size, hint) ==>
                r.value == window && window.Size() == PagesFor(size) * PAGE_SIZE && Clear(old(Blocks()), window)
      ensures !Unfit(old(Blocks()), size, hint) ==>
                r.Some? && r.value in old(Blocks()) && window.start == window.end
      ensures !Unfit(old(Blocks()), size, hint) || r.None? ==>
                root == old(root) && pages == old(pages) && lowestFreePage == old(lowestFreePage)
      ensures r.Some? ==> r.value in Blocks() && !r.value.used && r.value.Size() >= size && AtHint(r.value.start, hint)
      ensures r.Some? ==> forall a: nat :: Covers(Blocks(), a) <==> Covers(old(Blocks()), a) || In(window, a)
    {
      window := Block(0, 0, info, false);
      FindFreeBlockComplete(root, size, hint);
      r := FindFreeBlock(root, size, hint);
      if r.None? {
        r := PhysicalAlloc(size, info, hint, full);
        if r.Some? { window := r.value; }
      }
    }

    /** Allocates `size` bytes: from a free block that fits if the tree has any, otherwise from new pages. All other
        used blocks stay as they are. */
    method Allocate(size: nat, info: PageInfo, hint: Hint, full: bool)
      returns (r: Option<nat>, ghost block: Block, ghost window: Block)
      requires Valid() && 0 < size && size + PAGE_SIZE - 1 < TWO_32 && HintOk(hint)
      requires info.policy >= 0 && ValidPolicy(info.policy)
      modifies this
      ensures Valid()
      ensures r.None? ==> root == old(root) && pages == old(pages) && lowestFreePage == old(lowestFreePage)
      // a mandatory hint is met exactly or not at all, and any hint bounds the page from below
      ensures r.Some? ==> AtHint(r.value, hint)
      // without a free block anywhere that meets size and hint, the search for new pages decides
      ensures Unfit(old(Blocks()), size, hint) ==>
                && (if full then r == None
                    else FirstFit(old(pages), PagesFor(size), hint, old(lowestFreePage), StartPage(r)))
                && (r.Some? ==> window.start == r.value && window.Size() == PagesFor(size) * PAGE_SIZE
                                && Clear(old(Blocks()), window))
      // with one, it is used and no page is asked for
      ensures !Unfit(old(Blocks()), size, hint) ==>
                && (exists b | b in old(Blocks()) && !b.used && b.end - b.start >= size :: r == Some(b.start))
                && window.start == window.end && pages == old(pages) && lowestFreePage == old(lowestFreePage)
      ensures r.Some? ==> block == Block(r.value, r.value + size, block.info, true)
                          && Used(Blocks()) == Used(old(Blocks())) + {block}
                          && (forall x | x in Used(old(Blocks())) :: Apart(x, block))
                          && (forall a: nat :: Covers(Blocks(), a) <==> Covers(old(Blocks()), a) || In(window, a))
    {
      var found;
      found, window := Obtain(size, info, hint, full);
      block := window;
      if found.None? { return None, block, window; }
      block := Block(found.value.start, found.value.start + size, found.value.info, true);
      UsedApart(Blocks(), found.value, block);
      Carve(found.value, size, info);
      r := Some(found.value.start);
    }

    /** One pass of the first loop below: the node swallows its free neighbour of the left subtree, if it has one. */
    method MergeBelow(key: nat) returns (merged: bool, key': nat)
      requires Ordered(Blocks()) && SubAt(root, key).Node? && !SubAt(root, key).data.used
      modifies this`root
      ensures Ordered(Blocks()) && SameMemory(old(Blocks()), Blocks())
      ensures |Blocks()| + (if merged then 1 else 0) <= |old(Blocks())|
      ensures SubAt(root, key').Node? && !SubAt(root, key').data.used
      ensures Within(old(SubAt(root, key).data), SubAt(root, key').data)
      ensures !merged ==> Unmatched(InOrder(SubAt(root, key').left), SubAt(root, key').data)
    {
      merged, key' := false, key;
      var r := MergePred(SubAt(root, key));
      if r.None? {
        NoneBelow(root, key);
        return;
      }
      MergePredFuses(root, key);
      PutFound(root, key, r.value);
      GrownBelow(root, key);
      merged, key', root := true, r.value.data.start, PutAt(root, key, r.value);
    }

    /** One pass of the second loop: the same in the right subtree. */
    method MergeAbove(key: nat) returns (merged: bool)
      requires Ordered(Blocks()) && SubAt(root, key).Node? && !SubAt(root, key).data.used
      requires Unmatched(InOrder(SubAt(root, key).left), SubAt(root, key).data)
      modifies this`root
      ensures Ordered(Blocks()) && SameMemory(old(Blocks()), Blocks())
      ensures |Blocks()| + (if merged then 1 else 0) <= |old(Blocks())|
      ensures SubAt(root, key).Node? && !SubAt(root, key).data.used
      ensures Within(old(SubAt(root, key).data), SubAt(root, key).data)
      ensures Unmatched(InOrder(SubAt(root, key).left), SubAt(root, key).data)
      ensures !merged ==> Coalesced(SubAt(root, key))
    {
      merged := false;
      MinSane(root, key);
      var r := MergeSucc(SubAt(root, key));
      if r.None? {
        NoneAbove(root, key);
        return;
      }
      StillBelow(root, key, r.value);
      MergeSuccFuses(root, key);
      PutBack(root, key, r.value);
      merged, root := true, PutAt(root, key, r.value);
    }

    /** Lets the node that starts at `start` swallow free neighbours of its own subtrees, first below, then above. */
    method MergeFreeNode(start: nat) returns (key: nat)
      requires Ordered(Blocks()) && SubAt(root, start).Node? && !SubAt(root, start).data.used
      modifies this`root
      ensures Ordered(Blocks()) && SameMemory(old(Blocks()), Blocks())
      ensures SubAt(root, key).Node? && !SubAt(root, key).data.used
      // the node has grown, until nothing in its subtrees is left to swallow
      ensures Within(old(SubAt(root, start).data), SubAt(root, key).data) && Coalesced(SubAt(root, key))
    {
      key := start;
      var merged := true;
      while merged
        invariant Ordered(Blocks()) && SameMemory(old(Blocks()), Blocks())
        invariant SubAt(root, key).Node? && !SubAt(root, key).data.used
        invariant Within(old(SubAt(root, start).data), SubAt(root, key).data)
        invariant merged || Unmatched(InOrder(SubAt(root, key).left), SubAt(root, key).data)
        decreases |Blocks()| + if merged then 1 else 0
      {
        merged, key := MergeBelow(key);
      }
      merged := true;
      while merged
        invariant Ordered(Blocks()) && SameMemory(old(Blocks()), Blocks())
        invariant SubAt(root, key).Node? && !SubAt(root, key).data.used
        invariant Within(old(SubAt(root, start).data), SubAt(root, key).data)
        invariant Unmatched(InOrder(SubAt(root, key).left), SubAt(root, key).data)
        invariant merged || Coalesced(SubAt(root, key))
        decreases |Blocks()| + if merged then 1 else 0
      {
        merged := MergeAbove(key);
      }
    }

    /** Takes the bytes from `lo` to `hi` of the free node at `key` out of the tree: the node goes, or keeps what lies
        below `lo`; what lies above `hi` becomes a node of its own. */
    method CutNode(key: nat, lo: nat, hi: nat)
      requires Ordered(Blocks()) && SubAt(root, key).Node? && !SubAt(root, key).data.used
      requires SubAt(root, key).data.start <= lo < hi <= SubAt(root, key).data.end
      modifies this`root
      ensures Ordered(Blocks()) && Used(Blocks()) == Used(old(Blocks()))
      ensures forall a: nat :: Covers(Blocks(), a) <==> Covers(old(Blocks()), a) && !(lo <= a < hi)
    {
      var node := SubAt(root, key).data;
      ghost var s := Blocks();
      AroundNode(root, key, node);
      assert node in s;
      OrderedIsSorted(s);
      if hi - lo == node.Size() {
        RemoveSorted(root, key);
        root := RemoveAt(root, key);
      } else {
        if hi < node.end {
          NoStartInside(s, node, hi);
          AddSorted(root, node.(start := hi));
          root := AddNode(root, node.(start := hi));
          SearchSorted(root, key);
        }
        if lo > node.start {
          SetSorted(root, key, node.(end := lo));
          root := SetData(root, key, node.(end := lo));
        } else {
          RemoveSorted(root, key);
          root := RemoveAt(root, key);
        }
      }
      assert CutOut(s, Blocks(), node, lo, hi);
      CutOutOrdered(s, Blocks(), node, lo, hi);
      CutOutUsed(s, Blocks(), node, lo, hi);
      forall a: nat ensures Covers(Blocks(), a) <==> Covers(s, a) && !(lo <= a < hi) {
        CutOutCovers(s, Blocks(), node, lo, hi, a);
      }
    }

    /** Hands back the whole pages inside the free node at `key`, from page `first` up to page `last`, when there
        are at least two. */
    method ReleasePages(key: nat) returns (ghost first: nat, ghost last: nat)
      requires Valid() && SubAt(root, key).Node? && !SubAt(root, key).data.used
      modifies this`root, this`pages
      ensures Valid() && Used(Blocks()) == Used(old(Blocks()))
      ensures first <= last <= PAGES && Released(old(Blocks()), Blocks(), first, last)
      ensures pages == MarkPages(old(pages), first, last - first, false)
      ensures var lo, hi := FirstPage(old(SubAt(root, key).data)), LastPage(old(SubAt(root, key).data));
              (first, last) == if lo + 2 <= hi then (lo, hi) else (0, 0)
    {
      var node := SubAt(root, key).data;
      AroundNode(root, key, node);
      Member(Blocks(), node);
      var ns := node.Size();
      var alignedStart := (node.start + PAGE_SIZE - 1) / PAGE_SIZE * PAGE_SIZE;
      var alignedEnd := node.end / PAGE_SIZE * PAGE_SIZE;
      Aligned(node.start, node.end);
      var n := if ns > PAGE_SIZE then (alignedEnd - alignedStart) / PAGE_SIZE else 0;
      first, last := 0, 0;
      if n >= 2 {
        first, last := (node.start + PAGE_SIZE - 1) / PAGE_SIZE, node.end / PAGE_SIZE;
        HandBack(key, alignedStart, n, first, last);
      }
    }

    /** Takes `n` whole pages of the free node at `key` out of the tree and marks them unused. */
    method HandBack(key: nat, alignedStart: nat, n: nat, ghost first: nat, ghost last: nat)
      requires Valid() && SubAt(root, key).Node? && !SubAt(root, key).data.used && SubAt(root, key).data in Blocks()
      requires first < last && n == last - first && alignedStart == first * PAGE_SIZE
      requires SubAt(root, key).data.start <= first * PAGE_SIZE && last * PAGE_SIZE <= SubAt(root, key).data.end
      modifies this`root, this`pages
      ensures Valid() && Used(Blocks()) == Used(old(Blocks()))
      ensures last <= PAGES && Released(old(Blocks()), Blocks(), first, last)
      ensures pages == MarkPages(old(pages), first, n, false)
    {
      ghost var node := SubAt(root, key).data;
      PagesInUse(Blocks(), pages, node, first, last);
      CutNode(key, alignedStart, alignedStart + n * PAGE_SIZE);
      PagesCutOut(old(Blocks()), Blocks(), node, first, last);
      StillBacked(old(Blocks()), Blocks(), old(pages), first, last);
      pages := MarkPages(pages, alignedStart / PAGE_SIZE, n, false);
    }

    /** `free_node`: the block becomes free, merges, and hands back whole pages. */
    method FreeNode(start: nat) returns (ghost first: nat, ghost last: nat)
      requires Valid() && SubAt(root, start).Node? && SubAt(root, start).data.used
      modifies this`root, this`pages
      ensures Valid()
      ensures Used(Blocks()) == Used(old(Blocks())) - {old(SubAt(root, start).data)}
      ensures first <= last <= PAGES && Released(old(Blocks()), Blocks(), first, last)
      ensures HandedBack(old(SubAt(root, start).data), first, last)
      ensures pages == MarkPages(old(pages), first, last - first, false)
    {
      var b := SubAt(root, start).data;
      ghost var s := Blocks();
      FreeMarkKeeps(root, start);
      PutFound(root, start, Node(SubAt(root, start).left, b.(used := false), SubAt(root, start).right));
      root := SetData(root, start, b.(used := false));
      var key := MergeFreeNode(start);
      WholePagesFramed(s, Blocks());
      first, last := ReleasePages(key);
    }

    /** Frees the used block that starts at an address; any other address changes nothing. */
    method Free(address: nat) returns (r: FreeState, ghost first: nat, ghost last: nat)
      requires Valid()
      modifies this`root, this`pages
      ensures Valid()
      ensures address == 0 ==> r == Ok
      ensures address != 0 ==> (r == NotFound <==> forall b | b in old(Blocks()) :: b.start != address)
      ensures address != 0 ==> (r == DoubleFree <==> exists b | b in old(Blocks()) :: b.start == address && !b.used)
      ensures r != Ok || address == 0 ==> root == old(root) && pages == old(pages)
      ensures r == Ok && address != 0 ==>
                && (exists b | b in Used(old(Blocks())) && b.start == address
                    :: Used(Blocks()) == Used(old(Blocks())) - {b} && HandedBack(b, first, last))
                && first <= last <= PAGES && Released(old(Blocks()), Blocks(), first, last)
                && pages == MarkPages(old(pages), first, last - first, false)
    {
      first, last := 0, 0;
      if address == 0 { return Ok, 0, 0; }
      var cur := root;
      while cur.Node?
        invariant SubAt(root, address) == SubAt(cur, address)
        decreases cur
      {
        if cur.data.start == address {
          AroundNode(root, address, cur.data);
          assert cur.data in Blocks();
          if !cur.data.used { return DoubleFree, 0, 0; }
          OnlyStart(Blocks(), cur.data);
          first, last := FreeNode(address);
          return Ok, first, last;
        }
        cur := if cur.data.start > address then cur.left else cur.right;
      }
      Search(root, address);
      r := NotFound;
    }

    /** Takes the lowest block, and those that follow it without a gap, out of the tree. */
    method TakeRun() returns (start: nat, end: nat, ghost k: nat)
      requires Ordered(Blocks()) && root.Node?
      modifies this`root
      ensures 0 < k <= |old(Blocks())| && Run(old(Blocks()), k) && Blocks() == old(Blocks())[k..]
      ensures start == old(Blocks())[0].start && end == old(Blocks())[k - 1].end
    {
      ghost var u := Blocks();
      var lowest := TakeLowest(u, 0);
      start, end := lowest.start, lowest.end;
      k := 1;
      var contiguous := root.Node? && Min(root).start == end;
      while contiguous
        invariant 0 < k <= |u| && Blocks() == u[k..] && end == u[k - 1].end
        invariant forall i | 0 < i < k :: Follows(u, i)
        invariant contiguous <==> root.Node? && Min(root).start == end
        decreases |u| - k
      {
        lowest := TakeLowest(u, k);
        assert Follows(u, k);
        end := lowest.end;
        k := k + 1;
        contiguous := root.Node? && Min(root).start == end;
      }
      if root.Node? { PopMin(root, u, k); }
    }

    /** Takes the lowest block of what is left of `u`, its blocks from the `k`-th on, out of the tree. */
    method TakeLowest(ghost u: seq<Block>, ghost k: nat) returns (b: Block)
      requires root.Node? && k <= |u| && Blocks() == u[k..]
      modifies this`root
      ensures k < |u| && b == u[k] == old(Min(root)) && Blocks() == u[k + 1..]
    {
      PopMin(root, u, k);
      b := Min(root);
      root := RemoveMin(root);
    }

    /** Frees the pages of one run and adds them to the list. */
    method FreeRun(first: nat, n: nat, freed: seq<nat>) returns (freed': seq<nat>)
      requires first + n <= |pages| && Ascending(freed) && forall p | p in freed :: p < first
      modifies this`pages
      ensures pages == MarkPages(old(pages), first, n, false)
      ensures Ascending(freed') && forall p :: p in freed' <==> p in freed || first <= p < first + n
    {
      freed' := freed;
      var i := 0;
      while i < n
        invariant 0 <= i <= n && |pages| == |old(pages)|
        invariant forall p | 0 <= p < |pages| :: pages[p] == if first <= p < first + i then false else old(pages)[p]
        invariant Ascending(freed') && forall p :: p in freed' <==> p in freed || first <= p < first + i
      {
        pages := pages[first + i := false];
        AscendingSnoc(freed', first + i);
        freed' := freed' + [first + i];
        i := i + 1;
      }
      assert pages == MarkPages(old(pages), first, n, false);
    }

    /** Empties the tree run by run and frees the pages of each run; `ok` is false if a run were not whole pages.
        Every covered page is freed, once, and no other. */
    method FreeAll() returns (ok: bool, freed: seq<nat>)
      requires Valid()
      modifies this`root, this`pages
      ensures ok && root == Leaf && Ascending(freed)
      ensures forall a: nat :: Covers(old(Blocks()), a) <==> a / PAGE_SIZE in freed
      ensures |pages| == PAGES && forall p | 0 <= p < PAGES :: pages[p] <==> old(pages)[p] && p !in freed
    {
      freed := [];
      ghost var all, before := Blocks(), pages;
      ghost var top: nat := 0;
      while root.Node?
        invariant Ordered(Blocks()) && WholePages(Blocks()) && |pages| == PAGES
        invariant Ascending(freed) && (forall p | p in freed :: p < top) && Above(Blocks(), top)
        invariant forall a: nat :: Covers(all, a) <==> Covers(Blocks(), a) || a / PAGE_SIZE in freed
        invariant forall p | 0 <= p < PAGES :: pages[p] <==> before[p] && p !in freed
        decreases |Blocks()|
      {
        ghost var u := Blocks();
        var start, end, k := TakeRun();
        RunIsPages(u, k);
        if (end - start) % PAGE_SIZE != 0 { return false, freed; }
        var n := (end - start) / PAGE_SIZE;
        RunPages(all, before, u, k, start, end, freed, top);
        freed := FreeRun(start / PAGE_SIZE, n, freed);
        top := end / PAGE_SIZE;
      }
      ok := true;
    }

    /** Enters pages mapped from outside, such as a program's segments. The overlap test does not fire on a range
        clear of every block. */
    method RegisterExternal(b: Block) returns (ok: bool)
      requires Valid() && Clear(Blocks(), b)
      requires b.start % PAGE_SIZE == 0 && b.end % PAGE_SIZE == 0 && b.end <= PAGES * PAGE_SIZE
      requires forall p | b.start / PAGE_SIZE <= p < b.end / PAGE_SIZE :: pages[p]
      modifies this`root
      ensures ok && Valid()
      ensures forall a: nat :: Covers(Blocks(), a) <==> Covers(old(Blocks()), a) || In(b, a)
      ensures Used(Blocks()) == Used(old(Blocks())) + if b.used then {b} else {}
    {
      AnyOverlapMembers(b, root);
      forall x | x in Blocks() ensures !DoOverlap(b, x) {
        Member(Blocks(), x);
        OverlapTestExact(b, x);
      }
      if AnyOverlap(b, root) { return false; }
      AddKeeps(root, b);
      root := AddNode(root, b);
      WholePagesPlus(old(Blocks()), Blocks(), b.start, b.end);
      ok := true;
    }

    ghost function Now(): HeapState
      reads this
    {
      HeapState(Blocks(), pages, lowestFreePage)
    }

    /** One request. */
    method Serve(op: Request) returns (ghost e: Event)
      requires Valid() && op.Acceptable()
      modifies this
      ensures Valid() && Served(op, e, old(Now()), Now())
    {
      match op {
        case AllocateRequest(size, info, hint, full) =>
          var r, b, w := Allocate(size, info, hint, full);
          e := Allocated(r, b, w);
        case FreeRequest(address) =>
          var r, f, l := Free(address);
          e := Freed(r, f, l);
        case RegisterRequest(b) =>
          ClearOfAll(root, b);
          var ok := false;
          if b.start < b.end && ClearOf(root, b) && Mapped(b, pages) { ok := RegisterExternal(b); }
          e := Registered(ok);
      }
    }

    /** A whole life of a heap: any requests in any order, registrations of pages mapped from outside among them,
        then `free_all`. Each request does what it should, every state on the way is valid, and at the end exactly the
        pages then covered are handed back, each once. */
    method Lifetime(ops: seq<Request>) returns (freed: seq<nat>, ghost log: seq<Event>, ghost states: seq<HeapState>)
      requires Valid() && forall op | op in ops :: op.Acceptable()
      modifies this
      ensures |log| == |ops| && |states| == |ops| + 1 && states[0] == old(Now())
      ensures forall i | 0 <= i < |ops| :: Served(ops[i], log[i], states[i], states[i + 1])
      ensures forall i | 0 <= i <= |ops| :: Ordered(states[i].blocks) && WholePages(states[i].blocks)
      ensures root == Leaf && Ascending(freed)
      ensures forall a: nat :: Covers(states[|ops|].blocks, a) <==> a / PAGE_SIZE in freed
    {
      log, states := [], [Now()];
      var i := 0;
      while i < |ops|
        invariant 0 <= i <= |ops| && Valid() && |log| == i && |states| == i + 1
        invariant states[0] == old(Now()) && states[i] == Now()
        invariant forall j | 0 <= j < i :: Served(ops[j], log[j], states[j], states[j + 1])
        invariant forall j | 0 <= j <= i :: Ordered(states[j].blocks) && WholePages(states[j].blocks)
      {
        assert ops[i] in ops;
        ghost var e := Serve(ops[i]);
        log, states := log + [e], states + [Now()];
        i := i + 1;
      }
      var ok;
      ok, freed := FreeAll();
    }
  }

  datatype HeapState = HeapState(blocks: seq<Block>, pages: seq<bool>, low: nat)

  /** How a request went: the address, the used block and the new pages; the answer and the pages handed back; whether
      the range was entered. */
  datatype Event =
    | Allocated(r: Option<nat>, block: Block, window: Block)
    | Freed(answer: FreeState, first: nat, last: nat)
    | Registered(ok: bool)

  /** What a request should do to the heap. */
  ghost predicate Served(op: Request, e: Event, s: HeapState, s': HeapState) {
    match op
    case AllocateRequest(size, info, hint, full) => e.Allocated? && Gave(size, hint, full, e, s, s')
    case FreeRequest(address) => e.Freed? && TookBack(address, e, s, s')
    case RegisterRequest(b) => e.Registered? && Entered(b, e.ok, s, s')
  }

  ghost predicate Gave(size: nat, hint: Hint, full: bool, e: Event, s: HeapState, s': HeapState)
    requires e.Allocated?
  {
    && (e.r.None? ==> s' == s)
    && (Unfit(s.blocks, size, hint) ==>
          if full then e.r == None else FirstFit(s.pages, PagesFor(size), hint, s.low, StartPage(e.r)))
    && (!Unfit(s.blocks, size, hint) ==> e.r.Some? && s'.pages == s.pages)
    && (e.r.Some? ==>
          && AtHint(e.r.value, hint) && e.block == Block(e.r.value, e.r.value + size, e.block.info, true)
          && Used(s'.blocks) == Used(s.blocks) + {e.block} && (forall x | x in Used(s.blocks) :: Apart(x, e.block))
          && (forall a: nat :: Covers(s'.blocks, a) <==> Covers(s.blocks, a) || In(e.window, a)))
  }

  ghost predicate TookBack(address: nat, e: Event, s: HeapState, s': HeapState)
    requires e.Freed?
  {
    if address == 0 || e.answer != Ok then
      && s' == s
      && (address != 0 ==> forall b | b in s.blocks && b.start == address :: !b.used)
    else
      exists b | b in Used(s.blocks) && b.start == address ::
        && Used(s'.blocks) == Used(s.blocks) - {b} && HandedBack(b, e.first, e.last)
        && Released(s.blocks, s'.blocks, e.first, e.last)
  }

  ghost predicate Entered(b: Block, ok: bool, s: HeapState, s': HeapState) {
    && ok == (b.start < b.end && Clear(s.blocks, b) && Mapped(b, s.pages))
    && (!ok ==> s' == s)
    && (ok ==>
          && s'.pages == s.pages && Used(s'.blocks) == Used(s.blocks) + (if b.used then {b} else {})
          && forall a: nat :: Covers(s'.blocks, a) <==> Covers(s.blocks, a) || In(b, a))
  }

  datatype Request =
    | AllocateRequest(size: nat, info: PageInfo, hint: Hint, full: bool)
    | FreeRequest(address: nat)
    | RegisterRequest(block: Block)
  {
    predicate Acceptable() {
      AllocateRequest? ==>
        0 < size && size + PAGE_SIZE - 1 < TWO_32 && HintOk(hint) && info.policy >= 0 && ValidPolicy(info.policy)
    }
  }

  /** Whole pages, all of them in use in the page table. */
  predicate Mapped(b: Block, pages: seq<bool>) {
    && b.start % PAGE_SIZE == 0 && b.end % PAGE_SIZE == 0 && 0 <= b.start <= b.end <= PAGES * PAGE_SIZE
    && |pages| == PAGES
    && forall p | b.start / PAGE_SIZE <= p < b.end / PAGE_SIZE :: pages[p]
  }

  ghost predicate Ascending(s: seq<nat>) {
    forall i, j | 0 <= i < j < |s| :: s[i] < s[j]
  }

  lemma AscendingSnoc(s: seq<nat>, x: nat)
    requires Ascending(s) && forall p | p in s :: p < x
    ensures Ascending(s + [x])
  {
    forall i | 0 <= i < |s| ensures s[i] < x { assert s[i] in s; }
  }

  /** Nothing is covered below page `top`. */
  ghost predicate Above(s: seq<Block>, top: nat) {
    forall a: nat | Covers(s, a) :: top <= a / PAGE_SIZE
  }

  lemma RunPages(all: seq<Block>, pages: seq<bool>, u: seq<Block>, k: nat, start: nat, end: nat,
                 freed: seq<nat>, top: nat)
    requires Ordered(u) && WholePages(u) && 0 < k <= |u| && Run(u, k) && start == u[0].start && end == u[k - 1].end
    requires Backed(all, pages) && Above(u, top) && forall p | p in freed :: p < top
    requires forall a: nat :: Covers(all, a) <==> Covers(u, a) || a / PAGE_SIZE in freed
    ensures var (first, n) := (start / PAGE_SIZE, (end - start) / PAGE_SIZE);
            && first + n == end / PAGE_SIZE <= |pages| && (forall p | p in freed :: p < first)
            && Above(u[k..], end / PAGE_SIZE)
            && (forall a: nat :: Covers(all, a) <==>
                  Covers(u[k..], a) || first <= a / PAGE_SIZE < first + n || a / PAGE_SIZE in freed)
  {
    RunIsPages(u, k);
    assert Covers(u, start) && Covers(u, end - 1);
    assert Covers(all, end - 1);
    forall a: nat ensures Covers(all, a) <==>
        Covers(u[k..], a) || start / PAGE_SIZE <= a / PAGE_SIZE < end / PAGE_SIZE || a / PAGE_SIZE in freed
    {
      PageBytes(a, start / PAGE_SIZE, end / PAGE_SIZE);
    }
  }

  predicate OnPages(a: nat, first: nat, last: nat) { first <= a / PAGE_SIZE < last }

  /** Exactly the bytes of pages `first` to `last - 1`, all of them covered before, are not covered any more. */
  ghost predicate Released(s: seq<Block>, s': seq<Block>, first: nat, last: nat) {
    && (forall a: nat :: Covers(s', a) <==> Covers(s, a) && !OnPages(a, first, last))
    && (forall a: nat | OnPages(a, first, last) :: Covers(s, a))
  }

  /** A block longer than a page reaches from its first page boundary to its last one without crossing them. */
  lemma Aligned(start: nat, end: nat)
    requires start < end
    ensures var (first, last) := ((start + PAGE_SIZE - 1) / PAGE_SIZE, end / PAGE_SIZE);
            && start <= first * PAGE_SIZE && last * PAGE_SIZE <= end
            && first * PAGE_SIZE / PAGE_SIZE == first
            && (end - start > PAGE_SIZE ==>
                  first <= last && (last * PAGE_SIZE - first * PAGE_SIZE) / PAGE_SIZE == last - first)
  {
  }

  lemma PageBytes(a: nat, first: nat, last: nat)
    ensures OnPages(a, first, last) <==> first * PAGE_SIZE <= a < last * PAGE_SIZE
  {
  }

  lemma PagesInUse(s: seq<Block>, pages: seq<bool>, b: Block, first: nat, last: nat)
    requires Backed(s, pages) && b in s && b.start <= first * PAGE_SIZE && last * PAGE_SIZE <= b.end && first < last
    ensures last <= |pages|
  {
    var a := last * PAGE_SIZE - 1;
    MemberCovers(s, b, a);
    assert a / PAGE_SIZE == last - 1;
  }

  lemma PagesCutOut(s: seq<Block>, s': seq<Block>, b: Block, first: nat, last: nat)
    requires WholePages(s) && b in s && b.start <= first * PAGE_SIZE && last * PAGE_SIZE <= b.end
    requires forall a: nat :: Covers(s', a) <==> Covers(s, a) && !(first * PAGE_SIZE <= a < last * PAGE_SIZE)
    ensures Released(s, s', first, last) && WholePages(s')
  {
  }

  lemma StillBacked(s: seq<Block>, s': seq<Block>, pages: seq<bool>, first: nat, last: nat)
    requires Backed(s, pages) && first <= last <= |pages| && Released(s, s', first, last)
    ensures Backed(s', MarkPages(pages, first, last - first, false))
  {
  }

  /** The page that pass `i` of the release loop of `free_node` names: the loop hands a page number to a function that
      takes an address, and steps it by bytes. */
  function NamedPage(alignedStart: nat, i: nat): nat {
    (alignedStart + i) / PAGE_SIZE / PAGE_SIZE
  }

  /** So of the pages from `first` to `last` that leave the tree, the loop names none but page 0. */
  lemma ReleaseStrays(first: nat, last: nat, p: nat)
    requires first + 2 <= last <= PAGES && first <= p < last
    ensures (exists i | 0 <= i < last - first :: NamedPage(first * PAGE_SIZE, i) == p) <==> p == 0
  {
    forall i | 0 <= i < last - first ensures NamedPage(first * PAGE_SIZE, i) == p ==> p == 0 {
      assert NamedPage(first * PAGE_SIZE, i) * PAGE_SIZE <= (first * PAGE_SIZE + i) / PAGE_SIZE <= first + i;
    }
    if p == 0 { assert NamedPage(first * PAGE_SIZE, 0) == 0; }
  }

  /** The whole pages inside a block. */
  function FirstPage(b: Block): nat { (b.start + PAGE_SIZE - 1) / PAGE_SIZE }

  function LastPage(b: Block): nat { b.end / PAGE_SIZE }

  /** Pages are handed back two or more at a time, and all those inside `b` if there are that many. */
  predicate HandedBack(b: Block, first: nat, last: nat) {
    && (first == last || first + 2 <= last)
    && (FirstPage(b) + 2 <= LastPage(b) ==> first <= FirstPage(b) && LastPage(b) <= last)
  }

  predicate Within(b: Block, c: Block) { c.start <= b.start && b.end <= c.end && c.info == b.info }

  /** No block could be fused with `d`. */
  ghost predicate Unmatched(s: seq<Block>, d: Block) {
    forall b | b in s :: !((b.end == d.start || d.end == b.start) && b.info == d.info && b.used == d.used)
  }

  ghost predicate Coalesced(t: Tree)
    requires t.Node?
  {
    Unmatched(InOrder(t.left), t.data) && Unmatched(InOrder(t.right), t.data)
  }

  lemma SubOrdered(t: Tree, key: nat)
    requires Ordered(InOrder(t)) && SubAt(t, key).Node?
    ensures var u := SubAt(t, key);
            && Ordered(InOrder(u.left)) && Ordered(InOrder(u.right)) && u.data.start < u.data.end
            && (forall b | b in InOrder(u.left) :: b.end <= u.data.start)
            && (forall b | b in InOrder(u.right) :: u.data.end <= b.start)
  {
    var u := SubAt(t, key);
    AroundNode(t, key, u.data);
    OrderedParts(Lower(t, key) + [u.data], Upper(t, key));
    OrderedParts(Lower(t, key), [u.data]);
    OrderedParts(Before(t, key), InOrder(u.left));
    OrderedParts(InOrder(u.right), After(t, key));
    assert [u.data][0] == u.data;
  }

  /** The nearest block below is the only one that can touch the node from below. */
  lemma NoneBelow(t: Tree, key: nat)
    requires Ordered(InOrder(t)) && SubAt(t, key).Node? && MergePred(SubAt(t, key)).None?
    ensures Unmatched(InOrder(SubAt(t, key).left), SubAt(t, key).data)
  {
    var u := SubAt(t, key);
    SubOrdered(t, key);
    if u.left.Node? {
      MaxLast(u.left);
      OnlyLastTouches(InOrder(u.left), u.data);
    }
  }

  lemma OnlyLastTouches(s: seq<Block>, d: Block)
    requires Ordered(s) && s != [] && d.start < d.end && forall b | b in s :: b.end <= d.start
    requires !s[|s| - 1].SimilarAndContiguous(d)
    ensures Unmatched(s, d)
  {
    forall i | 0 <= i < |s| - 1 ensures s[i].end < d.start { assert s[|s| - 1] in s; }
  }

  lemma NoneAbove(t: Tree, key: nat)
    requires Ordered(InOrder(t)) && SubAt(t, key).Node?
    requires SubAt(t, key).right.Node? ==> Min(SubAt(t, key).right).end >= Min(SubAt(t, key).right).start
    requires MergeSucc(SubAt(t, key)).None?
    ensures Unmatched(InOrder(SubAt(t, key).right), SubAt(t, key).data)
  {
    var u := SubAt(t, key);
    SubOrdered(t, key);
    if u.right.Node? {
      MinFirst(u.right);
      OnlyFirstTouches(InOrder(u.right), u.data);
    }
  }

  lemma OnlyFirstTouches(s: seq<Block>, d: Block)
    requires Ordered(s) && s != [] && d.start < d.end && forall b | b in s :: d.end <= b.start
    requires !s[0].SimilarAndContiguous(d)
    ensures Unmatched(s, d)
  {
    forall i | 0 < i < |s| ensures d.end < s[i].start { assert s[0] in s; }
  }

  lemma {:induction false} PutBack(t: Tree, key: nat, sub: Tree)
    requires SubAt(t, key).Node? && sub.Node? && sub.data.start == SubAt(t, key).data.start
    ensures SubAt(PutAt(t, key, sub), key) == sub
  {
    if t.data.start > key {
      PutBack(t.left, key, sub);
    } else if t.data.start < key {
      PutBack(t.right, key, sub);
    }
  }

  lemma GrownBelow(t: Tree, key: nat)
    requires Ordered(InOrder(t)) && SubAt(t, key).Node? && MergePred(SubAt(t, key)).Some?
    ensures Within(SubAt(t, key).data, MergePred(SubAt(t, key)).value.data)
  {
    var u := SubAt(t, key);
    SubOrdered(t, key);
    MaxLast(u.left);
    assert Max(u.left) in InOrder(u.left);
    Member(InOrder(u.left), Max(u.left));
  }

  /** What is made of a free block is apart from every used one. */
  lemma UsedApart(s: seq<Block>, found: Block, b: Block)
    requires Ordered(s) && found in s && !found.used && found.start == b.start && b.end <= found.end
    ensures forall x | x in Used(s) :: Apart(x, b)
  {
    forall x | x in Used(s) ensures Apart(x, b) { OrderedApart(s, x, found); }
  }

  /** Growing at the upper end does not matter below. */
  lemma StillBelow(t: Tree, key: nat, u': Tree)
    requires Ordered(InOrder(t)) && SubAt(t, key).Node? && u'.Node? && u'.left == SubAt(t, key).left
    requires Unmatched(InOrder(SubAt(t, key).left), SubAt(t, key).data)
    requires u'.data == SubAt(t, key).data.(end := u'.data.end) && u'.data.end >= SubAt(t, key).data.end
    ensures Unmatched(InOrder(u'.left), u'.data)
  {
    SubOrdered(t, key);
    forall b | b in InOrder(u'.left) ensures b.start < u'.data.end { Member(InOrder(u'.left), b); }
  }

  lemma PopMin(t: Tree, u: seq<Block>, k: nat)
    requires t.Node? && k <= |u| && InOrder(t) == u[k..]
    ensures k < |u| && Min(t) == u[k] && InOrder(RemoveMin(t)) == u[k + 1..]
  {
    MinFirst(t);
    assert u[k..][0] == u[k] && u[k..][1..] == u[k + 1..];
  }

  lemma OnlyStart(s: seq<Block>, b: Block)
    requires Ordered(s) && b in s
    ensures forall x | x in s && x.start == b.start :: x == b
  {
  }

  /** A run at the bottom of whole pages is a whole number of pages, and leaves whole pages above it. */
  lemma RunIsPages(s: seq<Block>, k: nat)
    requires Ordered(s) && WholePages(s) && 0 < k <= |s| && Run(s, k)
    ensures var (start, end) := (s[0].start, s[k - 1].end);
            && start < end && start % PAGE_SIZE == 0 && end % PAGE_SIZE == 0 && (end - start) % PAGE_SIZE == 0
            && Ordered(s[k..]) && WholePages(s[k..])
            && (forall a: nat :: Covers(s, a) <==> Covers(s[k..], a) || start <= a < end)
            && (forall a: nat | Covers(s[k..], a) :: end <= a)
  {
    FirstStartsPage(s);
    RunEndsPage(s, k);
    RestIsWhole(s, k);
    RunCovers(s, k, 0);
    forall a: nat ensures Covers(s, a) <==> Covers(s[k..], a) || s[0].start <= a < s[k - 1].end {
      RunCovers(s, k, a);
      CoversConcat(s[..k], s[k..], a);
      assert s == s[..k] + s[k..];
    }
    RestAbove(s, k);
  }

  lemma NoStartInside(s: seq<Block>, b: Block, at: nat)
    requires Ordered(s) && b in s && b.start < at < b.end
    ensures forall x | x in s :: x.start != at
  {
  }

  lemma FreeMarkKeeps(t: Tree, key: nat)
    requires Ordered(InOrder(t)) && SubAt(t, key).Node? && SubAt(t, key).data.used
    ensures var (t', b) := (SetData(t, key, SubAt(t, key).data.(used := false)), SubAt(t, key).data);
            && Ordered(InOrder(t'))
            && (forall a: nat :: Covers(InOrder(t'), a) <==> Covers(InOrder(t), a))
            && Used(InOrder(t')) == Used(InOrder(t)) - {b}
  {
    var b := SubAt(t, key).data;
    AroundNode(t, key, b);
    assert b in InOrder(t);
    Member(InOrder(t), b);
    SetKeeps(t, key, b.(used := false));
    forall a: nat ensures Covers(InOrder(SetData(t, key, b.(used := false))), a) <==> Covers(InOrder(t), a) {
      MemberCovers(InOrder(t), b, a);
    }
  }

  /** The node written back is found under its own start. */
  lemma PutFound(t: Tree, key: nat, sub: Tree)
    requires sub.Node? && Ordered(InOrder(PutAt(t, key, sub)))
    ensures SubAt(PutAt(t, key, sub), sub.data.start).Node?
    ensures SubAt(PutAt(t, key, sub), sub.data.start).data == sub.data
    ensures SubAt(t, key).Node? ==> SubAt(t, key).data.start == key
  {
    Zipper(t, key, sub);
    assert sub.data in InOrder(sub);
    assert sub.data in InOrder(PutAt(t, key, sub));
    Search(PutAt(t, key, sub), sub.data.start);
  }

  lemma MinSane(t: Tree, key: nat)
    requires Ordered(InOrder(t)) && SubAt(t, key).Node?
    ensures var sub := SubAt(t, key); sub.right.Node? ==> Min(sub.right).end >= Min(sub.right).start
  {
    var sub := SubAt(t, key);
    if sub.right.Node? {
      MinFirst(sub.right);
      AroundNode(t, key, sub.data);
      assert Min(sub.right) in InOrder(sub.right);
      assert Min(sub.right) in InOrder(t);
      Member(InOrder(t), Min(sub.right));
    }
  }

  lemma SplitKeeps(t: Tree, found: Block, b: Block, info: PageInfo)
    requires Ordered(InOrder(t)) && found in InOrder(t) && !found.used
    requires found.start < b.end < found.end && b == found.(end := b.end)
    ensures SubAt(t, b.start).Node?
    ensures var t' := AddNode(SetData(t, b.start, b), Block(b.end, found.end, info, false));
            && Ordered(InOrder(t')) && SubAt(t', b.start).Node? && SubAt(t', b.start).data == b
            && Block(b.end, found.end, info, false) in InOrder(t')
            && (forall a: nat :: Covers(InOrder(t'), a) <==> Covers(InOrder(t), a))
            && Used(InOrder(t')) == Used(InOrder(t))
  {
    Search(t, b.start);
    SetKeeps(t, b.start, b);
    var t1 := SetData(t, b.start, b);
    var rest := Block(b.end, found.end, info, false);
    ShrunkLeavesClear(InOrder(t), InOrder(t1), found, b, rest);
    AddKeeps(t1, rest);
    var t' := AddNode(t1, rest);
    assert b in InOrder(t');
    Search(t', b.start);
    forall a: nat ensures Covers(InOrder(t'), a) <==> Covers(InOrder(t), a) {
      MemberCovers(InOrder(t), found, a);
    }
  }

  lemma MemberCovers(s: seq<Block>, b: Block, a: nat)
    requires b in s
    ensures In(b, a) ==> Covers(s, a)
  {
  }

  lemma ShrunkLeavesClear(s: seq<Block>, s1: seq<Block>, found: Block, b: Block, rest: Block)
    requires Ordered(s1) && rest.start < rest.end && found.start <= b.start < b.end == rest.start
    requires rest.end == found.end
    requires forall a: nat :: Covers(s1, a) <==> (Covers(s, a) && !In(found, a)) || In(b, a)
    ensures Clear(s1, rest)
  {
    UncoveredIsClear(s1, rest);
  }

  lemma UseKeeps(t: Tree, b: Block)
    requires Ordered(InOrder(t)) && SubAt(t, b.start).Node? && SubAt(t, b.start).data == b && !b.used
    ensures var t' := SetData(t, b.start, b.(used := true));
            && Ordered(InOrder(t')) && (forall x | x in InOrder(t) && x != b :: x in InOrder(t'))
            && (forall a: nat :: Covers(InOrder(t'), a) <==> Covers(InOrder(t), a))
            && Used(InOrder(t')) == Used(InOrder(t)) + {b.(used := true)}
  {
    AroundNode(t, b.start, b);
    assert b in InOrder(t);
    Member(InOrder(t), b);
    SetKeeps(t, b.start, b.(used := true));
    forall a: nat ensures Covers(InOrder(SetData(t, b.start, b.(used := true))), a) <==> Covers(InOrder(t), a) {
      MemberCovers(InOrder(t), b, a);
    }
  }

  /** A mandatory hint names a page other than the null page. */
  predicate HintOk(hint: Hint) {
    && hint.address < PAGES * PAGE_SIZE
    && (hint.mandatory ==> hint.address % PAGE_SIZE == 0 && hint.address != 0)
  }

  lemma WholePagesFramed(s: seq<Block>, s': seq<Block>)
    requires WholePages(s) && forall a: nat :: Covers(s, a) <==> Covers(s', a)
    ensures WholePages(s')
  {
    forall a: nat, b: nat | SamePage(a, b) && Covers(s', a) ensures Covers(s', b) {
      assert Covers(s, a);
      assert Covers(s, b);
    }
  }
}
