/** First-fit search for unused pages in a page table (RawMemory.cpp). */
module PageSearch {
  import opened Basics

  const PAGES: nat := 1024 * 1024
  const PAGE_SIZE: nat := 4096

  /** A search hint: the address wanted, and whether no other will do. */
  datatype Hint = Hint(address: nat, mandatory: bool)

  /** The `n` pages from `s` on exist and are all unused. */
  ghost predicate FreeWindow(used: seq<bool>, s: nat, n: nat) {
    s + n <= |used| && forall i | s <= i < s + n :: !used[i]
  }

  /** Index of the first used page from `from` up to `target`, or `target`. */
  method FirstUsed(used: seq<bool>, from: nat, target: nat) returns (p: nat)
    requires from <= target <= |used|
    ensures from <= p <= target
    ensures forall i | from <= i < p :: !used[i]
    ensures p < target ==> used[p]
  {
    p := from;
    while p != target && !used[p]
      invariant from <= p <= target
      invariant forall i | from <= i < p :: !used[i]
    {
      p := p + 1;
    }
  }

  /** No window that starts at or before a used page and reaches past it is free, so the search may jump over it. */
  lemma JumpSkipsNothing(used: seq<bool>, b: nat, n: nat, p: nat)
    requires b <= p < b + n && p < |used| && used[p]
    ensures forall s: nat | b <= s <= p :: !FreeWindow(used, s, n)
  {
  }

  /** `r` is the lowest free window of `n` pages at or above both bounds, or none when there is no such window. With a
      mandatory hint it is that page or none. */
  ghost predicate FirstFit(used: seq<bool>, n: nat, hint: Hint, lowest: nat, r: Option<nat>) {
    var page := hint.address / PAGE_SIZE;
    if hint.mandatory then r == if FreeWindow(used, page, n) then Some(page) else None
    else
      match r
      case Some(w) =>
        && lowest <= w && page <= w && FreeWindow(used, w, n)
        && forall s: nat | lowest <= s < w && page <= s :: !FreeWindow(used, s, n)
      case None => forall s: nat | lowest <= s && page <= s :: !FreeWindow(used, s, n)
  }

  method GetContiguousPages(used: seq<bool>, n: nat, hint: Hint, lowest: nat) returns (r: Option<nat>)
    requires |used| == PAGES && lowest <= PAGES && hint.address < PAGES * PAGE_SIZE
    requires hint.mandatory ==> hint.address % PAGE_SIZE == 0
    requires n + 2 * PAGES < 0x1_0000_0000
    ensures FirstFit(used, n, hint, lowest, r)
  {
    var page := hint.address / PAGE_SIZE;
    if hint.mandatory {
      if page + n > PAGES { return None; }
      var p := FirstUsed(used, page, page + n);
      return if p == page + n then Some(page) else None;
    }
    var b := if lowest > page then lowest else page;
    while true
      invariant lowest <= b && page <= b <= PAGES + 1
      invariant forall s: nat | lowest <= s < b && page <= s :: !FreeWindow(used, s, n)
      decreases PAGES + 1 - b
    {
      if b + n > PAGES { return None; }
      var p := FirstUsed(used, b, b + n);
      if p == b + n { return Some(b); }
      JumpSkipsNothing(used, b, n, p);
      b := p + 1;
    }
  }
}
