/** Address intervals in ascending order: what a heap tree means, whatever its shape. */
module MemBlocks {
  import opened PageSearch

  datatype PageInfo = PageInfo(flags: int, policy: int)

  datatype Block = Block(start: nat, end: nat, info: PageInfo, used: bool) {
    function Size(): int { end - start }

    /** `is_similar_and_contiguous` */
    predicate SimilarAndContiguous(o: Block) {
      (start == o.end || end == o.start) && info == o.info && used == o.used
    }
  }

  /** Non-empty blocks, in order, none reaching into the next. */
  ghost predicate Ordered(s: seq<Block>) {
    && (forall i | 0 <= i < |s| :: s[i].start < s[i].end)
    && (forall i, j | 0 <= i < j < |s| :: s[i].end <= s[j].start)
  }

  predicate In(b: Block, a: nat) { b.start <= a < b.end }

  ghost predicate Covers(s: seq<Block>, a: nat) {
    exists i | 0 <= i < |s| :: In(s[i], a)
  }

  ghost function Used(s: seq<Block>): set<Block> {
    set b | b in s && b.used
  }

  /** Same bytes covered, same blocks in use. */
  ghost predicate SameMemory(s: seq<Block>, s': seq<Block>) {
    && (forall a: nat :: Covers(s, a) <==> Covers(s', a))
    && Used(s) == Used(s')
  }

  lemma CoversConcat(s: seq<Block>, t: seq<Block>, a: nat)
    ensures Covers(s + t, a) <==> Covers(s, a) || Covers(t, a)
  {
    if Covers(s, a) {
      var i :| 0 <= i < |s| && In(s[i], a);
      assert In((s + t)[i], a);
    }
    if Covers(t, a) {
      var i :| 0 <= i < |t| && In(t[i], a);
      assert In((s + t)[|s| + i], a);
    }
  }

  lemma CoversOne(b: Block, a: nat)
    ensures Covers([b], a) <==> In(b, a)
  {
    if In(b, a) { assert In([b][0], a); }
  }

  /** Replacing a piece by another that covers the same bytes with the same used blocks changes no memory. */
  lemma Replace(p: seq<Block>, x: seq<Block>, y: seq<Block>, q: seq<Block>)
    requires SameMemory(x, y)
    ensures SameMemory(p + x + q, p + y + q)
  {
    forall a: nat ensures Covers(p + x + q, a) <==> Covers(p + y + q, a) {
      CoversConcat(p + x, q, a);
      CoversConcat(p, x, a);
      CoversConcat(p + y, q, a);
      CoversConcat(p, y, a);
    }
    UsedConcat(p + x, q);
    UsedConcat(p, x);
    UsedConcat(p + y, q);
    UsedConcat(p, y);
  }

  lemma UsedConcat(s: seq<Block>, t: seq<Block>)
    ensures Used(s + t) == Used(s) + Used(t)
  {
  }

  /** Any piece of an ordered sequence is ordered. */
  lemma OrderedParts(s: seq<Block>, t: seq<Block>)
    requires Ordered(s + t)
    ensures Ordered(s) && Ordered(t)
    ensures forall x, y | x in s && y in t :: x.end <= y.start
  {
    forall i, j | 0 <= i < j < |s| ensures s[i].end <= s[j].start {
      assert (s + t)[i] == s[i] && (s + t)[j] == s[j];
    }
    forall i, j | 0 <= i < j < |t| ensures t[i].end <= t[j].start {
      assert (s + t)[|s| + i] == t[i] && (s + t)[|s| + j] == t[j];
    }
    forall i | 0 <= i < |s| ensures s[i].start < s[i].end { assert (s + t)[i] == s[i]; }
    forall i | 0 <= i < |t| ensures t[i].start < t[i].end { assert (s + t)[|s| + i] == t[i]; }
    forall x, y | x in s && y in t ensures x.end <= y.start {
      var i :| 0 <= i < |s| && s[i] == x;
      var j :| 0 <= j < |t| && t[j] == y;
      assert (s + t)[i] == x && (s + t)[|s| + j] == y;
    }
  }

  lemma OrderedJoin(s: seq<Block>, t: seq<Block>)
    requires Ordered(s) && Ordered(t) && forall x, y | x in s && y in t :: x.end <= y.start
    ensures Ordered(s + t)
  {
  }

  /** An ordered sequence with its middle piece replaced by an ordered one that stays within the same bounds. */
  lemma OrderedReplace(p: seq<Block>, x: seq<Block>, y: seq<Block>, q: seq<Block>, lo: nat, hi: nat)
    requires Ordered(p + x + q) && Ordered(y)
    requires forall b | b in p :: b.end <= lo
    requires forall b | b in q :: hi <= b.start
    requires forall b | b in y :: lo <= b.start && b.end <= hi
    requires lo <= hi
    ensures Ordered(p + y + q)
  {
    OrderedParts(p + x, q);
    OrderedParts(p, x);
    OrderedJoin(p, y);
    OrderedJoin(p + y, q);
  }

  /** The bounds that a piece of an ordered sequence leaves around it. */
  lemma Bounds(p: seq<Block>, x: seq<Block>, q: seq<Block>)
    requires Ordered(p + x + q) && |x| > 0
    ensures Ordered(x)
    ensures forall b | b in p :: b.end <= x[0].start
    ensures forall b | b in q :: x[|x| - 1].end <= b.start
  {
    OrderedParts(p + x, q);
    OrderedParts(p, x);
    assert x[|x| - 1] in p + x && x[0] in x;
  }

  /** Two neighbours fused into one: a free block swallowing a free block next to it. */
  lemma Fuse(p: seq<Block>, u: Block, v: Block, q: seq<Block>)
    requires Ordered(p + [u, v] + q) && u.end == v.start && !u.used && !v.used
    ensures var w := Block(u.start, v.end, u.info, false);
            Ordered(p + [w] + q) && SameMemory(p + [u, v] + q, p + [w] + q)
  {
    var w := Block(u.start, v.end, u.info, false);
    Bounds(p, [u, v], q);
    assert [u, v][0] == u && [u, v][1] == v;
    OrderedReplace(p, [u, v], [w], q, u.start, v.end);
    forall a: nat ensures Covers([u, v], a) <==> Covers([w], a) {
      CoversOne(w, a);
      CoversOne(u, a);
      CoversOne(v, a);
      CoversConcat([u], [v], a);
      assert [u] + [v] == [u, v];
    }
    Replace(p, [u, v], [w], q);
  }

  // ---- whole pages ----

  predicate SamePage(a: nat, b: nat) { a / PAGE_SIZE == b / PAGE_SIZE }

  /** The covered bytes make whole pages. */
  ghost predicate WholePages(s: seq<Block>) {
    forall a: nat, b: nat {:trigger Covers(s, a), Covers(s, b)} :: SamePage(a, b) && Covers(s, a) ==> Covers(s, b)
  }

  lemma WholePagesMinus(s: seq<Block>, s': seq<Block>, lo: nat, hi: nat)
    requires WholePages(s) && lo % PAGE_SIZE == 0 && hi % PAGE_SIZE == 0
    requires forall a: nat :: Covers(s', a) <==> Covers(s, a) && !(lo <= a < hi)
    ensures WholePages(s')
  {
  }

  lemma WholePagesPlus(s: seq<Block>, s': seq<Block>, lo: nat, hi: nat)
    requires WholePages(s) && lo % PAGE_SIZE == 0 && hi % PAGE_SIZE == 0
    requires forall a: nat :: Covers(s', a) <==> Covers(s, a) || lo <= a < hi
    ensures WholePages(s')
  {
  }

  lemma NothingBelow(s: seq<Block>, a: nat)
    requires Ordered(s) && |s| > 0 && a < s[0].start
    ensures !Covers(s, a)
  {
  }

  /** The first block of whole pages starts a page. */
  lemma FirstStartsPage(s: seq<Block>)
    requires Ordered(s) && WholePages(s) && |s| > 0
    ensures s[0].start % PAGE_SIZE == 0
  {
    var a := s[0].start;
    if a % PAGE_SIZE != 0 {
      assert In(s[0], a) && SamePage(a, a - 1);
      assert Covers(s, a);
      NothingBelow(s, a - 1);
    }
  }

  predicate Follows(s: seq<Block>, i: nat)
    requires 0 < i < |s|
  {
    s[i].start == s[i - 1].end
  }

  /** The first `k` blocks follow each other without a gap, and the next one, if any, does not follow them. */
  ghost predicate Run(s: seq<Block>, k: nat)
    requires 0 < k <= |s|
  {
    && (forall i | 0 < i < k :: Follows(s, i))
    && (k < |s| ==> !Follows(s, k))
  }

  lemma {:induction false} RunCovers(s: seq<Block>, k: nat, a: nat)
    requires Ordered(s) && 0 < k <= |s| && forall i | 0 < i < k :: Follows(s, i)
    ensures s[0].start < s[k - 1].end && s[k - 1].start >= s[0].start
    ensures Covers(s[..k], a) <==> s[0].start <= a < s[k - 1].end
  {
    if k == 1 {
      assert s[..1] == [s[0]];
      CoversOne(s[0], a);
    } else {
      RunCovers(s, k - 1, a);
      assert Follows(s, k - 1);
      assert s[..k] == s[..k - 1] + [s[k - 1]];
      CoversConcat(s[..k - 1], [s[k - 1]], a);
      CoversOne(s[k - 1], a);
    }
  }

  lemma NothingAfterRun(s: seq<Block>, k: nat)
    requires Ordered(s) && 0 < k <= |s| && Run(s, k)
    ensures !Covers(s, s[k - 1].end)
  {
  }

  /** A whole run of whole pages ends a page too, and what is left is still whole pages. */
  lemma RunEndsPage(s: seq<Block>, k: nat)
    requires Ordered(s) && WholePages(s) && 0 < k <= |s| && Run(s, k)
    ensures s[k - 1].end % PAGE_SIZE == 0
  {
    var e := s[k - 1].end;
    if e % PAGE_SIZE != 0 {
      assert In(s[k - 1], e - 1) && SamePage(e - 1, e);
      assert Covers(s, e - 1);
      NothingAfterRun(s, k);
    }
  }

  /** What follows a run lies above it. */
  lemma RestAbove(s: seq<Block>, k: nat)
    requires Ordered(s) && 0 < k <= |s|
    ensures forall a: nat | Covers(s[k..], a) :: s[k - 1].end <= a
  {
    forall a: nat | Covers(s[k..], a) ensures s[k - 1].end <= a {
      var i :| 0 <= i < |s[k..]| && In(s[k..][i], a);
      assert s[k..][i] == s[k + i] && s[k - 1].end <= s[k + i].start;
    }
  }

  lemma RestIsWhole(s: seq<Block>, k: nat)
    requires Ordered(s) && WholePages(s) && 0 < k <= |s| && Run(s, k)
    ensures Ordered(s[k..]) && WholePages(s[k..])
    ensures forall a: nat :: Covers(s[k..], a) <==> Covers(s, a) && !(s[0].start <= a < s[k - 1].end)
  {
    assert s == s[..k] + s[k..];
    OrderedParts(s[..k], s[k..]);
    RestAbove(s, k);
    forall a: nat ensures Covers(s[k..], a) <==> Covers(s, a) && !(s[0].start <= a < s[k - 1].end) {
      CoversConcat(s[..k], s[k..], a);
      RunCovers(s, k, a);
    }
    FirstStartsPage(s);
    RunEndsPage(s, k);
    WholePagesMinus(s, s[k..], s[0].start, s[k - 1].end);
  }
}
