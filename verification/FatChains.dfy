/** Cluster chains as linked lists inside one allocation table (FAT32), without the disk around them.
    A table maps each cluster number to the word its FAT entry holds. */
module FatChains {
  import opened Basics
  import opened Bytes

  const MIN_EOC: nat := 0x0FFF_FFF8
  const EOC: nat := 0x0FFF_FFFF

  type Table = seq<nat>

  /** What a chain belongs to: a directory, named by its first cluster, or the file whose directory entry
      is the `index`-th of directory cluster `cluster`. */
  datatype Owner = Dir(first: nat) | File(cluster: nat, index: nat)

  type Chains = map<Owner, seq<nat>>

  /** Entry of the `i`-th cluster points at the next one. */
  predicate Links(t: Table, ch: seq<nat>, i: nat)
    requires i + 1 < |ch| && ch[i] < |t|
  {
    t[ch[i]] == ch[i + 1]
  }

  /** `ch` lists, in order, the clusters of an acyclic chain that ends in an end-of-chain mark. */
  ghost predicate IsChain(t: Table, ch: seq<nat>) {
    && (forall i | 0 <= i < |ch| :: 2 <= ch[i] < |t|)
    && (forall i, j | 0 <= i < j < |ch| :: ch[i] != ch[j])
    && (forall i | 0 <= i < |ch| - 1 :: Links(t, ch, i))
    && (|ch| > 0 ==> MIN_EOC <= t[ch[|ch| - 1]] < TWO_28)
  }

  ghost predicate Disjoint(a: seq<nat>, b: seq<nat>) {
    forall c | c in a :: c !in b
  }

  /** Every owner has a chain and no two owners share a cluster. */
  ghost predicate Separate(t: Table, m: Chains) {
    && (forall o {:trigger IsChain(t, m[o])} | o in m :: IsChain(t, m[o]))
    && (forall o, p {:trigger Disjoint(m[o], m[p])} | o in m && p in m && o != p :: Disjoint(m[o], m[p]))
  }

  ghost function FreeClusters(t: Table): set<nat> {
    set c | 2 <= c < |t| && t[c] == 0
  }

  /** Sectors (hence clusters, one sector each) that `size` bytes fill. */
  function SectorsFor(size: nat): (n: nat)
    ensures 512 * n >= size && (n > 0 ==> 512 * (n - 1) < size)
  {
    (size + 511) / 512
  }

  /** Bytes done after `i` of the `k` sectors that `size` bytes fill. */
  function Progress(i: nat, k: nat, size: nat): nat {
    if i < k then 512 * i else size
  }

  lemma Advance(i: nat, k: nat, size: nat)
    requires i < k && 512 * k - 512 < size <= 512 * k
    ensures Progress(i, k, size) < size
    ensures var rem := size - Progress(i, k, size);
            Progress(i, k, size) + (if rem < 512 then rem else 512) == Progress(i + 1, k, size)
  {
  }

  /** The same in 32-bit unsigned arithmetic, as the driver computes it. */
  function SectorsFor32(size: nat): nat {
    (size + 511) % TWO_32 / 512
  }

  /** The two agree exactly when adding 511 does not wrap. */
  lemma SectorCountWraps(size: nat)
    requires size < TWO_32
    ensures SectorsFor32(size) == SectorsFor(size) <==> size + 511 < TWO_32
  {
  }

  /** The chain a file of `n` data sectors is left with when it is resized to `k` of them.
      A shrink to a non-empty file keeps cluster `k` as well, as the end mark is put on it. */
  function ResizedChain(ch: seq<nat>, n: nat, k: nat, free: seq<nat>): seq<nat>
    requires n <= |ch|
  {
    if k > n then ch[..n] + free
    else if k == n then ch
    else if k == 0 then []
    else ch[..k + 1]
  }

  /** The table after a shrink from `n` to `k` data sectors. */
  ghost predicate Shrunk(t: Table, t': Table, ch: seq<nat>, n: nat, k: nat)
    requires k < n <= |ch|
  {
    && |t'| == |t|
    && forall c | 2 <= c < |t| ::
         t'[c] == if c == ch[k] then (if k == 0 then 0 else EOC)
                  else if c in ch[k + 1..n] then 0
                  else t[c]
  }

  /** The clusters whose entries a growth from `n` data sectors rewrites, in link order. */
  function Spliced(ch: seq<nat>, n: nat, free: seq<nat>): seq<nat>
    requires n <= |ch|
  {
    (if n == 0 then [] else [ch[n - 1]]) + free
  }

  /** The table once `path` has been linked up and its last cluster marked. */
  ghost predicate Linked(t: Table, t': Table, path: seq<nat>) {
    && |t'| == |t|
    && (forall j | 0 <= j < |path| :: 2 <= path[j] < |t|)
    && (forall j | 0 <= j < |path| - 1 :: Links(t', path, j))
    && (|path| > 0 ==> t'[path[|path| - 1]] == EOC)
    && (forall c | 2 <= c < |t| && c !in path :: t'[c] == t[c])
  }

  /** What a walker sees at the `i`-th cluster: the next one, or a mark after the last; masking the word changes
      neither. */
  lemma Follow(t: Table, ch: seq<nat>, i: nat)
    requires IsChain(t, ch) && |t| < MIN_EOC && i < |ch|
    ensures 2 <= ch[i] < |t| && t[ch[i]] % TWO_28 == t[ch[i]]
    ensures if i + 1 < |ch| then t[ch[i]] == ch[i + 1] < MIN_EOC else t[ch[i]] >= MIN_EOC
  {
    if i + 1 < |ch| {
      assert Links(t, ch, i);
      assert ch[i + 1] < |t|;
    }
  }

  /** A chain none of whose entries changed is still a chain. */
  lemma ChainFramed(t: Table, t': Table, ch: seq<nat>)
    requires IsChain(t, ch) && |t'| == |t|
    requires forall c | c in ch :: 2 <= c < |t| ==> t'[c] == t[c]
    ensures IsChain(t', ch)
  {
    assert forall i | 0 <= i < |ch| :: ch[i] in ch;
    forall i | 0 <= i < |ch| - 1 ensures Links(t', ch, i) {
      assert Links(t, ch, i);
    }
  }

  /** A cluster in a chain is marked as taken. */
  lemma OwnedIsTaken(t: Table, ch: seq<nat>, i: nat)
    requires IsChain(t, ch) && i < |ch|
    ensures t[ch[i]] != 0
  {
    if i < |ch| - 1 { assert Links(t, ch, i); }
  }

  /** A free cluster belongs to nobody. */
  lemma FreeIsUnowned(t: Table, ch: seq<nat>, c: nat)
    requires IsChain(t, ch) && c < |t| && t[c] == 0
    ensures c !in ch
  {
    forall i | 0 <= i < |ch| ensures ch[i] != c { OwnedIsTaken(t, ch, i); }
  }

  /** Giving one owner a chain of its old clusters and of clusters nobody owned keeps owners apart. */
  lemma ReplaceKeepsDisjoint(t: Table, m: Chains, f: Owner, ch': seq<nat>)
    requires Separate(t, m) && f in m
    requires forall c | c in ch' :: c in m[f] || (c < |t| && t[c] == 0)
    ensures var m' := m[f := ch'];
            forall o, p | o in m' && p in m' && o != p :: Disjoint(m'[o], m'[p])
  {
    var m' := m[f := ch'];
    forall o | o in m && o != f ensures Disjoint(ch', m[o]) && Disjoint(m[o], ch') {
      assert Disjoint(m[f], m[o]);
      forall c | c in ch' ensures c !in m[o] {
        if c !in m[f] { FreeIsUnowned(t, m[o], c); }
      }
    }
  }

  lemma ShrunkIsChain(t: Table, t': Table, ch: seq<nat>, n: nat, k: nat)
    requires IsChain(t, ch) && k < n <= |ch| && Shrunk(t, t', ch, n, k)
    ensures IsChain(t', ResizedChain(ch, n, k, []))
  {
    if k > 0 {
      var ch' := ch[..k + 1];
      forall i | 0 <= i < |ch'| - 1 ensures Links(t', ch', i) {
        assert Links(t, ch, i);
        assert ch[i] !in ch[k + 1..n];
      }
    }
  }

  lemma ShrunkApart(t: Table, t': Table, other: seq<nat>, ch: seq<nat>, n: nat, k: nat)
    requires IsChain(t, other) && Disjoint(other, ch) && k < n <= |ch| && Shrunk(t, t', ch, n, k)
    ensures IsChain(t', other)
  {
    forall c | c in other ensures 2 <= c < |t| ==> t'[c] == t[c] {
      assert ch[k] in ch && c !in ch[k + 1..n];
    }
    ChainFramed(t, t', other);
  }

  /** Shrinking one file keeps every chain a chain and all of them apart. */
  lemma ShrinkKeeps(t: Table, t': Table, m: Chains, f: Owner, n: nat, k: nat)
    requires Separate(t, m) && f in m && k < n <= |m[f]|
    requires Shrunk(t, t', m[f], n, k)
    ensures Separate(t', m[f := ResizedChain(m[f], n, k, [])])
  {
    var ch := m[f];
    var ch' := ResizedChain(ch, n, k, []);
    forall o | o in m && o != f ensures IsChain(t', m[o]) {
      assert Disjoint(m[o], m[f]);
      ShrunkApart(t, t', m[o], ch, n, k);
    }
    ShrunkIsChain(t, t', ch, n, k);
    assert forall c | c in ch' :: c in ch;
    ReplaceKeepsDisjoint(t, m, f, ch');
  }

  /** The clusters a growth may take. */
  ghost predicate Fresh(t: Table, free: seq<nat>) {
    && (forall i | 0 <= i < |free| :: 2 <= free[i] < |t| && t[free[i]] == 0)
    && (forall i, j | 0 <= i < j < |free| :: free[i] != free[j])
  }

  /** One link of the grown chain: an old one that was not rewritten, or one of the path. */
  lemma GrownLinks(t: Table, t': Table, ch: seq<nat>, n: nat, free: seq<nat>, ch': seq<nat>, i: nat)
    requires IsChain(t, ch) && n <= |ch| && Fresh(t, free) && Linked(t, t', Spliced(ch, n, free))
    requires ch' == ch[..n] + free && i + 1 < |ch'|
    ensures ch'[i] < |t'| && Links(t', ch', i)
  {
    var path := Spliced(ch, n, free);
    if i + 1 < n {
      assert Links(t, ch, i);
      NotOnPath(t, ch, n, free, i);
      assert ch'[i] == ch[i] && ch'[i + 1] == ch[i + 1];
    } else {
      var j := if n == 0 then i else i - (n - 1);
      assert Links(t', path, j);
      assert path[j] == ch'[i] && path[j + 1] == ch'[i + 1];
    }
  }

  lemma NotOnPath(t: Table, ch: seq<nat>, n: nat, free: seq<nat>, i: nat)
    requires IsChain(t, ch) && n <= |ch| && Fresh(t, free) && i + 1 < n
    ensures ch[i] !in Spliced(ch, n, free)
  {
    OwnedIsTaken(t, ch, i);
    assert ch[i] !in free;
  }

  lemma GrownDistinct(t: Table, ch: seq<nat>, n: nat, free: seq<nat>, ch': seq<nat>)
    requires IsChain(t, ch) && n <= |ch| && Fresh(t, free) && ch' == ch[..n] + free
    ensures forall i, j | 0 <= i < j < |ch'| :: ch'[i] != ch'[j]
  {
    forall i, j | 0 <= i < j < |ch'| ensures ch'[i] != ch'[j] {
      if i < n <= j { OwnedIsTaken(t, ch, i); }
    }
  }

  lemma GrownIsChain(t: Table, t': Table, ch: seq<nat>, n: nat, free: seq<nat>, ch': seq<nat>)
    requires IsChain(t, ch) && n <= |ch| && |free| > 0 && Fresh(t, free) && ch' == ch[..n] + free
    requires Linked(t, t', Spliced(ch, n, free))
    ensures IsChain(t', ch')
  {
    GrownEnd(t, t', ch, n, free, ch');
    GrownDistinct(t, ch, n, free, ch');
    AllGrownLinks(t, t', ch, n, free, ch');
  }

  lemma AllGrownLinks(t: Table, t': Table, ch: seq<nat>, n: nat, free: seq<nat>, ch': seq<nat>)
    requires IsChain(t, ch) && n <= |ch| && Fresh(t, free) && ch' == ch[..n] + free
    requires Linked(t, t', Spliced(ch, n, free))
    ensures forall i | 0 <= i < |ch'| - 1 :: ch'[i] < |t'| && Links(t', ch', i)
  {
    forall i | 0 <= i < |ch'| - 1 ensures ch'[i] < |t'| && Links(t', ch', i) {
      GrownLinks(t, t', ch, n, free, ch', i);
    }
  }

  lemma GrownEnd(t: Table, t': Table, ch: seq<nat>, n: nat, free: seq<nat>, ch': seq<nat>)
    requires IsChain(t, ch) && n <= |ch| && |free| > 0 && Fresh(t, free) && ch' == ch[..n] + free
    requires Linked(t, t', Spliced(ch, n, free))
    ensures forall i | 0 <= i < |ch'| :: 2 <= ch'[i] < |t'|
    ensures t'[ch'[|ch'| - 1]] == EOC
  {
    var path := Spliced(ch, n, free);
    assert ch'[|ch'| - 1] == free[|free| - 1] == path[|path| - 1];
  }

  /** Growing one file with free, pairwise different clusters keeps every chain a chain and all of them apart. */
  lemma GrowKeeps(t: Table, t': Table, m: Chains, f: Owner, n: nat, free: seq<nat>)
    requires Separate(t, m) && f in m && n <= |m[f]| && |free| > 0
    requires Fresh(t, free)
    requires Linked(t, t', Spliced(m[f], n, free))
    ensures Separate(t', m[f := m[f][..n] + free])
  {
    var path := Spliced(m[f], n, free);
    forall o | o in m && o != f ensures IsChain(t', m[o]) {
      assert Disjoint(m[o], m[f]);
      forall c | c in m[o] ensures c !in path {
        if c in free { FreeIsUnowned(t, m[o], c); }
      }
      ChainFramed(t, t', m[o]);
    }
    GrownIsChain(t, t', m[f], n, free, m[f][..n] + free);
    ReplaceKeepsDisjoint(t, m, f, m[f][..n] + free);
  }

  ghost predicate Owned(m: Chains, c: nat) {
    exists o | o in m :: c in m[o]
  }

  // ---- the same changes, one entry at a time ----

  /** The table once cluster `k` carries the end mark and clusters `k + 1` to `j - 1` have been freed. */
  function CutTable(t: Table, ch: seq<nat>, k: nat, j: nat): (t': Table)
    requires k < j <= |ch| && forall i | 0 <= i < |ch| :: ch[i] < |t|
    ensures |t'| == |t|
    decreases j
  {
    if j == k + 1 then t[ch[k] := if k == 0 then 0 else EOC]
    else CutTable(t, ch, k, j - 1)[ch[j - 1] := 0]
  }

  lemma {:induction false} CutIsShrunk(t: Table, ch: seq<nat>, k: nat, j: nat)
    requires IsChain(t, ch) && k < j <= |ch|
    ensures Shrunk(t, CutTable(t, ch, k, j), ch, j, k)
    ensures j < |ch| ==> CutTable(t, ch, k, j)[ch[j]] == t[ch[j]]
    decreases j
  {
    if j == k + 1 {
      assert ch[k + 1..k + 1] == [];
    } else {
      CutIsShrunk(t, ch, k, j - 1);
      assert ch[k + 1..j] == ch[k + 1..j - 1] + [ch[j - 1]];
    }
    assert j < |ch| ==> ch[j] !in ch[k + 1..j];
  }

  /** Clearing runs along the chain: the entry about to be freed still names the next cluster. */
  lemma CutFollows(t: Table, ch: seq<nat>, k: nat, j: nat)
    requires IsChain(t, ch) && |t| < MIN_EOC && k < j < |ch|
    ensures 2 <= ch[j] < |t| && (j + 1 < |ch| ==> CutTable(t, ch, k, j)[ch[j]] == ch[j + 1])
  {
    CutIsShrunk(t, ch, k, j);
    Follow(t, ch, j);
  }

  /** The table once the first `p` links of `path` are in place. */
  function LinkTable(t: Table, path: seq<nat>, p: nat): (t': Table)
    requires p < |path| && forall j | 0 <= j < |path| :: path[j] < |t|
    ensures |t'| == |t|
  {
    if p == 0 then t else LinkTable(t, path, p - 1)[path[p - 1] := path[p]]
  }

  lemma {:induction false} LinkTableLinks(t: Table, path: seq<nat>, p: nat)
    requires p < |path| && forall j | 0 <= j < |path| :: path[j] < |t|
    requires forall i, j | 0 <= i < j < |path| :: path[i] != path[j]
    ensures forall j | 0 <= j < p :: Links(LinkTable(t, path, p), path, j)
    ensures forall c | 0 <= c < |t| && c !in path[..p] :: LinkTable(t, path, p)[c] == t[c]
  {
    if p > 0 {
      LinkTableLinks(t, path, p - 1);
      var t', t'' := LinkTable(t, path, p - 1), LinkTable(t, path, p);
      assert path[..p] == path[..p - 1] + [path[p - 1]];
      forall j | 0 <= j < p ensures Links(t'', path, j) {
        if j < p - 1 { assert Links(t', path, j); }
      }
    }
  }

  lemma LinkEnd(t: Table, path: seq<nat>, p: nat)
    requires p + 1 == |path| && forall j | 0 <= j < |path| :: 2 <= path[j] < |t|
    requires forall i, j | 0 <= i < j < |path| :: path[i] != path[j]
    ensures Linked(t, LinkTable(t, path, p)[path[p] := EOC], path)
  {
    LinkTableLinks(t, path, p);
    MarkEnd(t, LinkTable(t, path, p), path, p);
  }

  lemma MarkEnd(t: Table, t': Table, path: seq<nat>, p: nat)
    requires |t'| == |t| && p + 1 == |path| && forall j | 0 <= j < |path| :: 2 <= path[j] < |t|
    requires forall j | 0 <= j < p :: path[j] != path[p]
    requires forall j | 0 <= j < p :: Links(t', path, j)
    requires forall c | 0 <= c < |t| && c !in path[..p] :: t'[c] == t[c]
    ensures Linked(t, t'[path[p] := EOC], path)
  {
    var t'' := t'[path[p] := EOC];
    forall c | 2 <= c < |t| && c !in path ensures t''[c] == t[c] {
      assert path[p] in path && c !in path[..p];
    }
    forall j | 0 <= j < p ensures Links(t'', path, j) {
      assert Links(t', path, j);
      assert path[j] != path[p];
    }
  }

  lemma SplicedIsDistinct(t: Table, ch: seq<nat>, n: nat, free: seq<nat>)
    requires IsChain(t, ch) && n <= |ch|
    requires Fresh(t, free)
    ensures var path := Spliced(ch, n, free);
            && (forall j | 0 <= j < |path| :: 2 <= path[j] < |t|)
            && (forall i, j | 0 <= i < j < |path| :: path[i] != path[j])
  {
    forall i | 0 <= i < |free| ensures n > 0 ==> free[i] != ch[n - 1] { FreeIsUnowned(t, ch, free[i]); }
  }

  /** Linking the path of a growth gives the table the growth is to have. */
  lemma SplicedLinks(t: Table, ch: seq<nat>, n: nat, free: seq<nat>, path: seq<nat>, p: nat)
    requires IsChain(t, ch) && n <= |ch| && Fresh(t, free) && path == Spliced(ch, n, free) && p + 1 == |path|
    ensures forall j | 0 <= j < |path| :: 2 <= path[j] < |t|
    ensures Linked(t, LinkTable(t, path, p)[path[p] := EOC], path)
  {
    SplicedIsDistinct(t, ch, n, free);
    LinkEnd(t, path, p);
  }

  // ---- lost clusters ----

  /** No cluster is marked as taken without belonging to somebody. */
  ghost predicate NoneLost(t: Table, m: Chains) {
    forall c | 2 <= c < |t| && t[c] != 0 :: Owned(m, c)
  }

  /** A taken cluster that only the replaced chain held, and the new one does not, is lost. */
  lemma DroppedIsLost(t: Table, t': Table, m: Chains, f: Owner, ch': seq<nat>, c: nat)
    requires Separate(t, m) && f in m && c in m[f] && c !in ch'
    requires 2 <= c < |t'| && t'[c] != 0
    ensures !NoneLost(t', m[f := ch'])
  {
    var m' := m[f := ch'];
    forall o | o in m' ensures c !in m'[o] {
      if o != f { assert Disjoint(m[f], m[o]); }
    }
    assert !Owned(m', c);
  }

  /** When every cluster the replaced chain gives up is free afterwards, and every other cluster newly marked is in
      the new chain, nothing is lost. */
  lemma NothingDropped(t: Table, t': Table, m: Chains, f: Owner, ch': seq<nat>)
    requires NoneLost(t, m) && f in m && |t'| == |t|
    requires forall c | 2 <= c < |t| && c !in ch' :: t'[c] == if c in m[f] then 0 else t[c]
    ensures NoneLost(t', m[f := ch'])
  {
    var m' := m[f := ch'];
    forall c | 2 <= c < |t'| && t'[c] != 0 ensures Owned(m', c) {
      if c in ch' {
        assert c in m'[f];
      } else {
        assert Owned(m, c);
        var o :| o in m && c in m[o];
        assert c in m'[o];
      }
    }
  }

  /** A shrink loses clusters exactly when the chain was longer than the file's data, as it is after any earlier
      shrink to a non-empty file: the loop frees as many entries as the sizes differ by, and no more. */
  lemma ShrinkLoses(t: Table, t': Table, m: Chains, f: Owner, n: nat, k: nat)
    requires Separate(t, m) && f in m && k < n <= |m[f]| && NoneLost(t, m)
    requires Shrunk(t, t', m[f], n, k)
    ensures NoneLost(t', m[f := ResizedChain(m[f], n, k, [])]) <==> |m[f]| == n
  {
    var ch := m[f];
    var ch' := ResizedChain(ch, n, k, []);
    if |ch| == n {
      ShrunkEntries(t, t', ch, k);
      NothingDropped(t, t', m, f, ch');
    } else {
      var c := ch[n];
      OwnedIsTaken(t, ch, n);
      assert c !in ch[k + 1..n] && c != ch[k];
      DroppedIsLost(t, t', m, f, ch', c);
    }
  }

  lemma ShrunkEntries(t: Table, t': Table, ch: seq<nat>, k: nat)
    requires IsChain(t, ch) && k < |ch| && Shrunk(t, t', ch, |ch|, k)
    ensures forall c | 2 <= c < |t| && c !in ResizedChain(ch, |ch|, k, []) :: t'[c] == if c in ch then 0 else t[c]
  {
  }

  /** A growth loses clusters under the same condition: linking past the last data cluster cuts off what followed
      it. */
  lemma GrowLoses(t: Table, t': Table, m: Chains, f: Owner, n: nat, free: seq<nat>)
    requires Separate(t, m) && f in m && n <= |m[f]| && |free| > 0 && NoneLost(t, m)
    requires forall i | 0 <= i < |free| :: 2 <= free[i] < |t| && t[free[i]] == 0
    requires Linked(t, t', Spliced(m[f], n, free))
    ensures NoneLost(t', m[f := m[f][..n] + free]) <==> |m[f]| == n
  {
    var ch := m[f];
    var ch' := ch[..n] + free;
    var path := Spliced(ch, n, free);
    if |ch| == n {
      assert forall c | c in path :: c in ch';
      assert forall c | c in ch :: c in ch';
      NothingDropped(t, t', m, f, ch');
    } else {
      var c := ch[n];
      OwnedIsTaken(t, ch, n);
      GrowthDrops(t, ch, n, free);
      DroppedIsLost(t, t', m, f, ch', c);
    }
  }

  lemma GrowthDrops(t: Table, ch: seq<nat>, n: nat, free: seq<nat>)
    requires IsChain(t, ch) && n < |ch|
    requires forall i | 0 <= i < |free| :: 2 <= free[i] < |t| && t[free[i]] == 0
    ensures ch[n] !in ch[..n] + free && ch[n] !in Spliced(ch, n, free)
  {
    forall i | 0 <= i < |free| ensures free[i] != ch[n] { FreeIsUnowned(t, ch, free[i]); }
  }

  /** So any shrink to a non-empty file followed by any other shrink of it loses a cluster, on every volume that
      had lost none. */
  lemma ShrinkTwiceLoses(t: Table, t1: Table, t2: Table, m: Chains, m1: Chains, f: Owner, n: nat, k: nat, j: nat)
    requires Separate(t, m) && NoneLost(t, m) && f in m && j < k < n == |m[f]|
    requires m1 == m[f := ResizedChain(m[f], n, k, [])]
    requires Shrunk(t, t1, m[f], n, k) && Shrunk(t1, t2, m1[f], k, j)
    ensures NoneLost(t1, m1)
    ensures !NoneLost(t2, m1[f := ResizedChain(m1[f], k, j, [])])
  {
    ShrinkKeeps(t, t1, m, f, n, k);
    assert NoneLost(t1, m1) by { ShrinkLoses(t, t1, m, f, n, k); }
    ShrinkLoses(t1, t2, m1, f, k, j);
  }

  /** Such a volume exists: one file of two clusters, 1024 -> 512 -> 0 bytes. */
  lemma LosingVolume(f: Owner, t: Table, t': Table, m: Chains)
    requires t == [0, 0, 3, EOC] && t' == [0, 0, 0, EOC] && m == map[f := [2, 3]]
    ensures Separate(t, m) && NoneLost(t, m) && |m[f]| == 2
    ensures Shrunk(t, t, m[f], 2, 1) && Shrunk(t, t', m[f][..2], 1, 0)
  {
    var ch := m[f];
    assert Links(t, ch, 0);
    assert Owned(m, 2) && Owned(m, 3) by { assert 2 in ch && 3 in ch; }
    assert ch[2..2] == [] && ch[..2][1..1] == [];
  }

  // ---- the list of free clusters ----

  /** `r` lists in ascending order every index in [2, hi) whose word is zero. */
  ghost predicate AllZeros(w: nat -> nat, hi: nat, r: seq<nat>) {
    && (forall i | 0 <= i < |r| :: 2 <= r[i] < hi && w(r[i]) == 0)
    && (forall i, j | 0 <= i < j < |r| :: r[i] < r[j])
    && (forall k | 2 <= k < hi && w(k) == 0 :: k in r)
  }

  ghost function Elements(r: seq<nat>): set<nat> {
    set c | c in r
  }

  lemma ElementsBound(r: seq<nat>)
    ensures |Elements(r)| <= |r|
    ensures (forall i, j | 0 <= i < j < |r| :: r[i] < r[j]) ==> |Elements(r)| == |r|
  {
    if |r| > 0 {
      var q := r[..|r| - 1];
      var last := r[|r| - 1];
      ElementsBound(q);
      assert r == q + [last];
      assert Elements(r) == Elements(q) + {last};
    }
  }

  /** When the table holds at least `n` free clusters, the lowest `n` zero words all lie inside it. */
  lemma EnoughFree(t: Table, w: nat -> nat, hi: nat, r: seq<nat>)
    requires |t| <= hi && forall c | 0 <= c < |t| :: w(c) == t[c]
    requires AllZeros(w, hi, r)
    ensures |r| >= |FreeClusters(t)|
    ensures |FreeClusters(t)| >= |r| > 0 ==> r[|r| - 1] < |t|
    ensures (forall k | |t| <= k < hi :: w(k) != 0) ==> |r| == |FreeClusters(t)|
  {
    ElementsBound(r);
    var fs := FreeClusters(t);
    assert fs <= Elements(r);
    SubsetSize(fs, Elements(r));
    if |r| > 0 && r[|r| - 1] >= |t| {
      var q := r[..|r| - 1];
      ElementsBound(q);
      forall c | c in fs ensures c in Elements(q) {
        var i :| 0 <= i < |r| && r[i] == c;
        assert q[i] == c;
      }
      SubsetSize(fs, Elements(q));
    }
    if forall k | |t| <= k < hi :: w(k) != 0 {
      forall c | c in Elements(r) ensures c in fs { }
      SubsetSize(Elements(r), fs);
    }
  }
}
