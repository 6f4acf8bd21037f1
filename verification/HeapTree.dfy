/** The search tree of blocks behind `MemTree`, as a value: insertion, removal and the two merges change it the way
    the pointer code changes the nodes. A node is named by its start address. */
module HeapTree {
  import opened Basics
  import opened PageSearch
  import opened MemBlocks

  datatype Tree = Leaf | Node(left: Tree, data: Block, right: Tree)

  ghost function InOrder(t: Tree): seq<Block> {
    match t
    case Leaf => []
    case Node(l, d, r) => InOrder(l) + [d] + InOrder(r)
  }

  /** `BST::add_node` */
  function AddNode(t: Tree, b: Block): Tree {
    match t
    case Leaf => Node(Leaf, b, Leaf)
    case Node(l, d, r) =>
      if d.start >= b.start then Node(AddNode(l, b), d, r) else Node(l, d, AddNode(r, b))
  }

  /** The subtree whose root starts at `key`, or the empty place where such a node would hang. */
  function SubAt(t: Tree, key: nat): Tree {
    match t
    case Leaf => Leaf
    case Node(l, d, r) =>
      if d.start == key then t else if d.start > key then SubAt(l, key) else SubAt(r, key)
  }

  /** The tree with that subtree replaced, as by a write through `node_ptr`. */
  function PutAt(t: Tree, key: nat, sub: Tree): Tree {
    match t
    case Leaf => sub
    case Node(l, d, r) =>
      if d.start == key then sub
      else if d.start > key then Node(PutAt(l, key, sub), d, r)
      else Node(l, d, PutAt(r, key, sub))
  }

  ghost function Before(t: Tree, key: nat): seq<Block> {
    match t
    case Leaf => []
    case Node(l, d, r) =>
      if d.start == key then [] else if d.start > key then Before(l, key) else InOrder(l) + [d] + Before(r, key)
  }

  ghost function After(t: Tree, key: nat): seq<Block> {
    match t
    case Leaf => []
    case Node(l, d, r) =>
      if d.start == key then [] else if d.start > key then After(l, key) + [d] + InOrder(r) else After(r, key)
  }

  lemma RegroupRight(b: seq<Block>, s: seq<Block>, a: seq<Block>, d: seq<Block>, r: seq<Block>)
    ensures (b + s + a) + d + r == b + s + (a + d + r)
  {
  }

  lemma RegroupLeft(l: seq<Block>, d: seq<Block>, b: seq<Block>, s: seq<Block>, a: seq<Block>)
    ensures l + d + (b + s + a) == (l + d + b) + s + a
  {
  }

  lemma {:induction false} Zipper(t: Tree, key: nat, sub: Tree)
    ensures InOrder(t) == Before(t, key) + InOrder(SubAt(t, key)) + After(t, key)
    ensures InOrder(PutAt(t, key, sub)) == Before(t, key) + InOrder(sub) + After(t, key)
    ensures SubAt(t, key).Node? ==> SubAt(t, key).data.start == key
  {
    match t
    case Leaf =>
    case Node(l, d, r) =>
      if d.start > key {
        Zipper(l, key, sub);
        RegroupRight(Before(l, key), InOrder(SubAt(l, key)), After(l, key), [d], InOrder(r));
        RegroupRight(Before(l, key), InOrder(sub), After(l, key), [d], InOrder(r));
      } else if d.start < key {
        Zipper(r, key, sub);
        RegroupLeft(InOrder(l), [d], Before(r, key), InOrder(SubAt(r, key)), After(r, key));
        RegroupLeft(InOrder(l), [d], Before(r, key), InOrder(sub), After(r, key));
      }
  }

  /** In an ordered tree the search by start address reaches every block, and splits the others by their start. */
  lemma Search(t: Tree, key: nat)
    requires Ordered(InOrder(t))
    ensures forall b | b in Before(t, key) :: b.start < key
    ensures forall b | b in After(t, key) :: b.start > key
    ensures forall b | b in InOrder(t) && b.start == key :: SubAt(t, key).Node? && SubAt(t, key).data == b
  {
    OrderedIsSorted(InOrder(t));
    SearchSorted(t, key);
  }

  lemma Member(s: seq<Block>, b: Block)
    requires Ordered(s) && b in s
    ensures b.start < b.end
  {
  }

  /** Clear of every block: no shared byte. */
  ghost predicate Clear(s: seq<Block>, b: Block) {
    b.start < b.end && forall x | x in s :: x.end <= b.start || b.end <= x.start
  }

  /** The same, found by visiting every node. */
  predicate ClearOf(t: Tree, b: Block) {
    match t
    case Leaf => true
    case Node(l, d, r) => (d.end <= b.start || b.end <= d.start) && ClearOf(l, b) && ClearOf(r, b)
  }

  lemma {:induction false} ClearOfAll(t: Tree, b: Block)
    ensures b.start < b.end && ClearOf(t, b) <==> Clear(InOrder(t), b)
  {
    match t
    case Leaf =>
    case Node(l, d, r) =>
      ClearOfAll(l, b);
      ClearOfAll(r, b);
      assert InOrder(t) == InOrder(l) + [d] + InOrder(r);
      assert d in InOrder(t);
  }

  lemma {:induction false} AddIsPut(t: Tree, b: Block)
    requires forall x | x in InOrder(t) :: x.start != b.start
    ensures AddNode(t, b) == PutAt(t, b.start, Node(Leaf, b, Leaf)) && SubAt(t, b.start) == Leaf
  {
    match t
    case Leaf =>
    case Node(l, d, r) =>
      assert d in InOrder(t);
      AddIsPut(l, b);
      AddIsPut(r, b);
  }

  /** One block slipped between those before and those after it. */
  lemma SlipIn(p: seq<Block>, b: Block, q: seq<Block>)
    requires Ordered(p + q) && b.start < b.end
    requires forall x | x in p :: x.end <= b.start
    requires forall x | x in q :: b.end <= x.start
    ensures Ordered(p + [b] + q)
    ensures forall a: nat :: Covers(p + [b] + q, a) <==> Covers(p + q, a) || In(b, a)
    ensures forall x :: x in p + [b] + q <==> x in p + q || x == b
  {
    OrderedParts(p, q);
    OrderedJoin(p, [b]);
    OrderedJoin(p + [b], q);
    forall a: nat ensures Covers(p + [b] + q, a) <==> Covers(p + q, a) || In(b, a) {
      CoversConcat(p + [b], q, a);
      CoversConcat(p, [b], a);
      CoversOne(b, a);
      CoversConcat(p, q, a);
    }
  }

  /** Inserting a block clear of all others keeps order, adds its bytes, and leaves the other blocks alone. */
  lemma AddKeeps(t: Tree, b: Block)
    requires Ordered(InOrder(t)) && Clear(InOrder(t), b)
    ensures Ordered(InOrder(AddNode(t, b)))
    ensures forall a: nat :: Covers(InOrder(AddNode(t, b)), a) <==> Covers(InOrder(t), a) || In(b, a)
    ensures forall x :: x in InOrder(AddNode(t, b)) <==> x in InOrder(t) || x == b
  {
    var s := InOrder(t);
    forall x | x in s ensures x.start != b.start { Member(s, x); }
    AddIsPut(t, b);
    Zipper(t, b.start, Node(Leaf, b, Leaf));
    Search(t, b.start);
    var p, q := Before(t, b.start), After(t, b.start);
    assert s == p + q by { assert p + [] == p; }
    forall x | x in p ensures x.end <= b.start { assert x in s; Member(s, x); }
    forall x | x in q ensures b.end <= x.start { assert x in s; Member(s, x); }
    SlipIn(p, b, q);
    assert InOrder(Node(Leaf, b, Leaf)) == [b];
  }

  function Min(t: Tree): Block
    requires t.Node?
  {
    if t.left.Leaf? then t.data else Min(t.left)
  }

  /** The tree without its leftmost node, whose right child takes its place. */
  function RemoveMin(t: Tree): Tree
    requires t.Node?
  {
    if t.left.Leaf? then t.right else Node(RemoveMin(t.left), t.data, t.right)
  }

  function Max(t: Tree): Block
    requires t.Node?
  {
    if t.right.Leaf? then t.data else Max(t.right)
  }

  function RemoveMax(t: Tree): Tree
    requires t.Node?
  {
    if t.right.Leaf? then t.left else Node(t.left, t.data, RemoveMax(t.right))
  }

  lemma {:induction false} MinFirst(t: Tree)
    requires t.Node?
    ensures InOrder(t) == [Min(t)] + InOrder(RemoveMin(t))
  {
    if t.left.Node? {
      MinFirst(t.left);
      assert InOrder(t) == [Min(t)] + InOrder(RemoveMin(t.left)) + [t.data] + InOrder(t.right);
    }
  }

  lemma {:induction false} MaxLast(t: Tree)
    requires t.Node?
    ensures InOrder(t) == InOrder(RemoveMax(t)) + [Max(t)]
  {
    if t.right.Node? {
      MaxLast(t.right);
      assert InOrder(t) == InOrder(t.left) + [t.data] + InOrder(RemoveMax(t.right)) + [Max(t)];
    }
  }

  /** `remove_node`: with two children the successor's data moves up and the successor goes; otherwise the only child,
      if any, takes the node's place. */
  function RemoveRoot(t: Tree): Tree
    requires t.Node?
  {
    if t.left.Node? then
      if t.right.Node? then Node(t.left, Min(t.right), RemoveMin(t.right)) else t.left
    else t.right
  }

  /** Whatever the shape, exactly that node's block leaves the tree. */
  lemma RemoveRootDrops(t: Tree)
    requires t.Node?
    ensures InOrder(RemoveRoot(t)) == InOrder(t.left) + InOrder(t.right)
  {
    if t.left.Node? && t.right.Node? { MinFirst(t.right); }
  }

  /** `merge_node_with_free_predecessor` on the node at the root of `t`; `None` when it returns false. */
  function MergePred(t: Tree): Option<Tree>
    requires t.Node?
  {
    if t.left.Leaf? || !Max(t.left).SimilarAndContiguous(t.data) then None
    else Some(Node(RemoveMax(t.left), t.data.(start := Max(t.left).start), t.right))
  }

  /** `merge_node_with_free_successor` */
  function MergeSucc(t: Tree): Option<Tree>
    requires t.Node? && (t.right.Node? ==> Min(t.right).end >= Min(t.right).start)
  {
    if t.right.Leaf? || !Min(t.right).SimilarAndContiguous(t.data) then None
    else Some(Node(t.left, t.data.(end := t.data.end + Min(t.right).Size()), RemoveMin(t.right)))
  }

  lemma Regroup(b: seq<Block>, l: seq<Block>, u: seq<Block>, v: seq<Block>, r: seq<Block>, a: seq<Block>)
    ensures b + ((l + u) + v + r) + a == (b + l) + (u + v) + (r + a)
  {
  }

  lemma RegroupOne(b: seq<Block>, l: seq<Block>, v: seq<Block>, r: seq<Block>, a: seq<Block>)
    ensures b + (l + v + r) + a == (b + l) + v + (r + a)
  {
  }

  lemma Regroup'(b: seq<Block>, l: seq<Block>, u: seq<Block>, v: seq<Block>, r: seq<Block>, a: seq<Block>)
    ensures b + (l + u + (v + r)) + a == (b + l) + (u + v) + (r + a)
  {
  }

  /** A merge at the node that starts at `key` fuses two neighbours of the in-order sequence: the memory is the same
      and the tree one node smaller. */
  lemma MergePredFuses(t: Tree, key: nat)
    requires Ordered(InOrder(t)) && SubAt(t, key).Node? && !SubAt(t, key).data.used && MergePred(SubAt(t, key)).Some?
    ensures var t' := PutAt(t, key, MergePred(SubAt(t, key)).value);
            && Ordered(InOrder(t')) && SameMemory(InOrder(t), InOrder(t')) && |InOrder(t')| < |InOrder(t)|
  {
    var sub := SubAt(t, key);
    var sub' := MergePred(sub).value;
    var u, v := Max(sub.left), sub.data;
    Zipper(t, key, sub');
    MaxLast(sub.left);
    var p, q := Before(t, key) + InOrder(RemoveMax(sub.left)), InOrder(sub.right) + After(t, key);
    assert InOrder(t) == p + [u, v] + q by {
      Regroup(Before(t, key), InOrder(RemoveMax(sub.left)), [u], [v], InOrder(sub.right), After(t, key));
    }
    RegroupOne(Before(t, key), InOrder(RemoveMax(sub.left)), [sub'.data], InOrder(sub.right), After(t, key));
    assert [u] + [v] == [u, v];
    Neighbours(p, u, v, q);
    Fuse(p, u, v, q);
    assert sub'.data == Block(u.start, v.end, u.info, false);
  }

  lemma MergeSuccFuses(t: Tree, key: nat)
    requires Ordered(InOrder(t)) && SubAt(t, key).Node? && !SubAt(t, key).data.used
    requires var sub := SubAt(t, key); sub.right.Node? ==> Min(sub.right).end >= Min(sub.right).start
    requires MergeSucc(SubAt(t, key)).Some?
    ensures var t' := PutAt(t, key, MergeSucc(SubAt(t, key)).value);
            && Ordered(InOrder(t')) && SameMemory(InOrder(t), InOrder(t')) && |InOrder(t')| < |InOrder(t)|
  {
    var sub := SubAt(t, key);
    var sub' := MergeSucc(sub).value;
    var u, v := sub.data, Min(sub.right);
    Zipper(t, key, sub');
    MinFirst(sub.right);
    var p, q := Before(t, key) + InOrder(sub.left), InOrder(RemoveMin(sub.right)) + After(t, key);
    assert InOrder(t) == p + [u, v] + q by {
      Regroup'(Before(t, key), InOrder(sub.left), [u], [v], InOrder(RemoveMin(sub.right)), After(t, key));
    }
    RegroupOne(Before(t, key), InOrder(sub.left), [sub'.data], InOrder(RemoveMin(sub.right)), After(t, key));
    assert [u] + [v] == [u, v];
    Neighbours(p, u, v, q);
    Fuse(p, u, v, q);
    assert sub'.data == Block(u.start, v.end, u.info, false);
  }

  lemma Neighbours(p: seq<Block>, u: Block, v: Block, q: seq<Block>)
    requires Ordered(p + [u, v] + q)
    ensures u.start < u.end <= v.start < v.end
  {
    var s := p + [u, v] + q;
    assert s[|p|] == u && s[|p| + 1] == v;
  }

  // ---- finding a free block ----

  predicate Fits(b: Block, size: nat, hint: Hint) {
    && !b.used && b.Size() >= size
    && (hint.address == b.start || (b.start > hint.address && !hint.mandatory))
  }

  /** `find_free_block`: a descent that skips left subtrees below the hint. */
  function FindFreeBlock(t: Tree, size: nat, hint: Hint): Option<Block> {
    match t
    case Leaf => None
    case Node(l, d, r) =>
      if Fits(d, size, hint) then Some(d)
      else
        var left := if d.start > hint.address then FindFreeBlock(l, size, hint) else None;
        if left.Some? then left else FindFreeBlock(r, size, hint)
  }

  /** Despite the pruning it finds a fitting block exactly when one exists anywhere in the tree. */
  lemma {:induction false} FindFreeBlockComplete(t: Tree, size: nat, hint: Hint)
    requires Ordered(InOrder(t))
    ensures var r := FindFreeBlock(t, size, hint);
            && (r.Some? ==> r.value in InOrder(t) && Fits(r.value, size, hint))
            && (r.None? ==> forall b | b in InOrder(t) :: !Fits(b, size, hint))
  {
    match t
    case Leaf =>
    case Node(l, d, r) =>
      OrderedParts(InOrder(l) + [d], InOrder(r));
      OrderedParts(InOrder(l), [d]);
      FindFreeBlockComplete(l, size, hint);
      FindFreeBlockComplete(r, size, hint);
      forall b | b in InOrder(l) ensures b.start < d.start {
        assert d in [d];
        Member(InOrder(l), b);
      }
  }

  // ---- changing one node ----

  /** The node that starts at `key` with other data. */
  function SetData(t: Tree, key: nat, b: Block): Tree
    requires SubAt(t, key).Node?
  {
    PutAt(t, key, Node(SubAt(t, key).left, b, SubAt(t, key).right))
  }

  /** `remove_node` applied to the node that starts at `key`. */
  function RemoveAt(t: Tree, key: nat): Tree
    requires SubAt(t, key).Node?
  {
    PutAt(t, key, RemoveRoot(SubAt(t, key)))
  }

  /** The blocks before and after the node that starts at `key`. */
  ghost function Lower(t: Tree, key: nat): seq<Block>
    requires SubAt(t, key).Node?
  {
    Before(t, key) + InOrder(SubAt(t, key).left)
  }

  ghost function Upper(t: Tree, key: nat): seq<Block>
    requires SubAt(t, key).Node?
  {
    InOrder(SubAt(t, key).right) + After(t, key)
  }

  lemma AroundNode(t: Tree, key: nat, b: Block)
    requires SubAt(t, key).Node?
    ensures InOrder(t) == Lower(t, key) + [SubAt(t, key).data] + Upper(t, key)
    ensures InOrder(SetData(t, key, b)) == Lower(t, key) + [b] + Upper(t, key)
    ensures SubAt(t, key).data.start == key
  {
    var sub := SubAt(t, key);
    Zipper(t, key, Node(sub.left, b, sub.right));
    RegroupOne(Before(t, key), InOrder(sub.left), [sub.data], InOrder(sub.right), After(t, key));
    RegroupOne(Before(t, key), InOrder(sub.left), [b], InOrder(sub.right), After(t, key));
  }

  lemma RegroupHole(b: seq<Block>, l: seq<Block>, r: seq<Block>, a: seq<Block>)
    ensures b + (l + r) + a == (b + l) + (r + a)
  {
  }

  lemma AroundHole(t: Tree, key: nat)
    requires SubAt(t, key).Node?
    ensures InOrder(RemoveAt(t, key)) == Lower(t, key) + Upper(t, key)
  {
    var sub := SubAt(t, key);
    Zipper(t, key, RemoveRoot(sub));
    RemoveRootDrops(sub);
    RegroupHole(Before(t, key), InOrder(sub.left), InOrder(sub.right), After(t, key));
  }

  /** The block in the middle is nowhere else. */
  lemma Alone(p: seq<Block>, b: Block, q: seq<Block>)
    requires Ordered(p + [b] + q)
    ensures b.start < b.end && b !in p && b !in q && Ordered(p + q)
    ensures forall x | x in p :: x.end <= b.start
    ensures forall x | x in q :: b.end <= x.start
    ensures forall a: nat :: Covers(p + q, a) <==> Covers(p + [b] + q, a) && !In(b, a)
  {
    assert [b][0] == b;
    Bounds(p, [b], q);
    OrderedReplace(p, [b], [], q, b.start, b.end);
    assert p + [] + q == p + q;
    SlipIn(p, b, q);
    forall a: nat | Covers(p + q, a) ensures !In(b, a) {
      CoversConcat(p, q, a);
      if Covers(p, a) {
        var i :| 0 <= i < |p| && In(p[i], a);
        assert p[i] in p;
      } else {
        var i :| 0 <= i < |q| && In(q[i], a);
        assert q[i] in q;
      }
    }
  }

  /** Giving one node other bounds inside its old ones keeps the order; only its own bytes can be lost. */
  lemma SetKeeps(t: Tree, key: nat, b: Block)
    requires Ordered(InOrder(t)) && SubAt(t, key).Node?
    requires SubAt(t, key).data.start <= b.start < b.end <= SubAt(t, key).data.end
    ensures var (t', was) := (SetData(t, key, b), SubAt(t, key).data);
            && Ordered(InOrder(t')) && was in InOrder(t) && was.start == key
            && (forall a: nat :: Covers(InOrder(t'), a) <==> (Covers(InOrder(t), a) && !In(was, a)) || In(b, a))
            && (forall x :: x in InOrder(t') <==> (x in InOrder(t) && x != was) || x == b)
  {
    AroundNode(t, key, b);
    Alone(Lower(t, key), SubAt(t, key).data, Upper(t, key));
    SlipIn(Lower(t, key), b, Upper(t, key));
  }

  // ---- trees sorted by start only, as in the middle of a release ----

  ghost predicate SortedStarts(s: seq<Block>) {
    forall i, j | 0 <= i < j < |s| :: s[i].start < s[j].start
  }

  lemma OrderedIsSorted(s: seq<Block>)
    requires Ordered(s)
    ensures SortedStarts(s)
  {
  }

  predicate Apart(x: Block, y: Block) { x.end <= y.start || y.end <= x.start }

  /** Sorted, non-empty and pairwise apart is ordered. */
  lemma OrderedFromApart(s: seq<Block>)
    requires SortedStarts(s) && forall x | x in s :: x.start < x.end
    requires forall x, y | x in s && y in s && x != y :: Apart(x, y)
    ensures Ordered(s)
  {
    forall i, j | 0 <= i < j < |s| ensures s[i].end <= s[j].start {
      assert s[i] in s && s[j] in s && Apart(s[i], s[j]);
    }
  }

  lemma SortedParts(s: seq<Block>, t: seq<Block>)
    requires SortedStarts(s + t)
    ensures SortedStarts(s) && SortedStarts(t)
    ensures forall x, y | x in s && y in t :: x.start < y.start
  {
    var st := s + t;
    forall i, j | 0 <= i < j < |s| ensures s[i].start < s[j].start { assert st[i] == s[i] && st[j] == s[j]; }
    forall i, j | 0 <= i < j < |t| ensures t[i].start < t[j].start {
      assert st[|s| + i] == t[i] && st[|s| + j] == t[j];
    }
    forall x, y | x in s && y in t ensures x.start < y.start {
      var i :| 0 <= i < |s| && s[i] == x;
      var j :| 0 <= j < |t| && t[j] == y;
      assert st[i] == x && st[|s| + j] == y;
    }
  }

  lemma SortedJoin(s: seq<Block>, t: seq<Block>)
    requires SortedStarts(s) && SortedStarts(t) && forall x, y | x in s && y in t :: x.start < y.start
    ensures SortedStarts(s + t)
  {
    forall i, j | 0 <= i < j < |s + t| ensures (s + t)[i].start < (s + t)[j].start {
      if i < |s| <= j { assert s[i] in s && t[j - |s|] in t; }
    }
  }

  /** The same in a tree sorted by start. */
  lemma {:induction false} SearchSorted(t: Tree, key: nat)
    requires SortedStarts(InOrder(t))
    ensures forall b | b in Before(t, key) :: b.start < key
    ensures forall b | b in After(t, key) :: b.start > key
    ensures forall b | b in InOrder(t) && b.start == key :: SubAt(t, key).Node? && SubAt(t, key).data == b
  {
    match t
    case Leaf =>
    case Node(l, d, r) =>
      SortedParts(InOrder(l) + [d], InOrder(r));
      SortedParts(InOrder(l), [d]);
      assert d in [d] && d in InOrder(l) + [d];
      SearchSorted(l, key);
      SearchSorted(r, key);
  }

  lemma AddSorted(t: Tree, b: Block)
    requires SortedStarts(InOrder(t)) && forall x | x in InOrder(t) :: x.start != b.start
    ensures SortedStarts(InOrder(AddNode(t, b)))
    ensures forall x :: x in InOrder(AddNode(t, b)) <==> x in InOrder(t) || x == b
  {
    AddIsPut(t, b);
    Zipper(t, b.start, Node(Leaf, b, Leaf));
    SearchSorted(t, b.start);
    var p, q := Before(t, b.start), After(t, b.start);
    assert InOrder(t) == p + q by { assert p + [] == p; }
    assert InOrder(Node(Leaf, b, Leaf)) == [b];
    SortedParts(p, q);
    SortedJoin(p, [b]);
    SortedJoin(p + [b], q);
  }

  /** Replacing or dropping the node that starts at `key` in a sorted tree. */
  lemma SetSorted(t: Tree, key: nat, b: Block)
    requires SortedStarts(InOrder(t)) && SubAt(t, key).Node? && b.start == key
    ensures SortedStarts(InOrder(SetData(t, key, b)))
    ensures forall x :: x in InOrder(SetData(t, key, b)) <==> (x in InOrder(t) && x != SubAt(t, key).data) || x == b
  {
    AroundNode(t, key, b);
    SortedMiddle(Lower(t, key), SubAt(t, key).data, Upper(t, key));
    SortedJoin(Lower(t, key), [b]);
    SortedJoin(Lower(t, key) + [b], Upper(t, key));
  }

  lemma RemoveSorted(t: Tree, key: nat)
    requires SortedStarts(InOrder(t)) && SubAt(t, key).Node?
    ensures SortedStarts(InOrder(RemoveAt(t, key)))
    ensures forall x :: x in InOrder(RemoveAt(t, key)) <==> x in InOrder(t) && x != SubAt(t, key).data
  {
    AroundNode(t, key, SubAt(t, key).data);
    AroundHole(t, key);
    SortedMiddle(Lower(t, key), SubAt(t, key).data, Upper(t, key));
    SortedJoin(Lower(t, key), Upper(t, key));
  }

  lemma SortedMiddle(p: seq<Block>, b: Block, q: seq<Block>)
    requires SortedStarts(p + [b] + q)
    ensures SortedStarts(p) && SortedStarts(q)
    ensures forall x | x in p :: x.start < b.start
    ensures forall x | x in q :: b.start < x.start
    ensures forall x, y | x in p && y in q :: x.start < y.start
  {
    SortedParts(p + [b], q);
    SortedParts(p, [b]);
    assert b in [b] && b in p + [b];
  }

  lemma OrderedApart(s: seq<Block>, x: Block, y: Block)
    requires Ordered(s) && x in s && y in s && x != y
    ensures Apart(x, y)
  {
    var i :| 0 <= i < |s| && s[i] == x;
    var j :| 0 <= j < |s| && s[j] == y;
    assert i < j || j < i;
  }

  lemma CoversMembers(s: seq<Block>, a: nat)
    ensures Covers(s, a) <==> exists x | x in s :: In(x, a)
  {
    if Covers(s, a) {
      var i :| 0 <= i < |s| && In(s[i], a);
      assert s[i] in s;
    }
    if exists x | x in s :: In(x, a) {
      var x :| x in s && In(x, a);
      var i :| 0 <= i < |s| && s[i] == x;
      assert In(s[i], a);
    }
  }

  /** `s'` is `s` with the bytes from `lo` to `hi` cut out of its block `b`. */
  ghost predicate CutOut(s: seq<Block>, s': seq<Block>, b: Block, lo: nat, hi: nat) {
    forall x :: x in s' <==> || (x in s && x != b)
                             || (b.start < lo && x == b.(end := lo))
                             || (hi < b.end && x == b.(start := hi))
  }

  lemma CutOutOrdered(s: seq<Block>, s': seq<Block>, b: Block, lo: nat, hi: nat)
    requires Ordered(s) && b in s && b.start <= lo <= hi <= b.end && SortedStarts(s') && CutOut(s, s', b, lo, hi)
    ensures Ordered(s')
  {
    forall x | x in s' ensures x.start < x.end {
      if x in s { Member(s, x); }
    }
    forall x, y | x in s' && y in s' && x != y ensures Apart(x, y) {
      if x in s && x != b && y in s && y != b {
        OrderedApart(s, x, y);
      } else if x in s && x != b {
        OrderedApart(s, x, b);
      } else if y in s && y != b {
        OrderedApart(s, y, b);
      }
    }
    OrderedFromApart(s');
  }

  lemma CutOutCovers(s: seq<Block>, s': seq<Block>, b: Block, lo: nat, hi: nat, a: nat)
    requires Ordered(s) && b in s && b.start <= lo <= hi <= b.end && CutOut(s, s', b, lo, hi)
    ensures Covers(s', a) <==> Covers(s, a) && !(lo <= a < hi)
  {
    CoversMembers(s, a);
    CoversMembers(s', a);
    var left, right := b.(end := lo), b.(start := hi);
    if Covers(s', a) {
      var x :| x in s' && In(x, a);
      if x in s && x != b {
        OrderedApart(s, x, b);
        Member(s, x);
      } else {
        assert In(b, a);
      }
    }
    if Covers(s, a) && !(lo <= a < hi) {
      var x :| x in s && In(x, a);
      if x != b {
        assert x in s';
      } else if a < lo {
        assert left in s' && In(left, a);
      } else {
        assert right in s' && In(right, a);
      }
    }
  }

  lemma CutOutUsed(s: seq<Block>, s': seq<Block>, b: Block, lo: nat, hi: nat)
    requires !b.used && CutOut(s, s', b, lo, hi)
    ensures Used(s') == Used(s)
  {
  }

  // ---- the overlap test of external registrations ----

  /** `do_overlap` */
  predicate DoOverlap(x: Block, y: Block) {
    && ((y.start <= x.start < y.end) || (y.start < x.end <= y.end))
    && !(x.start == y.start && x.end == y.end)
  }

  /** On non-empty blocks the test reports a shared byte except when the two ranges are equal or the first strictly
      contains the second: those two it lets through. */
  lemma OverlapTestExact(x: Block, y: Block)
    requires x.start < x.end && y.start < y.end
    ensures DoOverlap(x, y) <==>
            && !Apart(x, y)
            && !(x.start == y.start && x.end == y.end)
            && !(x.start < y.start && y.end < x.end)
  {
  }

  /** `ensure_validity_aux_aux`: whether the test fires against some node. */
  predicate AnyOverlap(b: Block, t: Tree) {
    match t
    case Leaf => false
    case Node(l, d, r) => DoOverlap(b, d) || AnyOverlap(b, l) || AnyOverlap(b, r)
  }

  lemma {:induction false} AnyOverlapMembers(b: Block, t: Tree)
    ensures AnyOverlap(b, t) <==> exists x | x in InOrder(t) :: DoOverlap(b, x)
  {
    match t
    case Leaf =>
    case Node(l, d, r) =>
      AnyOverlapMembers(b, l);
      AnyOverlapMembers(b, r);
      assert InOrder(t) == InOrder(l) + [d] + InOrder(r);
      if AnyOverlap(b, l) { var x :| x in InOrder(l) && DoOverlap(b, x); assert x in InOrder(t); }
      if AnyOverlap(b, r) { var x :| x in InOrder(r) && DoOverlap(b, x); assert x in InOrder(t); }
      if DoOverlap(b, d) { assert d in InOrder(t); }
  }
}
