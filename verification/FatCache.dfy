/** Cache coherence of the FAT32 driver over whole runs of one cursor. */
module FatCache {
  import opened Bytes
  import opened FatChains
  import opened FatLayout
  import opened FatDrive

  /** What an operation does with its cursor. Callers' buffers are parts of one array. */
  datatype CacheOp =
    | Skip(c: nat)               // a move that reads no data
    | Read(c: nat)               // a move that reads into the driver's buffer
    | ReadInto(c: nat, at: nat)  // a move that reads into the caller's
    | Link(v: nat)               // a new FAT entry for the active cluster
    | WriteBack(s: Sector)       // new bytes in the driver's buffer, written to the active sector
    | WriteFrom(at: nat)         // a sector of the caller's bytes, written to the active sector

  /** All a run needs to know of the cursor: its cluster, whether the data is marked stale, and whether its sector is
      that cluster's. */
  datatype Cursor = Cursor(active: nat, stale: bool, placed: bool)

  function After(k: Cursor, op: CacheOp): Cursor {
    match op
    case Skip(c) => Cursor(c, k.active != c, k.placed && k.active == c)
    case Read(c) => Cursor(c, false, true)
    case ReadInto(c, _) => Cursor(c, false, true)
    case Link(_) => k
    case WriteBack(_) => k.(stale := false)
    case WriteFrom(_) => k.(stale := true)
  }

  /** Clusters are the volume's, values have 28 bits, writes go to the active cluster, and no null move goes onto a
      stale active cluster. */
  predicate Fits(g: Geometry, k: Cursor, op: CacheOp, room: nat) {
    match op
    case Skip(c) => g.IsCluster(c) && (k.active != c || !k.stale)
    case Read(c) => g.IsCluster(c)
    case ReadInto(c, at) => g.IsCluster(c) && at + 512 <= room
    case Link(v) => g.IsCluster(k.active) && v < TWO_28
    case WriteBack(_) => g.IsCluster(k.active) && k.placed
    case WriteFrom(at) => g.IsCluster(k.active) && k.placed && at + 512 <= room
  }

  /** Where the cursor is at the end of a run. */
  function AfterAll(k: Cursor, ops: seq<CacheOp>): Cursor
    decreases |ops|
  {
    if ops == [] then k else AfterAll(After(k, ops[0]), ops[1..])
  }

  predicate AllFit(g: Geometry, k: Cursor, ops: seq<CacheOp>, room: nat)
    decreases |ops|
  {
    ops == [] || (Fits(g, k, ops[0], room) && AllFit(g, After(k, ops[0]), ops[1..], room))
  }

  /** The cursor is as described. */
  ghost predicate Tracks(drive: Drive, ctx: Ctx, k: Cursor)
    reads drive, ctx
  {
    && ctx.activeCluster == k.active && ctx.bufferUpdated == k.stale
    && (k.placed && drive.g.IsCluster(k.active) ==> ctx.activeSector == drive.g.SectorOf(k.active))
  }

  /** Everything the run relies on and keeps. */
  ghost predicate Running(drive: Drive, ctx: Ctx, k: Cursor)
    reads drive, ctx, drive.fat, ctx.heldIn
  {
    drive.Ready() && drive.Cached(ctx) && Tracks(drive, ctx, k)
  }

  /** A move keeps the cache coherent, and a read that is not skipped delivers the cluster's data. */
  method Move(drive: Drive, ctx: Ctx, dst: array<Byte>, op: CacheOp, ghost k: Cursor)
    requires Running(drive, ctx, k) && Fits(drive.g, k, op, dst.Length) && dst != drive.buf && dst != drive.fat
    requires op.Skip? || op.Read? || op.ReadInto?
    modifies ctx, drive.buf, drive.fat, dst
    ensures Running(drive, ctx, After(k, op))
    ensures op.Read? && (k.active != op.c || k.stale) ==> drive.buf[..] == DataOf(drive.g, drive.disk, op.c)
    ensures op.ReadInto? && (k.active != op.c || k.stale) ==>
              dst[op.at..op.at + 512] == DataOf(drive.g, drive.disk, op.c)
  {
    match op
    case Skip(c) => var _ := drive.ChangeActiveCluster(c, ctx, null, 0);
    case Read(c) =>
      var _ := drive.ChangeActiveCluster(c, ctx, drive.buf, 0);
      assert drive.buf[0..512] == drive.buf[..];
    case ReadInto(c, at) => var _ := drive.ChangeActiveCluster(c, ctx, dst, at);
  }

  /** One operation keeps the cache coherent; moves leave the disk alone, an entry or the active cluster's data gets
      what is written. */
  method Step(drive: Drive, ctx: Ctx, dst: array<Byte>, op: CacheOp, ghost k: Cursor)
    requires Running(drive, ctx, k) && Fits(drive.g, k, op, dst.Length) && dst != drive.buf && dst != drive.fat
    modifies drive`disk, ctx, drive.buf, drive.fat, dst
    ensures Running(drive, ctx, After(k, op))
    ensures op.Read? && (k.active != op.c || k.stale) ==> drive.buf[..] == DataOf(drive.g, drive.disk, op.c)
    ensures op.ReadInto? && (k.active != op.c || k.stale) ==>
              dst[op.at..op.at + 512] == DataOf(drive.g, drive.disk, op.c)
    ensures op.Skip? || op.Read? || op.ReadInto? ==> drive.disk == old(drive.disk)
    ensures op.Link? ==> drive.T() == old(drive.T())[k.active := op.v]
    ensures op.WriteBack? ==> DataOf(drive.g, drive.disk, k.active) == op.s
    ensures op.WriteFrom? ==> DataOf(drive.g, drive.disk, k.active) == old(dst[op.at..op.at + 512])
  {
    match op
    case Link(v) => var _ := drive.SetEntry(ctx, v);
    case WriteBack(s) => WriteOwn(drive, ctx, s);
    case WriteFrom(at) =>
      Placed(drive.g, ctx.activeCluster);
      var _ := drive.WriteDataSectors(ctx.activeSector, dst, at, ctx);
    case _ => Move(drive, ctx, dst, op, k);
  }

  /** The driver's buffer is filled and written to the active cluster. */
  method WriteOwn(drive: Drive, ctx: Ctx, s: Sector)
    requires drive.Ready() && drive.Cached(ctx) && drive.g.IsCluster(ctx.activeCluster)
    requires ctx.activeSector == drive.g.SectorOf(ctx.activeCluster)
    modifies drive`disk, ctx, drive.buf
    ensures drive.Ready() && drive.Cached(ctx) && !ctx.bufferUpdated
    ensures ctx.activeCluster == old(ctx.activeCluster) && ctx.activeSector == old(ctx.activeSector)
    ensures DataOf(drive.g, drive.disk, ctx.activeCluster) == s
  {
    Placed(drive.g, ctx.activeCluster);
    forall i | 0 <= i < 512 { drive.buf[i] := s[i]; }
    assert drive.buf[..] == s && drive.buf[0..512] == drive.buf[..];
    var _ := drive.WriteDataSectors(ctx.activeSector, drive.buf, 0, ctx);
  }

  /** Any run of cursor operations keeps the cache coherent, with the cursor where they lead; as every prefix of a run
      is a run, so it is after each operation. */
  method Run(drive: Drive, ctx: Ctx, dst: array<Byte>, ops: seq<CacheOp>, ghost k: Cursor)
    requires Running(drive, ctx, k) && AllFit(drive.g, k, ops, dst.Length) && dst != drive.buf && dst != drive.fat
    modifies drive`disk, ctx, drive.buf, drive.fat, dst
    ensures Running(drive, ctx, AfterAll(k, ops))
  {
    ghost var end := k;
    var i := 0;
    assert ops[0..] == ops;
    while i < |ops|
      invariant i <= |ops| && Running(drive, ctx, end) && AllFit(drive.g, end, ops[i..], dst.Length)
      invariant AfterAll(end, ops[i..]) == AfterAll(k, ops)
    {
      assert ops[i..][0] == ops[i] && ops[i..][1..] == ops[i + 1..];
      Step(drive, ctx, dst, ops[i], end);
      end := After(end, ops[i]);
      i := i + 1;
    }
  }

  // ---- along a chain ----

  /** The moves of the run visit the chain's clusters one after the other, from the i-th on; writes follow reads. */
  predicate Along(ch: seq<nat>, i: nat, ops: seq<CacheOp>, wrote: bool, room: nat)
    decreases |ops|
  {
    ops == [] ||
    match ops[0]
    case Skip(c) => i < |ch| && c == ch[i] && Along(ch, i + 1, ops[1..], false, room)
    case Read(c) => i < |ch| && c == ch[i] && Along(ch, i + 1, ops[1..], true, room)
    case ReadInto(c, at) => i < |ch| && c == ch[i] && at + 512 <= room && Along(ch, i + 1, ops[1..], true, room)
    case Link(v) => i > 0 && v < TWO_28 && Along(ch, i, ops[1..], wrote, room)
    case WriteBack(_) => i > 0 && wrote && Along(ch, i, ops[1..], true, room)
    case WriteFrom(at) => i > 0 && wrote && at + 512 <= room && Along(ch, i, ops[1..], true, room)
  }

  /** Along clusters that do not repeat no read is ever skipped, so every such run fits. */
  lemma {:induction false} ChainFits(g: Geometry, ch: seq<nat>, i: nat, ops: seq<CacheOp>, k: Cursor, room: nat)
    requires AllClusters(g, ch) && (forall a, b | 0 <= a < b < |ch| :: ch[a] != ch[b]) && i <= |ch|
    requires if i == 0 then k.active !in ch else k.active == ch[i - 1]
    requires Along(ch, i, ops, k.placed, room)
    ensures AllFit(g, k, ops, room)
    decreases |ops|
  {
    if ops != [] {
      var next := match ops[0] case Skip(_) => i + 1 case Read(_) => i + 1 case ReadInto(_, _) => i + 1 case _ => i;
      ChainFits(g, ch, next, ops[1..], After(k, ops[0]), room);
    }
  }

  /** One cursor used alone along an acyclic chain: the cache is coherent after every operation. */
  method FollowChain(drive: Drive, ctx: Ctx, dst: array<Byte>, ops: seq<CacheOp>, ghost ch: seq<nat>)
    requires drive.Ready() && drive.Cached(ctx) && dst != drive.buf && dst != drive.fat
    requires IsChain(drive.T(), ch) && ctx.activeCluster !in ch && Along(ch, 0, ops, false, dst.Length)
    modifies drive`disk, ctx, drive.buf, drive.fat, dst
    ensures drive.Ready() && drive.Cached(ctx)
    ensures Tracks(drive, ctx, AfterAll(Cursor(old(ctx.activeCluster), old(ctx.bufferUpdated), false), ops))
  {
    ghost var k := Cursor(ctx.activeCluster, ctx.bufferUpdated, false);
    ChainFits(drive.g, ch, 0, ops, k, dst.Length);
    Run(drive, ctx, dst, ops, k);
  }

  /** Where coherence fails: a sector written from elsewhere, a null move onto its own cluster, and the next read is
      skipped although the buffer is stale. */
  method StaleRead(drive: Drive, ctx: Ctx, src: array<Byte>)
    requires drive.Ready() && drive.Cached(ctx) && drive.g.IsCluster(ctx.activeCluster) && src.Length == 512
    requires !ctx.bufferUpdated && ctx.heldIn == drive.buf && ctx.heldAt == 0
    requires src != drive.buf && src != drive.fat && src[..] != drive.buf[..]
    modifies drive`disk, ctx, drive.buf, drive.fat
    ensures drive.Ready() && ctx.activeCluster == old(ctx.activeCluster)
    ensures DataOf(drive.g, drive.disk, ctx.activeCluster) == src[..]
    ensures drive.buf[..] == old(drive.buf[..]) && !drive.Cached(ctx)
  {
    var c := ctx.activeCluster;
    Placed(drive.g, c);
    assert src[0..512] == src[..] && drive.buf[0..512] == drive.buf[..];
    var err := drive.WriteDataSectors(ctx.activeSector, src, 0, ctx);
    var ok := drive.ChangeActiveCluster(c, ctx, null, 0);
    ok := drive.ChangeActiveCluster(c, ctx, drive.buf, 0);
  }
}
