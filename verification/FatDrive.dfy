/** The FAT32 driver: one cached FAT sector and one data buffer over a disk of sectors. */
module FatDrive {
  import opened Basics
  import opened Bytes
  import opened FatChains
  import opened FatLayout

  /** The cursor of one driver operation. */
  class Ctx {
    var activeCluster: nat
    var activeSector: nat
    var fatSector: nat
    var entryOffset: nat
    var tableValue: nat
    var dirEntryId: nat
    var bufferUpdated: bool
    /** Where the last data read of this cursor went. */
    ghost var heldIn: array?<Byte>
    ghost var heldAt: nat

    constructor ()
      ensures activeCluster == activeSector == fatSector == entryOffset == tableValue == dirEntryId == 0
      ensures !bufferUpdated
    {
      activeCluster, activeSector, fatSector := 0, 0, 0;
      entryOffset, tableValue, dirEntryId := 0, 0, 0;
      bufferUpdated := false;
      heldIn, heldAt := null, 0;
    }
  }

  /** A named file: its directory's first cluster, its name, and the size its inode remembers. */
  class Dentry {
    const parent: nat
    const name: seq<Byte>
    const isFile: bool
    var size: nat

    constructor (parent: nat, name: seq<Byte>, isFile: bool, size: nat)
      ensures this.parent == parent && this.name == name && this.isFile == isFile && this.size == size
    {
      this.parent, this.name, this.isFile, this.size := parent, name, isFile, size;
    }
  }

  const NOT_FOUND: nat := 0xFFFF_FFFF

  /** The `k`-th word from the start of the FAT to the end of the disk, which is how far the free search may look. */
  function FatWord(g: Geometry, d: Disk, k: nat): nat {
    if g.firstFat + k / 128 < |d| then Word(d[g.firstFat + k / 128], 4 * (k % 128)) else 1
  }

  ghost function Words(g: Geometry, d: Disk): nat -> nat {
    k => FatWord(g, d, k)
  }

  lemma WordsAreTable(g: Geometry, d: Disk)
    requires DiskFits(g, d)
    ensures g.clusters + 2 <= 128 * (|d| - g.firstFat)
    ensures forall c | 0 <= c < g.clusters + 2 :: Words(g, d)(c) == Fat(g, d)[c]
  {
    forall c: nat | c < g.clusters + 2 ensures Words(g, d)(c) == Fat(g, d)[c] {
      Placed(g, c);
    }
  }

  class Drive {
    const g: Geometry
    const buf: array<Byte>
    const fat: array<Byte>
    var disk: Disk
    /** The chains on the disk, by owner. */
    ghost var chains: Chains

    constructor (g: Geometry, disk: Disk, ghost chains: Chains)
      requires VolumeOk(g, disk, chains)
      ensures this.g == g && this.disk == disk && this.chains == chains && Ready() && Sound()
      ensures fresh(buf) && fresh(fat)
    {
      this.g, this.disk, this.chains := g, disk, chains;
      buf := new Byte[512](_ => 0);
      fat := new Byte[512](_ => 0);
    }

    ghost predicate Ready()
      reads this
    {
      DiskFits(g, disk) && buf.Length == fat.Length == 512 && buf != fat
    }

    ghost predicate Sound()
      reads this
    {
      VolumeOk(g, disk, chains)
    }

    ghost function T(): Table
      requires Ready()
      reads this
    {
      Fat(g, disk)
    }

    /** The FAT buffer holds what the disk holds; sector 0 is never a FAT sector, so 0 means nothing is cached yet. */
    ghost predicate Coherent(ctx: Ctx)
      reads this, ctx, fat
    {
      ctx.fatSector == 0 || (ctx.fatSector < |disk| && fat[..] == disk[ctx.fatSector])
    }

    /** The data buffer holds the active cluster unless marked stale. */
    ghost predicate DataCoherent(ctx: Ctx)
      requires Ready()
      reads this, ctx, buf
    {
      g.IsCluster(ctx.activeCluster) && !ctx.bufferUpdated ==>
        && ctx.activeSector == g.SectorOf(ctx.activeCluster)
        && buf[..] == DataOf(g, disk, ctx.activeCluster)
    }

    /** The cursor stands on the FAT entry of cluster `c`. */
    ghost predicate At(ctx: Ctx, c: nat)
      requires Ready()
      reads this, ctx, fat
    {
      && Coherent(ctx)
      && ctx.fatSector == g.FatSectorOf(c) && ctx.entryOffset == g.FatOffsetOf(c)
      && ctx.activeCluster == c
    }

    /** The place the last data read went to holds the data of cluster `c`. */
    ghost predicate Held(ctx: Ctx, c: nat)
      requires Ready() && g.IsCluster(c)
      reads this, ctx, ctx.heldIn
    {
      && ctx.activeSector == g.SectorOf(c)
      && ctx.heldIn != null && ctx.heldIn != fat && ctx.heldAt + 512 <= ctx.heldIn.Length
      && ctx.heldIn[ctx.heldAt..ctx.heldAt + 512] == DataOf(g, disk, c)
    }

    /** The FAT buffer is its disk sector, and the table value is the masked entry on disk. */
    ghost predicate Shown(ctx: Ctx)
      requires Ready()
      reads this, ctx, fat
    {
      && Coherent(ctx)
      && (g.IsCluster(ctx.activeCluster) ==>
            At(ctx, ctx.activeCluster) && ctx.tableValue == T()[ctx.activeCluster] % TWO_28)
    }

    /** Cache coherence: the FAT buffer is its disk sector, the table value is the masked entry on disk, and a data
        read that would be skipped would return what the last one left. */
    ghost predicate Cached(ctx: Ctx)
      requires Ready()
      reads this, ctx, fat, ctx.heldIn
    {
      Shown(ctx) && (g.IsCluster(ctx.activeCluster) && !ctx.bufferUpdated ==> Held(ctx, ctx.activeCluster))
    }

    /** ATA read of one sector; it fails past the end of the drive. */
    method ReadSector(lba: nat, dst: array<Byte>, at: nat) returns (err: bool)
      requires Ready() && at + 512 <= dst.Length
      modifies dst
      ensures err <==> lba >= |disk|
      ensures err ==> dst[..] == old(dst[..])
      ensures !err ==> dst[at..at + 512] == disk[lba]
      ensures dst[..at] == old(dst[..at]) && dst[at + 512..] == old(dst[at + 512..])
    {
      if lba >= |disk| { return true; }
      var s := disk[lba];
      forall i | 0 <= i < 512 { dst[at + i] := s[i]; }
      assert dst[at..at + 512] == s;
      err := false;
    }

    /** ATA write of one sector. */
    method WriteSector(lba: nat, src: array<Byte>, at: nat) returns (err: bool)
      requires Ready() && at + 512 <= src.Length
      modifies this`disk
      ensures Ready()
      ensures err <==> lba >= |disk|
      ensures disk == if err then old(disk) else old(disk)[lba := src[at..at + 512]]
    {
      if lba >= |disk| { return true; }
      disk := disk[lba := src[at..at + 512]];
      err := false;
    }

    /** Whether moving to `c` reads the cluster's data. */
    ghost predicate Fetches(ctx: Ctx, c: nat, buffer: array?<Byte>)
      reads ctx
    {
      buffer != null && (ctx.activeCluster != c || ctx.bufferUpdated)
    }

    /** First half of a cursor move: the cluster's data goes to `buffer`, when one is given and the read is not
        known to be redundant. */
    method FetchData(c: nat, ctx: Ctx, buffer: array?<Byte>, at: nat) returns (ok: bool)
      requires Ready() && Coherent(ctx) && c < TWO_32
      requires buffer != null ==> buffer != fat && at + 512 <= buffer.Length
      modifies ctx, buffer
      ensures Coherent(ctx) && ctx.fatSector == old(ctx.fatSector) && ctx.activeCluster == c
      ensures ok <==> (old(Fetches(ctx, c, buffer)) ==> g.SectorOf(c) < |disk|)
      ensures ok && old(Fetches(ctx, c, buffer)) ==> buffer[at..at + 512] == disk[g.SectorOf(c)]
      ensures ok && !old(Fetches(ctx, c, buffer)) && buffer != null ==> buffer[..] == old(buffer[..])
      ensures ok ==> ctx.activeSector == if old(Fetches(ctx, c, buffer)) then g.SectorOf(c) else old(ctx.activeSector)
      ensures ok ==> ctx.bufferUpdated == (buffer == null && old(ctx.activeCluster) != c)
      ensures buffer != null ==> buffer[..at] == old(buffer[..at]) && buffer[at + 512..] == old(buffer[at + 512..])
      ensures (ctx.heldIn, ctx.heldAt) ==
              if old(Fetches(ctx, c, buffer)) then (buffer, at) else (old(ctx.heldIn), old(ctx.heldAt))
      // read or not, the buffer is the cluster's data, if a skipped read finds it where the last one left it
      ensures g.IsCluster(c) && buffer != null &&
              (!old(Fetches(ctx, c, buffer)) ==> old(Held(ctx, c)) && old(ctx.heldIn == buffer && ctx.heldAt == at)) ==>
                ok && Held(ctx, c) && buffer[at..at + 512] == DataOf(g, disk, c)
    {
      if g.IsCluster(c) { Placed(g, c); }
      if buffer == null {
        ctx.bufferUpdated := ctx.activeCluster != c;
        ctx.activeCluster := c;
      } else if ctx.activeCluster != c || ctx.bufferUpdated {
        ctx.activeCluster := c;
        ctx.activeSector := g.SectorOf(c);
        ctx.heldIn, ctx.heldAt := buffer, at;
        var err := ReadSector(ctx.activeSector, buffer, at);
        if err { return false; }
        ctx.bufferUpdated := false;
      }
      ok := true;
    }

    /** Second half: the FAT sector of the active cluster is cached, unless it already is, and its entry shown. */
    method FetchEntry(ctx: Ctx) returns (ok: bool)
      requires Ready() && Coherent(ctx) && ctx.activeCluster < TWO_32
      modifies ctx, fat
      ensures ctx.activeCluster == old(ctx.activeCluster) && ctx.activeSector == old(ctx.activeSector)
      ensures ctx.bufferUpdated == old(ctx.bufferUpdated) && ctx.heldIn == old(ctx.heldIn)
      ensures ctx.heldAt == old(ctx.heldAt)
      ensures ok <==> g.FatSectorOf(ctx.activeCluster) < |disk|
      ensures ok ==> At(ctx, ctx.activeCluster) && ctx.dirEntryId == 0
      ensures ok ==> ctx.tableValue == Word(disk[ctx.fatSector], ctx.entryOffset) % TWO_28
    {
      var newSector := g.FatSectorOf(ctx.activeCluster);
      ctx.entryOffset := g.FatOffsetOf(ctx.activeCluster);
      if newSector != ctx.fatSector {
        ctx.fatSector := newSector;
        var err := ReadSector(ctx.fatSector, fat, 0);
        if err { return false; }
        assert fat[..] == fat[0..512];
      }
      ctx.tableValue := Word(fat[..], ctx.entryOffset) % TWO_28;
      ctx.dirEntryId := 0;
      ok := true;
    }

    /** Moves the cursor to cluster `c`. */
    method ChangeActiveCluster(c: nat, ctx: Ctx, buffer: array?<Byte>, at: nat) returns (ok: bool)
      requires Ready() && Coherent(ctx) && c < TWO_32
      requires buffer != null ==> buffer != fat && at + 512 <= buffer.Length
      modifies ctx, fat, buffer
      ensures ok <==> (old(Fetches(ctx, c, buffer)) ==> g.SectorOf(c) < |disk|) && g.FatSectorOf(c) < |disk|
      ensures ok ==> At(ctx, c) && ctx.dirEntryId == 0
      ensures ok ==> ctx.tableValue == Word(disk[ctx.fatSector], ctx.entryOffset) % TWO_28
      ensures ok && old(Fetches(ctx, c, buffer)) ==>
                buffer[at..at + 512] == disk[g.SectorOf(c)] && ctx.activeSector == g.SectorOf(c)
      ensures ok && !old(Fetches(ctx, c, buffer)) ==> ctx.activeSector == old(ctx.activeSector)
      ensures ok && !old(Fetches(ctx, c, buffer)) && buffer != null ==> buffer[..] == old(buffer[..])
      ensures ok ==> ctx.bufferUpdated == (buffer == null && old(ctx.activeCluster) != c)
      ensures buffer != null ==> buffer[..at] == old(buffer[..at]) && buffer[at + 512..] == old(buffer[at + 512..])
      // on a cluster of the volume it succeeds and shows the masked entry on disk
      ensures g.IsCluster(c) ==> ok && ctx.tableValue == T()[c] % TWO_28
      // and a skipped read would have returned what the buffer holds
      ensures g.IsCluster(c) && buffer == buf && at == 0 && old(DataCoherent(ctx)) ==>
                DataCoherent(ctx) && buf[..] == DataOf(g, disk, c) && ctx.activeSector == g.SectorOf(c)
      ensures ok ==> (ctx.heldIn, ctx.heldAt) ==
                     if old(Fetches(ctx, c, buffer)) then (buffer, at) else (old(ctx.heldIn), old(ctx.heldAt))
      // coherence is kept by every move but a null one onto the active cluster while its data is marked stale, and by
      // that one only if the data happens to be there all the same
      ensures g.IsCluster(c) && old(Cached(ctx)) ==>
                (Cached(ctx)
                 <==> buffer != null || old(ctx.activeCluster) != c || !old(ctx.bufferUpdated) || old(Held(ctx, c)))
      // a move delivers the cluster's data if it reads, or goes where the last read went
      ensures g.IsCluster(c) && old(Cached(ctx)) && buffer != null &&
              (old(Fetches(ctx, c, buffer)) || old(ctx.heldIn == buffer && ctx.heldAt == at)) ==>
                buffer[at..at + 512] == DataOf(g, disk, c)
    {
      if g.IsCluster(c) { Placed(g, c); }
      ok := FetchData(c, ctx, buffer, at);
      if ok {
        ok := FetchEntry(ctx);
      }
      assert buffer == buf ==> buf[0..512] == buf[..];
    }

    /** The cursor points at the FAT entry of its cluster, whatever the FAT buffer holds. */
    ghost predicate OnEntry(ctx: Ctx)
      reads this, ctx
    {
      && g.IsCluster(ctx.activeCluster)
      && ctx.fatSector == g.FatSectorOf(ctx.activeCluster) && ctx.entryOffset == g.FatOffsetOf(ctx.activeCluster)
    }

    /** Puts the cached FAT sector back on disk. */
    method WriteFat(ctx: Ctx) returns (err: bool)
      requires Ready()
      modifies this`disk
      ensures Ready()
      ensures err <==> ctx.fatSector >= |disk|
      ensures disk == if err then old(disk) else old(disk)[ctx.fatSector := fat[..]]
      ensures !err ==> Coherent(ctx)
      // with the cursor on its cluster's entry, all is coherent exactly if the table value is the masked word
      // written and the data was held before
      ensures OnEntry(ctx) ==>
                && !err
                && (Cached(ctx) <==> ctx.tableValue == Word(fat[..], ctx.entryOffset) % TWO_28
                                     && (!ctx.bufferUpdated ==> old(Held(ctx, ctx.activeCluster))))
    {
      if g.IsCluster(ctx.activeCluster) { Placed(g, ctx.activeCluster); }
      assert fat[0..512] == fat[..];
      err := WriteSector(ctx.fatSector, fat, 0);
    }

    /** The driver's buffer, written to sector `lba`, is what the active cluster holds. */
    ghost predicate WroteActive(ctx: Ctx, lba: nat, before: Disk)
      requires Ready() && DiskFits(g, before) && g.IsCluster(ctx.activeCluster)
      reads this, ctx, buf
    {
      && ctx.activeSector == g.SectorOf(ctx.activeCluster)
      && (lba == ctx.activeSector || buf[..] == DataOf(g, before, ctx.activeCluster))
    }

    /** Writes a data sector, and marks the data buffer stale when the bytes did not come from it. */
    method WriteDataSectors(lba: nat, buffer: array<Byte>, at: nat, ctx: Ctx) returns (err: bool)
      requires Ready() && at + 512 <= buffer.Length
      modifies this`disk, ctx`bufferUpdated, ctx`heldIn, ctx`heldAt
      ensures Ready()
      ensures err <==> lba >= |disk|
      ensures disk == if err then old(disk) else old(disk)[lba := buffer[at..at + 512]]
      ensures !err ==> ctx.bufferUpdated == (buffer != buf)
      ensures (ctx.heldIn, ctx.heldAt) ==
               if !err && buffer == buf then (buf, at) else (old(ctx.heldIn), old(ctx.heldAt))
      // a write to the data region leaves FAT buffer and table value coherent, and the data too exactly if it came
      // from elsewhere, or went to the active cluster, or is that cluster's data already
      ensures !err && g.firstData <= lba && g.IsCluster(ctx.activeCluster) && old(Shown(ctx)) ==>
                && Shown(ctx)
                && (Cached(ctx) <==> buffer != buf || WroteActive(ctx, lba, old(disk)))
      // writing the active sector keeps the data buffer coherent, whichever buffer the bytes came from
      ensures !err && g.IsCluster(ctx.activeCluster) && lba == ctx.activeSector == g.SectorOf(ctx.activeCluster) ==>
                (buffer == buf ==> at == 0) ==> DataCoherent(ctx)
    {
      if g.IsCluster(ctx.activeCluster) { Placed(g, ctx.activeCluster); }
      err := WriteSector(lba, buffer, at);
      if !err {
        ctx.bufferUpdated := buffer != buf;
        if buffer == buf { ctx.heldIn, ctx.heldAt := buffer, at; }
        if g.firstData <= lba { TableFramed(g, old(disk), disk); }
      }
      assert buffer == buf ==> at == 0 && buf[0..512] == buf[..];
    }

    /** `*(uint*)&FAT[ctx.FAT_entry_offset] = ctx.table_value = v`, then the FAT sector goes to disk. */
    method SetEntry(ctx: Ctx, v: nat) returns (err: bool)
      requires Ready() && g.IsCluster(ctx.activeCluster) && At(ctx, ctx.activeCluster) && v < TWO_32
      modifies this`disk, ctx`tableValue, fat
      ensures Ready() && !err
      ensures disk == WithEntry(g, old(disk), ctx.activeCluster, v)
      ensures T() == old(T())[ctx.activeCluster := v] && SameData(g, old(disk), disk)
      ensures At(ctx, ctx.activeCluster) && ctx.tableValue == v
      ensures old(DataCoherent(ctx)) ==> DataCoherent(ctx)
      // the value shown is not masked, so a value of more than 28 bits, and no other, breaks coherence
      ensures old(Cached(ctx)) ==> (Cached(ctx) <==> v < TWO_28)
    {
      err := PutEntryOnDisk(ctx, v);
      Placed(g, ctx.activeCluster);
      assert DataOf(g, disk, ctx.activeCluster) == DataOf(g, old(disk), ctx.activeCluster);
      assert v % TWO_28 == v <==> v < TWO_28;
    }

    method PutEntryOnDisk(ctx: Ctx, v: nat) returns (err: bool)
      requires Ready() && g.IsCluster(ctx.activeCluster) && At(ctx, ctx.activeCluster) && v < TWO_32
      modifies this`disk, ctx`tableValue, fat
      ensures Ready() && !err && Coherent(ctx) && ctx.tableValue == v
      ensures disk == WithEntry(g, old(disk), ctx.activeCluster, v)
      ensures T() == old(T())[ctx.activeCluster := v] && SameData(g, old(disk), disk)
    {
      Placed(g, ctx.activeCluster);
      TableWithEntry(g, disk, ctx.activeCluster, v);
      PutEntry(ctx, v);
      err := WriteFat(ctx);
    }

    /** The assignment alone, to the buffer and the context. */
    method PutEntry(ctx: Ctx, v: nat)
      requires fat.Length == 512 && ctx.entryOffset + 4 <= 512 && v < TWO_32
      modifies ctx`tableValue, fat
      ensures fat[..] == PutWord(old(fat[..]), ctx.entryOffset, v) && ctx.tableValue == v
    {
      var w := PutWord(fat[..], ctx.entryOffset, v);
      forall i | 0 <= i < 512 { fat[i] := w[i]; }
      assert fat[..] == w;
      ctx.tableValue := v;
    }

    /** The first `n` zero words from the start of the FAT on, in ascending order; fails when the disk holds fewer. */
    method GetFreeClusters(n: nat) returns (ok: bool, free: seq<nat>)
      requires Ready()
      ensures ok <==> |free| == n
      ensures |free| <= n
      ensures ok && n > 0 ==> AllZeros(Words(g, disk), free[n - 1] + 1, free)
      ensures !ok ==> AllZeros(Words(g, disk), 128 * (|disk| - g.firstFat), free)
      ensures ok && n > 0 ==> free[n - 1] < 128 * (|disk| - g.firstFat)
    {
      free := [];
      if n == 0 { return true, free; }
      var sector := g.firstFat;
      var k := 0;   // number of the sector's first word
      while sector < |disk|
        invariant g.firstFat <= sector <= |disk| && |free| < n && k == 128 * (sector - g.firstFat)
        invariant AllZeros(Words(g, disk), k, free)
      {
        forall j: nat | j < 128 ensures WordMatches(Words(g, disk), k, disk[sector], j) {
          WordIs(g, disk, sector, j, k + j);
        }
        ok, free := ScanFatSector(disk[sector], k, n, free, Words(g, disk));
        if ok { return; }
        sector, k := sector + 1, k + 128;
      }
      ok := false;
    }

    /** One sector of that search, the words from number `base` on; `ok` once the list is long enough. */
    method ScanFatSector(s: Sector, base: nat, n: nat, found: seq<nat>, ghost w: nat -> nat)
      returns (ok: bool, free: seq<nat>)
      requires |found| < n && AllZeros(w, base, found) && forall j: nat | j < 128 :: WordMatches(w, base, s, j)
      ensures ok ==> |free| == n && AllZeros(w, free[n - 1] + 1, free) && free[n - 1] < base + 128
      ensures !ok ==> |free| < n && AllZeros(w, base + 128, free)
    {
      free := found;
      var j, k := 0, base;
      while j < 128
        invariant 0 <= j <= 128 && |free| < n && k == base + j && AllZeros(w, k, free)
      {
        assert WordMatches(w, base, s, j);
        if Word(s, 4 * j) == 0 && k >= 2 {
          ZerosStep(w, k, free);
          free := free + [k];
          if |free| == n { return true, free; }
        } else {
          ZerosSkip(w, k, free);
        }
        j, k := j + 1, k + 1;
      }
      ok := false;
    }

    /** Scans the directory sector in the data buffer for a name. */
    method ScanBuffer(name: seq<Byte>, ctx: Ctx) returns (id: nat)
      requires Ready() && ctx.dirEntryId == 0
      modifies ctx`dirEntryId
      ensures id == ScanDir(buf[..], name, 0)
    {
      var s := buf[..];
      ghost var found := ScanDir(s, name, 0);
      while ctx.dirEntryId < 16
        invariant ctx.dirEntryId <= 16 && ScanDir(s, name, ctx.dirEntryId) == found
        decreases 16 - ctx.dirEntryId
      {
        ScanStep(s, name, ctx.dirEntryId);
        if FreeEntry(s, ctx.dirEntryId) { return 16; }
        if Matches(s, ctx.dirEntryId, name) { return ctx.dirEntryId; }
        ctx.dirEntryId := ctx.dirEntryId + 1;
      }
      id := 16;
    }

    /** The cursor and the data buffer are on cluster `c`. */
    ghost predicate On(ctx: Ctx, c: nat)
      requires Ready()
      reads this, ctx, fat, buf
    {
      && At(ctx, c) && !ctx.bufferUpdated
      && g.IsCluster(c) && ctx.activeSector == g.SectorOf(c) && buf[..] == DataOf(g, disk, c)
    }

    /** One directory cluster: move there, and scan it. */
    method VisitDirCluster(c: nat, name: seq<Byte>, ctx: Ctx) returns (ok: bool, id: nat)
      requires Ready() && Coherent(ctx) && DataCoherent(ctx) && g.IsCluster(c)
      modifies ctx, buf, fat
      ensures ok && id == ScanDir(DataOf(g, disk, c), name, 0)
      ensures On(ctx, c) && ctx.tableValue == T()[c] % TWO_28
    {
      id := 16;
      ok := ChangeActiveCluster(c, ctx, buf, 0);
      if ok {
        id := ScanBuffer(name, ctx);
      }
    }

    /** Finds the entry named `name` along the parent directory's chain; the data buffer is left on its sector. */
    method GetChildDirEntryId(parent: nat, name: seq<Byte>, ctx: Ctx, ghost dir: seq<nat>) returns (id: nat)
      requires Ready() && ctx.activeCluster == ctx.fatSector == 0 && !ctx.bufferUpdated
      requires IsChain(T(), dir) && AllClusters(g, dir) && dir != [] && dir[0] == parent
      modifies ctx, buf, fat
      ensures id == NOT_FOUND ==> Find(g, disk, dir, name) == NoSlot
      ensures id != NOT_FOUND ==> Find(g, disk, dir, name) == Slot(ctx.activeCluster, id) && On(ctx, ctx.activeCluster)
    {
      if |name| > 0 && name[0] == SLASH { return NOT_FOUND; }
      var curr := parent;
      ghost var k := 0;
      while true
        invariant 0 <= k < |dir| && curr == dir[k]
        invariant Coherent(ctx) && DataCoherent(ctx)
        invariant Lookup(g, disk, dir, name, 0) == Lookup(g, disk, dir, name, k)
        decreases |dir| - k
      {
        var ok;
        ok, id := VisitDirCluster(curr, name, ctx);
        if !ok { return NOT_FOUND; }
        if id < 16 { return; }
        Follow(T(), dir, k);
        curr := ctx.tableValue;
        if curr >= MIN_EOC { break; }
        k := k + 1;
      }
      id := NOT_FOUND;
    }

    /** Follows a chain for `steps` links. */
    method Walk(first: nat, steps: nat, ctx: Ctx, ghost ch: seq<nat>) returns (ok: bool, curr: nat)
      requires Ready() && Coherent(ctx) && IsChain(T(), ch) && steps < |ch| && ch[0] == first
      modifies ctx, buf, fat
      ensures ok && curr == ch[steps] && g.IsCluster(curr) && Coherent(ctx)
    {
      curr := first;
      var i := 0;
      while i < steps
        invariant 0 <= i <= steps && curr == ch[i] && Coherent(ctx)
      {
        Follow(T(), ch, i);
        ok := ChangeActiveCluster(curr, ctx, buf, 0);
        if !ok { return; }
        curr := ctx.tableValue;
        i := i + 1;
      }
      ok := true;
    }

    /** Walks over the `k` kept clusters and marks the next one: end of chain, or free when nothing is kept.
        Returns the cluster that followed it. */
    method MarkEnd(first: nat, newSize: nat, k: nat, ctx: Ctx, ghost ch: seq<nat>) returns (ok: bool, next: nat)
      requires Ready() && Coherent(ctx) && IsChain(T(), ch) && k == SectorsFor(newSize) < |ch| && ch[0] == first
      modifies this`disk, ctx, buf, fat
      ensures Ready() && Coherent(ctx) && ok && (k + 1 < |ch| ==> next == ch[k + 1])
      ensures T() == CutTable(old(T()), ch, k, k + 1) && SameData(g, old(disk), disk)
    {
      next := 0;
      var curr;
      ok, curr := Walk(first, k, ctx, ch);
      if !ok { return; }
      ok := ChangeActiveCluster(curr, ctx, buf, 0);
      if !ok { return; }
      Follow(T(), ch, k);
      next := ctx.tableValue;
      var err := SetEntry(ctx, if newSize == 0 then 0 else EOC);
      ok := !err;
    }

    /** Frees the clusters from `ch[k + 1]`, where `from` points, to `ch[n - 1]`. */
    method ClearRest(from: nat, n: nat, k: nat, ctx: Ctx, ghost t: Table, ghost ch: seq<nat>) returns (ok: bool)
      requires Ready() && Coherent(ctx) && |t| == g.clusters + 2 && IsChain(t, ch) && k < n <= |ch|
      requires k + 1 < |ch| ==> from == ch[k + 1]
      requires T() == CutTable(t, ch, k, k + 1)
      modifies this`disk, ctx, buf, fat
      ensures Ready() && ok && T() == CutTable(t, ch, k, n) && SameData(g, old(disk), disk)
    {
      var curr := from;
      var i := 0;
      ghost var j := k + 1;
      while i < n - k - 1
        invariant 0 <= i <= n - k - 1 && j == k + 1 + i && Ready() && Coherent(ctx)
        invariant i < n - k - 1 ==> curr == ch[j]
        invariant T() == CutTable(t, ch, k, j)
        invariant SameData(g, old(disk), disk)
      {
        CutFollows(t, ch, k, j);
        ok, curr := ClearEntry(curr, ctx);
        if !ok { return; }
        i := i + 1;
        j := j + 1;
      }
      ok := true;
    }

    /** Shortens a chain from `n` data sectors to the `k` that `newSize` needs: marks the end and frees the rest. */
    method ShrinkChain(first: nat, newSize: nat, n: nat, k: nat, ctx: Ctx, ghost ch: seq<nat>) returns (ok: bool)
      requires Ready() && Coherent(ctx) && IsChain(T(), ch) && k == SectorsFor(newSize) < n <= |ch| && ch[0] == first
      modifies this`disk, ctx, buf, fat
      ensures Ready() && ok
      ensures T() == CutTable(old(T()), ch, k, n) && SameData(g, old(disk), disk)
    {
      ghost var t := T();
      var curr;
      ok, curr := MarkEnd(first, newSize, k, ctx, ch);
      if ok {
        ok := ClearRest(curr, n, k, ctx, t, ch);
      }
    }

    /** Frees cluster `c` and tells what its entry held, unmasked. */
    method ClearEntry(c: nat, ctx: Ctx) returns (ok: bool, next: nat)
      requires Ready() && Coherent(ctx) && g.IsCluster(c)
      modifies this`disk, ctx, buf, fat
      ensures Ready() && Coherent(ctx) && ok && next == old(T())[c]
      ensures T() == old(T())[c := 0] && SameData(g, old(disk), disk)
    {
      next := 0;
      ok := ChangeActiveCluster(c, ctx, buf, 0);
      if !ok { return; }
      Placed(g, c);
      next := Word(fat[..], ctx.entryOffset);
      var err := SetEntry(ctx, 0);
      ok := !err;
    }

    /** Points cluster `c`'s entry at `v`. */
    method LinkEntry(c: nat, v: nat, ctx: Ctx) returns (ok: bool)
      requires Ready() && Coherent(ctx) && g.IsCluster(c) && v < TWO_28
      modifies this`disk, ctx, buf, fat
      ensures Ready() && Coherent(ctx) && ok
      ensures T() == old(T())[c := v] && SameData(g, old(disk), disk)
    {
      ok := ChangeActiveCluster(c, ctx, buf, 0);
      if !ok { return; }
      var err := SetEntry(ctx, v);
      ok := !err;
    }

    /** Links `free[start..]` one after the other behind `path[0]`, and marks the end. */
    method LinkAll(from: nat, start: nat, free: seq<nat>, ctx: Ctx, ghost t: Table, ghost path: seq<nat>)
      returns (ok: bool)
      requires Ready() && Coherent(ctx) && start <= |free| && path == [from] + free[start..] && AllClusters(g, path)
      requires T() == t
      modifies this`disk, ctx, buf, fat
      ensures Ready() && ok && SameData(g, old(disk), disk)
      ensures T() == LinkTable(t, path, |path| - 1)[path[|path| - 1] := EOC]
    {
      var curr := from;
      var i := start;
      ghost var p := 0;
      while i < |free|
        invariant start <= i <= |free| && p == i - start && curr == path[p] && Ready() && Coherent(ctx)
        invariant T() == LinkTable(t, path, p)
        invariant SameData(g, old(disk), disk)
      {
        assert path[p + 1] == free[i];
        ok := LinkEntry(curr, free[i], ctx);
        if !ok { return; }
        curr := free[i];
        i := i + 1;
        p := p + 1;
      }
      ok := LinkEntry(curr, EOC, ctx);
    }

    /** Appends the free clusters after the last of the `n` data clusters; with none, the chain starts at `free[0]`.
        */
    method GrowChain(first: nat, n: nat, free: seq<nat>, ctx: Ctx, ghost ch: seq<nat>) returns (ok: bool)
      requires Ready() && Coherent(ctx) && IsChain(T(), ch) && n <= |ch| && |free| > 0
      requires first == if n == 0 then free[0] else ch[0]
      requires Fresh(T(), free)
      modifies this`disk, ctx, buf, fat
      ensures Ready() && ok
      ensures Linked(old(T()), T(), Spliced(ch, n, free)) && SameData(g, old(disk), disk)
    {
      ghost var t, path := T(), Spliced(ch, n, free);
      SplicedLinks(t, ch, n, free, path, |path| - 1);
      var curr, start;
      ok, curr, start := GrowFrom(first, n, free, ctx, ch);
      ok := LinkAll(curr, start, free, ctx, t, path);
    }

    /** The cluster to link the first new one behind, and which of the new ones that is. */
    method GrowFrom(first: nat, n: nat, free: seq<nat>, ctx: Ctx, ghost ch: seq<nat>)
      returns (ok: bool, curr: nat, start: nat)
      requires Ready() && Coherent(ctx) && IsChain(T(), ch) && n <= |ch| && |free| > 0
      requires first == if n == 0 then free[0] else ch[0]
      modifies ctx, buf, fat
      ensures ok && Ready() && Coherent(ctx) && start <= |free| && Spliced(ch, n, free) == [curr] + free[start..]
    {
      ok, curr, start := true, first, 1;
      if n > 0 {
        start := 0;
        ok, curr := Walk(first, n - 1, ctx, ch);
      }
    }

    /** Where the dentry's directory entry is. */
    ghost function SlotOf(dentry: Dentry): Slot
      requires Ready() && Dir(dentry.parent) in chains && AllClusters(g, chains[Dir(dentry.parent)])
      reads this
    {
      Find(g, disk, chains[Dir(dentry.parent)], dentry.name)
    }

    /** The dentry names something in a directory of the volume; what it names, if anything, is a file, and the inode
        remembers the size on disk. */
    ghost predicate Names(dentry: Dentry)
      requires Ready()
      reads this, dentry
    {
      && Dir(dentry.parent) in chains && AllClusters(g, chains[Dir(dentry.parent)])
      && var slot := SlotOf(dentry);
         slot.Slot? ==>
           && g.IsCluster(slot.cluster)
           && File(slot.cluster, slot.index) in chains
           && dentry.size == FileSize(DataOf(g, disk, slot.cluster), slot.index)
           && dentry.size + 511 < TWO_32
    }

    ghost function FileOf(dentry: Dentry): Owner
      requires Ready() && Names(dentry) && SlotOf(dentry).Slot?
      reads this, dentry
    {
      File(SlotOf(dentry).cluster, SlotOf(dentry).index)
    }

    method StoreSize(id: nat, n: nat)
      requires Ready() && id < 16 && n < TWO_32
      modifies buf
      ensures buf[..] == PutSize(old(buf[..]), id, n)
    {
      var s: Sector := PutSize(buf[..], id, n);
      forall i | 0 <= i < 512 { buf[i] := s[i]; }
      assert buf[..] == s;
    }

    method StoreFirst(id: nat, c: nat)
      requires Ready() && id < 16 && c < TWO_32
      modifies buf
      ensures buf[..] == PutFirst(old(buf[..]), id, c)
    {
      var s: Sector := PutFirst(buf[..], id, c);
      forall i | 0 <= i < 512 { buf[i] := s[i]; }
      assert buf[..] == s;
    }

    /** Writes the directory sector in the data buffer back to where it came from. */
    method PersistEntry(ctx: Ctx) returns (err: bool)
      requires Ready() && At(ctx, ctx.activeCluster) && g.IsCluster(ctx.activeCluster)
      requires ctx.activeSector == g.SectorOf(ctx.activeCluster)
      modifies this`disk, ctx`bufferUpdated, ctx`heldIn, ctx`heldAt
      ensures Ready() && !err && Coherent(ctx) && T() == old(T())
      ensures DataOf(g, disk, ctx.activeCluster) == buf[..]
      ensures forall b | g.IsCluster(b) && b != ctx.activeCluster :: DataOf(g, disk, b) == old(DataOf(g, disk, b))
    {
      ClusterWritten(g, disk, ctx.activeCluster, buf[..]);
      Placed(g, ctx.activeCluster);
      assert buf[0..512] == buf[..];
      err := WriteDataSectors(ctx.activeSector, buf, 0, ctx);
    }

    /** Free clusters for a growth. When the volume has enough, all of them lie in it; when no word past the FAT's
        last cluster reads as zero, the search fails exactly when it has not. */
    method TakeFree(n: nat) returns (ok: bool, free: seq<nat>)
      requires Ready() && n > 0
      requires |FreeClusters(T())| >= n || NoStrayZero()
      ensures ok <==> |FreeClusters(T())| >= n
      ensures ok ==> |free| == n
      ensures ok ==> forall i | 0 <= i < n :: g.IsCluster(free[i]) && T()[free[i]] == 0
      ensures ok ==> forall i, j | 0 <= i < j < n :: free[i] != free[j]
    {
      ok, free := GetFreeClusters(n);
      WordsAreTable(g, disk);
      if ok {
        EnoughLowFree(T(), Words(g, disk), free, 128 * (|disk| - g.firstFat));
        assert forall i, j | 0 <= i < j < n :: free[i] != free[j];
      } else {
        EnoughFree(T(), Words(g, disk), 128 * (|disk| - g.firstFat), free);
      }
    }

    /** No word between the last FAT entry in use and the end of the disk reads as zero. */
    ghost predicate NoStrayZero()
      reads this
    {
      forall k | g.clusters + 2 <= k < 128 * (|disk| - g.firstFat) :: FatWord(g, disk, k) != 0
    }

    /** Records a new size, and a new first cluster when `relink`, in the directory entry the buffer shows, on disk.
        */
    method UpdateEntry(ctx: Ctx, id: nat, newSize: nat, relink: bool, first: nat, ghost f: Owner) returns (ok: bool)
      requires Ready() && f == File(ctx.activeCluster, id) && id < 16 && On(ctx, ctx.activeCluster)
      requires newSize < TWO_32 && first < TWO_32
      modifies this`disk, ctx`bufferUpdated, ctx`heldIn, ctx`heldAt, buf
      ensures Ready() && ok && Coherent(ctx) && T() == old(T())
      ensures EntryIs(g, disk, f, if relink then first else FirstCluster(old(buf[..]), id), newSize)
      ensures OthersUntouched(g, old(disk), disk, f, [])
      ensures buf[..] == DataOf(g, disk, f.cluster)
    {
      ghost var s := buf[..];
      StoreSize(id, newSize);
      PutFields(s, id, first, newSize);
      if relink {
        PutFields(buf[..], id, first, newSize);
        StoreFirst(id, first);
      }
      var err := PersistEntry(ctx);
      ok := !err;
    }

    /** The cursor is on file `f`'s directory entry, which the data buffer shows; `ch` is the file's chain and it
        has at least the file's `n` data sectors. */
    ghost predicate OnFile(ctx: Ctx, f: Owner, ch: seq<nat>, n: nat)
      requires Ready()
      reads this, ctx, buf, fat
    {
      && f.File? && f.index < 16 && f.cluster == ctx.activeCluster && On(ctx, f.cluster)
      && AllClusters(g, ch) && IsChain(T(), ch)
      && n == SectorsFor(FileSize(buf[..], f.index)) <= |ch|
      && FirstCluster(buf[..], f.index) == FirstOf(ch)
    }

    /** The part of `resize` for fewer data sectors. */
    method ResizeSmaller(ctx: Ctx, id: nat, newSize: nat, n: nat, k: nat, ghost f: Owner, ghost ch: seq<nat>)
      returns (ok: bool)
      requires Ready() && OnFile(ctx, f, ch, n) && f.index == id && k == SectorsFor(newSize) < n && newSize < TWO_32
      modifies this`disk, ctx, buf, fat
      ensures Ready() && ok && T() == CutTable(old(T()), ch, k, n)
      ensures EntryIs(g, disk, f, if newSize == 0 then 0 else ch[0], newSize)
      ensures OthersUntouched(g, old(disk), disk, f, [])
    {
      var curr := FirstCluster(buf[..], id);
      ok := UpdateEntry(ctx, id, newSize, newSize == 0, 0, f);
      if !ok { return; }
      ghost var d1 := disk;
      ok := ShrinkChain(curr, newSize, n, k, ctx, ch);
      SameDataClusters(g, d1, disk);
    }

    /** The part of `resize` for more data sectors. */
    method ResizeBigger(ctx: Ctx, id: nat, newSize: nat, n: nat, k: nat, ghost f: Owner, ghost ch: seq<nat>)
      returns (ok: bool, ghost free: seq<nat>)
      requires Ready() && OnFile(ctx, f, ch, n) && f.index == id && n < k == SectorsFor(newSize) && newSize < TWO_32
      requires |FreeClusters(T())| >= k - n || NoStrayZero()
      modifies this`disk, ctx, buf, fat
      ensures Ready() && (ok <==> |FreeClusters(old(T()))| >= k - n)
      ensures !ok ==> disk == old(disk)
      ensures ok ==> |free| == k - n && forall i | 0 <= i < |free| :: g.IsCluster(free[i]) && old(T())[free[i]] == 0
      ensures ok ==> forall i, j | 0 <= i < j < |free| :: free[i] != free[j]
      ensures ok ==> Linked(old(T()), T(), Spliced(ch, n, free))
      ensures ok ==> EntryIs(g, disk, f, if n == 0 then free[0] else ch[0], newSize)
      ensures ok ==> OthersUntouched(g, old(disk), disk, f, [])
    {
      var list;
      ok, list := TakeFree(k - n);
      free := list;
      if !ok { return; }
      ok := UpdateEntry(ctx, id, newSize, n == 0, list[0], f);
      if !ok { return; }
      ghost var d1 := disk;
      ok := GrowChain(FirstCluster(buf[..], id), n, list, ctx, ch);
      SameDataClusters(g, d1, disk);
    }

    ghost predicate CanGrow(n: nat, k: nat)
      requires Ready()
      reads this
    {
      k > n ==> |FreeClusters(T())| >= k - n || NoStrayZero()
    }

    /** Finds a file's directory entry and leaves cursor and buffer on it. */
    method Locate(dentry: Dentry, ctx: Ctx) returns (id: nat)
      requires Ready() && Sound() && Names(dentry)
      requires ctx.activeCluster == ctx.fatSector == 0 && !ctx.bufferUpdated
      modifies ctx, buf, fat
      ensures id == NOT_FOUND <==> SlotOf(dentry) == NoSlot
      ensures id != NOT_FOUND ==> FileOf(dentry).index == id
                                  && OnFile(ctx, FileOf(dentry), chains[FileOf(dentry)], SectorsFor(dentry.size))
                                  && AllClusters(g, chains[FileOf(dentry)])
                                  && (dentry.size == 0 <==> chains[FileOf(dentry)] == [])
    {
      ChainOf(g, disk, chains, Dir(dentry.parent));
      ghost var dir := chains[Dir(dentry.parent)];
      assert dir != [] && dir[0] == dentry.parent;
      id := GetChildDirEntryId(dentry.parent, dentry.name, ctx, dir);
      if id != NOT_FOUND {
        FileFacts(g, disk, chains, FileOf(dentry));
      }
    }

    /** `resize` from the moment the directory entry is in the buffer. */
    method ResizeAt(ctx: Ctx, id: nat, size: nat, newSize: nat, ghost f: Owner, ghost ch: seq<nat>)
      returns (ok: bool, ghost free: seq<nat>)
      requires Ready() && size + 511 < TWO_32 && OnFile(ctx, f, ch, SectorsFor(size)) && f.index == id
      requires newSize + 511 < TWO_32 && CanGrow(SectorsFor(size), SectorsFor(newSize))
      requires SectorsFor(size) == 0 <==> ch == []
      modifies this`disk, ctx, buf, fat
      ensures Ready()
      ensures ok <==> GrowthFits(old(T()), size, newSize)
      ensures !ok ==> disk == old(disk)
      ensures ok ==> ResizedDisk(g, old(disk), disk, f, ch, SectorsFor(size), newSize, free)
    {
      free := [];
      SectorCountWraps(size);
      SectorCountWraps(newSize);
      var n := SectorsFor32(size);
      var k := SectorsFor32(newSize);
      if k < n {
        ok := ResizeSmaller(ctx, id, newSize, n, k, f, ch);
      } else if k > n {
        ok, free := ResizeBigger(ctx, id, newSize, n, k, f, ch);
      } else {
        ok := UpdateEntry(ctx, id, newSize, false, 0, f);
      }
    }

    /** `resize` as far as the disk goes. */
    method ResizeOnDisk(dentry: Dentry, newSize: nat) returns (ok: bool, ghost free: seq<nat>)
      requires Ready() && Sound() && Names(dentry) && newSize + 511 < TWO_32
      requires CanGrow(SectorsFor(dentry.size), SectorsFor(newSize))
      modifies this`disk, buf, fat
      ensures Ready()
      ensures ok <==> old(SlotOf(dentry)).Slot? && GrowthFits(old(T()), dentry.size, newSize)
      ensures !ok ==> disk == old(disk)
      ensures ok ==> var (f, n) := (old(FileOf(dentry)), SectorsFor(dentry.size));
                     && g.IsCluster(f.cluster) && f.index < 16 && n <= |chains[f]| && AllClusters(g, chains[f])
                     && ResizedDisk(g, old(disk), disk, f, chains[f], n, newSize, free)
    {
      var ctx := new Ctx();
      var id := Locate(dentry, ctx);
      if id == NOT_FOUND { return false, []; }
      ghost var f := FileOf(dentry);
      ok, free := ResizeAt(ctx, id, dentry.size, newSize, f, chains[f]);
    }

    /** Resizes a file. It fails when there is no such file, or not enough free clusters to grow into, and then
        changes nothing on disk. Otherwise the volume stays sound, the file's chain is cut or extended by clusters that
        were free, and no other directory entry, chain or data changes. */
    method Resize(dentry: Dentry, newSize: nat) returns (ok: bool, ghost f: Owner, ghost free: seq<nat>)
      requires Ready() && Sound() && Names(dentry) && newSize + 511 < TWO_32
      requires CanGrow(SectorsFor(dentry.size), SectorsFor(newSize))
      modifies this`disk, this`chains, dentry, buf, fat
      ensures Ready() && Sound() && Names(dentry) && SlotOf(dentry) == old(SlotOf(dentry))
      ensures ok <==> SlotOf(dentry).Slot? && GrowthFits(old(T()), old(dentry.size), newSize)
      ensures !ok ==> disk == old(disk) && chains == old(chains) && dentry.size == old(dentry.size)
      ensures ok ==> f == FileOf(dentry) && f in old(chains) && dentry.size == newSize
      ensures ok ==> var (n, ch) := (SectorsFor(old(dentry.size)), old(chains)[f]);
                     && g.IsCluster(f.cluster) && f.index < 16 && n <= |ch| && AllClusters(g, ch)
                     && ResizedDisk(g, old(disk), disk, f, ch, n, newSize, free)
                     && chains == old(chains)[f := ResizedChain(ch, n, SectorsFor(newSize), free)]
      ensures ok ==> OthersKept(g, old(disk), old(chains), disk, chains, f)
                     && OwnBytesKept(g, old(disk), old(chains)[f], old(dentry.size), disk, chains[f], newSize)
    {
      ok, free := ResizeOnDisk(dentry, newSize);
      f := Dir(0);
      if !ok { return; }
      f := old(FileOf(dentry));
      ghost var n := SectorsFor(dentry.size);
      ResizeKeeps(g, old(disk), disk, chains, f, n, newSize, free, Dir(dentry.parent), dentry.name);
      ResizeKeepsBytes(g, old(disk), disk, chains, f, dentry.size, newSize, free);
      chains := chains[f := ResizedChain(chains[f], n, SectorsFor(newSize), free)];
      dentry.size := newSize;
      UntouchedKept(g, old(disk), old(chains), disk, chains, f);
    }

    /** Writes the bytes from `wrote` on to cluster `c`, up to a sector of them; a last short piece keeps the rest
        of the sector as it was. */
    method WriteCluster(c: nat, src: array<Byte>, wrote: nat, length: nat, ctx: Ctx) returns (ok: bool, next: nat)
      requires Ready() && Coherent(ctx) && g.IsCluster(c) && ctx.activeCluster != c
      requires wrote < length <= src.Length && src != buf && src != fat
      modifies this`disk, ctx, buf, fat
      ensures Ready() && ok && Coherent(ctx) && ctx.activeCluster == c && T() == old(T()) && next == T()[c] % TWO_28
      ensures DataOf(g, disk, c) == if length - wrote >= 512 then src[wrote..wrote + 512]
                                    else src[wrote..length] + old(DataOf(g, disk, c))[length - wrote..]
      ensures forall b | g.IsCluster(b) && b != c :: DataOf(g, disk, b) == old(DataOf(g, disk, b))
    {
      next := 0;
      ok := ChangeActiveCluster(c, ctx, buf, 0);
      if !ok { return; }
      Placed(g, c);
      assert buf[..] == buf[0..512];
      var rem := length - wrote;
      var err;
      if rem >= 512 {
        ClusterWritten(g, disk, c, src[wrote..wrote + 512]);
        err := WriteDataSectors(ctx.activeSector, src, wrote, ctx);
      } else {
        forall i | 0 <= i < rem { buf[i] := src[wrote + i]; }
        assert buf[..] == src[wrote..length] + old(DataOf(g, disk, c))[rem..];
        assert buf[0..512] == buf[..];
        ClusterWritten(g, disk, c, buf[..]);
        err := WriteDataSectors(ctx.activeSector, buf, 0, ctx);
      }
      if err { return false, next; }
      next := ctx.tableValue;
    }

    /** Writes the `i`-th piece of a file to the `i`-th cluster of its chain. */
    method WritePiece(at: nat, src: array<Byte>, from: nat, length: nat, ctx: Ctx,
                      ghost ch: seq<nat>, ghost i: nat, ghost k: nat)
      returns (ok: bool, next: nat, wrote: nat)
      requires Ready() && Coherent(ctx) && IsChain(T(), ch) && AllClusters(g, ch) && length <= src.Length
      requires src != buf && src != fat && 512 * k - 512 < length <= 512 * k && i < k <= |ch|
      requires at == ch[i] && ctx.activeCluster != ch[i] && from == Progress(i, k, length)
      requires Filled(g, disk, ch, src[..length], i)
      modifies this`disk, ctx, buf, fat
      ensures Ready() && ok && Coherent(ctx) && T() == old(T()) && ctx.activeCluster == ch[i]
      ensures wrote == Progress(i + 1, k, length) && (i + 1 < |ch| ==> next == ch[i + 1] < MIN_EOC)
      ensures Filled(g, disk, ch, src[..length], i + 1)
      ensures forall b | g.IsCluster(b) && b != ch[i] :: DataOf(g, disk, b) == old(DataOf(g, disk, b))
    {
      wrote := from;
      Advance(i, k, length);
      Follow(T(), ch, i);
      ok, next := WriteCluster(at, src, wrote, length, ctx);
      if !ok { return; }
      PieceWritten(src[..], length, i, from, old(DataOf(g, disk, ch[i])), DataOf(g, disk, ch[i]));
      FillStep(g, old(disk), disk, ch, src[..length], i);
      var num := if length - wrote < 512 then length - wrote else 512;
      wrote := wrote + num;
    }

    /** Writes a whole file, `k` sectors of it, along its chain. */
    method WriteChain(first: nat, src: array<Byte>, length: nat, ctx: Ctx, ghost ch: seq<nat>, ghost k: nat)
      returns (ok: bool)
      requires Ready() && Coherent(ctx) && IsChain(T(), ch) && AllClusters(g, ch) && ctx.activeCluster !in ch
      requires 0 < length <= src.Length && src != buf && src != fat
      requires 512 * k - 512 < length <= 512 * k && 0 < k <= |ch| && first == ch[0]
      modifies this`disk, ctx, buf, fat
      ensures Ready() && ok && T() == old(T())
      ensures Filled(g, disk, ch, src[..length], k)
      ensures forall b | g.IsCluster(b) && b !in ch :: DataOf(g, disk, b) == old(DataOf(g, disk, b))
    {
      Follow(T(), ch, 0);
      var next, wrote := first, 0;
      ghost var i := 0;
      while wrote < length && next < MIN_EOC
        invariant 0 <= i <= k && wrote == Progress(i, k, length)
        invariant Ready() && Coherent(ctx) && T() == old(T())
        invariant i < k ==> next == ch[i] < MIN_EOC && ctx.activeCluster != ch[i]
        invariant Filled(g, disk, ch, src[..length], i)
        invariant forall b | g.IsCluster(b) && b !in ch :: DataOf(g, disk, b) == old(DataOf(g, disk, b))
        decreases k - i
      {
        ok, next, wrote := WritePiece(next, src, wrote, length, ctx, ch, i, k);
        if !ok { return; }
        i := i + 1;
      }
      ok := true;
    }

    /** The second half of `write_buf_to_file`: the file already has the right size. */
    method WriteData(dentry: Dentry, src: array<Byte>, length: nat) returns (ok: bool)
      requires Ready() && Sound() && Names(dentry)
      requires 0 < length == dentry.size && length <= src.Length && src != buf && src != fat
      modifies this`disk, buf, fat
      ensures Ready() && Sound() && Names(dentry) && SlotOf(dentry) == old(SlotOf(dentry))
      ensures ok <==> SlotOf(dentry).Slot?
      ensures !ok ==> disk == old(disk)
      ensures ok ==> var ch := chains[FileOf(dentry)];
                     && AllClusters(g, ch) && length <= 512 * |ch| && Content(g, disk, ch, length) == src[..length]
                     && (forall b | g.IsCluster(b) && b !in ch :: DataOf(g, disk, b) == old(DataOf(g, disk, b)))
    {
      var ctx := new Ctx();
      var id := Locate(dentry, ctx);
      if id == NOT_FOUND { return false; }
      ghost var f, dir, d := FileOf(dentry), Dir(dentry.parent), disk;
      ghost var ch := chains[f];
      FileFacts(g, d, chains, f);
      HomesApart(g, d, chains, f, f);
      ok := WriteChain(FirstCluster(buf[..], id), src, length, ctx, ch, SectorsFor(length));
      FilledIsContent(g, disk, ch, src[..length]);
      DataWriteSound(g, d, disk, chains, f);
      DirApart(g, d, chains, f, dir);
      FindSame(g, d, disk, chains[dir], dentry.name, ch);
    }

    /** The first half of `write_buf_to_file`: resize when the size differs. */
    method SetSize(dentry: Dentry, length: nat) returns (ok: bool)
      requires Ready() && Sound() && Names(dentry) && length + 511 < TWO_32
      requires CanGrow(SectorsFor(dentry.size), SectorsFor(length))
      modifies this`disk, this`chains, dentry, buf, fat
      ensures Ready() && Sound() && Names(dentry) && SlotOf(dentry) == old(SlotOf(dentry))
      ensures ok <==> (old(dentry.size) != length ==> SlotOf(dentry).Slot?)
                      && GrowthFits(old(T()), old(dentry.size), length)
      ensures !ok ==> disk == old(disk) && chains == old(chains) && dentry.size == old(dentry.size)
      ensures ok ==> dentry.size == length
      ensures SlotOf(dentry) == NoSlot ==> disk == old(disk) && chains == old(chains) && dentry.size == old(dentry.size)
      ensures ok && SlotOf(dentry).Slot? ==>
                var f := FileOf(dentry);
                && f in old(chains) && chains == old(chains)[f := chains[f]]
                && g.IsCluster(f.cluster) && f.index < 16 && OthersUntouched(g, old(disk), disk, f, [])
    {
      if dentry.size != length {
        ghost var f, free;
        ok, f, free := Resize(dentry, length);
      } else {
        ok := true;
        if SlotOf(dentry).Slot? {
          FileFacts(g, disk, chains, FileOf(dentry));
          UntouchedRefl(g, disk, FileOf(dentry));
        }
      }
    }

    /** The resize and the writing of `WriteBufToFile`. */
    method ReplaceContent(dentry: Dentry, src: array<Byte>, length: nat) returns (ok: bool)
      requires Ready() && Sound() && Names(dentry) && length + 511 < TWO_32
      requires length <= src.Length && src != buf && src != fat
      requires CanGrow(SectorsFor(dentry.size), SectorsFor(length))
      modifies this`disk, this`chains, dentry, buf, fat
      ensures Ready() && Sound() && Names(dentry) && SlotOf(dentry) == old(SlotOf(dentry))
      ensures ok <==> dentry.isFile && (old(dentry.size) != length || length > 0 ==> SlotOf(dentry).Slot?)
                      && GrowthFits(old(T()), old(dentry.size), length)
      ensures !ok ==> disk == old(disk) && chains == old(chains) && dentry.size == old(dentry.size)
      ensures ok ==> dentry.size == length
      ensures ok && SlotOf(dentry).Slot? ==>
                var f := FileOf(dentry);
                && f in old(chains) && chains == old(chains)[f := chains[f]]
                && AllClusters(g, chains[f]) && length <= 512 * |chains[f]|
                && Content(g, disk, chains[f], length) == src[..length]
                && g.IsCluster(f.cluster) && f.index < 16
                && OthersUntouched(g, old(disk), disk, f, chains[f])
    {
      if !dentry.isFile { return false; }
      ok := SetSize(dentry, length);
      if !ok { return; }
      ghost var d := disk;
      if SlotOf(dentry).Slot? {
        FileFacts(g, disk, chains, FileOf(dentry));
        HomesApart(g, disk, chains, FileOf(dentry), FileOf(dentry));
      }
      if length > 0 {
        ok := WriteData(dentry, src, length);
      }
      if SlotOf(dentry).Slot? {
        UntouchedCompose(g, old(disk), d, disk, FileOf(dentry), chains[FileOf(dentry)]);
      }
    }

    /** Replaces a file's content: resize when the size differs, then write along the chain. Every other file keeps
        its chain, its directory entry and its content. */
    method WriteBufToFile(dentry: Dentry, src: array<Byte>, length: nat) returns (ok: bool)
      requires Ready() && Sound() && Names(dentry) && length + 511 < TWO_32
      requires length <= src.Length && src != buf && src != fat
      requires CanGrow(SectorsFor(dentry.size), SectorsFor(length))
      modifies this`disk, this`chains, dentry, buf, fat
      ensures Ready() && Sound() && Names(dentry) && SlotOf(dentry) == old(SlotOf(dentry))
      ensures ok <==> dentry.isFile && (old(dentry.size) != length || length > 0 ==> SlotOf(dentry).Slot?)
                      && GrowthFits(old(T()), old(dentry.size), length)
      ensures !ok ==> disk == old(disk) && chains == old(chains) && dentry.size == old(dentry.size)
      ensures ok ==> dentry.size == length
      ensures ok && SlotOf(dentry).Slot? ==>
                var f := FileOf(dentry);
                && f in old(chains) && f in chains && chains == old(chains)[f := chains[f]]
                && AllClusters(g, chains[f]) && length <= 512 * |chains[f]|
                && Content(g, disk, chains[f], length) == src[..length]
                && OthersKept(g, old(disk), old(chains), disk, chains, f)
    {
      ok := ReplaceContent(dentry, src, length);
      if ok && SlotOf(dentry).Slot? {
        UntouchedKept(g, old(disk), old(chains), disk, chains, FileOf(dentry));
      }
    }

    /** Skips `count` whole clusters, following FAT entries only. */
    method SkipClusters(first: nat, count: nat, ctx: Ctx, ghost ch: seq<nat>) returns (ok: bool, next: nat, done: nat)
      requires Ready() && Coherent(ctx) && IsChain(T(), ch) && count < |ch| && first == ch[0]
      modifies ctx, fat
      ensures ok && Coherent(ctx) && done == count && next == ch[count]
      ensures ctx.activeCluster == if count == 0 then old(ctx.activeCluster) else ch[count - 1]
    {
      next, done := first, 0;
      while done < count && next < MIN_EOC
        invariant done <= count && Coherent(ctx) && next == ch[done]
        invariant done < count ==> next < MIN_EOC
        invariant ctx.activeCluster == if done == 0 then old(ctx.activeCluster) else ch[done - 1]
      {
        Follow(T(), ch, done);
        ok := ChangeActiveCluster(next, ctx, null, 0);
        if !ok { return; }
        next := ctx.tableValue;
        done := done + 1;
      }
      ok := true;
    }

    /** Loads `count` bytes of cluster `c`, from byte `skip` of it, by way of the data buffer. */
    method LoadThroughBuffer(c: nat, skip: nat, dst: array<Byte>, loaded: nat, count: nat, ctx: Ctx) returns (ok: bool)
      requires Ready() && Coherent(ctx) && c < TWO_32 && skip + count <= 512
      requires loaded + count <= dst.Length && dst != buf && dst != fat
      modifies ctx, buf, fat, dst
      ensures dst[..loaded] == old(dst[..loaded]) && dst[loaded + count..] == old(dst[loaded + count..])
      ensures ok ==> Coherent(ctx) && ctx.tableValue < TWO_28
      ensures g.IsCluster(c) && old(ctx.activeCluster) != c ==>
                && ok && ctx.activeCluster == c && ctx.tableValue == T()[c] % TWO_28
                && dst[loaded..loaded + count] == DataOf(g, disk, c)[skip..skip + count]
    {
      if g.IsCluster(c) { Placed(g, c); }
      ok := ChangeActiveCluster(c, ctx, buf, 0);
      if !ok { return; }
      assert buf[..] == buf[0..512];
      ghost var b := buf[..];
      forall i | 0 <= i < count { dst[loaded + i] := buf[skip + i]; }
      assert dst[loaded..loaded + count] == b[skip..skip + count];
    }

    /** Loads from cluster `c`, from byte `skip` of it, up to a sector of the `length` bytes wanted; a whole sector
        goes straight to the caller's buffer. */
    method LoadCluster(c: nat, skip: nat, dst: array<Byte>, loaded: nat, length: nat, ctx: Ctx)
      returns (ok: bool, count: nat)
      requires Ready() && Coherent(ctx) && c < TWO_32 && skip < 512
      requires loaded <= length <= dst.Length && dst != buf && dst != fat
      modifies ctx, buf, fat, dst
      ensures count == Least(length - loaded, 512 - skip)
      ensures dst[..loaded] == old(dst[..loaded]) && dst[loaded + count..] == old(dst[loaded + count..])
      ensures ok ==> Coherent(ctx) && ctx.tableValue < TWO_28
      ensures g.IsCluster(c) && old(ctx.activeCluster) != c ==>
                && ok && ctx.activeCluster == c && ctx.tableValue == T()[c] % TWO_28
                && dst[loaded..loaded + count] == DataOf(g, disk, c)[skip..skip + count]
    {
      var rem := length - loaded;
      count := if rem < 512 - skip then rem else 512 - skip;
      if skip == 0 && rem >= 512 {
        if g.IsCluster(c) {
          Placed(g, c);
          assert DataOf(g, disk, c)[0..512] == DataOf(g, disk, c);
        }
        ok := ChangeActiveCluster(c, ctx, dst, loaded);
      } else {
        ok := LoadThroughBuffer(c, skip, dst, loaded, count, ctx);
      }
    }

    /** The first piece of a load: from the offset to the end of its sector, or less. */
    method LoadFirst(first: nat, dst: array<Byte>, offset: nat, length: nat, ctx: Ctx, ghost r: Range)
      returns (ok: bool, next: nat, loaded: nat)
      requires Ready() && Coherent(ctx) && InRange(g, disk, r) && ctx.activeCluster !in r.ch
      requires r.offset == offset && 0 < r.length == length <= dst.Length && first == r.ch[0]
      requires dst != buf && dst != fat
      modifies ctx, buf, fat, dst
      ensures ok && 0 < loaded <= length && dst[length..] == old(dst[length..]) && Coherent(ctx) && next < TWO_32
      ensures Loading(g, disk, r, dst[..], loaded, ctx.activeCluster, next, offset / 512 + 1)
    {
      var n := offset / 512;
      var skip := offset - 512 * n;
      assert n < |r.ch| && skip == offset % 512;
      var done;
      loaded := 0;
      ok, next, done := SkipClusters(first, n, ctx, r.ch);
      if !ok { return; }
      if done < n { return false, next, loaded; }
      assert r.ch[n] in r.ch;
      ok, loaded := LoadCluster(next, skip, dst, 0, length, ctx);
      if !ok { return; }
      next := ctx.tableValue;
      TailKept(old(dst[..]), dst[..], loaded, length);
      LoadStart(g, disk, r, dst[..], loaded);
    }

    /** One more cluster of a load. */
    method LoadNext(next: nat, dst: array<Byte>, loaded: nat, length: nat, ctx: Ctx, ghost r: Range, ghost i: nat)
      returns (ok: bool, next': nat, loaded': nat)
      requires Ready() && Coherent(ctx) && InRange(g, disk, r)
      requires loaded < r.length == length <= dst.Length && dst != buf && dst != fat
      requires Loading(g, disk, r, dst[..], loaded, ctx.activeCluster, next, i)
      modifies ctx, buf, fat, dst
      ensures ok && loaded < loaded' <= length && dst[length..] == old(dst[length..]) && Coherent(ctx) && next' < TWO_32
      ensures Loading(g, disk, r, dst[..], loaded', ctx.activeCluster, next', i + 1)
    {
      ghost var active, was := ctx.activeCluster, dst[..];
      var count;
      next', loaded' := 0, loaded;
      ok, count := LoadCluster(next, 0, dst, loaded, length, ctx);
      loaded' := loaded + count;
      if !ok { return; }
      next' := ctx.tableValue;
      TailKept(was, dst[..], loaded', length);
      LoadStep(g, disk, r, was, dst[..], loaded, active, next, i, count);
    }

    /** The remaining pieces. */
    method LoadRest(from: nat, dst: array<Byte>, start: nat, length: nat, ctx: Ctx, ghost r: Range)
      returns (ok: bool, loaded: nat)
      requires Ready() && Coherent(ctx) && InRange(g, disk, r) && from < TWO_32
      requires 0 < start <= r.length == length <= dst.Length && dst != buf && dst != fat
      requires Loading(g, disk, r, dst[..], start, ctx.activeCluster, from, r.offset / 512 + 1)
      modifies ctx, buf, fat, dst
      ensures ok && loaded == length && dst[length..] == old(dst[length..])
      ensures dst[..length] == Content(g, disk, r.ch, r.size)[r.offset..r.offset + length]
    {
      var next: nat := from;
      loaded := start;
      ghost var i: nat := r.offset / 512 + 1;
      while loaded < length && next < MIN_EOC
        invariant loaded <= length && Coherent(ctx) && next < TWO_32
        invariant Loading(g, disk, r, dst[..], loaded, ctx.activeCluster, next, i)
        invariant loaded < length ==> next < MIN_EOC
        invariant dst[length..] == old(dst[length..])
        decreases length - loaded
      {
        ok, next, loaded := LoadNext(next, dst, loaded, length, ctx, r, i);
        if !ok { return; }
        i := i + 1;
      }
      ok := true;
    }

    /** `load_file_to_buf` from the moment the directory entry is in the buffer. */
    method LoadAt(ctx: Ctx, id: nat, dst: array<Byte>, offset: nat, length: nat, ghost ch: seq<nat>, ghost size: nat)
      returns (ok: bool, loaded: nat)
      requires Ready() && Coherent(ctx) && id < 16 && FirstCluster(buf[..], id) == FirstOf(ch)
      requires FileSize(buf[..], id) == size
      requires IsChain(T(), ch) && AllClusters(g, ch) && size <= 512 * |ch| && ctx.activeCluster !in ch
      requires 0 < length <= dst.Length && offset + length < TWO_32 && dst != buf && dst != fat
      modifies ctx, buf, fat, dst
      ensures ok <==> offset + length <= size
      ensures !ok ==> dst[..] == old(dst[..])
      ensures ok ==> loaded == length && dst[length..] == old(dst[length..])
      ensures ok ==> dst[..length] == Content(g, disk, ch, size)[offset..offset + length]
    {
      loaded := 0;
      var next := FirstCluster(buf[..], id);
      assert (offset + length) % TWO_32 == offset + length;
      if (offset + length) % TWO_32 > FileSize(buf[..], id) { return false, 0; }
      ghost var r := Range(ch, size, offset, length);
      ok, next, loaded := LoadFirst(next, dst, offset, length, ctx, r);
      if !ok { return; }
      ok, loaded := LoadRest(next, dst, loaded, length, ctx, r);
    }

    /** Loads `length` bytes of a file from `offset`: all of them, exactly as its chain holds them, when the range
        lies inside the file; otherwise it fails and leaves the caller's buffer alone. */
    method LoadFileToBuf(dst: array<Byte>, dentry: Dentry, offset: nat, length: nat) returns (ok: bool, loaded: nat)
      requires Ready() && Sound() && Names(dentry)
      requires 0 < length <= dst.Length && offset + length < TWO_32 && dst != buf && dst != fat
      modifies buf, fat, dst
      ensures ok <==> SlotOf(dentry).Slot? && offset + length <= dentry.size
      ensures !ok ==> dst[..] == old(dst[..])
      ensures ok ==> loaded == length && dst[length..] == old(dst[length..])
      ensures ok ==> var ch := chains[FileOf(dentry)];
                     && AllClusters(g, ch) && dentry.size <= 512 * |ch|
                     && dst[..length] == Content(g, disk, ch, dentry.size)[offset..offset + length]
    {
      var ctx := new Ctx();
      var id := Locate(dentry, ctx);
      if id == NOT_FOUND { return false, 0; }
      ghost var f := FileOf(dentry);
      FileFacts(g, disk, chains, f);
      HomesApart(g, disk, chains, f, f);
      ok, loaded := LoadAt(ctx, id, dst, offset, length, chains[f], dentry.size);
    }

    /** Round trip: once a buffer has been written to a file, loading any range of the file returns those bytes, and
        every other file is as it was. */
    method WriteThenLoad(dentry: Dentry, src: array<Byte>, size: nat, dst: array<Byte>, offset: nat, length: nat)
      returns (ok: bool)
      requires Ready() && Sound() && Names(dentry) && dentry.isFile && SlotOf(dentry).Slot?
      requires size <= src.Length && size + 511 < TWO_32 && CanGrow(SectorsFor(dentry.size), SectorsFor(size))
      requires 0 < length <= dst.Length && offset + length <= size
      requires src != buf && src != fat && dst != buf && dst != fat && src != dst
      modifies this`disk, this`chains, dentry, buf, fat, dst
      ensures ok <==> GrowthFits(old(T()), old(dentry.size), size)
      ensures ok ==> dst[..length] == src[offset..offset + length]
      ensures Ready() && Sound() && Names(dentry) && SlotOf(dentry) == old(SlotOf(dentry))
      ensures OthersKept(g, old(disk), old(chains), disk, chains, FileOf(dentry))
    {
      AllKept(g, disk, chains, FileOf(dentry));
      ok := WriteBufToFile(dentry, src, size);
      if !ok { return; }
      var loaded;
      ok, loaded := LoadFileToBuf(dst, dentry, offset, length);
      assert src[..size][offset..offset + length] == src[offset..offset + length];
    }
  }

  /** One resize: which file, its new size, and the clusters it was given. */
  datatype Request = Request(file: Owner, size: nat, free: seq<nat>)

  ghost predicate ResizeStep(g: Geometry, d: Disk, m: Chains, r: Request, d': Disk, m': Chains)
    requires DiskFits(g, d)
  {
    var f := r.file;
    && f in m && f.File? && g.IsCluster(f.cluster) && f.index < 16 && AllClusters(g, m[f])
    && var n := SectorsFor(FileSize(DataOf(g, d, f.cluster), f.index));
       && n <= |m[f]| && ResizedDisk(g, d, d', f, m[f], n, r.size, r.free)
       && m' == m[f := ResizedChain(m[f], n, SectorsFor(r.size), r.free)]
  }

  /** Any run of resizes, of any files in any order, stays in sound volumes: every chain acyclic, ended by a mark,
      long enough for its file, and no two sharing a cluster. */
  lemma {:induction false} ResizeRun(g: Geometry, ds: seq<Disk>, ms: seq<Chains>, rs: seq<Request>, k: nat)
    requires |ds| == |ms| == |rs| + 1 && k <= |rs| && VolumeOk(g, ds[0], ms[0])
    requires forall i | 0 <= i < |rs| :: DiskFits(g, ds[i]) && ResizeStep(g, ds[i], ms[i], rs[i], ds[i + 1], ms[i + 1])
    ensures VolumeOk(g, ds[k], ms[k])
  {
    if k > 0 {
      ResizeRun(g, ds, ms, rs, k - 1);
      var f, n := rs[k - 1].file,
          SectorsFor(FileSize(DataOf(g, ds[k - 1], rs[k - 1].file.cluster), rs[k - 1].file.index));
      assert ResizeStep(g, ds[k - 1], ms[k - 1], rs[k - 1], ds[k], ms[k]);
      ResizeSound(g, ds[k - 1], ds[k], ms[k - 1], f, n, rs[k - 1].size, rs[k - 1].free);
    }
  }

  /** The range test of a load, in 32-bit arithmetic, lets an out-of-range request through exactly when the sum
      wraps to something within the file. */
  lemma RangeTestWraps(offset: nat, length: nat, size: nat)
    requires offset < TWO_32 && length < TWO_32 && size < TWO_32
    ensures !((offset + length) % TWO_32 > size) && offset + length > size <==>
            offset + length >= TWO_32 && offset + length - TWO_32 <= size
  {
  }

  lemma TailKept(a: seq<Byte>, b: seq<Byte>, i: nat, j: nat)
    requires |a| == |b| && i <= j <= |a| && a[i..] == b[i..]
    ensures a[j..] == b[j..]
  {
  }

  /** The volume has the free clusters that going from `size` to `length` bytes takes. */
  ghost predicate GrowthFits(t: Table, size: nat, length: nat) {
    SectorsFor(length) > SectorsFor(size) ==> |FreeClusters(t)| >= SectorsFor(length) - SectorsFor(size)
  }

  /** A lookup in a directory does not see writes to clusters outside it. */
  lemma FindSame(g: Geometry, d: Disk, d': Disk, dir: seq<nat>, name: seq<Byte>, ch: seq<nat>)
    requires DiskFits(g, d) && DiskFits(g, d') && AllClusters(g, dir) && Disjoint(dir, ch)
    requires forall b | g.IsCluster(b) && b !in ch :: DataOf(g, d', b) == DataOf(g, d, b)
    ensures Find(g, d', dir, name) == Find(g, d, dir, name)
  {
    forall i | 0 <= i < |dir| ensures DataOf(g, d', dir[i]) == DataOf(g, d, dir[i]) { assert dir[i] in dir; }
    LookupSame(g, d, d', dir, name, 0);
  }

  /** After a resize the volume is sound and every directory lookup finds what it found before. */
  lemma ResizeKeeps(g: Geometry, d: Disk, d': Disk, m: Chains, f: Owner, n: nat, size: nat, free: seq<nat>,
                    dir: Owner, name: seq<Byte>)
    requires VolumeOk(g, d, m) && f in m && f.File? && g.IsCluster(f.cluster) && f.index < 16 && AllClusters(g, m[f])
    requires n == SectorsFor(FileSize(DataOf(g, d, f.cluster), f.index)) <= |m[f]|
    requires ResizedDisk(g, d, d', f, m[f], n, size, free)
    requires dir in m && dir.Dir? && AllClusters(g, m[dir])
    ensures var m' := m[f := ResizedChain(m[f], n, SectorsFor(size), free)];
            VolumeOk(g, d', m') && m'[dir] == m[dir]
    ensures Find(g, d', m[dir], name) == Find(g, d, m[dir], name)
    ensures FileSize(DataOf(g, d', f.cluster), f.index) == size
  {
    ResizeSound(g, d, d', m, f, n, size, free);
    LookupFramed(g, d, d', m[dir], name, 0, Slot(f.cluster, f.index));
  }

  /** The list stops at its `n`-th zero word; that one is a cluster when there are `n` free clusters. */
  lemma EnoughLowFree(t: Table, w: nat -> nat, free: seq<nat>, limit: nat)
    requires |t| <= limit && forall c | 0 <= c < |t| :: w(c) == t[c]
    requires |free| > 0 && AllZeros(w, free[|free| - 1] + 1, free) && free[|free| - 1] < limit
    requires |FreeClusters(t)| >= |free| || forall k | |t| <= k < limit :: w(k) != 0
    ensures |FreeClusters(t)| >= |free|
    ensures forall i | 0 <= i < |free| :: 2 <= free[i] < |t| && t[free[i]] == 0
  {
    var last := free[|free| - 1];
    if last >= |t| {
      EnoughFree(t, w, last + 1, free);
    } else {
      ElementsBound(free);
      assert Elements(free) <= FreeClusters(t);
      SubsetSize(Elements(free), FreeClusters(t));
    }
  }

  /** What `get_child_dir_entry_id` finds: a name with a leading slash is never found. */
  function Find(g: Geometry, d: Disk, dir: seq<nat>, name: seq<Byte>): (r: Slot)
    requires DiskFits(g, d) && AllClusters(g, dir)
    ensures r.Slot? ==> r.cluster in dir && r.index < 16
  {
    if |name| > 0 && name[0] == SLASH then NoSlot else Lookup(g, d, dir, name, 0)
  }

  /** The `j`-th word of a FAT sector whose words start at number `base`. */
  predicate WordMatches(w: nat -> nat, base: nat, s: Sector, j: nat)
    requires j < 128
  {
    w(base + j) == Word(s, 4 * j)
  }

  lemma WordIs(g: Geometry, d: Disk, sector: nat, j: nat, k: nat)
    requires g.firstFat <= sector < |d| && j < 128 && k == 128 * (sector - g.firstFat) + j
    ensures Words(g, d)(k) == Word(d[sector], 4 * j) && k < 128 * (|d| - g.firstFat)
  {
  }

  lemma ZerosStep(w: nat -> nat, k: nat, r: seq<nat>)
    requires AllZeros(w, k, r) && w(k) == 0 && k >= 2
    ensures AllZeros(w, k + 1, r + [k])
  {
  }

  lemma ZerosSkip(w: nat -> nat, k: nat, r: seq<nat>)
    requires AllZeros(w, k, r) && (w(k) != 0 || k < 2)
    ensures AllZeros(w, k + 1, r)
  {
  }
}
