/** Where a FAT32 volume keeps things on disk: sectors, FAT entries and directory entries.
    One sector per cluster and 512 bytes per sector, the only layout the driver supports. */
module FatLayout {
  import opened Basics
  import opened Bytes
  import opened FatChains

  type Sector = s: seq<Byte> | |s| == 512 witness seq(512, _ => 0)
  type Disk = seq<Sector>

  datatype Geometry = Geometry(firstFat: nat, fatSectors: nat, firstData: nat, clusters: nat) {

    /** `total_sectors`: with one sector per cluster the data region ends with the last cluster. */
    function Total(): nat { firstData + clusters }

    /** Reserved sectors come first (at least the boot sector), then the FAT (copies of it may follow), then data.
        The FAT has an entry per cluster, and no cluster number looks like a mark. */
    ghost predicate Valid() {
      && 1 <= firstFat
      && firstFat + fatSectors <= firstData
      && clusters + 2 <= 128 * fatSectors
      && clusters + 2 < MIN_EOC
      && Total() < TWO_32
    }

    predicate IsCluster(c: nat) { 2 <= c < clusters + 2 }

    /** FIRST_SECTOR_OF_CLUSTER, in 32-bit unsigned arithmetic. */
    function SectorOf(c: nat): nat { (c + TWO_32 - 2 + firstData) % TWO_32 }

    function FatSectorOf(c: nat): nat { firstFat + (c * 4 % TWO_32) / 512 }

    function FatOffsetOf(c: nat): (o: nat)
      ensures o + 4 <= 512
    {
      c * 4 % TWO_32 % 512
    }
  }

  ghost predicate DiskFits(g: Geometry, d: Disk) {
    g.Valid() && |d| == g.Total()
  }

  /** Clusters and their FAT entries fall where the layout says, without wrapping. */
  lemma Placed(g: Geometry, c: nat)
    requires g.Valid() && c < g.clusters + 2
    ensures g.FatSectorOf(c) == g.firstFat + c / 128 < g.firstFat + g.fatSectors <= g.firstData
    ensures g.FatOffsetOf(c) == 4 * (c % 128)
    ensures c >= 2 ==> g.SectorOf(c) == c - 2 + g.firstData < g.Total()
  {
  }

  /** The sector of a cluster. */
  function DataOf(g: Geometry, d: Disk, c: nat): Sector
    requires DiskFits(g, d) && g.IsCluster(c)
  {
    Placed(g, c);
    d[g.SectorOf(c)]
  }

  ghost predicate AllClusters(g: Geometry, ch: seq<nat>) {
    forall i | 0 <= i < |ch| :: g.IsCluster(ch[i])
  }

  function Entry(g: Geometry, d: Disk, c: nat): nat
    requires g.FatSectorOf(c) < |d|
  {
    Word(d[g.FatSectorOf(c)], g.FatOffsetOf(c))
  }

  /** The FAT as a table, one word per cluster number. */
  function Fat(g: Geometry, d: Disk): (t: Table)
    requires DiskFits(g, d)
    ensures |t| == g.clusters + 2
  {
    seq(g.clusters + 2, c requires 0 <= c < g.clusters + 2 => Placed(g, c); Entry(g, d, c))
  }

  function WithEntry(g: Geometry, d: Disk, c: nat, v: nat): Disk
    requires g.FatSectorOf(c) < |d| && v < TWO_32
  {
    d[g.FatSectorOf(c) := PutWord(d[g.FatSectorOf(c)], g.FatOffsetOf(c), v)]
  }

  /** Writing one FAT entry changes that entry of the table and nothing else on the disk but its own sector. */
  lemma TableWithEntry(g: Geometry, d: Disk, c: nat, v: nat)
    requires DiskFits(g, d) && c < g.clusters + 2 && v < TWO_32
    ensures g.FatSectorOf(c) < |d|
    ensures DiskFits(g, WithEntry(g, d, c, v))
    ensures Fat(g, WithEntry(g, d, c, v)) == Fat(g, d)[c := v]
    ensures SameData(g, d, WithEntry(g, d, c, v))
    ensures var s, at := WithEntry(g, d, c, v)[g.firstFat + c / 128], 4 * (c % 128);
            && s[at] == v % 0x100 && s[at + 1] == v / 0x100 % 0x100
            && s[at + 2] == v / 0x1_0000 % 0x100 && s[at + 3] == v / 0x100_0000
  {
    Placed(g, c);
    var d' := WithEntry(g, d, c, v);
    var s := d[g.FatSectorOf(c)];
    PutWordReads(s, g.FatOffsetOf(c), v);
    forall b: nat | b < g.clusters + 2 ensures Fat(g, d')[b] == Fat(g, d)[c := v][b] {
      Placed(g, b);
    }
  }

  /** No sector of the data region differs. */
  ghost predicate SameData(g: Geometry, d: Disk, d': Disk) {
    |d| == |d'| && forall s | g.firstData <= s < |d| :: d'[s] == d[s]
  }

  /** The FAT region is the same, so is the table. */
  lemma TableFramed(g: Geometry, d: Disk, d': Disk)
    requires DiskFits(g, d) && DiskFits(g, d')
    requires forall s | g.firstFat <= s < g.firstFat + g.fatSectors :: d'[s] == d[s]
    ensures Fat(g, d') == Fat(g, d)
  {
  }

  // ---- directory entries: 16 of 32 bytes in a sector ----

  const NAME_PADDING: Byte := 0x20
  const DOT: Byte := 0x2E
  const SLASH: Byte := 0x2F

  function FirstCluster(s: Sector, i: nat): nat
    requires i < 16
  {
    Half(s, 32 * i + 20) * 0x1_0000 + Half(s, 32 * i + 26)
  }

  function FileSize(s: Sector, i: nat): nat
    requires i < 16
  {
    Word(s, 32 * i + 28)
  }

  function PutFirst(s: Sector, i: nat, c: nat): (r: Sector)
    requires i < 16 && c < TWO_32
  {
    PutHalf(PutHalf(s, 32 * i + 20, c / 0x1_0000), 32 * i + 26, c % 0x1_0000)
  }

  function PutSize(s: Sector, i: nat, n: nat): (r: Sector)
    requires i < 16 && n < TWO_32
  {
    PutWord(s, 32 * i + 28, n)
  }

  /** `s'` is `s` but for the first-cluster and size fields of entry `i`. */
  ghost predicate OnlyEntryChanged(s: Sector, s': Sector, i: nat) {
    forall k | 0 <= k < 512 && !(32 * i + 20 <= k < 32 * i + 22 || 32 * i + 26 <= k < 32 * i + 32) :: s'[k] == s[k]
  }

  lemma PutFields(s: Sector, i: nat, c: nat, n: nat)
    requires i < 16 && c < TWO_32 && n < TWO_32
    ensures FileSize(PutSize(s, i, n), i) == n && FirstCluster(PutSize(s, i, n), i) == FirstCluster(s, i)
    ensures FirstCluster(PutFirst(s, i, c), i) == c && FileSize(PutFirst(s, i, c), i) == FileSize(s, i)
    ensures OnlyEntryChanged(s, PutSize(s, i, n), i)
    ensures OnlyEntryChanged(s, PutFirst(s, i, c), i)
    // the bytes of the two fields: size at 28, low half of the cluster at 26, high half at 20, each lowest byte first
    ensures var r := PutSize(s, i, n);
            && r[32 * i + 28] == n % 0x100 && r[32 * i + 29] == n / 0x100 % 0x100
            && r[32 * i + 30] == n / 0x1_0000 % 0x100 && r[32 * i + 31] == n / 0x100_0000
    ensures var r := PutFirst(s, i, c);
            && r[32 * i + 26] == c % 0x100 && r[32 * i + 27] == c / 0x100 % 0x100
            && r[32 * i + 20] == c / 0x1_0000 % 0x100 && r[32 * i + 21] == c / 0x100_0000
  {
    PutWordReads(s, 32 * i + 28, n);
    PutHalfReads(s, 32 * i + 20, c / 0x1_0000);
    PutHalfReads(PutHalf(s, 32 * i + 20, c / 0x1_0000), 32 * i + 26, c % 0x1_0000);
  }

  /** Every other entry of the sector keeps its first cluster and size. */
  lemma OtherEntriesKept(s: Sector, s': Sector, i: nat, j: nat)
    requires i < 16 && j < 16 && i != j && OnlyEntryChanged(s, s', i)
    ensures FirstCluster(s', j) == FirstCluster(s, j) && FileSize(s', j) == FileSize(s, j)
  {
  }

  predicate IsDirectory(attrs: Byte) { attrs / 16 % 2 == 1 }

  /** `attrs & LFN`: true as soon as one of the four low attribute bits is set. */
  predicate IsLongName(attrs: Byte) { attrs % 16 != 0 }

  function TakeUntil(s: seq<Byte>, stop: Byte): seq<Byte> {
    if s == [] || s[0] == stop then [] else [s[0]] + TakeUntil(s[1..], stop)
  }

  function LowerCase(s: seq<Byte>): seq<Byte> {
    seq(|s|, i requires 0 <= i < |s| => if 65 <= s[i] <= 90 then s[i] + 32 else s[i])
  }

  /** `DirEntry::get_name` on the first twelve bytes of an entry (name and attributes), as a C string. */
  function ShortName(e: seq<Byte>): seq<Byte>
    requires |e| == 12
  {
    var base := TakeUntil(e[0..8], NAME_PADDING);
    var dot := if !IsDirectory(e[11]) && e[8] != NAME_PADDING then [DOT] else [];
    var ext := TakeUntil(e[8..11], NAME_PADDING);
    TakeUntil(LowerCase(base + dot + ext), 0)
  }

  predicate Matches(s: Sector, i: nat, name: seq<Byte>)
    requires i < 16
  {
    var e := s[32 * i..32 * i + 12];
    !IsLongName(e[11]) && ShortName(e) == name
  }

  /** Index of the first entry from `i` on that has the name and stands before any free entry; 16 when none does. */
  function ScanDir(s: Sector, name: seq<Byte>, i: nat): (r: nat)
    requires i <= 16
    ensures i <= r <= 16
    ensures r < 16 ==> Matches(s, r, name)
    decreases 16 - i
  {
    if i == 16 || s[32 * i] == 0 then 16
    else if Matches(s, i, name) then i
    else ScanDir(s, name, i + 1)
  }

  /** No entry from `i` to `j` is free, so the directory goes on to `j`. */
  predicate Reaches(s: Sector, i: nat, j: nat)
    requires j < 16
  {
    forall k | i <= k <= j :: s[32 * k] != 0
  }

  /** The scan stops at the first matching entry the directory reaches, and finds none only if no such entry
      matches. */
  lemma {:induction false} ScanIsFirst(s: Sector, name: seq<Byte>, i: nat)
    requires i <= 16
    ensures var r := ScanDir(s, name, i);
            && (r < 16 ==> Reaches(s, i, r) && Matches(s, r, name))
            && (forall j | i <= j < r && Reaches(s, i, j) :: !Matches(s, j, name))
    decreases 16 - i
  {
    if i < 16 && s[32 * i] != 0 && !Matches(s, i, name) {
      ScanIsFirst(s, name, i + 1);
      forall j | i + 1 <= j < 16 ensures Reaches(s, i, j) <==> Reaches(s, i + 1, j) { }
    } else if i < 16 && s[32 * i] == 0 {
      forall j | i <= j < 16 ensures !Reaches(s, i, j) { }
    }
  }

  predicate FreeEntry(s: Sector, i: nat)
    requires i < 16
  {
    s[32 * i] == 0
  }

  lemma ScanStep(s: Sector, name: seq<Byte>, i: nat)
    requires i < 16
    ensures ScanDir(s, name, i)
         == if FreeEntry(s, i) then 16 else if Matches(s, i, name) then i else ScanDir(s, name, i + 1)
  {
  }

  datatype Slot = NoSlot | Slot(cluster: nat, index: nat)

  /** The directory entry named `name` found along the directory's chain from its `k`-th cluster. */
  function Lookup(g: Geometry, d: Disk, dir: seq<nat>, name: seq<Byte>, k: nat): (r: Slot)
    requires DiskFits(g, d) && k <= |dir| && AllClusters(g, dir)
    ensures r.Slot? ==> r.cluster in dir[k..] && r.index < 16
    decreases |dir| - k
  {
    if k == |dir| then NoSlot
    else
      var i := ScanDir(DataOf(g, d, dir[k]), name, 0);
      if i < 16 then Slot(dir[k], i) else Lookup(g, d, dir, name, k + 1)
  }

  lemma {:induction false} ScanFramed(s: Sector, s': Sector, name: seq<Byte>, i: nat, j: nat)
    requires i <= 16 && j < 16 && OnlyEntryChanged(s, s', j)
    ensures ScanDir(s', name, i) == ScanDir(s, name, i)
    decreases 16 - i
  {
    if i < 16 {
      NameFramed(s, s', name, i, j);
      ScanFramed(s, s', name, i + 1, j);
    }
  }

  /** Name and attributes are not among the fields rewritten. */
  lemma NameFramed(s: Sector, s': Sector, name: seq<Byte>, i: nat, j: nat)
    requires i < 16 && j < 16 && OnlyEntryChanged(s, s', j)
    ensures s'[32 * i] == s[32 * i] && Matches(s', i, name) == Matches(s, i, name)
  {
    assert s'[32 * i..32 * i + 12] == s[32 * i..32 * i + 12];
  }

  /** Rewriting the first cluster and size in one directory entry changes no lookup. */
  lemma LookupFramed(g: Geometry, d: Disk, d': Disk, dir: seq<nat>, name: seq<Byte>, k: nat, at: Slot)
    requires DiskFits(g, d) && DiskFits(g, d') && k <= |dir| && AllClusters(g, dir)
    requires at.Slot? && at.index < 16 && g.IsCluster(at.cluster)
    requires OnlyEntryChanged(DataOf(g, d, at.cluster), DataOf(g, d', at.cluster), at.index)
    requires forall i | 0 <= i < |dir| && dir[i] != at.cluster :: DataOf(g, d', dir[i]) == DataOf(g, d, dir[i])
    ensures Lookup(g, d', dir, name, k) == Lookup(g, d, dir, name, k)
    decreases |dir| - k
  {
    if k < |dir| {
      if dir[k] == at.cluster {
        ScanFramed(DataOf(g, d, dir[k]), DataOf(g, d', dir[k]), name, 0, at.index);
      }
      LookupFramed(g, d, d', dir, name, k + 1, at);
    }
  }

  // ---- a whole volume ----

  ghost predicate InSomeDir(m: Chains, c: nat) {
    exists o | o in m && o.Dir? :: c in m[o]
  }

  /** The file's directory entry agrees with its chain: an empty file has no cluster, any other starts at the first
      of its chain, and the chain is long enough for the recorded size. */
  ghost predicate EntryOk(g: Geometry, d: Disk, m: Chains, o: Owner)
    requires DiskFits(g, d) && o in m && o.File?
  {
    && o.index < 16 && g.IsCluster(o.cluster) && InSomeDir(m, o.cluster)
    && var s := DataOf(g, d, o.cluster);
       && FirstCluster(s, o.index) == (if m[o] == [] then 0 else m[o][0])
       && (FileSize(s, o.index) == 0 <==> m[o] == [])
       && FileSize(s, o.index) <= 512 * |m[o]|
  }

  ghost predicate EntriesOk(g: Geometry, d: Disk, m: Chains)
    requires DiskFits(g, d)
  {
    && (forall o | o in m && o.Dir? :: m[o] != [] && m[o][0] == o.first)
    && (forall o {:trigger EntryOk(g, d, m, o)} | o in m && o.File? :: EntryOk(g, d, m, o))
  }

  ghost predicate VolumeOk(g: Geometry, d: Disk, m: Chains) {
    DiskFits(g, d) && Separate(Fat(g, d), m) && EntriesOk(g, d, m)
  }

  /** The bytes of a file: its chain's sectors one after the other, cut at its size. */
  ghost function Content(g: Geometry, d: Disk, ch: seq<nat>, size: nat): (b: seq<Byte>)
    requires DiskFits(g, d) && size <= 512 * |ch| && AllClusters(g, ch)
    ensures |b| == size
  {
    seq(size, i requires 0 <= i < size => DataOf(g, d, ch[i / 512])[i % 512])
  }

  /** Outside `f`'s own clusters and its directory entry no data sector differs. */
  ghost predicate OthersUntouched(g: Geometry, d: Disk, d': Disk, f: Owner, own: seq<nat>)
    requires DiskFits(g, d) && DiskFits(g, d') && f.File? && g.IsCluster(f.cluster)
  {
    && (forall c | g.IsCluster(c) && c !in own && c != f.cluster :: DataOf(g, d', c) == DataOf(g, d, c))
    && OnlyEntryChanged(DataOf(g, d, f.cluster), DataOf(g, d', f.cluster), f.index)
  }

  /** No file's chain meets a directory cluster. */
  lemma HomesApart(g: Geometry, d: Disk, m: Chains, f: Owner, o: Owner)
    requires VolumeOk(g, d, m) && f in m && f.File? && o in m && o.File?
    ensures g.IsCluster(o.cluster) && o.index < 16 && o.cluster !in m[f]
  {
    assert EntryOk(g, d, m, o);
    var home :| home in m && home.Dir? && o.cluster in m[home];
    assert Disjoint(m[f], m[home]);
  }

  lemma ContentFramed(g: Geometry, d: Disk, d': Disk, ch: seq<nat>, n: nat)
    requires DiskFits(g, d) && DiskFits(g, d') && AllClusters(g, ch) && n <= 512 * |ch|
    requires forall i | 0 <= i < |ch| :: DataOf(g, d', ch[i]) == DataOf(g, d, ch[i])
    ensures Content(g, d', ch, n) == Content(g, d, ch, n)
  {
  }

  lemma ChainOf(g: Geometry, d: Disk, m: Chains, o: Owner)
    requires VolumeOk(g, d, m) && o in m
    ensures IsChain(Fat(g, d), m[o]) && AllClusters(g, m[o])
  {
  }

  lemma SectorsKept(g: Geometry, d: Disk, d': Disk, f: Owner, own: seq<nat>, ch: seq<nat>)
    requires DiskFits(g, d) && DiskFits(g, d') && f.File? && g.IsCluster(f.cluster) && OthersUntouched(g, d, d', f, own)
    requires AllClusters(g, ch) && Disjoint(ch, own) && f.cluster !in ch
    ensures forall i | 0 <= i < |ch| :: DataOf(g, d', ch[i]) == DataOf(g, d, ch[i])
  {
    forall i | 0 <= i < |ch| ensures DataOf(g, d', ch[i]) == DataOf(g, d, ch[i]) {
      assert ch[i] in ch;
    }
  }

  /** Every other file then keeps its directory entry ... */
  lemma OtherEntryKept(g: Geometry, d: Disk, d': Disk, m: Chains, f: Owner, o: Owner)
    requires DiskFits(g, d) && VolumeOk(g, d', m) && f in m && f.File? && o in m && o.File? && o != f
    requires g.IsCluster(f.cluster) && f.index < 16
    requires OthersUntouched(g, d, d', f, m[f])
    ensures g.IsCluster(o.cluster) && o.index < 16
    ensures var (s, s') := (DataOf(g, d, o.cluster), DataOf(g, d', o.cluster));
            FileSize(s', o.index) == FileSize(s, o.index) && FirstCluster(s', o.index) == FirstCluster(s, o.index)
  {
    HomesApart(g, d', m, f, o);
    if o.cluster == f.cluster {
      OtherEntriesKept(DataOf(g, d, o.cluster), DataOf(g, d', o.cluster), f.index, o.index);
    }
  }

  /** ... and its content. */
  lemma OtherContentKept(g: Geometry, d: Disk, d': Disk, m: Chains, f: Owner, o: Owner, n: nat)
    requires DiskFits(g, d) && VolumeOk(g, d', m) && f in m && f.File? && o in m && o.File? && o != f
    requires g.IsCluster(f.cluster) && n <= 512 * |m[o]|
    requires OthersUntouched(g, d, d', f, m[f])
    ensures AllClusters(g, m[o]) && Content(g, d', m[o], n) == Content(g, d, m[o], n)
  {
    HomesApart(g, d', m, o, f);
    ChainOf(g, d', m, o);
    assert Disjoint(m[o], m[f]);
    SectorsKept(g, d, d', f, m[f], m[o]);
    ContentFramed(g, d, d', m[o], n);
  }

  /** File `o` is as it was: chain, recorded size, first cluster and content. */
  ghost predicate FileKept(g: Geometry, d: Disk, m: Chains, d': Disk, m': Chains, o: Owner)
    requires DiskFits(g, d) && DiskFits(g, d')
  {
    && o in m && o in m' && m'[o] == m[o] && o.File? && g.IsCluster(o.cluster) && o.index < 16
    && var (s, s') := (DataOf(g, d, o.cluster), DataOf(g, d', o.cluster));
       && FileSize(s', o.index) == FileSize(s, o.index) && FirstCluster(s', o.index) == FirstCluster(s, o.index)
       && AllClusters(g, m[o]) && FileSize(s, o.index) <= 512 * |m[o]|
       && Content(g, d', m[o], FileSize(s, o.index)) == Content(g, d, m[o], FileSize(s, o.index))
  }

  /** So is every file but `f`. */
  ghost predicate OthersKept(g: Geometry, d: Disk, m: Chains, d': Disk, m': Chains, f: Owner)
    requires DiskFits(g, d) && DiskFits(g, d')
  {
    forall o {:trigger FileKept(g, d, m, d', m', o)} | o in m && o.File? && o != f :: FileKept(g, d, m, d', m', o)
  }

  /** A change confined to `f`'s clusters and directory entry keeps all other files. */
  lemma UntouchedKept(g: Geometry, d: Disk, m: Chains, d': Disk, m': Chains, f: Owner)
    requires VolumeOk(g, d, m) && VolumeOk(g, d', m') && f in m && f.File? && f in m' && m' == m[f := m'[f]]
    requires g.IsCluster(f.cluster) && f.index < 16 && OthersUntouched(g, d, d', f, m'[f])
    ensures OthersKept(g, d, m, d', m', f)
  {
    forall o | o in m && o.File? && o != f ensures FileKept(g, d, m, d', m', o) {
      OtherEntryKept(g, d, d', m', f, o);
      assert EntryOk(g, d', m', o);
      OtherContentKept(g, d, d', m', f, o, FileSize(DataOf(g, d', o.cluster), o.index));
    }
  }

  lemma AllKept(g: Geometry, d: Disk, m: Chains, f: Owner)
    requires VolumeOk(g, d, m)
    ensures OthersKept(g, d, m, d, m, f)
  {
    forall o | o in m && o.File? && o != f ensures FileKept(g, d, m, d, m, o) {
      assert EntryOk(g, d, m, o);
      ChainOf(g, d, m, o);
    }
  }

  /** Writing one data sector leaves the table and every other cluster alone. */
  lemma ClusterWritten(g: Geometry, d: Disk, c: nat, s: Sector)
    requires DiskFits(g, d) && g.IsCluster(c)
    ensures g.SectorOf(c) < |d|
    ensures var d' := d[g.SectorOf(c) := s];
            && DiskFits(g, d') && Fat(g, d') == Fat(g, d) && DataOf(g, d', c) == s
            && forall b | g.IsCluster(b) && b != c :: DataOf(g, d', b) == DataOf(g, d, b)
  {
    Placed(g, c);
    var d' := d[g.SectorOf(c) := s];
    TableFramed(g, d, d');
    forall b | g.IsCluster(b) && b != c ensures DataOf(g, d', b) == DataOf(g, d, b) {
      Placed(g, b);
    }
  }

  lemma SameDataClusters(g: Geometry, d: Disk, d': Disk)
    requires DiskFits(g, d) && SameData(g, d, d')
    ensures DiskFits(g, d') && forall b | g.IsCluster(b) :: DataOf(g, d', b) == DataOf(g, d, b)
  {
    forall b | g.IsCluster(b) ensures DataOf(g, d', b) == DataOf(g, d, b) { Placed(g, b); }
  }

  lemma InSomeDirKept(m: Chains, f: Owner, ch: seq<nat>, c: nat)
    requires f.File? && InSomeDir(m, c)
    ensures InSomeDir(m[f := ch], c)
  {
    var home :| home in m && home.Dir? && c in m[home];
    assert c in m[f := ch][home];
  }

  lemma EntryAfter(g: Geometry, d: Disk, d': Disk, m: Chains, f: Owner, ch: seq<nat>, o: Owner)
    requires DiskFits(g, d) && DiskFits(g, d') && f.File? && g.IsCluster(f.cluster) && f.index < 16
    requires o in m && o.File? && o != f && EntryOk(g, d, m, o)
    requires OthersUntouched(g, d, d', f, [])
    ensures EntryOk(g, d', m[f := ch], o)
  {
    InSomeDirKept(m, f, ch, o.cluster);
    if o.cluster == f.cluster {
      OtherEntriesKept(DataOf(g, d, o.cluster), DataOf(g, d', o.cluster), f.index, o.index);
    }
  }

  lemma EntriesAfter(g: Geometry, d: Disk, d': Disk, m: Chains, f: Owner, ch: seq<nat>)
    requires DiskFits(g, d) && EntriesOk(g, d, m) && f in m && f.File? && DiskFits(g, d')
    requires g.IsCluster(f.cluster) && f.index < 16 && OthersUntouched(g, d, d', f, [])
    requires var s := DataOf(g, d', f.cluster);
             && FirstCluster(s, f.index) == (if ch == [] then 0 else ch[0])
             && (FileSize(s, f.index) == 0 <==> ch == []) && FileSize(s, f.index) <= 512 * |ch|
    ensures EntriesOk(g, d', m[f := ch])
  {
    var m' := m[f := ch];
    forall o | o in m' && o.File? ensures EntryOk(g, d', m', o) {
      assert EntryOk(g, d, m, o);
      if o == f {
        InSomeDirKept(m, f, ch, f.cluster);
      } else {
        EntryAfter(g, d, d', m, f, ch, o);
      }
    }
  }

  /** A file whose entry and chain were changed together leaves a sound volume, if the chains are still apart. */
  lemma VolumeAfter(g: Geometry, d: Disk, d': Disk, m: Chains, f: Owner, ch: seq<nat>)
    requires VolumeOk(g, d, m) && f in m && f.File?
    requires DiskFits(g, d') && Separate(Fat(g, d'), m[f := ch])
    requires g.IsCluster(f.cluster) && f.index < 16 && OthersUntouched(g, d, d', f, [])
    requires var s := DataOf(g, d', f.cluster);
             && FirstCluster(s, f.index) == (if ch == [] then 0 else ch[0])
             && (FileSize(s, f.index) == 0 <==> ch == []) && FileSize(s, f.index) <= 512 * |ch|
    ensures VolumeOk(g, d', m[f := ch])
  {
    EntriesAfter(g, d, d', m, f, ch);
  }

  /** The directory entry of `f` records this first cluster and size. */
  ghost predicate EntryIs(g: Geometry, d: Disk, f: Owner, first: nat, size: nat)
    requires DiskFits(g, d) && f.File? && g.IsCluster(f.cluster) && f.index < 16
  {
    FirstCluster(DataOf(g, d, f.cluster), f.index) == first && FileSize(DataOf(g, d, f.cluster), f.index) == size
  }

  ghost function FirstOf(ch: seq<nat>): nat { if ch == [] then 0 else ch[0] }

  lemma ShrinkSound(g: Geometry, d: Disk, d': Disk, m: Chains, f: Owner, n: nat, size: nat)
    requires VolumeOk(g, d, m) && f in m && f.File? && g.IsCluster(f.cluster) && f.index < 16
    requires SectorsFor(size) < n <= |m[f]| && AllClusters(g, m[f])
    requires DiskFits(g, d') && Fat(g, d') == CutTable(Fat(g, d), m[f], SectorsFor(size), n)
    requires OthersUntouched(g, d, d', f, [])
    requires EntryIs(g, d', f, if size == 0 then 0 else m[f][0], size)
    ensures VolumeOk(g, d', m[f := ResizedChain(m[f], n, SectorsFor(size), [])])
  {
    var k := SectorsFor(size);
    assert IsChain(Fat(g, d), m[f]);
    CutIsShrunk(Fat(g, d), m[f], k, n);
    ShrinkKeeps(Fat(g, d), Fat(g, d'), m, f, n, k);
    VolumeAfter(g, d, d', m, f, ResizedChain(m[f], n, k, []));
  }

  lemma GrowSound(g: Geometry, d: Disk, d': Disk, m: Chains, f: Owner, n: nat, free: seq<nat>, size: nat)
    requires VolumeOk(g, d, m) && f in m && f.File? && g.IsCluster(f.cluster) && f.index < 16
    requires n <= |m[f]| && |free| > 0 && n + |free| == SectorsFor(size)
    requires forall i | 0 <= i < |free| :: g.IsCluster(free[i]) && Fat(g, d)[free[i]] == 0
    requires forall i, j | 0 <= i < j < |free| :: free[i] != free[j]
    requires DiskFits(g, d') && Linked(Fat(g, d), Fat(g, d'), Spliced(m[f], n, free))
    requires OthersUntouched(g, d, d', f, [])
    requires EntryIs(g, d', f, if n == 0 then free[0] else m[f][0], size)
    ensures VolumeOk(g, d', m[f := m[f][..n] + free])
  {
    GrowKeeps(Fat(g, d), Fat(g, d'), m, f, n, free);
    VolumeAfter(g, d, d', m, f, m[f][..n] + free);
  }

  /** What a sound volume says of one file. */
  lemma FileFacts(g: Geometry, d: Disk, m: Chains, f: Owner)
    requires VolumeOk(g, d, m) && f in m && f.File?
    ensures g.IsCluster(f.cluster) && f.index < 16
    ensures IsChain(Fat(g, d), m[f]) && AllClusters(g, m[f])
    ensures var size := FileSize(DataOf(g, d, f.cluster), f.index);
            EntryIs(g, d, f, FirstOf(m[f]), size) && SectorsFor(size) <= |m[f]| && (size == 0 <==> m[f] == [])
  {
    assert EntryOk(g, d, m, f);
  }

  /** Nothing but the entry changes when the number of data sectors stays. */
  lemma SameSound(g: Geometry, d: Disk, d': Disk, m: Chains, f: Owner, size: nat)
    requires VolumeOk(g, d, m) && f in m && f.File? && g.IsCluster(f.cluster) && f.index < 16
    requires SectorsFor(size) == SectorsFor(FileSize(DataOf(g, d, f.cluster), f.index))
    requires DiskFits(g, d') && Fat(g, d') == Fat(g, d) && OthersUntouched(g, d, d', f, [])
    requires EntryIs(g, d', f, FirstOf(m[f]), size)
    ensures VolumeOk(g, d', m)
  {
    FileFacts(g, d, m, f);
    assert m[f := m[f]] == m;
    VolumeAfter(g, d, d', m, f, m[f]);
  }

  /** How a resize of `f` to `size` bytes, from `n` data sectors, changes the disk: the table along the file's chain,
      the entry's two fields, nothing else in the data region. */
  ghost predicate ResizedDisk(g: Geometry, d: Disk, d': Disk, f: Owner, ch: seq<nat>, n: nat, size: nat, free: seq<nat>)
    requires DiskFits(g, d) && f.File? && g.IsCluster(f.cluster) && f.index < 16 && n <= |ch| && AllClusters(g, ch)
  {
    var k := SectorsFor(size);
    && DiskFits(g, d') && OthersUntouched(g, d, d', f, [])
    && EntryIs(g, d', f, FirstOf(ResizedChain(ch, n, k, free)), size)
    && (k < n ==> Fat(g, d') == CutTable(Fat(g, d), ch, k, n))
    && (k == n ==> Fat(g, d') == Fat(g, d))
    && (k > n ==> TakenFree(g, d, free, k - n) && Linked(Fat(g, d), Fat(g, d'), Spliced(ch, n, free)))
  }

  /** `free` lists that many different clusters, all of them free. */
  ghost predicate TakenFree(g: Geometry, d: Disk, free: seq<nat>, count: nat)
    requires DiskFits(g, d)
  {
    && |free| == count
    && (forall i | 0 <= i < |free| :: g.IsCluster(free[i]) && Fat(g, d)[free[i]] == 0)
    && (forall i, j | 0 <= i < j < |free| :: free[i] != free[j])
  }

  /** Every resize keeps the volume sound: chains acyclic, ended, apart, and long enough for the recorded sizes. */
  lemma ResizeSound(g: Geometry, d: Disk, d': Disk, m: Chains, f: Owner, n: nat, size: nat, free: seq<nat>)
    requires VolumeOk(g, d, m) && f in m && f.File? && g.IsCluster(f.cluster) && f.index < 16 && AllClusters(g, m[f])
    requires n == SectorsFor(FileSize(DataOf(g, d, f.cluster), f.index)) <= |m[f]|
    requires ResizedDisk(g, d, d', f, m[f], n, size, free)
    ensures VolumeOk(g, d', m[f := ResizedChain(m[f], n, SectorsFor(size), free)])
  {
    var k := SectorsFor(size);
    if k < n {
      ShrinkSound(g, d, d', m, f, n, size);
    } else if k > n {
      FileFacts(g, d, m, f);
      GrowSound(g, d, d', m, f, n, free, size);
    } else {
      SameSound(g, d, d', m, f, size);
      assert m[f := m[f]] == m;
    }
  }

  /** The file's own bytes, as far as both sizes reach, are the same. */
  ghost predicate OwnBytesKept(g: Geometry, d: Disk, ch: seq<nat>, size: nat, d': Disk, ch': seq<nat>, size': nat)
    requires DiskFits(g, d) && DiskFits(g, d')
  {
    && AllClusters(g, ch) && AllClusters(g, ch') && size <= 512 * |ch| && size' <= 512 * |ch'|
    && forall i | 0 <= i < Least(size, size') :: Content(g, d', ch', size')[i] == Content(g, d, ch, size)[i]
  }

  /** A resize keeps the file's own bytes. */
  lemma ResizeKeepsBytes(g: Geometry, d: Disk, d': Disk, m: Chains, f: Owner, size: nat, size': nat, free: seq<nat>)
    requires VolumeOk(g, d, m) && f in m && f.File? && g.IsCluster(f.cluster) && f.index < 16 && AllClusters(g, m[f])
    requires size == FileSize(DataOf(g, d, f.cluster), f.index) && SectorsFor(size) <= |m[f]|
    requires ResizedDisk(g, d, d', f, m[f], SectorsFor(size), size', free)
    requires VolumeOk(g, d', m[f := ResizedChain(m[f], SectorsFor(size), SectorsFor(size'), free)])
    ensures OwnBytesKept(g, d, m[f], size, d', ResizedChain(m[f], SectorsFor(size), SectorsFor(size'), free), size')
  {
    var n, k := SectorsFor(size), SectorsFor(size');
    var ch, ch' := m[f], ResizedChain(m[f], n, k, free);
    FileFacts(g, d, m, f);
    FileFacts(g, d', m[f := ch'], f);
    HomesApart(g, d, m, f, f);
    forall i | 0 <= i < Least(size, size') ensures Content(g, d', ch', size')[i] == Content(g, d, ch, size)[i] {
      assert i / 512 < n && i / 512 < k;
      assert ch'[i / 512] == ch[i / 512] && ch[i / 512] in ch;
    }
  }

  // ---- file contents, a sector at a time ----

  /** The bytes of `data` that go to its `a`-th sector. */
  function Chunk(data: seq<Byte>, a: nat): seq<Byte>
    requires 512 * a <= |data|
  {
    data[512 * a..Least(512 * a + 512, |data|)]
  }

  lemma ChunkWritten(data: seq<Byte>, a: nat, old': Sector, s: Sector)
    requires 512 * a < |data|
    requires s == if |data| - 512 * a >= 512 then data[512 * a..512 * a + 512]
                  else data[512 * a..] + old'[|data| - 512 * a..]
    ensures Chunk(data, a) <= s
  {
  }

  /** The same with the data at the front of a longer buffer. */
  lemma PieceWritten(src: seq<Byte>, length: nat, a: nat, from: nat, old': Sector, s: Sector)
    requires from == 512 * a < length <= |src|
    requires s == if length - from >= 512 then src[from..from + 512] else src[from..length] + old'[length - from..]
    ensures Chunk(src[..length], a) <= s
  {
    var data := src[..length];
    if length - from >= 512 {
      assert data[from..from + 512] == src[from..from + 512];
    } else {
      assert data[from..] == src[from..length];
    }
    ChunkWritten(data, a, old', s);
  }

  /** The first `i` clusters of the chain hold the first `i` chunks. */
  ghost predicate Filled(g: Geometry, d: Disk, ch: seq<nat>, data: seq<Byte>, i: nat)
    requires DiskFits(g, d) && AllClusters(g, ch) && i <= |ch|
  {
    forall a: nat | a < i && 512 * a <= |data| :: Chunk(data, a) <= DataOf(g, d, ch[a])
  }

  lemma FilledIsContent(g: Geometry, d: Disk, ch: seq<nat>, data: seq<Byte>)
    requires DiskFits(g, d) && AllClusters(g, ch) && SectorsFor(|data|) <= |ch|
    requires Filled(g, d, ch, data, SectorsFor(|data|))
    ensures Content(g, d, ch, |data|) == data
  {
    forall j: nat | j < |data| ensures Content(g, d, ch, |data|)[j] == data[j] {
      var a := j / 512;
      assert Chunk(data, a) <= DataOf(g, d, ch[a]);
      assert Chunk(data, a)[j % 512] == data[j];
    }
  }

  /** Content from `from` on, up to the end of the sector it falls in, is what that sector shows there. */
  lemma ContentInSector(g: Geometry, d: Disk, ch: seq<nat>, size: nat, from: nat, n: nat)
    requires DiskFits(g, d) && AllClusters(g, ch) && size <= 512 * |ch|
    requires from + n <= size && from % 512 + n <= 512 && from < size
    ensures from / 512 < |ch|
    ensures Content(g, d, ch, size)[from..from + n] == DataOf(g, d, ch[from / 512])[from % 512..from % 512 + n]
  {
    var c := DataOf(g, d, ch[from / 512])[from % 512..from % 512 + n];
    forall j: nat | j < n ensures Content(g, d, ch, size)[from..from + n][j] == c[j] {
      assert (from + j) / 512 == from / 512;
    }
  }

  /** A data sector written to an unfilled cluster keeps the filled ones. */
  lemma FillStep(g: Geometry, d: Disk, d': Disk, ch: seq<nat>, data: seq<Byte>, i: nat)
    requires DiskFits(g, d) && DiskFits(g, d') && AllClusters(g, ch) && i < |ch| && 512 * i <= |data|
    requires Filled(g, d, ch, data, i) && Chunk(data, i) <= DataOf(g, d', ch[i])
    requires forall a | 0 <= a < i :: ch[a] != ch[i]
    requires forall b | g.IsCluster(b) && b != ch[i] :: DataOf(g, d', b) == DataOf(g, d, b)
    ensures Filled(g, d', ch, data, i + 1)
  {
  }

  /** Rewriting the data of one file keeps the volume sound and every lookup. */
  lemma DataWriteSound(g: Geometry, d: Disk, d': Disk, m: Chains, f: Owner)
    requires VolumeOk(g, d, m) && f in m && f.File? && DiskFits(g, d') && Fat(g, d') == Fat(g, d)
    requires forall b | g.IsCluster(b) && b !in m[f] :: DataOf(g, d', b) == DataOf(g, d, b)
    ensures VolumeOk(g, d', m)
  {
    forall o | o in m && o.File? ensures EntryOk(g, d', m, o) {
      HomesApart(g, d, m, f, o);
      assert EntryOk(g, d, m, o);
    }
  }

  lemma DirApart(g: Geometry, d: Disk, m: Chains, f: Owner, dir: Owner)
    requires VolumeOk(g, d, m) && f in m && f.File? && dir in m && dir.Dir?
    ensures Disjoint(m[dir], m[f])
  {
  }

  lemma LookupSame(g: Geometry, d: Disk, d': Disk, dir: seq<nat>, name: seq<Byte>, k: nat)
    requires DiskFits(g, d) && DiskFits(g, d') && AllClusters(g, dir) && k <= |dir|
    requires forall i | 0 <= i < |dir| :: DataOf(g, d', dir[i]) == DataOf(g, d, dir[i])
    ensures Lookup(g, d', dir, name, k) == Lookup(g, d, dir, name, k)
    decreases |dir| - k
  {
    if k < |dir| { LookupSame(g, d, d', dir, name, k + 1); }
  }

  /** A resize of `f` followed by a rewrite of its data touches nothing of anybody else. */
  lemma UntouchedCompose(g: Geometry, d: Disk, d1: Disk, d2: Disk, f: Owner, ch: seq<nat>)
    requires DiskFits(g, d) && DiskFits(g, d1) && DiskFits(g, d2) && f.File? && g.IsCluster(f.cluster)
    requires OthersUntouched(g, d, d1, f, []) && f.cluster !in ch
    requires forall b | g.IsCluster(b) && b !in ch :: DataOf(g, d2, b) == DataOf(g, d1, b)
    ensures OthersUntouched(g, d, d2, f, ch)
  {
  }

  lemma UntouchedRefl(g: Geometry, d: Disk, f: Owner)
    requires DiskFits(g, d) && f.File? && g.IsCluster(f.cluster)
    ensures OthersUntouched(g, d, d, f, [])
  {
  }

  /** A sector's worth of content, or a shorter end of it, is the start of that sector. */
  lemma ContentAt(g: Geometry, d: Disk, ch: seq<nat>, size: nat, i: nat, n: nat)
    requires DiskFits(g, d) && AllClusters(g, ch) && size <= 512 * |ch| && i < |ch| && n <= 512 && 512 * i + n <= size
    ensures Content(g, d, ch, size)[512 * i..512 * i + n] == DataOf(g, d, ch[i])[0..n]
  {
    if n > 0 { ContentInSector(g, d, ch, size, 512 * i, n); }
  }

  /** Bytes already delivered and the next ones. */
  lemma Delivered(content: seq<Byte>, from: nat, dst: seq<Byte>, a: nat, b: nat)
    requires from + a + b <= |content| && a + b <= |dst|
    requires dst[..a] == content[from..from + a] && dst[a..a + b] == content[from + a..from + a + b]
    ensures dst[..a + b] == content[from..from + (a + b)]
  {
    assert dst[..a + b] == dst[..a] + dst[a..a + b];
    assert content[from..from + (a + b)] == content[from..from + a] + content[from + a..from + a + b];
  }

  /** A range of a file: the chain, the file's size, and the bytes wanted from it. */
  datatype Range = Range(ch: seq<nat>, size: nat, offset: nat, length: nat)

  ghost predicate InRange(g: Geometry, d: Disk, r: Range) {
    && DiskFits(g, d) && IsChain(Fat(g, d), r.ch) && AllClusters(g, r.ch)
    && r.size <= 512 * |r.ch| && r.offset + r.length <= r.size
  }

  /** Where a load of the range stands: the first `loaded` bytes wanted are in `dst`, and if more are wanted the
      next ones start the chain's `i`-th cluster, which is `next` and not the cursor's. */
  ghost predicate Loading(g: Geometry, d: Disk, r: Range, dst: seq<Byte>, loaded: nat, active: nat, next: nat, i: nat)
    requires InRange(g, d, r)
  {
    && loaded <= r.length <= |dst|
    && dst[..loaded] == Content(g, d, r.ch, r.size)[r.offset..r.offset + loaded]
    && (loaded < r.length ==> r.offset + loaded == 512 * i && i < |r.ch| && next == r.ch[i] && active != next)
  }

  /** What the walker sees after the `i`-th cluster of a range that goes on. */
  lemma GoesOn(g: Geometry, d: Disk, r: Range, i: nat)
    requires InRange(g, d, r) && 512 * (i + 1) < r.offset + r.length
    ensures i + 1 < |r.ch| && Fat(g, d)[r.ch[i]] % TWO_28 == r.ch[i + 1] != r.ch[i]
  {
    Follow(Fat(g, d), r.ch, i);
  }

  lemma LoadStep(g: Geometry, d: Disk, r: Range, dst: seq<Byte>, dst': seq<Byte>, loaded: nat, active: nat, next: nat,
                 i: nat, count: nat)
    requires InRange(g, d, r) && Loading(g, d, r, dst, loaded, active, next, i) && loaded < r.length
    requires count == Least(r.length - loaded, 512) && |dst'| == |dst| && dst'[..loaded] == dst[..loaded]
    requires dst'[loaded..loaded + count] == DataOf(g, d, r.ch[i])[0..count]
    ensures Loading(g, d, r, dst', loaded + count, r.ch[i], Fat(g, d)[r.ch[i]] % TWO_28, i + 1)
  {
    ContentAt(g, d, r.ch, r.size, i, count);
    Delivered(Content(g, d, r.ch, r.size), r.offset, dst', loaded, count);
    if loaded + count < r.length { GoesOn(g, d, r, i); }
  }

  lemma LoadStart(g: Geometry, d: Disk, r: Range, dst: seq<Byte>, count: nat)
    requires InRange(g, d, r) && 0 < r.length <= |dst| && r.offset / 512 < |r.ch|
    requires count == Least(r.length, 512 - r.offset % 512)
    requires dst[0..count] == DataOf(g, d, r.ch[r.offset / 512])[r.offset % 512..r.offset % 512 + count]
    ensures var c := r.ch[r.offset / 512];
            Loading(g, d, r, dst, count, c, Fat(g, d)[c] % TWO_28, r.offset / 512 + 1)
  {
    ContentInSector(g, d, r.ch, r.size, r.offset, count);
    assert dst[..count] == dst[0..count];
    if count < r.length { GoesOn(g, d, r, r.offset / 512); }
  }
}
