/** Which directory entry a name finds. */
module FatNames {
  import opened Bytes
  import opened FatLayout
  import opened FatDrive

  /** What a short name may be made of. */
  predicate Plain(s: seq<Byte>) {
    forall i | 0 <= i < |s| :: s[i] != 0 && s[i] != NAME_PADDING
  }

  function Padding(n: nat): (s: seq<Byte>)
    ensures |s| == n && forall i | 0 <= i < n :: s[i] == NAME_PADDING
  {
    seq(n, _ => NAME_PADDING)
  }

  /** The eleven bytes of a name: eight for the base and three for the extension, padded with spaces. */
  function Field(base: seq<Byte>, ext: seq<Byte>): (s: seq<Byte>)
    requires |base| <= 8 && |ext| <= 3
    ensures |s| == 11
  {
    base + Padding(8 - |base|) + ext + Padding(3 - |ext|)
  }

  /** `low` is `s` in lower case. */
  predicate Lowered(s: seq<Byte>, low: seq<Byte>) {
    && |low| == |s|
    && forall i | 0 <= i < |s| :: low[i] == if 'A' as int <= s[i] <= 'Z' as int then s[i] + 32 else s[i]
  }

  /** `name` is what users call the entry: lower case, and with a dot before the extension of a file, if it has one. */
  predicate Called(base: seq<Byte>, ext: seq<Byte>, dir: bool, name: seq<Byte>) {
    var dot := if dir || ext == [] then 0 else 1;
    && |name| == |base| + dot + |ext|
    && Lowered(base, name[..|base|]) && Lowered(ext, name[|base| + dot..])
    && (dot == 1 ==> name[|base|] == '.' as int)
  }

  /** Entry `i` of the sector is written with this name, and is a directory or a plain file. */
  predicate Written(s: Sector, i: nat, base: seq<Byte>, ext: seq<Byte>, dir: bool)
    requires i < 16
  {
    && 1 <= |base| <= 8 && |ext| <= 3 && Plain(base) && Plain(ext)
    && s[32 * i..32 * i + 11] == Field(base, ext)
    && s[32 * i + 11] % 0x10 == 0 && (s[32 * i + 11] / 0x10 % 2 == 1 <==> dir)
  }

  lemma {:induction false} TakesPart(s: seq<Byte>, t: seq<Byte>, stop: Byte)
    requires (forall i | 0 <= i < |s| :: s[i] != stop) && (t == [] || t[0] == stop)
    ensures TakeUntil(s + t, stop) == s
  {
    if s == [] {
      assert s + t == t;
    } else {
      assert (s + t)[0] == s[0] && (s + t)[1..] == s[1..] + t;
      TakesPart(s[1..], t, stop);
    }
  }

  /** A written entry answers to the name users call it by, and to no other. */
  lemma MatchesCalled(s: Sector, i: nat, base: seq<Byte>, ext: seq<Byte>, dir: bool, name: seq<Byte>)
    requires i < 16 && Written(s, i, base, ext, dir)
    ensures Matches(s, i, name) <==> Called(base, ext, dir, name)
  {
    var e := s[32 * i..32 * i + 12];
    assert s[32 * i..32 * i + 11] == e[0..11];
    FieldParts(base, ext, e);
    TakesPart(base, Padding(8 - |base|), NAME_PADDING);
    TakesPart(ext, Padding(3 - |ext|), NAME_PADDING);
    var dot: seq<Byte> := if dir || ext == [] then [] else [DOT];
    assert e[8] == NAME_PADDING <==> ext == [] by { HeadPadding(ext, e[8..11]); }
    var low := LowerCase(base + dot + ext);
    NoZero(base + dot + ext, low);
    TakesPart(low, [], 0);
    assert low + [] == low;
    assert ShortName(e) == low;
    LoweredIs(base, dot, ext, dir, low, name);
  }

  /** An entry with one of the four low attribute bits is taken for a part of a long name, and its own name does not
      count. */
  lemma MarkedNeverMatches(s: Sector, i: nat, name: seq<Byte>)
    requires i < 16 && s[32 * i + 11] % 0x10 != 0
    ensures !Matches(s, i, name)
  {
    assert s[32 * i..32 * i + 12][11] == s[32 * i + 11];
  }

  lemma HeadPadding(ext: seq<Byte>, f: seq<Byte>)
    requires |ext| <= 3 && Plain(ext) && f == ext + Padding(3 - |ext|)
    ensures f[0] == NAME_PADDING <==> ext == []
  {
    if ext != [] { assert f[0] == ext[0]; }
  }

  lemma FieldParts(base: seq<Byte>, ext: seq<Byte>, f: seq<Byte>)
    requires |base| <= 8 && |ext| <= 3 && |f| == 12 && f[0..11] == Field(base, ext)
    ensures f[0..8] == base + Padding(8 - |base|) && f[8..11] == ext + Padding(3 - |ext|)
  {
    var a := f[0..11];
    forall i | 0 <= i < 11 ensures f[i] == a[i] { }
    assert a[0..8] == base + Padding(8 - |base|) && a[8..11] == ext + Padding(3 - |ext|);
  }

  lemma NoZero(s: seq<Byte>, low: seq<Byte>)
    requires (forall i | 0 <= i < |s| :: s[i] != 0) && low == LowerCase(s)
    ensures forall i | 0 <= i < |low| :: low[i] != 0
  {
  }

  lemma LoweredIs(base: seq<Byte>, dot: seq<Byte>, ext: seq<Byte>, dir: bool, low: seq<Byte>, name: seq<Byte>)
    requires dot == (if dir || ext == [] then [] else [DOT]) && low == LowerCase(base + dot + ext)
    ensures low == name <==> Called(base, ext, dir, name)
  {
    var s := base + dot + ext;
    forall i | 0 <= i < |base| ensures s[i] == base[i] { }
    forall i | 0 <= i < |ext| ensures s[|base| + |dot| + i] == ext[i] { }
    if Called(base, ext, dir, name) {
      forall i | 0 <= i < |s| ensures low[i] == name[i] {
        if i < |base| {
          assert name[..|base|][i] == name[i];
        } else if i >= |base| + |dot| {
          assert name[|base| + |dot|..][i - |base| - |dot|] == name[i];
        }
      }
    }
  }

  /** Nothing the lookup reaches before entry `i` of the `k`-th directory cluster has the name. */
  ghost predicate NotBefore(g: Geometry, d: Disk, dir: seq<nat>, name: seq<Byte>, k: nat, i: nat)
    requires DiskFits(g, d) && k < |dir| && AllClusters(g, dir) && i < 16
  {
    && (forall j | 0 <= j < i :: !Matches(DataOf(g, d, dir[k]), j, name))
    && (forall h, j | 0 <= h < k && 0 <= j < 16 :: !Matches(DataOf(g, d, dir[h]), j, name))
  }

  /** The driver finds an entry written in that form by the name users call it by, wherever in the directory it is;
      a name that starts with a slash it refuses. */
  lemma LookupFinds(g: Geometry, d: Disk, dir: seq<nat>, name: seq<Byte>, k: nat, i: nat,
                    base: seq<Byte>, ext: seq<Byte>, isDir: bool)
    requires DiskFits(g, d) && k < |dir| && AllClusters(g, dir) && i < 16
    requires Written(DataOf(g, d, dir[k]), i, base, ext, isDir) && Called(base, ext, isDir, name)
    requires Reaches(DataOf(g, d, dir[k]), 0, i) && NotBefore(g, d, dir, name, k, i)
    ensures Find(g, d, dir, name) == if name[0] == '/' as int then NoSlot else Slot(dir[k], i)
  {
    MatchesCalled(DataOf(g, d, dir[k]), i, base, ext, isDir, name);
    ScanIsFirst(DataOf(g, d, dir[k]), name, 0);
    SkipsTo(g, d, dir, name, 0, k, i);
  }

  lemma {:induction false} SkipsTo(g: Geometry, d: Disk, dir: seq<nat>, name: seq<Byte>, h: nat, k: nat, i: nat)
    requires DiskFits(g, d) && h <= k < |dir| && AllClusters(g, dir) && i < 16 && NotBefore(g, d, dir, name, k, i)
    ensures Lookup(g, d, dir, name, h) == Lookup(g, d, dir, name, k)
    decreases k - h
  {
    if h < k {
      ScanIsFirst(DataOf(g, d, dir[h]), name, 0);
      SkipsTo(g, d, dir, name, h + 1, k, i);
    }
  }
}
