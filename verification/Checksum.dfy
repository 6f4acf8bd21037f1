/** The Internet checksum (Network.cpp), TCP's composition of two of them (TCP.cpp) and the IPv4 header (IPV4.cpp). */
module Checksum {
  import opened Bytes

  const ONES: nat := 0xFFFF

  // ---- ones' complement sums ----

  /** The plain sum of the 16-bit words; an odd last byte counts as a word of its own. */
  function Sum(s: seq<Byte>): (r: nat)
    ensures r <= ONES * ((|s| + 1) / 2)
  {
    if s == [] then 0 else if |s| == 1 then s[0] else Half(s, 0) + Sum(s[2..])
  }

  /** Ones' complement addition of section 1 of RFC 1071: the carry comes back in. */
  function OnesAdd(a: nat, b: nat): (r: nat)
    requires a <= ONES && b <= ONES
    ensures r <= ONES
  {
    if a + b > ONES then a + b - ONES else a + b
  }

  function OnesSum(s: seq<Byte>): (r: nat)
    ensures r <= ONES
  {
    if s == [] then 0 else if |s| == 1 then s[0] else OnesAdd(Half(s, 0), OnesSum(s[2..]))
  }

  /** The one 16-bit value a sum folds to: its residue modulo 65535, but 65535 rather than 0 for a positive sum. */
  function Folded(x: nat): (r: nat)
    ensures r <= ONES && (r == 0 <==> x == 0)
  {
    if x == 0 then 0 else (x - 1) % ONES + 1
  }

  lemma ModShift(x: nat, h: nat)
    ensures (x + h * ONES) % ONES == x % ONES
    decreases h
  {
  }

  /** Taking 65535 away from a sum that stays positive does not change what it folds to. */
  lemma FoldShift(x: nat, h: nat)
    requires x > 0
    ensures Folded(x + h * ONES) == Folded(x)
  {
    ModShift(x - 1, h);
  }

  lemma FoldAdd(a: nat, x: nat)
    requires a <= ONES
    ensures OnesAdd(a, Folded(x)) == Folded(a + x)
  {
  }

  lemma FoldSmall(x: nat)
    requires x <= ONES
    ensures Folded(x) == x
  {
  }

  /** Summing first and folding at the end gives the ones' complement sum. */
  lemma {:induction false} OnesSumFolds(s: seq<Byte>)
    ensures OnesSum(s) == Folded(Sum(s))
  {
    if s == [] {
    } else if |s| == 1 {
      FoldSmall(s[0]);
    } else {
      OnesSumFolds(s[2..]);
      FoldAdd(Half(s, 0), Sum(s[2..]));
    }
  }

  /** The same sum byte by byte: those at odd places count 256 times. */
  function ByteSum(s: seq<Byte>): nat {
    if s == [] then 0
    else ByteSum(s[..|s| - 1]) + (if |s| % 2 == 1 then 1 else 0x100) * (s[|s| - 1] as nat)
  }

  lemma {:induction false} ByteSumFront(s: seq<Byte>)
    requires |s| >= 2
    ensures ByteSum(s) == Half(s, 0) + ByteSum(s[2..])
    decreases |s|
  {
    var n := |s| - 1;
    if |s| == 2 {
      assert s[..1][..0] == [] && s[2..] == [] && s[..n] == [s[0]];
      assert ByteSum(s[..1]) == s[0];
    } else {
      ByteSumFront(s[..n]);
      assert s[..n][2..] == s[2..][..n - 2] && s[2..][n - 2] == s[n];
    }
  }

  lemma {:induction false} SumOfBytes(s: seq<Byte>)
    ensures Sum(s) == ByteSum(s)
  {
    if |s| == 1 {
      assert s[..0] == [];
    } else if |s| >= 2 {
      ByteSumFront(s);
      SumOfBytes(s[2..]);
    }
  }

  /** The checksum of a buffer: the complement of its ones' complement sum. */
  function Of(s: seq<Byte>): (c: nat)
    ensures c <= ONES
  {
    ONES - OnesSum(s)
  }

  // ---- the code ----

  /** The folding loop. */
  method Fold(x: nat) returns (r: nat)
    ensures r == Folded(x)
  {
    r := x;
    while r >= 0x1_0000
      invariant Folded(r) == Folded(x)
      decreases r
    {
      FoldShift(r % 0x1_0000 + r / 0x1_0000, r / 0x1_0000);
      assert r == r % 0x1_0000 + r / 0x1_0000 + r / 0x1_0000 * ONES;
      r := r % 0x1_0000 + r / 0x1_0000;
    }
    FoldSmall(r);
  }

  /** The largest length whose word sum always fits 32 bits. */
  const LIMIT: nat := 131074

  /** The sum in a 32-bit register. */
  method Sum32(s: seq<Byte>) returns (sum: nat)
    ensures sum == Wrapped(Sum(s))
  {
    sum := 0;
    var i: nat := 0;
    ghost var total: nat := 0;
    assert s[0..] == s;
    while |s| - i > 1
      invariant 0 <= i <= |s| && sum == Wrapped(total) && Added(s, i, total)
    {
      var h := Half(s, i);
      AddWord(s, i, total, h, i + 2);
      WrapStep(total, h);
      sum, total, i := Wrapped(sum + h), total + h, i + 2;
    }
    if |s| - i > 0 {
      AddByte(s, i, total);
      WrapStep(total, s[i]);
      sum, total := Wrapped(sum + s[i]), total + s[i];
    } else {
      assert s[i..] == [];
    }
  }

  /** `total` is the sum of the bytes before `i`. */
  ghost predicate Added(s: seq<Byte>, i: nat, total: nat) {
    i <= |s| && total + Sum(s[i..]) == Sum(s)
  }

  lemma AddWord(s: seq<Byte>, i: nat, total: nat, h: nat, next: nat)
    requires Added(s, i, total) && i + 1 < |s| && h == Half(s, i) && next == i + 2
    ensures Added(s, next, total + h)
  {
    SumStep(s, i);
  }

  lemma AddByte(s: seq<Byte>, i: nat, total: nat)
    requires Added(s, i, total) && i + 1 == |s|
    ensures total + s[i] == Sum(s)
  {
    assert s[i..] == [s[i]];
  }

  /** The sum folded and complemented: the checksum, as long as no carry leaves the register. */
  method Compute(s: seq<Byte>) returns (c: nat)
    ensures c == ONES - Folded(Wrapped(Sum(s)))
    ensures |s| <= LIMIT ==> c == Of(s)
  {
    var sum := Sum32(s);
    var folded := Fold(sum);
    c := ONES - folded;
    if |s| <= LIMIT {
      Fits(s);
      OnesSumFolds(s);
    }
  }

  /** A 32-bit sum. */
  function Wrapped(x: nat): (r: nat)
    ensures r < TWO_32 && (x < TWO_32 ==> r == x)
  {
    x % TWO_32
  }

  /** A carry lost on the way is a carry lost at the end. */
  lemma WrapStep(a: nat, b: nat)
    ensures Wrapped(Wrapped(a) + b) == Wrapped(a + b)
  {
  }

  lemma SumStep(s: seq<Byte>, i: nat)
    requires i + 1 < |s|
    ensures Sum(s[i..]) == Half(s, i) + Sum(s[i + 2..])
  {
  }

  lemma Fits(s: seq<Byte>)
    requires |s| <= LIMIT
    ensures Sum(s) < TWO_32
  {
    assert (|s| + 1) / 2 <= 65537;
  }

  function Ff(n: nat): (s: seq<Byte>)
    ensures |s| == n && forall i | 0 <= i < n :: s[i] == 0xFF
  {
    seq(n, _ => 0xFF)
  }

  lemma {:induction false} SumOfFf(s: seq<Byte>)
    requires forall i | 0 <= i < |s| :: s[i] == 0xFF
    ensures Sum(s) == ONES * (|s| / 2) + 0xFF * (|s| % 2)
  {
    if |s| > 1 { SumOfFf(s[2..]); }
  }

  /** No buffer of length `n` overflows the 32-bit sum, exactly up to that limit; 16-bit lengths are well below it. */
  lemma SumFits(n: nat)
    ensures (forall s: seq<Byte> | |s| == n :: Sum(s) < TWO_32) <==> n <= LIMIT
    ensures 0xFFFF < LIMIT
  {
    SumOfFf(Ff(n));
    if n <= LIMIT {
      forall s: seq<Byte> | |s| == n ensures Sum(s) < TWO_32 { Fits(s); }
    } else {
      assert Sum(Ff(n)) >= TWO_32;
    }
  }

  /** `checksum_add`. */
  method Add(a: nat, b: nat) returns (r: nat)
    requires a <= ONES && b <= ONES
    ensures r == OnesAdd(a, b)
  {
    r := Fold(a + b);
    FoldSmall(b);
    FoldAdd(a, b);
  }

  // ---- composition ----

  lemma {:induction false} SumSplit(a: seq<Byte>, b: seq<Byte>)
    requires |a| % 2 == 0
    ensures Sum(a + b) == Sum(a) + Sum(b)
    decreases |a|
  {
    if a == [] {
      assert a + b == b;
    } else {
      assert (a + b)[2..] == a[2..] + b;
      SumSplit(a[2..], b);
    }
  }

  /** Sums that fold alike agree modulo 65535. */
  lemma FoldedMod(x: nat)
    ensures Folded(x) % ONES == x % ONES
  {
  }

  /** Adding two complemented sums is, modulo 65535, complementing the sum of both parts. */
  lemma Composed(a: seq<Byte>, b: seq<Byte>)
    requires |a| % 2 == 0
    ensures OnesAdd(Of(a), Of(b)) % ONES == Of(a + b) % ONES
    ensures (OnesAdd(Of(a), Of(b)) + Sum(a + b)) % ONES == 0
  {
    OnesSumFolds(a);
    OnesSumFolds(b);
    OnesSumFolds(a + b);
    SumSplit(a, b);
    var x, y, z := Folded(Sum(a)), Folded(Sum(b)), Folded(Sum(a + b));
    FoldedMod(Sum(a));
    FoldedMod(Sum(b));
    FoldedMod(Sum(a + b));
    ModSum(Sum(a), Sum(b), x, y);
    Complements(x, y, z, Sum(a + b));
  }

  lemma ModSum(a: nat, b: nat, x: nat, y: nat)
    requires a % ONES == x % ONES && b % ONES == y % ONES
    ensures (a + b) % ONES == (x + y) % ONES
  {
    ModShift(a % ONES + b % ONES, a / ONES + b / ONES);
    ModShift(x % ONES + y % ONES, x / ONES + y / ONES);
    assert a + b == a % ONES + b % ONES + (a / ONES + b / ONES) * ONES;
    assert x + y == x % ONES + y % ONES + (x / ONES + y / ONES) * ONES;
  }

  lemma Complements(x: nat, y: nat, z: nat, t: nat)
    requires x <= ONES && y <= ONES && z <= ONES && (x + y) % ONES == z % ONES == t % ONES
    ensures OnesAdd(ONES - x, ONES - y) % ONES == (ONES - z) % ONES
    ensures (OnesAdd(ONES - x, ONES - y) + t) % ONES == 0
  {
    var c := OnesAdd(ONES - x, ONES - y);
    assert (c + x + y) % ONES == 0;
    ModSum(c, t, c, x + y);
    ModSum(c, z, c, x + y);
  }

  /** A buffer whose word sum is a positive multiple of 65535 passes a receiver's check, and no other does. */
  lemma CheckPasses(s: seq<Byte>)
    ensures Of(s) == 0 <==> Sum(s) > 0 && Sum(s) % ONES == 0
  {
    OnesSumFolds(s);
    if Sum(s) > 0 {
      var q := (Sum(s) - 1) / ONES;
      assert Sum(s) == Folded(Sum(s)) + q * ONES;
      FoldedMod(Sum(s));
      assert Folded(Sum(s)) % ONES == 0 <==> Folded(Sum(s)) == ONES;
    }
  }

  /** The sum around a 16-bit field. */
  lemma SumAround(a: seq<Byte>, mid: seq<Byte>, b: seq<Byte>)
    requires |a| % 2 == 0 && |mid| == 2
    ensures Sum(a + (mid + b)) == Sum(a) + Half(mid, 0) + Sum(b)
  {
    SumSplit(a, mid + b);
    SumSplit(mid, b);
    assert mid[2..] == [];
  }

  lemma Parts(s: seq<Byte>, off: nat)
    requires off + 2 <= |s|
    ensures s == s[..off] + (s[off..off + 2] + s[off + 2..])
  {
  }

  /** Storing a checksum in a field that was zero adds it to the sum. */
  lemma {:induction false} StoreSum(s: seq<Byte>, off: nat, v: nat)
    requires off % 2 == 0 && off + 2 <= |s| && v <= ONES && Half(s, off) == 0
    ensures Sum(PutHalf(s, off, v)) == Sum(s) + v
  {
    var mid: seq<Byte> := [v % 0x100, v / 0x100];
    SumAround(s[..off], mid, s[off + 2..]);
    assert PutHalf(s, off, v) == s[..off] + (mid + s[off + 2..]);
    SumAround(s[..off], s[off..off + 2], s[off + 2..]);
    Parts(s, off);
    assert Half(s[off..off + 2], 0) == Half(s, off);
  }

  // ---- numbers in network byte order ----

  /** The 16-bit number a receiver reads at `off`, and the 32-bit one. */
  function Read16(s: seq<Byte>, off: nat): nat
    requires off + 2 <= |s|
  {
    0x100 * (s[off] as nat) + s[off + 1]
  }

  function Read32(s: seq<Byte>, off: nat): nat
    requires off + 4 <= |s|
  {
    0x1_0000 * Read16(s, off) + Read16(s, off + 2)
  }

  // ---- TCP ----

  const TCP_PROTOCOL: Byte := 6
  const TCP_HEADER: nat := 20

  /** The pseudo header in wire order. */
  function PseudoHeader(src: seq<Byte>, dest: seq<Byte>, len: nat): (p: seq<Byte>)
    requires |src| == 4 && |dest| == 4 && len <= ONES
    ensures |p| == 12 && p[9] == TCP_PROTOCOL
  {
    src + dest + [0, TCP_PROTOCOL, len / 0x100, len % 0x100]
  }

  /** What stands where in it, section 3.1 of RFC 9293: both addresses, a zero, the protocol and the length. */
  lemma PseudoReads(src: seq<Byte>, dest: seq<Byte>, len: nat)
    requires |src| == 4 && |dest| == 4 && len <= ONES
    ensures var p := PseudoHeader(src, dest, len);
            p[0..4] == src && p[4..8] == dest && p[8] == 0 && p[9] == 6 && Read16(p, 10) == len
  {
  }

  /** `compute_checksum`: two complemented sums added. */
  method TcpChecksum(src: seq<Byte>, dest: seq<Byte>, segment: seq<Byte>) returns (c: nat)
    requires |src| == 4 && |dest| == 4 && |segment| <= ONES
    ensures c <= ONES && c % ONES == Of(PseudoHeader(src, dest, |segment|) + segment) % ONES
    ensures (c + Sum(PseudoHeader(src, dest, |segment|) + segment)) % ONES == 0
  {
    var pseudo := PseudoHeader(src, dest, |segment|);
    var c1 := Compute(pseudo);
    var c2 := Compute(segment);
    c := Add(c1, c2);
    Composed(pseudo, segment);
  }

  /** The fields `write_header` fills before the checksum. */
  function TcpFields(srcPort: nat, destPort: nat, seqNum: nat, ackNum: nat, flags: Byte): (h: seq<Byte>)
    requires srcPort <= ONES && destPort <= ONES && seqNum < TWO_32 && ackNum < TWO_32
    ensures |h| == 16
  {
    [srcPort / 0x100, srcPort % 0x100, destPort / 0x100, destPort % 0x100]
    + [seqNum / 0x100_0000, seqNum / 0x1_0000 % 0x100, seqNum / 0x100 % 0x100, seqNum % 0x100]
    + [ackNum / 0x100_0000, ackNum / 0x1_0000 % 0x100, ackNum / 0x100 % 0x100, ackNum % 0x100]
    + [TCP_HEADER / 4 * 0x10, flags, 0xFF, 0xFF]
  }

  /** Writes the header, in a buffer that starts out zero, before a payload already in place; the receiver's check
      over pseudo header and segment then yields zero. */
  method WriteTcpHeader(buf: array<Byte>, src: seq<Byte>, dest: seq<Byte>, srcPort: nat, destPort: nat, seqNum: nat,
                        ackNum: nat, flags: Byte)
    requires TCP_HEADER <= buf.Length <= ONES && |src| == 4 && |dest| == 4 && buf[16] == buf[17] == 0
    requires srcPort <= ONES && destPort <= ONES && seqNum < TWO_32 && ackNum < TWO_32
    modifies buf
    ensures buf[18..] == old(buf[18..])
    ensures buf[..16] == TcpFields(srcPort, destPort, seqNum, ackNum, flags)
    // what a receiver reads: ports, sequence and acknowledgement numbers, five words of header, flags and window
    ensures Read16(buf[..], 0) == srcPort && Read16(buf[..], 2) == destPort
    ensures Read32(buf[..], 4) == seqNum && Read32(buf[..], 8) == ackNum
    ensures buf[12] == 0x50 && buf[13] == flags && Read16(buf[..], 14) == 0xFFFF
    ensures Of(PseudoHeader(src, dest, buf.Length) + buf[..]) == 0
  {
    var h := TcpFields(srcPort, destPort, seqNum, ackNum, flags);
    Store(buf, 0, h);
    ghost var s := buf[..];
    assert s[18..] == old(buf[18..]);
    assert s[..16] == h;
    var c := TcpChecksum(src, dest, buf[..]);
    buf[16], buf[17] := c % 0x100, c / 0x100;
    assert buf[..] == PutHalf(s, 16, c);
    assert buf[18..] == s[18..] && buf[..16] == s[..16];
    Stamped(PseudoHeader(src, dest, |s|), s, 16, c);
    TcpReads(srcPort, destPort, seqNum, ackNum, flags, buf[..]);
  }

  lemma TcpReads(srcPort: nat, destPort: nat, seqNum: nat, ackNum: nat, flags: Byte, s: seq<Byte>)
    requires srcPort <= ONES && destPort <= ONES && seqNum < TWO_32 && ackNum < TWO_32 && |s| >= TCP_HEADER
    requires s[..16] == TcpFields(srcPort, destPort, seqNum, ackNum, flags)
    ensures Read16(s, 0) == srcPort && Read16(s, 2) == destPort && Read32(s, 4) == seqNum && Read32(s, 8) == ackNum
    ensures s[12] == 0x50 && s[13] == flags && Read16(s, 14) == 0xFFFF
  {
    var h := s[..16];
    Digits(seqNum);
    Digits(ackNum);
    assert forall i | 0 <= i < 16 :: s[i] == h[i];
  }

  lemma Digits(v: nat)
    requires v < TWO_32
    ensures var high, low := 0x100 * (v / 0x100_0000) + v / 0x1_0000 % 0x100, 0x100 * (v / 0x100 % 0x100) + v % 0x100;
            0x1_0000 * high + low == v
  {
    var h := v / 0x100;
    assert v / 0x1_0000 == h / 0x100 && v / 0x100_0000 == h / 0x100 / 0x100;
  }

  /** A segment stamped with a composed checksum passes. */
  lemma {:induction false} Stamped(pseudo: seq<Byte>, s: seq<Byte>, off: nat, c: nat)
    requires |pseudo| == 12 && pseudo[9] > 0 && off % 2 == 0 && off + 2 <= |s| && Half(s, off) == 0
    requires c <= ONES && (c + Sum(pseudo + s)) % ONES == 0
    ensures Of(pseudo + PutHalf(s, off, c)) == 0
  {
    StampedSum(pseudo, s, off, c);
    PositiveSum(pseudo, 9);
    Passes(pseudo + PutHalf(s, off, c), c + Sum(pseudo + s));
  }

  lemma Passes(s: seq<Byte>, x: nat)
    requires Sum(s) == x > 0 && x % ONES == 0
    ensures Of(s) == 0
  {
    CheckPasses(s);
  }

  lemma StampedSum(pseudo: seq<Byte>, s: seq<Byte>, off: nat, c: nat)
    requires |pseudo| % 2 == 0 && off % 2 == 0 && off + 2 <= |s| && c <= ONES && Half(s, off) == 0
    ensures Sum(pseudo + PutHalf(s, off, c)) == c + Sum(pseudo + s) >= Sum(pseudo)
  {
    StoreSum(s, off, c);
    SumSplit(pseudo, s);
    SumSplit(pseudo, PutHalf(s, off, c));
  }

  lemma {:induction false} PositiveSum(s: seq<Byte>, i: nat)
    requires i < |s| && s[i] > 0
    ensures Sum(s) > 0
    decreases i
  {
    if i >= 2 { PositiveSum(s[2..], i - 2); }
  }

  // ---- IPv4 ----

  const IP_HEADER: nat := 20

  /** The header `write_packet` leaves, but for the checksum, in a buffer that starts out zero. */
  function IpFields(tos: Byte, size: nat, id: nat, flags: Byte, ttl: Byte, proto: Byte, saddr: seq<Byte>,
                    daddr: seq<Byte>): (h: seq<Byte>)
    requires size <= ONES && id <= ONES && |saddr| == 4 && |daddr| == 4
    ensures |h| == IP_HEADER && Half(h, 10) == 0 && h[12..16] == saddr && h[16..20] == daddr
  {
    [0x45, tos, size / 0x100, size % 0x100, id / 0x100, id % 0x100,
     flags % 8 * 0x20, 0, ttl, proto, 0, 0] + saddr + daddr
  }

  /** The fields, in place. */
  method FillIpHeader(buf: array<Byte>, tos: Byte, size: nat, id: nat, flags: Byte, ttl: Byte, proto: Byte,
                      saddr: seq<Byte>, daddr: seq<Byte>)
    requires buf.Length >= IP_HEADER && (forall i | 0 <= i < IP_HEADER :: buf[i] == 0)
    requires size <= ONES && id <= ONES && |saddr| == 4 && |daddr| == 4
    modifies buf
    ensures forall i | IP_HEADER <= i < buf.Length :: buf[i] == old(buf[i])
    ensures buf[..IP_HEADER] == IpFields(tos, size, id, flags, ttl, proto, saddr, daddr)
  {
    var first: seq<Byte> := [4 * 0x10 + 5, tos, size / 0x100, size % 0x100, id / 0x100, id % 0x100,
                             flags % 8 * 0x20, 0, ttl, proto];
    Store(buf, 0, first);
    Store(buf, 12, saddr);
    Store(buf, 16, daddr);
    assert buf[..IP_HEADER] == first + [0, 0] + saddr + daddr;
  }

  /** Writes `bytes` at `off`. */
  method Store(buf: array<Byte>, off: nat, bytes: seq<Byte>)
    requires off + |bytes| <= buf.Length
    modifies buf
    ensures forall i | 0 <= i < buf.Length :: buf[i] == if off <= i < off + |bytes| then bytes[i - off] else old(buf[i])
  {
    forall i | off <= i < off + |bytes| { buf[i] := bytes[i - off]; }
  }

  /** Fills the header in place; its checksum, stored last, makes the whole header sum to zero. */
  method WriteIpHeader(buf: array<Byte>, tos: Byte, size: nat, id: nat, flags: Byte, ttl: Byte, proto: Byte,
                       saddr: seq<Byte>, daddr: seq<Byte>)
    requires buf.Length >= IP_HEADER && (forall i | 0 <= i < IP_HEADER :: buf[i] == 0)
    requires size <= ONES && id <= ONES && |saddr| == 4 && |daddr| == 4
    modifies buf
    ensures forall i | IP_HEADER <= i < buf.Length :: buf[i] == old(buf[i])
    ensures buf[..IP_HEADER] == Stamp(IpFields(tos, size, id, flags, ttl, proto, saddr, daddr), 10)
    ensures Of(buf[..IP_HEADER]) == 0
    // what a receiver reads, section 3.1 of RFC 791
    ensures buf[0] == 0x45 && buf[1] == tos && Read16(buf[..], 2) == size && Read16(buf[..], 4) == id
    ensures buf[6] / 0x20 == flags % 8 && buf[6] % 0x20 == buf[7] == 0 && buf[8] == ttl && buf[9] == proto
    ensures buf[12..16] == saddr && buf[16..20] == daddr
  {
    FillIpHeader(buf, tos, size, id, flags, ttl, proto, saddr, daddr);
    StampBuffer(buf);
    IpReads(tos, size, id, flags, ttl, proto, saddr, daddr, buf[..]);
  }

  lemma IpReads(tos: Byte, size: nat, id: nat, flags: Byte, ttl: Byte, proto: Byte,
                saddr: seq<Byte>, daddr: seq<Byte>, s: seq<Byte>)
    requires size <= ONES && id <= ONES && |saddr| == 4 && |daddr| == 4 && |s| >= IP_HEADER
    requires s[..IP_HEADER] == Stamp(IpFields(tos, size, id, flags, ttl, proto, saddr, daddr), 10)
    ensures s[0] == 0x45 && s[1] == tos && Read16(s, 2) == size && Read16(s, 4) == id
    ensures s[6] / 0x20 == flags % 8 && s[6] % 0x20 == s[7] == 0 && s[8] == ttl && s[9] == proto
    ensures s[12..16] == saddr && s[16..20] == daddr
  {
    var h, f := s[..IP_HEADER], IpFields(tos, size, id, flags, ttl, proto, saddr, daddr);
    assert forall i | 0 <= i < IP_HEADER :: s[i] == h[i];
    assert forall i | 0 <= i < IP_HEADER && i != 10 && i != 11 :: h[i] == f[i];
    assert s[12..16] == f[12..16] && s[16..20] == f[16..20];
  }

  method StampBuffer(buf: array<Byte>)
    requires buf.Length >= IP_HEADER && buf[10] == buf[11] == 0 && buf[0] > 0
    modifies buf
    ensures forall i | IP_HEADER <= i < buf.Length :: buf[i] == old(buf[i])
    ensures buf[..IP_HEADER] == Stamp(old(buf[..IP_HEADER]), 10) && Of(buf[..IP_HEADER]) == 0
  {
    ghost var h := buf[..IP_HEADER];
    var c := Compute(buf[..IP_HEADER]);
    buf[10], buf[11] := c % 0x100, c / 0x100;
    assert buf[..IP_HEADER] == PutHalf(h, 10, c);
    PositiveSum(h, 0);
    SelfStamped(h, 10);
  }

  /** The buffer with its own checksum stored at `off`. */
  function Stamp(s: seq<Byte>, off: nat): seq<Byte>
    requires off + 2 <= |s|
  {
    PutHalf(s, off, Of(s))
  }

  /** A buffer stamped with its own checksum passes. */
  lemma SelfStamped(s: seq<Byte>, off: nat)
    requires off % 2 == 0 && off + 2 <= |s| && Half(s, off) == 0 && Sum(s) > 0
    ensures Of(Stamp(s, off)) == 0
  {
    StoreSum(s, off, Of(s));
    OwnChecksum(s);
    CheckPasses(Stamp(s, off));
  }

  /** A sum and its own checksum make a multiple of 65535. */
  lemma OwnChecksum(s: seq<Byte>)
    ensures (Sum(s) + Of(s)) % ONES == 0
  {
    OnesSumFolds(s);
    FoldedMod(Sum(s));
    ModSum(Sum(s), Of(s), Folded(Sum(s)), Of(s));
  }

  // Byte 6 of the header, section 3.1 of RFC 791: a reserved bit, don't-fragment, more-fragments, and the top of the
  // fragment offset that byte 7 continues.

  predicate Reserved(h: seq<Byte>)
    requires |h| == IP_HEADER
  {
    h[6] / 0x80 == 1
  }

  predicate MoreFragments(h: seq<Byte>)
    requires |h| == IP_HEADER
  {
    h[6] / 0x20 % 2 == 1
  }

  function FragmentOffset(h: seq<Byte>): nat
    requires |h| == IP_HEADER
  {
    (h[6] as nat % 0x20) * 0x100 + h[7] as nat
  }

  /** Part of a larger datagram. */
  predicate Fragment(h: seq<Byte>)
    requires |h| == IP_HEADER
  {
    MoreFragments(h) || FragmentOffset(h) != 0
  }

  /** `packet_valid`. */
  method PacketValid(h: seq<Byte>, ip: seq<Byte>, broadcast: seq<Byte>) returns (ok: bool)
    requires |h| == IP_HEADER && |ip| == 4 && |broadcast| == 4
    ensures ok <==> Acceptable(h, ip, broadcast) && Of(h) == 0
  {
    if h[0] / 0x10 != 4 { return false; }
    if h[0] % 0x10 != 5 { return false; }
    if h[16..20] != ip && h[16..20] != broadcast { return false; }
    if h[7] != 0 || h[6] % 0x20 != 0 || h[6] / 0x20 / 4 == 1 { return false; }
    var c := Compute(h);
    if c != 0 { return false; }
    ok := h[9] == 1 || h[9] == 17 || h[9] == TCP_PROTOCOL;
  }

  /** The test meant to refuse fragments: it looks at the offset and at the reserved bit. */
  predicate PassesFragmentTest(h: seq<Byte>)
    requires |h| == IP_HEADER
  {
    FragmentOffset(h) == 0 && !Reserved(h)
  }

  /** Version and length as expected, for us, past the fragment test, of a protocol we handle. */
  predicate Acceptable(h: seq<Byte>, ip: seq<Byte>, broadcast: seq<Byte>)
    requires |h| == IP_HEADER
  {
    && h[0] == 0x45 && (h[16..20] == ip || h[16..20] == broadcast)
    && PassesFragmentTest(h) && h[9] in {1, 6, 17}
  }

  /** The test tells fragments from whole datagrams exactly where the offset decides, or the more-fragments bit and
      the reserved bit agree; and what gets past it is a fragment exactly if more are announced. */
  lemma FragmentTestExact(h: seq<Byte>)
    requires |h| == IP_HEADER
    ensures (PassesFragmentTest(h) <==> !Fragment(h)) <==> FragmentOffset(h) != 0 || MoreFragments(h) == Reserved(h)
    ensures PassesFragmentTest(h) ==> (Fragment(h) <==> MoreFragments(h))
  {
  }

  /** The kernel accepts a header it wrote exactly if that header is for us, has the reserved bit clear, and names a
      protocol it handles: the checksum never stands in the way. The header announces more fragments exactly if the
      flags are odd, which makes no difference to that. */
  lemma WrittenIsValid(tos: Byte, size: nat, id: nat, flags: Byte, ttl: Byte, proto: Byte,
                       saddr: seq<Byte>, daddr: seq<Byte>, ip: seq<Byte>, broadcast: seq<Byte>)
    requires size <= ONES && id <= ONES && |saddr| == 4 && |daddr| == 4
    ensures var h := Stamp(IpFields(tos, size, id, flags, ttl, proto, saddr, daddr), 10);
            && ((Acceptable(h, ip, broadcast) && Of(h) == 0)
                <==> ((daddr == ip || daddr == broadcast) && flags % 8 < 4 && proto in {1, 6, 17}))
            && (Reserved(h) <==> flags % 8 >= 4)
            && (Fragment(h) <==> flags % 2 == 1)
  {
    var f := IpFields(tos, size, id, flags, ttl, proto, saddr, daddr);
    var h := Stamp(f, 10);
    PositiveSum(f, 0);
    SelfStamped(f, 10);
    assert h[16..20] == f[16..20];
    assert h[0] == f[0] && h[6] == f[6] && h[7] == f[7] && h[9] == f[9];
  }

  /** So a first fragment addressed to us is taken for a whole datagram. */
  lemma FragmentAccepted(ip: seq<Byte>, saddr: seq<Byte>, proto: Byte)
    requires |ip| == 4 && |saddr| == 4 && proto in {1, 6, 17}
    ensures var h := Stamp(IpFields(0, 40, 0, 1, 64, proto, saddr, ip), 10);
            h[6] == 0x20 && Fragment(h) && Acceptable(h, ip, ip) && Of(h) == 0
  {
    WrittenIsValid(0, 40, 0, 1, 64, proto, saddr, ip, ip, ip);
  }
}
