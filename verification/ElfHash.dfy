/** Symbol lookup through a System V hash table (ELF.cpp), against the linear scan it replaces. */
module ElfHash {
  import opened Basics
  import opened Bytes

  // ---- the hash ----

  /** Exclusive or of the low `bits` bits. */
  function Xor(a: nat, b: nat, bits: nat): (r: nat)
    ensures r < Pow2(bits)
  {
    if bits == 0 then 0 else (a + b) % 2 + 2 * Xor(a / 2, b / 2, bits - 1)
  }

  function Pow2(n: nat): (r: nat)
    ensures r >= 1
  {
    if n == 0 then 1 else 2 * Pow2(n - 1)
  }

  lemma Pow28()
    ensures Pow2(28) == TWO_28
  {
    assert Pow2(7) == 128;
    assert Pow2(14) == 128 * Pow2(7);
    assert Pow2(21) == 128 * Pow2(14);
    assert Pow2(28) == 128 * Pow2(21);
  }

  /** One byte of the hash. The sum is on 32 bits and wraps; its top four bits are folded into bits 4 to 7 and
      cleared. */
  function HashStep(h: nat, c: Byte): (r: nat)
    ensures r < TWO_28
  {
    var t := (h * 16 + c) % TWO_32;
    var top := t / TWO_28;
    Pow28();
    if top != 0 then Xor(t % TWO_28, top * 16, 28) else t
  }

  function HashFrom(h: nat, name: seq<Byte>): nat
    decreases |name|
  {
    if name == [] then h else HashFrom(HashStep(h, name[0]), name[1..])
  }

  function HashOf(name: seq<Byte>): (h: nat)
    ensures h < TWO_28
  {
    HashSmall(0, name);
    HashFrom(0, name)
  }

  /** The hash stays below 2^28, however long the name and whatever the bytes. */
  lemma {:induction false} HashSmall(h: nat, name: seq<Byte>)
    requires h < TWO_28
    ensures HashFrom(h, name) < TWO_28
    decreases |name|
  {
    if name != [] { HashSmall(HashStep(h, name[0]), name[1..]); }
  }

  /** The loop of `hash`. */
  method Hash(name: seq<Byte>) returns (h: nat)
    ensures h == HashOf(name)
  {
    h := 0;
    var i := 0;
    assert name[0..] == name;
    while i < |name|
      invariant i <= |name| && HashFrom(h, name[i..]) == HashFrom(0, name)
    {
      assert name[i..][0] == name[i] && name[i..][1..] == name[i + 1..];
      h := HashStep(h, name[i]);
      i := i + 1;
    }
  }

  /** The bytes as digits of weight 16, nothing folded. */
  function Digits(h: nat, name: seq<Byte>): (r: nat)
    ensures r >= h
    decreases |name|
  {
    if name == [] then h else Digits(h * 16 + name[0], name[1..])
  }

  /** As long as that stays below 2^28 it is the hash: folding starts only when bits would be lost. */
  lemma {:induction false} ShortNames(h: nat, name: seq<Byte>)
    requires Digits(h, name) < TWO_28
    ensures HashFrom(h, name) == Digits(h, name)
    decreases |name|
  {
    if name != [] {
      PlainStep(h, name[0]);
      ShortNames(h * 16 + name[0], name[1..]);
    }
  }

  lemma PlainStep(h: nat, c: Byte)
    requires h * 16 + c < TWO_28
    ensures HashStep(h, c) == h * 16 + c
  {
    var t := h * 16 + c;
    assert t % TWO_32 == t && t / TWO_28 == 0;
  }

  /** Exclusive or with the same bits twice changes nothing. */
  lemma {:induction false} XorTwice(a: nat, b: nat, bits: nat)
    requires a < Pow2(bits)
    ensures Xor(Xor(a, b, bits), b, bits) == a
    decreases bits
  {
    if bits > 0 {
      var x := Xor(a / 2, b / 2, bits - 1);
      XorTwice(a / 2, b / 2, bits - 1);
      BitBack(a, b, x);
    }
  }

  lemma BitBack(a: nat, b: nat, x: nat)
    ensures ((a + b) % 2 + 2 * x) / 2 == x && ((a + b) % 2 + 2 * x + b) % 2 == a % 2
  {
  }

  /** Folding loses nothing but the top bits themselves: the low 28 can be had back. */
  lemma FoldBack(h: nat, c: Byte)
    ensures var t := (h * 16 + c) % TWO_32; Xor(HashStep(h, c), t / TWO_28 * 16, 28) == t % TWO_28
  {
    Pow28();
    var t := (h * 16 + c) % TWO_32;
    XorTwice(t % TWO_28, t / TWO_28 * 16, 28);
    if t / TWO_28 == 0 { XorZero(t, 28); }
  }

  lemma {:induction false} XorZero(a: nat, bits: nat)
    requires a < Pow2(bits)
    ensures Xor(a, 0, bits) == a
    decreases bits
  {
    if bits > 0 { XorZero(a / 2, bits - 1); }
  }

  // ---- the hash, bit by bit ----

  /** Bit `i`, the lowest being bit 0. */
  function Bit(x: nat, i: nat): nat {
    if i == 0 then x % 2 else Bit(x / 2, i - 1)
  }

  lemma {:induction false} XorBit(a: nat, b: nat, bits: nat, i: nat)
    requires i < bits
    ensures Bit(Xor(a, b, bits), i) == if Bit(a, i) == Bit(b, i) then 0 else 1
    decreases i
  {
    var r, x := Xor(a, b, bits), Xor(a / 2, b / 2, bits - 1);
    SplitBit(x, (a + b) % 2, r);
    if i > 0 {
      XorBit(a / 2, b / 2, bits - 1, i - 1);
      NextBit(r, i);
      NextBit(a, i);
      NextBit(b, i);
    } else {
      SameParity(a, b);
    }
  }

  lemma SameParity(a: nat, b: nat)
    ensures (a + b) % 2 == if a % 2 == b % 2 then 0 else 1
  {
  }

  lemma Halved(x: nat, p: nat)
    requires p > 0
    ensures x / (2 * p) == x / 2 / p && x % (2 * p) == 2 * (x / 2 % p) + x % 2
  {
    var y, e := x / 2, x % 2;
    var q, r := y / p, y % p;
    assert y == q * p + r;
    assert x == q * (2 * p) + (2 * r + e) && 0 <= 2 * r + e < 2 * p;
    Quotient(x, 2 * p, q, 2 * r + e);
  }

  lemma Quotient(x: nat, d: nat, q: nat, r: nat)
    requires r < d && x == q * d + r
    ensures x / d == q && x % d == r
  {
    var q', r' := x / d, x % d;
    assert x == q' * d + r';
    if q > q' {
      Larger(q', q, d);
    } else if q < q' {
      Larger(q, q', d);
    }
  }

  lemma Larger(a: nat, b: nat, d: nat)
    requires a < b
    ensures a * d + d <= b * d
  {
    assert b * d == a * d + (b - a) * d;
    assert (b - a) * d == d + (b - a - 1) * d;
  }

  lemma {:induction false} LowBit(x: nat, n: nat, i: nat, low: nat)
    requires i < n && low == x % Pow2(n)
    ensures Bit(low, i) == Bit(x, i)
    decreases n
  {
    LowHalf(x, n, low);
    if i > 0 {
      LowBit(x / 2, n - 1, i - 1, low / 2);
      NextBit(low, i);
      NextBit(x, i);
    }
  }

  lemma LowHalf(x: nat, n: nat, low: nat)
    requires n > 0 && low == x % Pow2(n)
    ensures low / 2 == x / 2 % Pow2(n - 1) && low % 2 == x % 2
  {
    HalvedPower(x, n);
    SplitBit(x / 2 % Pow2(n - 1), x % 2, low);
  }

  lemma SplitBit(r: nat, e: nat, low: nat)
    requires e < 2 && low == 2 * r + e
    ensures low / 2 == r && low % 2 == e
  {
  }

  lemma {:induction false} HighBit(x: nat, n: nat, i: nat, high: nat)
    requires high == x / Pow2(n)
    ensures Bit(high, i) == Bit(x, n + i)
    decreases n
  {
    if n > 0 {
      HighHalf(x, n, high);
      HighBit(x / 2, n - 1, i, high);
      NextBit(x, n + i);
    }
  }

  lemma HighHalf(x: nat, n: nat, high: nat)
    requires n > 0 && high == x / Pow2(n)
    ensures high == x / 2 / Pow2(n - 1)
  {
    HalvedPower(x, n);
  }

  lemma HalvedPower(x: nat, n: nat)
    requires n > 0
    ensures x / Pow2(n) == x / 2 / Pow2(n - 1) && x % Pow2(n) == 2 * (x / 2 % Pow2(n - 1)) + x % 2
  {
    Halved(x, Pow2(n - 1));
  }

  lemma NextBit(x: nat, i: nat)
    requires i > 0
    ensures Bit(x, i) == Bit(x / 2, i - 1)
  {
  }

  lemma {:induction false} NoBit(i: nat)
    ensures Bit(0, i) == 0
  {
    if i > 0 { NoBit(i - 1); }
  }

  /** Sixteen times a number below sixteen: its four bits, four places up. */
  lemma ShiftedBit(top: nat, i: nat)
    requires top < 16
    ensures Bit(top * 16, i) == if 4 <= i < 8 then Bit(top, i - 4) else 0
  {
    assert top * 16 / 2 == top * 8 && top * 8 / 2 == top * 4 && top * 4 / 2 == top * 2 && top * 2 / 2 == top;
    if i < 4 {
      assert Bit(top * 16, 0) == 0 && Bit(top * 8, 0) == 0 && Bit(top * 4, 0) == 0 && Bit(top * 2, 0) == 0;
      assert i == 1 ==> Bit(top * 16, i) == Bit(top * 8, 0);
      assert i == 2 ==> Bit(top * 16, i) == Bit(top * 8, 1) == Bit(top * 4, 0);
      assert i == 3 ==> Bit(top * 16, i) == Bit(top * 8, 2) == Bit(top * 4, 1) == Bit(top * 2, 0);
    } else {
      assert Bit(top * 16, i) == Bit(top * 8, i - 1) == Bit(top * 4, i - 2) == Bit(top * 2, i - 3) == Bit(top, i - 4);
      if i >= 8 {
        assert top / 2 / 2 / 2 / 2 == 0;
        assert Bit(top, i - 4) == Bit(top / 2, i - 5) == Bit(top / 2 / 2, i - 6) == Bit(top / 2 / 2 / 2, i - 7)
            == Bit(0, i - 8);
        NoBit(i - 8);
      }
    }
  }

  /** One byte more, bit by bit: of the 32-bit sum of 16 times the hash and the byte, bits 28 to 31 are folded into bits
      4 to 7 by exclusive or, and every other low bit stays. */
  lemma HashStepBits(h: nat, c: Byte, i: nat)
    requires i < 28
    ensures var t := (h * 16 + c) % TWO_32;
            Bit(HashStep(h, c), i) == if 4 <= i < 8 && Bit(t, i + 24) == 1 then 1 - Bit(t, i) else Bit(t, i)
  {
    Pow28();
    var t := (h * 16 + c) % TWO_32;
    LowBit(t, 28, i, t % TWO_28);
    ShiftedBit(t / TWO_28, i);
    if 4 <= i < 8 {
      HighBit(t, 28, i - 4, t / TWO_28);
      assert Bit(t, i + 24) == Bit(t / TWO_28, i - 4);
    }
    OneBit(t, i);
    OneBit(t / TWO_28 * 16, i);
    if t / TWO_28 == 0 {
      NoBit(i);
      assert t % TWO_28 == t;
    } else {
      XorBit(t % TWO_28, t / TWO_28 * 16, 28, i);
    }
  }

  lemma {:induction false} OneBit(x: nat, i: nat)
    ensures Bit(x, i) == 0 || Bit(x, i) == 1
    decreases i
  {
    if i > 0 { OneBit(x / 2, i - 1); }
  }

  // ---- the table ----

  /** The words of a hash table: bucket count, chain count, buckets, chains. */
  predicate Shaped(words: seq<nat>, symbols: nat) {
    |words| >= 2 && words[0] >= 1 && words[1] == symbols && |words| == 2 + words[0] + words[1]
  }

  function Bucket(words: seq<nat>, symbols: nat, b: nat): nat
    requires Shaped(words, symbols) && b < words[0]
  {
    words[2 + b]
  }

  function Chain(words: seq<nat>, symbols: nat, y: nat): nat
    requires Shaped(words, symbols) && y < symbols
  {
    words[2 + words[0] + y]
  }

  /** `list` is what following the chains from `y` visits before symbol 0. */
  ghost predicate Follows(words: seq<nat>, symbols: nat, y: nat, list: seq<nat>)
    requires Shaped(words, symbols)
    decreases |list|
  {
    if list == [] then y == 0
    else y == list[0] && 0 < y < symbols && Follows(words, symbols, Chain(words, symbols, y), list[1..])
  }

  /** Chapter 5 of the gABI: every chain ends, and a symbol is on the chain of the bucket its name hashes to. */
  ghost predicate WellFormed(words: seq<nat>, names: seq<seq<Byte>>, lists: seq<seq<nat>>) {
    && Shaped(words, |names|) && |lists| == words[0]
    && (forall b | 0 <= b < |lists| :: Follows(words, |names|, Bucket(words, |names|, b), lists[b]))
    && (forall i | 1 <= i < |names| :: i in lists[HashOf(names[i]) % |lists|])
  }

  /** Some symbol but the undefined one has the name. */
  ghost predicate Defined(names: seq<seq<Byte>>, name: seq<Byte>) {
    exists i :: 1 <= i < |names| && names[i] == name
  }

  /** The search is at `y` with `list` to go, and every symbol of the name is still ahead. */
  ghost predicate Searching(words: seq<nat>, names: seq<seq<Byte>>, name: seq<Byte>, y: nat, list: seq<nat>) {
    && Shaped(words, |names|) && Follows(words, |names|, y, list) && (y == 0 || y < |names|)
    && forall i {:trigger names[i]} | 1 <= i < |names| && names[i] == name :: i in list
  }

  lemma SearchStarts(words: seq<nat>, names: seq<seq<Byte>>, name: seq<Byte>, lists: seq<seq<nat>>)
    requires WellFormed(words, names, lists)
    ensures var b := HashOf(name) % words[0]; Searching(words, names, name, words[2 + b], lists[b])
  {
  }

  lemma SearchGoesOn(words: seq<nat>, names: seq<seq<Byte>>, name: seq<Byte>, y: nat, list: seq<nat>)
    requires Searching(words, names, name, y, list) && y != 0 && names[y] != name
    ensures list != [] && Searching(words, names, name, words[2 + words[0] + y], list[1..])
  {
  }

  /** The bucket-and-chain lookup ends, and finds a symbol of the name if there is one. */
  method Lookup(words: seq<nat>, names: seq<seq<Byte>>, name: seq<Byte>, ghost lists: seq<seq<nat>>)
    returns (r: Option<nat>)
    requires WellFormed(words, names, lists)
    ensures r.Some? <==> Defined(names, name)
    ensures r.Some? ==> 1 <= r.value < |names| && names[r.value] == name
  {
    var h := Hash(name);
    SearchStarts(words, names, name, lists);
    var nbucket := words[0];
    var y := words[2 + h % nbucket];
    ghost var list := lists[h % nbucket];
    while y != 0 && names[y] != name
      invariant Searching(words, names, name, y, list)
      decreases |list|
    {
      SearchGoesOn(words, names, name, y, list);
      y := words[2 + nbucket + y];
      list := list[1..];
    }
    r := if y == 0 then None else Some(y);
  }

  /** The scan used when a library has no hash table. */
  method LinearScan(names: seq<seq<Byte>>, name: seq<Byte>) returns (r: Option<nat>)
    ensures r.Some? <==> Defined(names, name)
    ensures r.Some? ==>
              1 <= r.value < |names| && names[r.value] == name && forall i | 1 <= i < r.value :: names[i] != name
  {
    var i := 1;
    while i < |names|
      invariant 1 <= i && forall j | 1 <= j < i && j < |names| :: names[j] != name
    {
      if names[i] == name { return Some(i); }
      i := i + 1;
    }
    r := None;
  }

  /** Both find a symbol or neither does, and where names are unique it is the same symbol. */
  method BothAgree(words: seq<nat>, names: seq<seq<Byte>>, name: seq<Byte>, ghost lists: seq<seq<nat>>)
    returns (fast: Option<nat>, slow: Option<nat>)
    requires WellFormed(words, names, lists)
    ensures fast.Some? <==> slow.Some?
    ensures fast.Some? && slow.Some? ==>
              fast.value < |names| && slow.value < |names| && names[fast.value] == names[slow.value] == name
    ensures (forall i, j | 1 <= i < j < |names| :: names[i] != names[j]) ==> fast == slow
  {
    fast := Lookup(words, names, name, lists);
    slow := LinearScan(names, name);
  }
}
