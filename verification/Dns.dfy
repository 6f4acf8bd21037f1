/** DNS names: writing a host name in wire form, and reading a possibly compressed one back (DNS.cpp). */
module Dns {
  import opened Bytes

  const DOT: Byte := 46

  type Label = seq<Byte>

  // ---- names and their labels ----

  /** Each label with a dot behind it. */
  function Dotted(labels: seq<Label>): seq<Byte> {
    if labels == [] then [] else labels[0] + [DOT] + Dotted(labels[1..])
  }

  /** The text without the last dot. */
  function DropLast(s: seq<Byte>): seq<Byte> {
    if s == [] then [] else s[..|s| - 1]
  }

  /** A name as text: labels with dots between them. */
  function Text(labels: seq<Label>): seq<Byte> {
    DropLast(Dotted(labels))
  }

  predicate LabelOk(l: Label) {
    1 <= |l| <= 63 && DOT !in l && 0 !in l
  }

  predicate NameOk(labels: seq<Label>) {
    labels != [] && forall l | l in labels :: LabelOk(l)
  }

  // ---- encoding ----

  /** A length byte and the label; of a label too long for the byte, only as much of its end as the byte says. */
  function Piece(l: Label): (r: seq<Byte>)
    ensures |r| <= |l| + 1 && (|r| == |l| + 1 <==> |l| < 256)
    ensures |l| < 256 ==> r == [|l|] + l
  {
    [|l| % 256] + l[|l| - |l| % 256..]
  }

  /** Labels in wire form, without the terminating zero. */
  function Wire(labels: seq<Label>): seq<Byte> {
    if labels == [] then [] else Piece(labels[0]) + Wire(labels[1..])
  }

  /** All lengths fit a byte. */
  predicate Short(labels: seq<Label>) {
    forall l | l in labels :: |l| < 256
  }

  /** A text split at its dots. */
  function Split(s: seq<Byte>, n: nat): seq<Label>
    requires n <= |s| && DOT !in s[..n]
    decreases |s| - n, |s|
  {
    if n == |s| then [s]
    else if s[n] == DOT then [s[..n]] + Split(s[n + 1..], 0)
    else assert s[..n + 1] == s[..n] + [s[n]]; Split(s, n + 1)
  }

  lemma {:induction false} SplitSkips(s: seq<Byte>, n: nat, m: nat)
    requires n <= m <= |s| && DOT !in s[..m]
    ensures DOT !in s[..n] && Split(s, n) == Split(s, m)
    decreases m - n
  {
    forall b | b in s[..n] ensures b in s[..m] { }
    if n < m {
      assert s[n] in s[..m];
      assert s[..n + 1] == s[..n] + [s[n]];
      SplitSkips(s, n + 1, m);
    }
  }

  /** Splitting undoes joining. */
  lemma {:induction false} SplitText(labels: seq<Label>)
    requires labels != [] && forall l | l in labels :: DOT !in l
    ensures Split(Text(labels), 0) == labels
    decreases |labels|
  {
    var s, l := Text(labels), labels[0];
    assert l in labels;
    if |labels| == 1 {
      assert Dotted(labels[1..]) == [];
      assert s == l;
      assert s[..|l|] == l;
      SplitSkips(s, 0, |l|);
    } else {
      forall k | k in labels[1..] ensures DOT !in k { assert k in labels; }
      SplitText(labels[1..]);
      TextStep(labels);
      assert s[..|l|] == l && s[|l| + 1..] == Text(labels[1..]);
      SplitSkips(s, 0, |l|);
    }
  }

  lemma TextStep(labels: seq<Label>)
    requires |labels| >= 2
    ensures Text(labels) == labels[0] + [DOT] + Text(labels[1..])
  {
  }

  /** The writer has dealt with the labels `done`, in `buf`, and is `len` characters into the next, which starts at
      `at`. */
  ghost predicate Written(name: seq<Byte>, at: nat, len: nat, done: seq<Label>, buf: seq<Byte>) {
    && at + len <= |name| && DOT !in name[at..][..len]
    && |buf| <= at && (|buf| == at <==> Short(done))
    && Split(name, 0) == done + Split(name[at..], len) && buf == Wire(done)
  }

  lemma OneMore(name: seq<Byte>, at: nat, len: nat, done: seq<Label>, buf: seq<Byte>)
    requires Written(name, at, len, done, buf) && at + len < |name| && name[at + len] != DOT
    ensures Written(name, at, len + 1, done, buf)
  {
    var rest := name[at..];
    assert rest[..len + 1] == rest[..len] + [name[at + len]];
  }

  lemma LabelDone(name: seq<Byte>, at: nat, len: nat, done: seq<Label>, buf: seq<Byte>, word: Label, next: nat)
    requires Written(name, at, len, done, buf) && at + len < |name| && name[at + len] == DOT
    requires word == name[at..at + len] && next == at + len + 1
    ensures Written(name, next, 0, done + [word], buf + Piece(word))
  {
    var rest, more := name[at..], name[next..];
    assert rest[..len] == word && rest[len + 1..] == more && more[..0] == [];
    assert Split(rest, len) == [word] + Split(more, 0);
    Reassociate(done, word, Split(more, 0));
    WireAppend(done, word);
    ShortAppend(done, word);
  }

  lemma Reassociate(done: seq<Label>, word: Label, more: seq<Label>)
    ensures done + ([word] + more) == (done + [word]) + more
  {
  }

  lemma NameDone(name: seq<Byte>, at: nat, len: nat, done: seq<Label>, buf: seq<Byte>, word: Label, r: seq<Byte>)
    requires Written(name, at, len, done, buf) && at + len == |name| && word == name[at..at + len]
    requires r == buf + Piece(word)
    ensures r == Wire(Split(name, 0)) && |r| <= |name| + 1 && (|r| == |name| + 1 <==> Short(Split(name, 0)))
  {
    assert name[at..] == word;
    WireAppend(done, word);
    ShortAppend(done, word);
  }

  /** The writer: one pass over the text, a length byte and the label at each dot and at the end. It fills the two
      bytes more than the text that the caller reckons with if and only if no label has 256 characters or more. */
  method WriteEncodedName(name: seq<Byte>) returns (buf: seq<Byte>)
    ensures buf == Wire(Split(name, 0)) + [0]
    ensures |buf| <= |name| + 2 && (|buf| == |name| + 2 <==> Short(Split(name, 0)))
  {
    buf := [];
    var len, i := 0, 0;   // len counts modulo 256 in the code, which Piece accounts for
    ghost var done: seq<Label>, at := [], 0;
    assert name[0..] == name;
    while i < |name|
      invariant 0 <= len <= i <= |name| && at + len == i && Written(name, at, len, done, buf)
    {
      if name[i] == DOT {
        var word := name[i - len..i];
        LabelDone(name, at, len, done, buf, word, i + 1);
        done, at := done + [word], i + 1;
        buf := buf + Piece(word);
        len := 0;
      } else {
        OneMore(name, at, len, done, buf);
        len := len + 1;
      }
      i := i + 1;
    }
    var word := name[i - len..i];
    NameDone(name, at, len, done, buf, word, buf + Piece(word));
    buf := buf + Piece(word) + [0];
  }

  lemma {:induction false} WireAppend(labels: seq<Label>, l: Label)
    ensures Wire(labels + [l]) == Wire(labels) + Piece(l)
  {
    if labels != [] {
      assert (labels + [l])[1..] == labels[1..] + [l];
      WireAppend(labels[1..], l);
      Concat(Piece(labels[0]), Wire(labels[1..]), Piece(l));
    }
  }

  lemma Concat(a: seq<Byte>, b: seq<Byte>, c: seq<Byte>)
    ensures a + (b + c) == (a + b) + c
  {
  }

  lemma ShortAppend(labels: seq<Label>, l: Label)
    ensures Short(labels + [l]) <==> Short(labels) && |l| < 256
  {
    assert l in labels + [l];
  }

  // ---- compressed names ----

  predicate IsPointer(p: seq<Byte>, at: nat) {
    at + 1 < |p| && p[at] >= 0xC0
  }

  /** The 14-bit offset of a pointer. */
  function Offset(p: seq<Byte>, at: nat): nat
    requires at + 1 < |p|
  {
    (p[at] as int % 0x40) * 0x100 + p[at + 1] as int
  }

  /** Two bytes whose two top bits are set are a pointer to the place the other fourteen give, the first byte's six
      on top. */
  lemma PointerReads(p: seq<Byte>, at: nat, target: nat)
    requires at + 1 < |p| && target < 0x4000 && p[at] == 0xC0 + target / 0x100 && p[at + 1] == target % 0x100
    ensures IsPointer(p, at) && Offset(p, at) == target && p[at] / 0x40 == 3
  {
  }

  predicate IsLabel(p: seq<Byte>, at: nat) {
    at < |p| && 1 <= p[at] < 0xC0 && at + 1 + p[at] < |p| && 0 !in p[at + 1..at + 1 + p[at]]
  }

  /** From `at` on, in a name that starts at `start`: labels up to a zero byte, or up to a pointer to a name that
      starts before this one and is not the root. */
  predicate Well(p: seq<Byte>, start: nat, at: nat)
    decreases start, |p| - at
  {
    at < |p| &&
    if p[at] == 0 then true
    else if IsPointer(p, at) then
      Offset(p, at) < start && Well(p, Offset(p, at), Offset(p, at)) && p[Offset(p, at)] != 0
    else IsLabel(p, at) && Well(p, start, at + 1 + p[at])
  }

  /** The labels a name stands for, section 4.1.4 of RFC 1035: a pointer is replaced by the name it points to. */
  function Labels(p: seq<Byte>, start: nat, at: nat): seq<Label>
    requires Well(p, start, at)
    decreases start, |p| - at
  {
    if p[at] == 0 then []
    else if IsPointer(p, at) then Labels(p, Offset(p, at), Offset(p, at))
    else [p[at + 1..at + 1 + p[at]]] + Labels(p, start, at + 1 + p[at])
  }

  /** What is copied of an expanded suffix: its length is kept in one byte. */
  function Cut(s: seq<Byte>): seq<Byte> {
    s[..|s| % 256]
  }

  /** The parser's text from `at` on, each part with a dot behind it. */
  function Parts(p: seq<Byte>, start: nat, at: nat): seq<Byte>
    requires Well(p, start, at)
    decreases start, |p| - at, 0
  {
    if p[at] == 0 then []
    else if IsPointer(p, at) then Cut(Parsed(p, Offset(p, at))) + [DOT]
    else p[at + 1..at + 1 + p[at]] + [DOT] + Parts(p, start, at + 1 + p[at])
  }

  /** What the parser returns for the name at `start`. */
  function Parsed(p: seq<Byte>, start: nat): seq<Byte>
    requires Well(p, start, start)
    decreases start, |p| - start, 1
  {
    if IsPointer(p, start) then Parsed(p, Offset(p, start)) else DropLast(Parts(p, start, start))
  }

  /** The first `l` bytes of `sub` at the write position, and a dot behind them, counted from the read position. */
  function Place(res: seq<Byte>, idx: nat, sub: seq<Byte>, l: nat): (r: seq<Byte>)
    requires |res| == idx && l <= |sub|
    ensures r == res + (sub[..l] + [DOT])
  {
    (res + sub[..l] + [0])[idx + l := DOT]
  }

  lemma Regroup(a: seq<Byte>, b: seq<Byte>, c: seq<Byte>)
    ensures a + (b + [DOT] + c) == a + (b + [DOT]) + c
  {
  }

  /** The parser has read up to `at` and written `res`, of a name whose text is `all`. */
  ghost predicate ReadUpTo(p: seq<Byte>, start: nat, at: nat, res: seq<Byte>, all: seq<Byte>) {
    at < |p| && Well(p, start, at) && all == res + Parts(p, start, at)
  }

  lemma ReadLabel(p: seq<Byte>, start: nat, at: nat, res: seq<Byte>, all: seq<Byte>, l: nat)
    requires ReadUpTo(p, start, at, res, all) && l == p[at] && 0 < l < 0xC0
    ensures at + 1 + l <= |p| && ReadUpTo(p, start, at + 1 + l, res + (p[at + 1..at + 1 + l] + [DOT]), all)
  {
  }

  lemma ReadPointer(p: seq<Byte>, start: nat, at: nat, res: seq<Byte>, all: seq<Byte>)
    requires ReadUpTo(p, start, at, res, all) && p[at] >= 0xC0
    ensures at + 1 < |p| && Offset(p, at) < start && Well(p, Offset(p, at), Offset(p, at)) && p[Offset(p, at)] != 0
    ensures all == res + (Cut(Parsed(p, Offset(p, at))) + [DOT])
  {
  }

  lemma ReadEnd(p: seq<Byte>, start: nat, at: nat, res: seq<Byte>, all: seq<Byte>)
    requires ReadUpTo(p, start, at, res, all) && p[at] == 0
    ensures all == res
  {
  }

  /** The parser. It writes each dot at the read position plus the length, which is the write position as long as no
      pointer has been read; a pointer ends the name. */
  method ParseName(p: seq<Byte>, start: nat) returns (res: seq<Byte>)
    requires Well(p, start, start) && p[start] != 0
    ensures res == Parsed(p, start)
    decreases start, 2
  {
    if p[start] >= 0xC0 {
      res := ParseName(p, Offset(p, start));
    } else {
      res := ParseLabels(p, start);
    }
  }

  method ParseLabels(p: seq<Byte>, start: nat) returns (res: seq<Byte>)
    requires Well(p, start, start) && 0 < p[start] < 0xC0
    ensures res == DropLast(Parts(p, start, start))
    decreases start, 1
  {
    ghost var all := Parts(p, start, start);
    res := [];
    var idx: nat, resIdx: nat, isEnd := 0, 0, false;
    while !isEnd && p[start + idx] != 0
      invariant |res| == resIdx && (resIdx == 0 ==> idx == 0 && !isEnd)
      invariant !isEnd ==> idx == resIdx && ReadUpTo(p, start, start + idx, res, all)
      invariant isEnd ==> res == all
      decreases !isEnd, |p| - idx
    {
      if p[start + idx] >= 0xC0 {
        res := TakePointer(p, start, idx, res, all);
        idx, resIdx, isEnd := idx + 2, |res|, true;
      } else {
        res := TakeLabel(p, start, idx, res, all);
        idx, resIdx := idx + p[start + idx] + 1, resIdx + p[start + idx] + 1;
      }
    }
    if !isEnd { ReadEnd(p, start, start + idx, res, all); }
    res := res[..resIdx - 1];
  }

  /** One label: copied, with its dot. */
  method TakeLabel(p: seq<Byte>, start: nat, idx: nat, res: seq<Byte>, ghost all: seq<Byte>) returns (r: seq<Byte>)
    requires ReadUpTo(p, start, start + idx, res, all) && 0 < p[start + idx] < 0xC0 && |res| == idx
    ensures |r| == idx + p[start + idx] + 1 && ReadUpTo(p, start, start + idx + 1 + p[start + idx], r, all)
  {
    var at := start + idx;
    var l: nat := p[at];
    ReadLabel(p, start, at, res, all, l);
    r := Place(res, idx, p[at + 1..at + 1 + l], l);
    assert p[at + 1..at + 1 + l][..l] == p[at + 1..at + 1 + l];
  }

  /** A pointer: the name it points to is parsed and copied, as far as the one-byte length goes, and ends this one. */
  method TakePointer(p: seq<Byte>, start: nat, idx: nat, res: seq<Byte>, ghost all: seq<Byte>) returns (r: seq<Byte>)
    requires ReadUpTo(p, start, start + idx, res, all) && p[start + idx] >= 0xC0 && |res| == idx
    ensures r == all && |r| > |res|
    decreases start, 0
  {
    ReadPointer(p, start, start + idx, res, all);
    var sub := ParseName(p, Offset(p, start + idx));
    r := Place(res, idx, sub, |sub| % 256);
  }

  // ---- the parser against the standard ----

  /** No suffix behind a label is too long for the one-byte length. */
  predicate Fits(p: seq<Byte>, start: nat, at: nat)
    requires Well(p, start, at)
    decreases start, |p| - at
  {
    if p[at] == 0 then true
    else if IsPointer(p, at) then
      Fits(p, Offset(p, at), Offset(p, at)) && (at == start || |Text(Labels(p, Offset(p, at), Offset(p, at)))| < 256)
    else Fits(p, start, at + 1 + p[at])
  }

  lemma {:induction false} DottedAppend(a: seq<Label>, b: seq<Label>)
    ensures Dotted(a + b) == Dotted(a) + Dotted(b)
  {
    if a == [] {
      assert a + b == b;
    } else {
      assert (a + b)[1..] == a[1..] + b;
      DottedAppend(a[1..], b);
    }
  }

  lemma LabelsNotEmpty(p: seq<Byte>, start: nat, at: nat)
    requires Well(p, start, at) && p[at] != 0
    ensures Labels(p, start, at) != []
    decreases start, |p| - at
  {
  }

  lemma DottedText(labels: seq<Label>)
    requires labels != []
    ensures Dotted(labels) == Text(labels) + [DOT]
    decreases |labels|
  {
  }

  lemma CutWhole(s: seq<Byte>)
    ensures |Cut(s)| <= |s| && (|Cut(s)| == |s| <==> |s| < 256) && (|s| < 256 ==> Cut(s) == s)
  {
  }

  /** From `at` on, the parser never writes more than the standard's text, and writes exactly that if and only if
      every suffix fits. */
  lemma {:induction false} PartsIff(p: seq<Byte>, start: nat, at: nat)
    requires Well(p, start, at) && start <= at && (p[at] >= 0xC0 ==> at != start)
    ensures |Parts(p, start, at)| <= |Dotted(Labels(p, start, at))|
    ensures |Parts(p, start, at)| == |Dotted(Labels(p, start, at))| <==> Fits(p, start, at)
    ensures Fits(p, start, at) ==> Parts(p, start, at) == Dotted(Labels(p, start, at))
    decreases start, |p| - at, 0
  {
    if p[at] == 0 {
    } else if IsPointer(p, at) {
      var off := Offset(p, at);
      ParsedIff(p, off);
      LabelsNotEmpty(p, off, off);
      DottedText(Labels(p, off, off));
      CutWhole(Parsed(p, off));
    } else {
      PartsIff(p, start, at + 1 + p[at]);
      assert Labels(p, start, at)[1..] == Labels(p, start, at + 1 + p[at]);
    }
  }

  /** The parser returns the expansion of section 4.1.4 of RFC 1035 exactly if every suffix behind a label has fewer
      than 256 characters, which the 255 octets of a legal name ensure. */
  lemma {:induction false} ParsedIff(p: seq<Byte>, start: nat)
    requires Well(p, start, start) && p[start] != 0
    ensures |Parsed(p, start)| <= |Text(Labels(p, start, start))|
    ensures |Parsed(p, start)| == |Text(Labels(p, start, start))| <==> Fits(p, start, start)
    ensures Parsed(p, start) == Text(Labels(p, start, start)) <==> Fits(p, start, start)
    decreases start, |p| - start, 1
  {
    LabelsNotEmpty(p, start, start);
    DottedText(Labels(p, start, start));
    if IsPointer(p, start) {
      ParsedIff(p, Offset(p, start));
    } else {
      PartsIff(p, start, start);
    }
  }

  // ---- round trip ----

  /** The name at `start` is `labels` in wire form, uncompressed. */
  ghost predicate Encoded(p: seq<Byte>, at: nat, labels: seq<Label>) {
    at + |Wire(labels)| + 1 <= |p| && p[at..at + |Wire(labels)|] == Wire(labels) && p[at + |Wire(labels)|] == 0
  }

  /** A slice of a slice. */
  lemma Slice(s: seq<Byte>, lo: nat, hi: nat, a: nat, b: nat)
    requires lo <= hi <= |s| && a <= b <= hi - lo
    ensures s[lo..hi][a..b] == s[lo + a..lo + b]
  {
    forall i | 0 <= i < b - a ensures s[lo..hi][a..b][i] == s[lo + a..lo + b][i] { }
  }

  lemma WireReads(p: seq<Byte>, at: nat, l: Label, more: seq<Byte>)
    requires |l| < 256 && at + 1 + |l| + |more| <= |p| && p[at..at + 1 + |l| + |more|] == Piece(l) + more
    ensures p[at] == |l| && p[at + 1..at + 1 + |l|] == l && p[at + 1 + |l|..at + 1 + |l| + |more|] == more
  {
    var w, hi := Piece(l) + more, at + 1 + |l| + |more|;
    assert w[0] == |l| && w[1..1 + |l|] == l && w[1 + |l|..1 + |l| + |more|] == more;
    Slice(p, at, hi, 1, 1 + |l|);
    Slice(p, at, hi, 1 + |l|, 1 + |l| + |more|);
    assert p[at..hi][0] == p[at];
  }

  lemma EncodedHead(p: seq<Byte>, at: nat, labels: seq<Label>, l: Label, next: nat)
    requires labels != [] && l == labels[0] && LabelOk(l) && Encoded(p, at, labels) && next == at + 1 + |l|
    ensures IsLabel(p, at) && p[at] == |l| && p[at + 1..next] == l && Encoded(p, next, labels[1..])
  {
    WireReads(p, at, l, Wire(labels[1..]));
  }

  lemma {:induction false} EncodedReads(p: seq<Byte>, start: nat, at: nat, labels: seq<Label>)
    requires (forall l | l in labels :: LabelOk(l)) && Encoded(p, at, labels)
    ensures Well(p, start, at) && Labels(p, start, at) == labels && Fits(p, start, at)
    decreases |labels|
  {
    if labels != [] {
      var l, next := labels[0], at + 1 + |labels[0]|;
      assert l in labels;
      EncodedHead(p, at, labels, l, next);
      assert at + 1 + p[at] == next;
      forall k | k in labels[1..] ensures LabelOk(k) { assert k in labels; }
      EncodedReads(p, start, next, labels[1..]);
      assert labels == [l] + labels[1..];
    }
  }

  /** Encoding takes two bytes more than the text, and parsing the result, wherever it stands in a packet, gives the
      name back. */
  method RoundTrip(labels: seq<Label>, before: seq<Byte>, after: seq<Byte>) returns (wire: seq<Byte>, name: seq<Byte>)
    requires NameOk(labels)
    ensures |wire| == |Text(labels)| + 2
    ensures name == Text(labels)
  {
    forall l | l in labels ensures DOT !in l && |l| < 256 { assert LabelOk(l); }
    SplitText(labels);
    wire := WriteEncodedName(Text(labels));
    var p := before + wire + after;
    assert p[|before|..|before| + |Wire(labels)|] == Wire(labels) && p[|before| + |Wire(labels)|] == 0;
    EncodedReads(p, |before|, |before|, labels);
    ParsedIff(p, |before|) by { assert LabelOk(labels[0]); }
    name := ParseName(p, |before|);
  }

  /** One label in front of a pointer: of the name pointed to, as parsed, as many characters follow the dot as the low
      byte of its length says. */
  lemma SuffixCut(p: seq<Byte>, start: nat, off: nat)
    requires IsLabel(p, start) && IsPointer(p, start + 1 + p[start]) && off == Offset(p, start + 1 + p[start])
    requires off < start && Well(p, off, off) && p[off] != 0
    ensures Well(p, start, start)
    ensures var (first, rest) := (p[start + 1..start + 1 + p[start]], Parsed(p, off));
            Parsed(p, start) == first + ['.' as int] + rest[..|rest| % 256]
  {
    var at := start + 1 + p[start];
    assert Well(p, start, at);
    var rest := Parsed(p, off);
    assert Parts(p, start, at) == Cut(rest) + [DOT];
    assert Parts(p, start, start) == p[start + 1..at] + [DOT] + (Cut(rest) + [DOT]);
  }

  /** One label in front of a pointer to a name of 256 characters or more is misread. */
  lemma LongSuffix(p: seq<Byte>, start: nat)
    requires IsLabel(p, start) && IsPointer(p, start + 1 + p[start])
    requires var at := start + 1 + p[start];
             Offset(p, at) < start && Well(p, Offset(p, at), Offset(p, at)) && p[Offset(p, at)] != 0
    requires var off := Offset(p, start + 1 + p[start]); |Text(Labels(p, off, off))| >= 256
    ensures Well(p, start, start) && Parsed(p, start) != Text(Labels(p, start, start))
  {
    var at := start + 1 + p[start];
    assert Well(p, start, at) && !Fits(p, start, at);
    ParsedIff(p, start);
  }

  /** A name at the start of a packet, and one label that points to it. */
  function LongPacket(labels: seq<Label>): seq<Byte> {
    Wire(labels) + [0] + [1, 97, 0xC0, 0]
  }

  /** Any name of 256 characters or more makes such a packet. */
  lemma LongPacketMisread(labels: seq<Label>, p: seq<Byte>, start: nat)
    requires NameOk(labels) && |Text(labels)| >= 256 && p == LongPacket(labels) && start == |Wire(labels)| + 1
    ensures Well(p, start, start) && Parsed(p, start) != Text(Labels(p, start, start))
  {
    PacketParts(Wire(labels), p, start);
    EncodedReads(p, 0, 0, labels);
    FirstByte(p, labels);
    Misread(p, start, labels);
  }

  lemma Misread(p: seq<Byte>, start: nat, labels: seq<Label>)
    requires Well(p, 0, 0) && Labels(p, 0, 0) == labels && |Text(labels)| >= 256 && p[0] != 0 && start > 0
    requires IsLabel(p, start) && p[start] == 1 && IsPointer(p, start + 2) && Offset(p, start + 2) == 0
    ensures Well(p, start, start) && Parsed(p, start) != Text(Labels(p, start, start))
  {
    LongSuffix(p, start);
  }

  lemma PacketParts(w: seq<Byte>, p: seq<Byte>, start: nat)
    requires p == w + [0] + [1, 97, 0xC0, 0] && start == |w| + 1
    ensures p[0..|w|] == w && p[|w|] == 0
    ensures p[start] == 1 && IsLabel(p, start) && IsPointer(p, start + 2) && Offset(p, start + 2) == 0
  {
    assert p[start + 1..start + 2] == [97];
  }

  lemma FirstByte(p: seq<Byte>, labels: seq<Label>)
    requires NameOk(labels) && Encoded(p, 0, labels)
    ensures |p| > 0 && p[0] != 0
  {
    assert LabelOk(labels[0]);
    assert p[0] == p[0..|Wire(labels)|][0] == Piece(labels[0])[0];
  }

  function Letters(n: nat): (l: Label)
    ensures |l| == n && forall b | b in l :: b == 97
  {
    seq(n, _ => 97)
  }

  /** Five labels of 63 letters make one. */
  lemma FiveLabels()
    ensures var l := Letters(63); var labels := [l, l, l, l, l];
            NameOk(labels) && |Text(labels)| == 319
  {
    var l := Letters(63);
    assert LabelOk(l);
    var labels := [l, l, l, l, l];
    assert labels[1..] == [l, l, l, l] && labels[1..][1..] == [l, l, l] && [l, l, l][1..] == [l, l];
    assert [l, l][1..] == [l];
    assert |Dotted([l])| == 64;
    assert |Dotted([l, l])| == 128;
    assert |Dotted([l, l, l])| == 192;
    assert |Dotted(labels[1..])| == 256;
    assert |Dotted(labels)| == 320;
  }
}
