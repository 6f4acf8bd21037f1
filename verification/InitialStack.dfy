/** The stack a new process starts with (ELFLoader.cpp), in the layout of the System V i386 ABI: argument count,
    argument pointers, environment pointers, auxiliary vector, and above them the strings. */
module InitialStack {
  import opened Basics
  import opened Bytes

  /** Where the stack starts; it grows down from here. */
  const END: nat := 0xC000_0000 - 4

  type Str = seq<Byte>

  // ---- memory, by address ----

  /** The stack is what has been written so far, up to END; its first byte is at the stack pointer. */
  function Top(stack: seq<Byte>): int { END - |stack| }

  predicate WordFits(stack: seq<Byte>, addr: int) { 0 <= Top(stack) <= addr && addr + 4 <= END }

  function WordAt(stack: seq<Byte>, addr: int): nat
    requires WordFits(stack, addr)
  {
    Word(stack, addr - Top(stack))
  }

  /** The bytes from `i` up to the next zero. */
  function CStr(s: seq<Byte>, i: nat): Str
    requires i <= |s|
    decreases |s| - i
  {
    if i == |s| || s[i] == 0 then [] else [s[i]] + CStr(s, i + 1)
  }

  predicate OnStack(stack: seq<Byte>, addr: int) { 0 <= Top(stack) <= addr <= END }

  function StrAt(stack: seq<Byte>, addr: int): Str
    requires OnStack(stack, addr)
  {
    CStr(stack, addr - Top(stack))
  }

  /** What was written before is still there. */
  predicate Extends(stack: seq<Byte>, was: seq<Byte>) {
    |was| <= |stack| <= END && stack[|stack| - |was|..] == was
  }

  lemma KeepsWord(stack: seq<Byte>, was: seq<Byte>, addr: int)
    requires Extends(stack, was) && WordFits(was, addr)
    ensures WordFits(stack, addr) && WordAt(stack, addr) == WordAt(was, addr)
  {
    var d, i := |stack| - |was|, addr - Top(was);
    assert forall k | 0 <= k < |was| :: stack[d..][k] == stack[d + k];
    assert was[i] == stack[d + i] && was[i + 1] == stack[d + i + 1] && was[i + 2] == stack[d + i + 2];
    assert was[i + 3] == stack[d + i + 3];
  }

  lemma {:induction false} KeepsCStr(stack: seq<Byte>, was: seq<Byte>, i: nat, j: nat)
    requires Extends(stack, was) && i <= |was| && j == i + |stack| - |was|
    ensures CStr(stack, j) == CStr(was, i)
    decreases |was| - i
  {
    if i < |was| {
      assert was[i] == stack[|stack| - |was|..][i] == stack[j];
      KeepsCStr(stack, was, i + 1, j + 1);
    }
  }

  lemma KeepsStr(stack: seq<Byte>, was: seq<Byte>, addr: int)
    requires Extends(stack, was) && OnStack(was, addr)
    ensures OnStack(stack, addr) && StrAt(stack, addr) == StrAt(was, addr)
  {
    KeepsCStr(stack, was, addr - Top(was), addr - Top(stack));
  }

  lemma ExtendsTwice(stack: seq<Byte>, mid: seq<Byte>, was: seq<Byte>)
    requires Extends(stack, mid) && Extends(mid, was)
    ensures Extends(stack, was)
  {
    assert stack[|stack| - |was|..] == stack[|stack| - |mid|..][|mid| - |was|..];
  }

  // ---- lists of strings ----

  function Size(list: seq<Str>): nat {
    if list == [] then 0 else |list[0]| + 1 + Size(list[1..])
  }

  /** The strings of `list` are in memory one after the other, up to address `end`. */
  ghost predicate StringsBelow(stack: seq<Byte>, list: seq<Str>, end: int) {
    list == [] ||
    (OnStack(stack, end - Size(list)) && StrAt(stack, end - Size(list)) == list[0]
     && StringsBelow(stack, list[1..], end))
  }

  /** At `addr` there is an array of pointers to the strings of `list`, ended by a null pointer. */
  ghost predicate PointersAt(stack: seq<Byte>, addr: int, list: seq<Str>)
    decreases |list|
  {
    WordFits(stack, addr) &&
    if list == [] then WordAt(stack, addr) == 0
    else
      var ptr := WordAt(stack, addr);
      ptr != 0 && OnStack(stack, ptr) && StrAt(stack, ptr) == list[0] && PointersAt(stack, addr + 4, list[1..])
  }

  lemma {:induction false} KeepsStrings(stack: seq<Byte>, was: seq<Byte>, list: seq<Str>, end: int)
    requires Extends(stack, was) && StringsBelow(was, list, end)
    ensures StringsBelow(stack, list, end)
  {
    if list != [] {
      KeepsStr(stack, was, end - Size(list));
      KeepsStrings(stack, was, list[1..], end);
    }
  }

  lemma {:induction false} KeepsPointers(stack: seq<Byte>, was: seq<Byte>, addr: int, list: seq<Str>)
    requires Extends(stack, was) && PointersAt(was, addr, list)
    ensures PointersAt(stack, addr, list)
    decreases |list|
  {
    KeepsWord(stack, was, addr);
    if list != [] {
      KeepsStr(stack, was, WordAt(was, addr));
      KeepsPointers(stack, was, addr + 4, list[1..]);
    }
  }

  /** What a program reads by following an array of pointers. */
  function ReadList(stack: seq<Byte>, addr: int): seq<Str>
    decreases END - addr
  {
    if !WordFits(stack, addr) || WordAt(stack, addr) == 0 || !OnStack(stack, WordAt(stack, addr)) then []
    else [StrAt(stack, WordAt(stack, addr))] + ReadList(stack, addr + 4)
  }

  lemma {:induction false} PointersRead(stack: seq<Byte>, addr: int, list: seq<Str>)
    requires PointersAt(stack, addr, list)
    ensures ReadList(stack, addr) == list
    decreases |list|
  {
    if list != [] { PointersRead(stack, addr + 4, list[1..]); }
  }

  // ---- the writer ----

  /** `write_to_stack`. */
  function Push(stack: seq<Byte>, content: seq<Byte>): (r: seq<Byte>)
    ensures |stack| + |content| <= END ==> Extends(r, stack)
  {
    content + stack
  }

  lemma PushedWord(stack: seq<Byte>, v: nat)
    requires v < TWO_32 && |stack| + 4 <= END
    ensures var r := Push(stack, WordBytes(v)); WordFits(r, Top(r)) && WordAt(r, Top(r)) == v
  {
    WordBytesSum(v);
    var r, b := Push(stack, WordBytes(v)), WordBytes(v);
    assert r[0] == b[0] && r[1] == b[1] && r[2] == b[2] && r[3] == b[3];
  }

  lemma {:induction false} PushedCStr(s: seq<Byte>, i: nat, str: Str)
    requires 0 !in str && i + |str| < |s| && s[i..i + |str|] == str && s[i + |str|] == 0
    ensures CStr(s, i) == str
    decreases |str|
  {
    if str != [] {
      assert s[i] == s[i..i + |str|][0] == str[0];
      assert s[i + 1..i + 1 + |str[1..]|] == s[i..i + |str|][1..] == str[1..];
      PushedCStr(s, i + 1, str[1..]);
    }
  }

  lemma PushedStr(stack: seq<Byte>, str: Str)
    requires 0 !in str && |stack| + |str| + 1 <= END
    ensures var r := Push(stack, str + [0]); OnStack(r, Top(r)) && StrAt(r, Top(r)) == str
  {
    var r := Push(stack, str + [0]);
    assert r[0..|str|] == str && r[|str|] == 0;
    PushedCStr(r, 0, str);
  }

  predicate Clean(list: seq<Str>) {
    forall s | s in list :: 0 !in s
  }

  /** The loops that write strings, last one first. */
  method WriteStrings(stack: seq<Byte>, list: seq<Str>) returns (r: seq<Byte>)
    requires Clean(list) && |stack| + Size(list) <= END
    ensures Extends(r, stack) && |r| == |stack| + Size(list) && StringsBelow(r, list, Top(stack))
  {
    r := stack;
    var i := |list|;
    TailSize(list, i);
    while i > 0
      invariant 0 <= i <= |list| && Extends(r, stack) && |r| == |stack| + Size(list[i..])
      invariant StringsBelow(r, list[i..], Top(stack))
    {
      i := i - 1;
      TailSize(list, i);
      assert list[i..][1..] == list[i + 1..] && list[i] in list;
      ghost var was := r;
      PushedStr(r, list[i]);
      r := Push(r, list[i] + [0]);
      KeepsStrings(r, was, list[i + 1..], Top(stack));
      ExtendsTwice(r, was, stack);
    }
    assert list[0..] == list;
  }

  lemma {:induction false} TailSize(list: seq<Str>, i: nat)
    requires i <= |list|
    ensures Size(list[i..]) <= Size(list)
    decreases i
  {
    if i > 0 {
      TailSize(list[1..], i - 1);
      assert list[1..][i - 1..] == list[i..];
    } else {
      assert list[0..] == list;
    }
  }

  /** The loops that write pointers, last one first: the addresses they compute are those the strings were written
      at. */
  method WritePointers(stack: seq<Byte>, list: seq<Str>, end: nat) returns (r: seq<Byte>)
    requires |stack| + 4 * |list| < END && end <= END && Size(list) < end && StringsBelow(stack, list, end)
    requires PointersAt(stack, Top(stack), [])
    ensures Extends(r, stack) && |r| == |stack| + 4 * |list| && PointersAt(r, Top(r), list)
  {
    r := stack;
    var i, ptr: int := |list|, end;
    TailSize(list, i);
    assert list[|list|..] == [];
    StringsFrom(stack, list, end, i);
    while i > 0
      invariant 0 <= i <= |list| && Extends(r, stack) && |r| == |stack| + 4 * (|list| - i)
      invariant ptr == end - Size(list[i..])
      invariant PointersAt(r, Top(r), list[i..])
    {
      i := i - 1;
      TailSize(list, i);
      StringsFrom(stack, list, end, i);
      assert list[i..][1..] == list[i + 1..];
      ptr := ptr - (|list[i]| + 1);
      KeepsStr(r, stack, ptr);
      PointerPushed(r, list[i..], ptr);
      ghost var was := r;
      r := Push(r, WordBytes(ptr));
      ExtendsTwice(r, was, stack);
    }
    assert list[0..] == list;
  }

  lemma {:induction false} StringsFrom(stack: seq<Byte>, list: seq<Str>, end: int, i: nat)
    requires i <= |list| && StringsBelow(stack, list, end)
    ensures StringsBelow(stack, list[i..], end)
    decreases i
  {
    if i > 0 {
      StringsFrom(stack, list[1..], end, i - 1);
      assert list[1..][i - 1..] == list[i..];
    } else {
      assert list[0..] == list;
    }
  }

  /** One more pointer in front of the array. */
  lemma PointerPushed(stack: seq<Byte>, list: seq<Str>, ptr: nat)
    requires list != [] && |stack| + 4 <= END && 0 < ptr < TWO_32 && OnStack(stack, ptr) && StrAt(stack, ptr) == list[0]
    requires PointersAt(stack, Top(stack), list[1..])
    ensures var r := Push(stack, WordBytes(ptr)); PointersAt(r, Top(r), list)
  {
    var r := Push(stack, WordBytes(ptr));
    PushedWord(stack, ptr);
    KeepsStr(r, stack, ptr);
    KeepsPointers(r, stack, Top(stack), list[1..]);
  }

  lemma NullPushed(stack: seq<Byte>)
    requires |stack| + 4 <= END
    ensures var r := Push(stack, [0, 0, 0, 0]); Extends(r, stack) && PointersAt(r, Top(r), [])
  {
    assert WordBytes(0) == [0, 0, 0, 0];
    PushedWord(stack, 0);
  }

  // ---- auxiliary vector ----

  datatype Aux = Aux(tag: nat, value: nat)

  /** What the vector says of a program with an interpreter. */
  datatype Program = Program(phdr: nat, phent: nat, phnum: nat, entry: nat)

  predicate ProgramOk(g: Program) { g.phdr < TWO_32 && g.phent < TWO_32 && g.phnum < TWO_32 && g.entry < TWO_32 }

  /** The entries, lowest address first. */
  function Auxv(program: Option<Program>, argv0: nat, random: nat): seq<Aux> {
    var always := [Aux(25, random), Aux(23, 0), Aux(6, 4096), Aux(0, 0)];
    match program
    case None => always
    case Some(g) => [Aux(9, g.entry), Aux(31, argv0), Aux(5, g.phnum), Aux(4, g.phent), Aux(3, g.phdr)] + always
  }

  /** The entries of `v` are in memory from `addr` on. */
  ghost predicate AuxAt(stack: seq<Byte>, addr: int, v: seq<Aux>)
    decreases |v|
  {
    v == [] ||
    (&& WordFits(stack, addr) && WordFits(stack, addr + 4)
     && WordAt(stack, addr) == v[0].tag && WordAt(stack, addr + 4) == v[0].value && AuxAt(stack, addr + 8, v[1..]))
  }

  lemma {:induction false} KeepsAux(stack: seq<Byte>, was: seq<Byte>, addr: int, v: seq<Aux>)
    requires Extends(stack, was) && AuxAt(was, addr, v)
    ensures AuxAt(stack, addr, v)
    decreases |v|
  {
    if v != [] {
      KeepsWord(stack, was, addr);
      KeepsWord(stack, was, addr + 4);
      KeepsAux(stack, was, addr + 8, v[1..]);
    }
  }

  /** One entry: value above tag. */
  method PushAux(stack: seq<Byte>, a: Aux, ghost v: seq<Aux>) returns (r: seq<Byte>)
    requires |stack| + 8 <= END && a.tag < TWO_32 && a.value < TWO_32 && AuxAt(stack, Top(stack), v)
    ensures Extends(r, stack) && |r| == |stack| + 8 && AuxAt(r, Top(r), [a] + v)
  {
    PushedWord(stack, a.value);
    var mid := Push(stack, WordBytes(a.value));
    PushedWord(mid, a.tag);
    r := Push(mid, WordBytes(a.tag));
    ExtendsTwice(r, mid, stack);
    KeepsWord(r, mid, Top(mid));
    KeepsAux(r, stack, Top(stack), v);
    assert ([a] + v)[1..] == v;
  }

  method WriteAuxv(stack: seq<Byte>, program: Option<Program>, argv0: nat, random: nat) returns (r: seq<Byte>)
    requires |stack| + 72 <= END && argv0 < TWO_32 && random < TWO_32 && (program.Some? ==> ProgramOk(program.value))
    ensures Extends(r, stack) && |r| == |stack| + 8 * |Auxv(program, argv0, random)|
    ensures AuxAt(r, Top(r), Auxv(program, argv0, random))
  {
    var list := Auxv(program, argv0, random);
    r := PushAll(stack, list);
  }

  method PushAll(stack: seq<Byte>, list: seq<Aux>) returns (r: seq<Byte>)
    requires |stack| + 8 * |list| <= END && forall a | a in list :: a.tag < TWO_32 && a.value < TWO_32
    ensures Extends(r, stack) && |r| == |stack| + 8 * |list| && AuxAt(r, Top(r), list)
  {
    r := stack;
    var i := |list|;
    assert list[i..] == [];
    while i > 0
      invariant 0 <= i <= |list| && Extends(r, stack) && |r| == |stack| + 8 * (|list| - i)
      invariant AuxAt(r, Top(r), list[i..])
    {
      i := i - 1;
      ghost var was := r;
      assert list[i] in list;
      r := PushAux(r, list[i], list[i + 1..]);
      ExtendsTwice(r, was, stack);
      assert [list[i]] + list[i + 1..] == list[i..];
    }
    assert list[0..] == list;
  }

  /** What a program reads: entries up to the null one. */
  function ReadAux(stack: seq<Byte>, addr: int): seq<Aux>
    decreases END - addr
  {
    if !WordFits(stack, addr) || !WordFits(stack, addr + 4) then []
    else
      var a := Aux(WordAt(stack, addr), WordAt(stack, addr + 4));
      if a.tag == 0 then [a] else [a] + ReadAux(stack, addr + 8)
  }

  lemma {:induction false} AuxRead(stack: seq<Byte>, addr: int, v: seq<Aux>)
    requires Ends(v) && AuxAt(stack, addr, v)
    ensures ReadAux(stack, addr) == v
    decreases |v|
  {
    if |v| > 1 { AuxRead(stack, addr + 8, v[1..]); } else { assert v == [v[0]]; }
  }

  // ---- the whole stack ----

  /** The arguments proper: a null in the last place is not counted. */
  function Given(args: seq<Option<Str>>): (r: seq<Str>)
    requires forall i | 0 <= i < |args| - 1 :: args[i].Some?
    ensures |r| == |args| - if args != [] && args[|args| - 1].None? then 1 else 0
    ensures forall i | 0 <= i < |r| :: args[i] == Some(r[i])
  {
    if args == [] then []
    else if |args| == 1 then (if args[0].Some? then [args[0].value] else [])
    else [args[0].value] + Given(args[1..])
  }

  /** The strings, the random bytes and the vector: everything above the two pointer arrays. */
  method WriteUpper(argv: seq<Str>, envp: seq<Str>, random: seq<Byte>, program: Option<Program>)
    returns (stack: seq<Byte>, argv0: nat)
    requires Clean(argv) && Clean(envp) && |random| == 16 && (program.Some? ==> ProgramOk(program.value))
    requires Size(argv) + Size(envp) + 88 <= END
    ensures argv0 == END - Size(argv) && Size(argv) + Size(envp) + 16 <= |stack| <= Size(argv) + Size(envp) + 88
    ensures StringsBelow(stack, argv, END) && StringsBelow(stack, envp, argv0)
    ensures AuxAt(stack, Top(stack), VectorFor(argv, envp, program))
    ensures RandomAt(stack, END - Size(argv) - Size(envp) - 16, random)
  {
    var s1 := WriteStrings([], argv);
    argv0 := Top(s1);
    var s2 := WriteStrings(s1, envp);
    KeepsStrings(s2, s1, argv, END);
    var s3 := Push(s2, random);
    stack := WriteAuxv(s3, program, argv0, Top(s3));
    AuxSize(program, argv0, Top(s3));
    SameVector(argv, envp, program, argv0, Top(s3));
    ExtendsTwice(stack, s3, s2);
    KeepsStrings(stack, s2, argv, END);
    KeepsStrings(stack, s2, envp, argv0);
    RandomKept(stack, s3, random);
  }

  lemma SameVector(argv: seq<Str>, envp: seq<Str>, program: Option<Program>, argv0: nat, random: nat)
    requires argv0 == END - Size(argv) && random == argv0 - Size(envp) - 16
    ensures Auxv(program, argv0, random) == VectorFor(argv, envp, program)
  {
  }

  lemma AuxSize(program: Option<Program>, argv0: nat, random: nat)
    ensures |Auxv(program, argv0, random)| <= 9
  {
  }

  /** The bytes are in memory at the address. */
  predicate RandomAt(stack: seq<Byte>, addr: int, random: seq<Byte>) {
    0 <= addr - Top(stack) && addr + |random| <= END && stack[addr - Top(stack)..addr - Top(stack) + |random|] == random
  }

  lemma RandomKept(stack: seq<Byte>, s: seq<Byte>, random: seq<Byte>)
    requires Extends(stack, s) && |random| <= |s| && s[..|random|] == random
    ensures RandomAt(stack, Top(s), random)
  {
    assert stack[|stack| - |s|..][..|random|] == stack[|stack| - |s|..|stack| - |s| + |random|];
  }

  lemma KeepsRandom(stack: seq<Byte>, was: seq<Byte>, addr: int, random: seq<Byte>)
    requires Extends(stack, was) && RandomAt(was, addr, random)
    ensures RandomAt(stack, addr, random)
  {
    var i := addr - Top(was);
    assert was[i..i + |random|] == stack[|stack| - |was|..][i..i + |random|];
  }

  /** The vector for given strings: the program's own name is at the first argument, the random bytes below the
      strings. */
  function VectorFor(argv: seq<Str>, envp: seq<Str>, program: Option<Program>): seq<Aux>
    requires Size(argv) + Size(envp) + 16 <= END
  {
    Auxv(program, END - Size(argv), END - Size(argv) - Size(envp) - 16)
  }

  /** From the returned stack pointer a program finds its argument count, every argument, every environment string and
      the auxiliary vector, whose random address holds the random bytes. */
  method WriteArgs(args: seq<Option<Str>>, envp: seq<Str>, random: seq<Byte>, program: Option<Program>)
    returns (stack: seq<Byte>)
    requires forall i | 0 <= i < |args| - 1 :: args[i].Some?
    requires Clean(Given(args)) && Clean(envp) && |random| == 16 && (program.Some? ==> ProgramOk(program.value))
    requires Size(Given(args)) + Size(envp) + 4 * |Given(args)| + 4 * |envp| + 100 < END
    ensures Found(stack, Given(args), envp, VectorFor(Given(args), envp, program))
    ensures RandomAt(stack, END - Size(Given(args)) - Size(envp) - 16, random)
    // argc and argv in terms of the call's own arguments: a null in the last place is not counted
    ensures var n := |args| - if args != [] && args[|args| - 1].None? then 1 else 0;
            && WordFits(stack, Top(stack)) && WordAt(stack, Top(stack)) == n
            && |ReadList(stack, Top(stack) + 4)| == n
            && forall i | 0 <= i < n :: args[i] == Some(ReadList(stack, Top(stack) + 4)[i])
  {
    stack := WriteArgv(Given(args), envp, random, program);
  }

  method WriteArgv(argv: seq<Str>, envp: seq<Str>, random: seq<Byte>, program: Option<Program>)
    returns (stack: seq<Byte>)
    requires Clean(argv) && Clean(envp) && |random| == 16 && (program.Some? ==> ProgramOk(program.value))
    requires Size(argv) + Size(envp) + 4 * |argv| + 4 * |envp| + 100 < END
    ensures Found(stack, argv, envp, VectorFor(argv, envp, program))
    ensures RandomAt(stack, END - Size(argv) - Size(envp) - 16, random)
  {
    ghost var a, e, u, above;
    stack, a, e, u, above := WriteAll(argv, envp, random, program);
    KeepsRandom(stack, above, END - Size(argv) - Size(envp) - 16, random);
    VectorEnds(argv, envp, program);
    Reads(stack, a, e, u, argv, envp, VectorFor(argv, envp, program));
  }

  /** The value a program finds for a tag: that of the first entry that carries it. */
  function Value(v: seq<Aux>, tag: nat): Option<nat> {
    if v == [] then None else if v[0].tag == tag then Some(v[0].value) else Value(v[1..], tag)
  }

  /** What the vector tells, by the tags of the ABI: AT_PAGESZ 6, AT_SECURE 23, AT_RANDOM 25, and for a program with an
      interpreter AT_PHDR 3, AT_PHENT 4, AT_PHNUM 5, AT_ENTRY 9, AT_EXECFN 31. */
  lemma VectorTells(argv: seq<Str>, envp: seq<Str>, program: Option<Program>)
    requires Size(argv) + Size(envp) + 16 <= END
    ensures var v := VectorFor(argv, envp, program);
            && Value(v, 6) == Some(4096) && Value(v, 23) == Some(0)
            && Value(v, 25) == Some(END - Size(argv) - Size(envp) - 16)
            && match program
               case None => Value(v, 3) == Value(v, 4) == Value(v, 5) == Value(v, 9) == Value(v, 31) == None
               case Some(g) =>
                 && Value(v, 3) == Some(g.phdr) && Value(v, 4) == Some(g.phent) && Value(v, 5) == Some(g.phnum)
                 && Value(v, 9) == Some(g.entry) && Value(v, 31) == Some(END - Size(argv))
  {
    var v := VectorFor(argv, envp, program);
    if program.Some? {
      FullTells(v);
    } else {
      ShortTells(v);
    }
  }

  lemma ShortTells(v: seq<Aux>)
    requires |v| == 4 && v[0].tag == 25 && v[1].tag == 23 && v[2].tag == 6 && v[3].tag == 0
    ensures Value(v, 25) == Some(v[0].value) && Value(v, 23) == Some(v[1].value) && Value(v, 6) == Some(v[2].value)
    ensures Value(v, 3) == Value(v, 4) == Value(v, 5) == Value(v, 9) == Value(v, 31) == None
  {
    FirstWith(v, 25, 0);
    FirstWith(v, 23, 1);
    FirstWith(v, 6, 2);
    NoneWith(v, 3);
    NoneWith(v, 4);
    NoneWith(v, 5);
    NoneWith(v, 9);
    NoneWith(v, 31);
  }

  lemma FullTells(v: seq<Aux>)
    requires |v| == 9 && v[0].tag == 9 && v[1].tag == 31 && v[2].tag == 5 && v[3].tag == 4 && v[4].tag == 3
    requires v[5].tag == 25 && v[6].tag == 23 && v[7].tag == 6
    ensures Value(v, 25) == Some(v[5].value) && Value(v, 23) == Some(v[6].value) && Value(v, 6) == Some(v[7].value)
    ensures Value(v, 9) == Some(v[0].value) && Value(v, 31) == Some(v[1].value) && Value(v, 5) == Some(v[2].value)
    ensures Value(v, 4) == Some(v[3].value) && Value(v, 3) == Some(v[4].value)
  {
    FirstWith(v, 9, 0);
    FirstWith(v, 31, 1);
    FirstWith(v, 5, 2);
    FirstWith(v, 4, 3);
    FirstWith(v, 3, 4);
    FirstWith(v, 25, 5);
    FirstWith(v, 23, 6);
    FirstWith(v, 6, 7);
  }

  lemma {:induction false} FirstWith(v: seq<Aux>, tag: nat, i: nat)
    requires i < |v| && v[i].tag == tag && forall j | 0 <= j < i :: v[j].tag != tag
    ensures Value(v, tag) == Some(v[i].value)
    decreases i
  {
    if i > 0 { FirstWith(v[1..], tag, i - 1); }
  }

  lemma {:induction false} NoneWith(v: seq<Aux>, tag: nat)
    requires forall j | 0 <= j < |v| :: v[j].tag != tag
    ensures Value(v, tag) == None
  {
    if v != [] { NoneWith(v[1..], tag); }
  }

  lemma VectorEnds(argv: seq<Str>, envp: seq<Str>, program: Option<Program>)
    requires Size(argv) + Size(envp) + 16 <= END
    ensures Ends(VectorFor(argv, envp, program))
  {
    Terminated(program, END - Size(argv), END - Size(argv) - Size(envp) - 16);
  }

  /** The last entry is null and no other. */
  ghost predicate Ends(v: seq<Aux>) {
    v != [] && v[|v| - 1].tag == 0 && forall i | 0 <= i < |v| - 1 :: v[i].tag != 0
  }

  method WriteAll(argv: seq<Str>, envp: seq<Str>, random: seq<Byte>, program: Option<Program>)
    returns (stack: seq<Byte>, ghost a: int, ghost e: int, ghost u: int, ghost above: seq<Byte>)
    requires Clean(argv) && Clean(envp) && |random| == 16 && (program.Some? ==> ProgramOk(program.value))
    requires Size(argv) + Size(envp) + 4 * |argv| + 4 * |envp| + 100 < END
    ensures a == Top(stack) + 4 && e == a + 4 + 4 * |argv| && u == e + 4 + 4 * |envp|
    ensures WordFits(stack, Top(stack)) && WordAt(stack, Top(stack)) == |argv|
    ensures PointersAt(stack, a, argv) && PointersAt(stack, e, envp) && AuxAt(stack, u, VectorFor(argv, envp, program))
    ensures Extends(stack, above) && RandomAt(above, END - Size(argv) - Size(envp) - 16, random)
  {
    var upper, argv0 := WriteUpper(argv, envp, random, program);
    var env := WriteArray(upper, envp, argv0);
    KeepsStrings(env, upper, argv, END);
    var all := WriteArray(env, argv, END);
    stack := PushCount(all, |argv|);
    a, e, u := Top(all), Top(env), Top(upper);
    Compose(stack, upper, env, all, argv, envp, VectorFor(argv, envp, program), a, e, u);
    above := upper;
  }

  /** What was written stays where it was while more is written. */
  lemma Compose(stack: seq<Byte>, upper: seq<Byte>, env: seq<Byte>, all: seq<Byte>, argv: seq<Str>, envp: seq<Str>,
                v: seq<Aux>,
                a: int, e: int, u: int)
    requires Extends(env, upper) && Extends(all, env) && Extends(stack, all) && a == Top(all) && e == Top(env)
    requires u == Top(upper)
    requires PointersAt(all, Top(all), argv) && PointersAt(env, Top(env), envp) && AuxAt(upper, Top(upper), v)
    ensures PointersAt(stack, a, argv) && PointersAt(stack, e, envp) && AuxAt(stack, u, v) && Extends(stack, upper)
  {
    ExtendsTwice(stack, all, env);
    ExtendsTwice(stack, env, upper);
    KeepsPointers(stack, all, a, argv);
    KeepsPointers(stack, env, e, envp);
    KeepsAux(stack, upper, u, v);
  }

  method PushCount(stack: seq<Byte>, n: nat) returns (r: seq<Byte>)
    requires |stack| + 4 <= END && n < TWO_32
    ensures Extends(r, stack) && |r| == |stack| + 4 && WordFits(r, Top(r)) && WordAt(r, Top(r)) == n
  {
    PushedWord(stack, n);
    r := Push(stack, WordBytes(n));
  }

  /** The vector ends with its only null entry. */
  lemma Terminated(program: Option<Program>, argv0: nat, random: nat)
    ensures Ends(Auxv(program, argv0, random))
  {
  }

  /** A null pointer, and below it the pointers to the strings of `list`. */
  method WriteArray(stack: seq<Byte>, list: seq<Str>, end: nat) returns (r: seq<Byte>)
    requires |stack| + 4 + 4 * |list| < END && end <= END && Size(list) < end && StringsBelow(stack, list, end)
    ensures Extends(r, stack) && |r| == |stack| + 4 + 4 * |list| && PointersAt(r, Top(r), list)
  {
    var n := Push(stack, [0, 0, 0, 0]);
    NullPushed(stack);
    KeepsStrings(n, stack, list, end);
    r := WritePointers(n, list, end);
    ExtendsTwice(r, n, stack);
  }

  /** What the program finds, counted from its stack pointer. */
  ghost predicate Found(stack: seq<Byte>, argv: seq<Str>, envp: seq<Str>, v: seq<Aux>) {
    && WordFits(stack, Top(stack)) && WordAt(stack, Top(stack)) == |argv|
    && ReadList(stack, Top(stack) + 4) == argv
    && ReadList(stack, Top(stack) + 8 + 4 * |argv|) == envp
    && ReadAux(stack, Top(stack) + 12 + 4 * |argv| + 4 * |envp|) == v
  }

  lemma Reads(stack: seq<Byte>, a: int, e: int, u: int, argv: seq<Str>, envp: seq<Str>, v: seq<Aux>)
    requires WordFits(stack, Top(stack)) && WordAt(stack, Top(stack)) == |argv|
    requires a == Top(stack) + 4 && e == a + 4 + 4 * |argv| && u == e + 4 + 4 * |envp|
    requires PointersAt(stack, a, argv) && PointersAt(stack, e, envp) && AuxAt(stack, u, v)
    requires Ends(v)
    ensures Found(stack, argv, envp, v)
  {
    PointersRead(stack, a, argv);
    PointersRead(stack, e, envp);
    AuxRead(stack, u, v);
    SameReads(stack, a, e, u, Top(stack) + 4, Top(stack) + 8 + 4 * |argv|, Top(stack) + 12 + 4 * |argv| + 4 * |envp|);
  }

  lemma SameReads(stack: seq<Byte>, a: int, e: int, u: int, a': int, e': int, u': int)
    requires a == a' && e == e' && u == u'
    ensures ReadList(stack, a) == ReadList(stack, a') && ReadList(stack, e) == ReadList(stack, e')
    ensures ReadAux(stack, u) == ReadAux(stack, u')
  {
  }
}
