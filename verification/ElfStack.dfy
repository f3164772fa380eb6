/** The initial process stack of packages/elf-runner/src/index.mjs (section 3.4.1 of the
    System V AMD64 ABI): strings, then auxv, envp and argv tables, pushed downwards. */
module ElfStack {
  import opened Common
  import opened GuestMemory

  const STACK_TOP: int := 0x7FFF_FFF0_0000

  // ------------------------------------------------------------ reading the stack

  ghost predicate StringAt(m: Mem, p: int, s: seq<byte>) {
    Read(m, p, |s| + 1) == s + [0]
  }

  lemma TablePrepend(m: Mem, p: int, w: int, ws: seq<int>)
    requires TableAt(m, p, ws)
    ensures TableAt(W64(m, p - 8, w), p - 8, [w] + ws)
  {
    hide Le, Un, Read, Write;
    var bs := Le(w % TWO64, 8);
    ReadBack(m, p - 8, bs);
    ReadAround(m, p - 8, bs, p, 8 * |ws|);
    ReadConcat(W64(m, p - 8, w), p - 8, bs, Words(ws));
    assert ([w] + ws)[1..] == ws;
  }

  /** Memory at and above an address is what it was. */
  ghost predicate SameFrom(m: Mem, m': Mem, from: int) {
    forall x {:trigger At(m', x)} :: from <= x ==> At(m', x) == At(m, x)
  }

  lemma SameReads(m: Mem, m': Mem, from: int, p: int, n: nat)
    requires SameFrom(m, m', from) && from <= p
    ensures Read(m', p, n) == Read(m, p, n)
  {
  }

  // ------------------------------------------------------------ the finished stack

  datatype Aux = Aux(kind: int, value: int)

  /** AT_ENTRY, AT_PHDR, AT_PHENT, AT_PHNUM, AT_PAGESZ, AT_BASE, AT_EXECFN, AT_NULL. */
  function Auxv(entry: int, bias: int, phnum: int, argv0: int): (auxv: seq<Aux>)
    ensures |auxv| == 8 && auxv[7] == Aux(0, 0)
  {
    [Aux(9, bias + entry), Aux(3, bias + 0x40), Aux(4, 56), Aux(5, phnum),
     Aux(6, 4096), Aux(7, 0), Aux(31, argv0), Aux(0, 0)]
  }

  function AuxWords(auxv: seq<Aux>): (ws: seq<int>)
    ensures |ws| == 2 * |auxv|
    ensures forall i :: 0 <= i < |auxv| ==> ws[2 * i] == auxv[i].kind && ws[2 * i + 1] == auxv[i].value
  {
    if auxv == [] then [] else AuxWords(auxv[..|auxv| - 1]) + [auxv[|auxv| - 1].kind, auxv[|auxv| - 1].value]
  }

  lemma OneMoreAux(auxv: seq<Aux>, i: nat)
    requires i < |auxv|
    ensures AuxWords(auxv[..i + 1]) == AuxWords(auxv[..i]) + [auxv[i].kind] + [auxv[i].value]
  {
    assert auxv[..i + 1][..i] == auxv[..i];
  }

  lemma NoWords(m: Mem, p: int)
    ensures TableAt(m, p, AuxWords([]))
  {
  }

  /** A word stored below an address leaves everything from there on. */
  lemma Below(m: Mem, p: int, w: int, from: int)
    requires p + 8 <= from
    ensures SameFrom(m, W64(m, p, w), from)
  {
  }

  ghost predicate StringsAt(m: Mem, ptrs: seq<int>, ss: seq<seq<byte>>) {
    |ptrs| == |ss| && forall i :: 0 <= i < |ss| ==> StringAt(m, ptrs[i], ss[i])
  }

  /** The words from the final stack pointer up. */
  function Table(argv: seq<int>, envp: seq<int>, auxv: seq<Aux>): seq<int> {
    [|argv|] + argv + [0] + envp + [0] + AuxWords(auxv)
  }

  /** What a program walking up from rsp reads: argc, argv, NULL, envp, NULL, auxv. */
  ghost predicate ReadsBack(m: Mem, sp: int, argv: seq<seq<byte>>, envp: seq<seq<byte>>, auxv: seq<Aux>) {
    var envs := sp + 16 + 8 * |argv|;
    var auxs := envs + 8 + 8 * |envp|;
    && U64(m, sp) == |argv|
    && (forall i :: 0 <= i < |argv| ==> U64(m, sp + 8 + 8 * i) != 0 && StringAt(m, U64(m, sp + 8 + 8 * i), argv[i]))
    && U64(m, envs - 8) == 0
    && (forall i :: 0 <= i < |envp| ==> U64(m, envs + 8 * i) != 0 && StringAt(m, U64(m, envs + 8 * i), envp[i]))
    && U64(m, auxs - 8) == 0
    && (forall i :: 0 <= i < |auxv| ==>
          U64(m, auxs + 16 * i) == auxv[i].kind % TWO64 && U64(m, auxs + 16 * i + 8) == auxv[i].value % TWO64)
  }

  ghost predicate Pointers(ptrs: seq<int>) {
    forall i :: 0 <= i < |ptrs| ==> 0 < ptrs[i] < TWO64
  }

  lemma TableReadsBack(m: Mem, sp: int, argvPtrs: seq<int>, envpPtrs: seq<int>,
                       argv: seq<seq<byte>>, envp: seq<seq<byte>>, auxv: seq<Aux>)
    requires TableAt(m, sp, Table(argvPtrs, envpPtrs, auxv))
    requires StringsAt(m, argvPtrs, argv) && StringsAt(m, envpPtrs, envp)
    requires Pointers(argvPtrs) && Pointers(envpPtrs) && |argv| < TWO64
    ensures ReadsBack(m, sp, argv, envp, auxv)
  {
    hide U64, TableAt, StringAt, AuxWords;
    var n, k := |argv|, |envp|;
    var envs := sp + 16 + 8 * n;
    var auxs := envs + 8 + 8 * k;
    var ws := Table(argvPtrs, envpPtrs, auxv);
    TableWord(m, sp, ws, 0);
    TableWord(m, sp, ws, 1 + n);
    TableWord(m, sp, ws, 2 + n + k);
    forall i | 0 <= i < n
      ensures U64(m, sp + 8 + 8 * i) != 0 && StringAt(m, U64(m, sp + 8 + 8 * i), argv[i])
    {
      TableWord(m, sp, ws, 1 + i);
    }
    forall i | 0 <= i < k
      ensures U64(m, envs + 8 * i) != 0 && StringAt(m, U64(m, envs + 8 * i), envp[i])
    {
      TableWord(m, sp, ws, 2 + n + i);
    }
    forall i | 0 <= i < |auxv|
      ensures U64(m, auxs + 16 * i) == auxv[i].kind % TWO64 && U64(m, auxs + 16 * i + 8) == auxv[i].value % TWO64
    {
      var j := 3 + n + k + 2 * i;
      TableWord(m, sp, ws, j);
      TableWord(m, sp, ws, j + 1);
      assert ws[j] == AuxWords(auxv)[2 * i] && ws[j + 1] == AuxWords(auxv)[2 * i + 1];
    }
    assert U64(m, sp) == n;
    assert envs - 8 == sp + 8 * (1 + n) && auxs - 8 == sp + 8 * (2 + n + k);
    assert ws[1 + n] == 0 && ws[2 + n + k] == 0;
  }

  // ------------------------------------------------------------ building it

  function Bytes(ss: seq<seq<byte>>): nat {
    if ss == [] then 0 else Bytes(ss[..|ss| - 1]) + |ss[|ss| - 1]| + 1
  }

  /** Upper bound on the bytes used, alignment included, with eight auxv pairs. */
  function Footprint(argv: seq<seq<byte>>, envp: seq<seq<byte>>): nat {
    Bytes(argv) + Bytes(envp) + 8 * |argv| + 8 * |envp| + 24 + 16 + 128
  }

  /** The bytes between the strings and the tables align the auxiliary vector, not the final stack pointer:
      the ABI's alignment of that holds exactly for an odd number of strings. */
  lemma AlignedIff(sp: int, n: nat)
    requires (sp + 8 * (n + 3)) % 16 == 0
    ensures sp % 16 == 0 <==> n % 2 == 1
  {
    var k := (sp + 8 * (n + 3)) / 16;
    assert sp == 8 * (2 * k - n - 3);
  }

  /** What a program finds under a kind: the value of the first entry of it in front of AT_NULL. */
  function AuxValue(auxv: seq<Aux>, kind: int): Option<int> {
    if auxv == [] || auxv[0].kind == 0 then None
    else if auxv[0].kind == kind then Some(auxv[0].value)
    else AuxValue(auxv[1..], kind)
  }

  /** The entry point, the program headers behind the file header with their size and number, the page
      size, a base of zero and the program's path; no other kind is found. */
  lemma AuxFinds(entry: int, bias: int, phnum: int, argv0: int, kind: int)
    ensures AuxValue(Auxv(entry, bias, phnum, argv0), kind) ==
      match kind
      case 3 => Some(bias + 64)
      case 4 => Some(56)
      case 5 => Some(phnum)
      case 6 => Some(4096)
      case 7 => Some(0)
      case 9 => Some(bias + entry)
      case 31 => Some(argv0)
      case _ => None
  {
    var a := Auxv(entry, bias, phnum, argv0);
    hide AuxValue;
    assert a[0..] == a;
    AuxFrom(a, 0, kind);
    AuxFrom(a, 1, kind);
    AuxFrom(a, 2, kind);
    AuxFrom(a, 3, kind);
    AuxFrom(a, 4, kind);
    AuxFrom(a, 5, kind);
    AuxFrom(a, 6, kind);
    AuxFrom(a, 7, kind);
    assert AuxValue(a[6..], kind) == if kind == 31 then Some(argv0) else None;
    assert AuxValue(a[3..], kind) ==
      if kind == 5 then Some(phnum) else if kind == 6 then Some(4096) else if kind == 7 then Some(0)
      else if kind == 31 then Some(argv0) else None;
  }

  lemma AuxFrom(a: seq<Aux>, i: nat, kind: int)
    requires i < |a|
    ensures AuxValue(a[i..], kind) ==
      if a[i].kind == 0 then None else if a[i].kind == kind then Some(a[i].value) else AuxValue(a[i + 1..], kind)
  {
    assert a[i..][1..] == a[i + 1..];
  }

  class StackBuilder {
    var mem: Mem
    var sp: int

    constructor (mem: Mem)
      ensures this.mem == mem && sp == STACK_TOP
    {
      this.mem := mem;
      sp := STACK_TOP;
    }

    method PushString(s: seq<byte>) returns (p: int)
      modifies this
      ensures p == sp == old(sp) - |s| - 1
      ensures SameFrom(old(mem), mem, old(sp)) && StringAt(mem, p, s)
    {
      var buf := s + [0];
      sp := sp - |buf|;
      mem := Write(mem, sp, buf);
      ReadBack(old(mem), sp, buf);
      p := sp;
    }

    method PushStrings(ss: seq<seq<byte>>) returns (ptrs: seq<int>)
      modifies this
      ensures sp == old(sp) - Bytes(ss)
      ensures SameFrom(old(mem), mem, old(sp)) && StringsAt(mem, ptrs, ss)
      ensures forall i :: 0 <= i < |ptrs| ==> sp <= ptrs[i] < old(sp)
    {
      ptrs := [];
      for i := 0 to |ss|
        invariant sp == old(sp) - Bytes(ss[..i])
        invariant SameFrom(old(mem), mem, old(sp)) && StringsAt(mem, ptrs, ss[..i])
        invariant forall j :: 0 <= j < |ptrs| ==> sp <= ptrs[j] < old(sp)
      {
        ghost var m := mem;
        assert ss[..i + 1][..i] == ss[..i];
        var from := sp;
        var p := PushString(ss[i]);
        forall j | 0 <= j < i ensures StringAt(mem, ptrs[j], ss[j]) {
          SameReads(m, mem, from, ptrs[j], |ss[j]| + 1);
        }
        ptrs := ptrs + [p];
      }
      assert ss[..|ss|] == ss;
    }

    method PushWord(w: int, ghost ws: seq<int>)
      requires TableAt(mem, sp, ws)
      modifies this
      ensures sp == old(sp) - 8
      ensures SameFrom(old(mem), mem, old(sp)) && TableAt(mem, sp, [w] + ws)
    {
      TablePrepend(mem, sp, w, ws);
      sp := sp - 8;
      mem := W64(mem, sp, w);
    }

    /** Pushes words last to first, as the envp and argv loops do. */
    method PushWords(vs: seq<int>, ghost ws: seq<int>)
      requires TableAt(mem, sp, ws)
      modifies this
      ensures sp == old(sp) - 8 * |vs|
      ensures SameFrom(old(mem), mem, old(sp)) && TableAt(mem, sp, vs + ws)
    {
      var i := |vs| - 1;
      ghost var done := ws;
      assert vs[|vs|..] + ws == ws;
      while i >= 0
        invariant -1 <= i < |vs|
        invariant done == vs[i + 1..] + ws
        invariant sp == old(sp) - 8 * (|vs| - 1 - i)
        invariant SameFrom(old(mem), mem, old(sp)) && TableAt(mem, sp, done)
      {
        PushWord(vs[i], done);
        assert [vs[i]] + done == vs[i..] + ws;
        done := [vs[i]] + done;
        i := i - 1;
      }
      assert vs[0..] == vs;
    }

    /** The auxv block is reserved first and then filled upwards. */
    method PushAuxv(auxv: seq<Aux>)
      modifies this
      ensures sp == old(sp) - 16 * |auxv|
      ensures SameFrom(old(mem), mem, old(sp)) && TableAt(mem, sp, AuxWords(auxv))
    {
      hide AuxWords, TableAt, W64;
      sp := sp - 16 * |auxv|;
      NoWords(mem, sp);
      for i := 0 to |auxv|
        invariant sp == old(sp) - 16 * |auxv|
        invariant SameFrom(old(mem), mem, old(sp)) && TableAt(mem, sp, AuxWords(auxv[..i]))
      {
        OneMoreAux(auxv, i);
        ghost var ws := AuxWords(auxv[..i]);
        TableAppend(mem, sp, ws, auxv[i].kind);
        Below(mem, sp + i * 16, auxv[i].kind, old(sp));
        mem := W64(mem, sp + i * 16, auxv[i].kind);
        TableAppend(mem, sp, ws + [auxv[i].kind], auxv[i].value);
        Below(mem, sp + i * 16 + 8, auxv[i].value, old(sp));
        mem := W64(mem, sp + i * 16 + 8, auxv[i].value);
      }
      assert auxv[..|auxv|] == auxv;
    }

    method Build(argv: seq<seq<byte>>, envp: seq<seq<byte>>, entry: int, bias: int, phnum: int)
      returns (auxv: seq<Aux>)
      requires sp == STACK_TOP && argv != [] && Footprint(argv, envp) < STACK_TOP
      modifies this
      ensures ReadsBack(mem, sp, argv, envp, auxv)
      ensures SameFrom(old(mem), mem, STACK_TOP)
      ensures auxv == Auxv(entry, bias, phnum, U64(mem, sp + 8))
      ensures STACK_TOP - Footprint(argv, envp) <= sp && (sp + 8 * (|argv| + |envp| + 3)) % 16 == 0
    {
      hide AuxWords, Words, Read, Write, Le, Un, Bytes, Auxv, U64, TableAt, StringAt, ReadsBack;
      var argvPtrs := PushStrings(argv);
      ghost var m1, sp1 := mem, sp;
      var envpPtrs := PushStrings(envp);
      StringsKept(m1, mem, sp1, argvPtrs, argv);
      ghost var m2, sp2 := mem, sp;
      auxv := Auxv(entry, bias, phnum, argvPtrs[0]);
      sp := sp - sp % 16;
      PushAuxv(auxv);
      PushTables(argvPtrs, envpPtrs, auxv);
      StringsKept(m2, mem, sp2, argvPtrs, argv);
      StringsKept(m2, mem, sp2, envpPtrs, envp);
      BytesAtLeast(argv);
      TableReadsBack(mem, sp, argvPtrs, envpPtrs, argv, envp, auxv);
      TableWord(mem, sp, Table(argvPtrs, envpPtrs, auxv), 1);
    }

    /** The words below the auxv block, from its start down to argc. */
    method PushTables(argvPtrs: seq<int>, envpPtrs: seq<int>, ghost auxv: seq<Aux>)
      requires TableAt(mem, sp, AuxWords(auxv))
      modifies this
      ensures sp == old(sp) - 8 * (|argvPtrs| + |envpPtrs| + 3)
      ensures SameFrom(old(mem), mem, old(sp)) && TableAt(mem, sp, Table(argvPtrs, envpPtrs, auxv))
    {
      hide AuxWords, TableAt, W64;
      ghost var ws := AuxWords(auxv);
      PushWord(0, ws);
      PushWords(envpPtrs, [0] + ws);
      PushWord(0, envpPtrs + ([0] + ws));
      PushWords(argvPtrs, [0] + (envpPtrs + ([0] + ws)));
      PushWord(|argvPtrs|, argvPtrs + ([0] + (envpPtrs + ([0] + ws))));
      assert [|argvPtrs|] + (argvPtrs + ([0] + (envpPtrs + ([0] + ws)))) == Table(argvPtrs, envpPtrs, auxv);
    }
  }

  lemma StringsKept(m: Mem, m': Mem, from: int, ptrs: seq<int>, ss: seq<seq<byte>>)
    requires SameFrom(m, m', from) && StringsAt(m, ptrs, ss)
    requires forall i :: 0 <= i < |ptrs| ==> from <= ptrs[i]
    ensures StringsAt(m', ptrs, ss)
  {
    forall i | 0 <= i < |ss| ensures StringAt(m', ptrs[i], ss[i]) {
      SameReads(m, m', from, ptrs[i], |ss[i]| + 1);
    }
  }

  lemma {:induction false} BytesAtLeast(ss: seq<seq<byte>>)
    ensures |ss| <= Bytes(ss)
  {
    if ss != [] { BytesAtLeast(ss[..|ss| - 1]); }
  }

  // ------------------------------------------------------------ the walk of __libc_start_main

  const WALK_LIMIT: nat := 64

  /** The handler's search for envp: behind the first zero word among the first 64. */
  method EnvpWalk(m: Mem, argvVa: int) returns (p: int)
    ensures var k := FirstZero(m, argvVa, WALK_LIMIT);
      p == if k < WALK_LIMIT then argvVa + 8 * k + 8 else 0
  {
    p := argvVa;
    for i := 0 to WALK_LIMIT
      invariant p == argvVa + 8 * i
      invariant forall j :: 0 <= j < i ==> U64(m, argvVa + 8 * j) != 0
    {
      var v := U64(m, p);
      p := p + 8;
      if v == 0 {
        FirstZeroIs(m, argvVa, WALK_LIMIT, i);
        return;
      }
    }
    FirstZeroNone(m, argvVa, WALK_LIMIT);
    p := 0;
  }

  function FirstZero(m: Mem, p: int, n: nat): (k: nat)
    ensures k <= n
    ensures forall j :: 0 <= j < k ==> U64(m, p + 8 * j) != 0
    ensures k < n ==> U64(m, p + 8 * k) == 0
  {
    if n == 0 then 0
    else
      var k := FirstZero(m, p, n - 1);
      if k < n - 1 || U64(m, p + 8 * k) == 0 then k else n
  }

  lemma FirstZeroIs(m: Mem, p: int, n: nat, k: nat)
    requires k < n && U64(m, p + 8 * k) == 0
    requires forall j :: 0 <= j < k ==> U64(m, p + 8 * j) != 0
    ensures FirstZero(m, p, n) == k
  {
    var z := FirstZero(m, p, n);
    assert z < k ==> U64(m, p + 8 * z) != 0;
  }

  lemma FirstZeroNone(m: Mem, p: int, n: nat)
    requires forall j :: 0 <= j < n ==> U64(m, p + 8 * j) != 0
    ensures FirstZero(m, p, n) == n
  {
  }

  /** On a stack built above, the walk from argv lands on the first envp slot if and only if
      there are fewer than 64 arguments; otherwise main gets a NULL envp. */
  lemma WalkFindsEnvp(m: Mem, sp: int, argv: seq<seq<byte>>, envp: seq<seq<byte>>, auxv: seq<Aux>)
    requires ReadsBack(m, sp, argv, envp, auxv)
    ensures FirstZero(m, sp + 8, WALK_LIMIT) == if |argv| < 64 then |argv| else 64
  {
    assert U64(m, sp + 16 + 8 * |argv| - 8) == U64(m, sp + 8 + 8 * |argv|);
    if |argv| < WALK_LIMIT {
      FirstZeroIs(m, sp + 8, WALK_LIMIT, |argv|);
    } else {
      FirstZeroNone(m, sp + 8, WALK_LIMIT);
    }
  }
}
