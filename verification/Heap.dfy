/** The first-fit heap of packages/pe-runner/src/memory.mjs: a bump cursor plus a list of
    blocks that are reused whole and never merged. */
module Heap {
  import opened Common
  import opened GuestMemory

  const PAGE: int := 0x1000
  const HEADER: int := 16

  datatype Block = Block(addr: int, size: nat, free: bool) {
    function End(): int { addr + size }
  }

  datatype Arena = Arena(base: int, size: nat, cursor: int, blocks: seq<Block>)

  function PageUp(a: int): (b: int)
    ensures a <= b < a + PAGE && b % PAGE == 0
  {
    (a + 0xFFF) / PAGE * PAGE
  }

  function NewArena(base: int, size: nat): Arena { Arena(base, size, base + PAGE, []) }

  // ------------------------------------------------------------ the invariant

  /** Blocks lie in the arena in address order with room for a header between them, also
      after a request has overrun the arena. */
  ghost predicate Inv(h: Arena) {
    && (forall i :: 0 <= i < |h.blocks| ==>
          && h.base + PAGE <= h.blocks[i].addr
          && h.blocks[i].End() + HEADER <= Min(h.cursor, h.base + h.size)
          && h.blocks[i].size % 16 == 0
          && (h.base % PAGE == 0 ==> h.blocks[i].addr % PAGE == 0))
    && (forall i, j :: 0 <= i < j < |h.blocks| ==> h.blocks[i].End() + HEADER <= h.blocks[j].addr)
    && h.base + PAGE <= h.cursor
    && (h.base % PAGE == 0 ==> h.cursor % PAGE == 0)
  }

  /** HeapValidate: what the code checks. */
  predicate Validates(h: Arena) {
    && (forall i :: 0 <= i < |h.blocks| ==> h.base <= h.blocks[i].addr && h.blocks[i].End() <= h.base + h.size)
    && Ascending(h.base + PAGE, h.blocks, |h.blocks|)
  }

  predicate Ascending(floor: int, bs: seq<Block>, n: nat)
    requires n <= |bs|
  {
    forall i :: 0 <= i < n ==> NotBelow(floor, bs, i)
  }

  /** Block i starts no lower than the one before it. */
  predicate NotBelow(floor: int, bs: seq<Block>, i: nat)
    requires i < |bs|
  {
    (if i == 0 then floor else bs[i - 1].addr) <= bs[i].addr
  }

  ghost predicate InBounds(h: Arena) {
    forall i :: 0 <= i < |h.blocks| ==>
      h.base <= h.blocks[i].addr && h.blocks[i].addr + h.blocks[i].size <= h.base + h.size
  }

  ghost predicate InOrder(h: Arena) {
    (|h.blocks| > 0 ==> h.base + 0x1000 <= h.blocks[0].addr) &&
    forall i, j :: 0 <= i && j == i + 1 < |h.blocks| ==> h.blocks[i].addr <= h.blocks[j].addr
  }

  lemma ValidatesIff(h: Arena)
    ensures Validates(h) <==> InBounds(h) && InOrder(h)
  {
    if Validates(h) {
      assert |h.blocks| > 0 ==> NotBelow(h.base + PAGE, h.blocks, 0);
      forall i, j | 0 <= i && j == i + 1 < |h.blocks| ensures h.blocks[i].addr <= h.blocks[j].addr {
        assert NotBelow(h.base + PAGE, h.blocks, j);
      }
    }
  }

  lemma InvValidates(h: Arena)
    requires Inv(h)
    ensures Validates(h)
  {
    forall i | 0 <= i < |h.blocks| ensures h.blocks[i].End() + HEADER <= h.base + h.size {
    }
  }

  // ------------------------------------------------------------ operations

  /** First free block that is large enough. */
  function FirstFit(bs: seq<Block>, size: nat): (k: nat)
    ensures k <= |bs|
    ensures k < |bs| ==> bs[k].free && size <= bs[k].size
    ensures forall j :: 0 <= j < k ==> !(bs[j].free && size <= bs[j].size)
  {
    if bs == [] || (bs[0].free && size <= bs[0].size) then 0
    else
      var k := FirstFit(bs[1..], size);
      assert forall j :: 1 <= j < k + 1 ==> bs[j] == bs[1..][j - 1];
      k + 1
  }

  /** Index of the block at an address. */
  function FindAt(bs: seq<Block>, addr: int): (k: nat)
    ensures k <= |bs|
    ensures k < |bs| ==> bs[k].addr == addr
    ensures forall j :: 0 <= j < k ==> bs[j].addr != addr
  {
    if bs == [] || bs[0].addr == addr then 0
    else
      var k := FindAt(bs[1..], addr);
      assert forall j :: 1 <= j < k + 1 ==> bs[j] == bs[1..][j - 1];
      k + 1
  }

  function SetFree(h: Arena, k: nat, free: bool): Arena
    requires k < |h.blocks|
  {
    h.(blocks := h.blocks[k := h.blocks[k].(free := free)])
  }

  /** The arena and the block index handed out; None when the arena is exhausted, in which
      case the cursor has still moved. */
  function Alloc(h: Arena, n: nat): (Arena, Option<nat>) {
    var size := Align16(n);
    var k := FirstFit(h.blocks, size);
    if k < |h.blocks| then (SetFree(h, k, false), Some(k))
    else
      var h' := h.(cursor := PageUp(h.cursor + HEADER + size));
      if h'.cursor > h.base + h.size then (h', None)
      else (h'.(blocks := h.blocks + [Block(h.cursor, size, false)]), Some(|h.blocks|))
  }

  function Free(h: Arena, addr: int): (Arena, bool) {
    var k := FindAt(h.blocks, addr);
    if k < |h.blocks| then (SetFree(h, k, true), true) else (h, false)
  }

  function Realloc(h: Arena, addr: int, n: nat): (Arena, Option<int>) {
    var size := Align16(n);
    var k := FindAt(h.blocks, addr);
    if k < |h.blocks| && size <= h.blocks[k].size then (h, Some(addr))
    else
      var (h', r) := Alloc(h, size);
      match r
      case None => (h', None)
      case Some(j) => (if k < |h.blocks| then SetFree(h', k, true) else h', Some(h'.blocks[j].addr))
  }

  // ------------------------------------------------------------ what the operations keep

  lemma AllocIndex(h: Arena, n: nat)
    ensures var (h', r) := Alloc(h, n);
      r.Some? ==> r.value < |h'.blocks| && |h.blocks| <= |h'.blocks| && !h'.blocks[r.value].free &&
                  n <= h'.blocks[r.value].size && (r.value < |h.blocks| ==> h.blocks[r.value].free)
  {
  }

  lemma SetFreeInv(h: Arena, k: nat, free: bool)
    requires Inv(h) && k < |h.blocks|
    ensures Inv(SetFree(h, k, free))
  {
  }

  lemma AllocInv(h: Arena, n: nat)
    requires Inv(h)
    ensures Inv(Alloc(h, n).0)
  {
    var h' := Alloc(h, n).0;
    var k := FirstFit(h.blocks, Align16(n));
    if k < |h.blocks| { SetFreeInv(h, k, false); }
    if FirstFit(h.blocks, Align16(n)) == |h.blocks| && h'.cursor <= h.base + h.size {
      assert forall i :: 0 <= i < |h.blocks| ==> h'.blocks[i] == h.blocks[i];
    }
  }

  lemma FreeInv(h: Arena, addr: int)
    requires Inv(h)
    ensures Inv(Free(h, addr).0)
  {
    var k := FindAt(h.blocks, addr);
    if k < |h.blocks| { SetFreeInv(h, k, true); }
  }

  lemma ReallocInv(h: Arena, addr: int, n: nat)
    requires Inv(h)
    ensures Inv(Realloc(h, addr, n).0)
  {
    hide Inv;
    var size, k := Align16(n), FindAt(h.blocks, addr);
    AllocInv(h, size);
    AllocIndex(h, size);
    if k < |h.blocks| {
      SetFreeInv(Alloc(h, size).0, k, true);
    }
  }

  datatype Command = DoAlloc(n: nat) | DoFree(addr: int) | DoRealloc(addr: int, n: nat)

  function Step(h: Arena, c: Command): Arena {
    match c
    case DoAlloc(n) => Alloc(h, n).0
    case DoFree(a) => Free(h, a).0
    case DoRealloc(a, n) => Realloc(h, a, n).0
  }

  function Run(h: Arena, cs: seq<Command>): Arena
    decreases |cs|
  {
    if cs == [] then h else Run(Step(h, cs[0]), cs[1..])
  }

  lemma {:induction false} RunInv(h: Arena, cs: seq<Command>)
    requires Inv(h)
    ensures Inv(Run(h, cs))
    decreases |cs|
  {
    if cs != [] {
      match cs[0] {
        case DoAlloc(n) => AllocInv(h, n);
        case DoFree(a) => FreeInv(h, a);
        case DoRealloc(a, n) => ReallocInv(h, a, n);
      }
      RunInv(Step(h, cs[0]), cs[1..]);
    }
  }

  /** Every reachable heap validates, exhausted or not. */
  lemma ReachableValidates(base: int, size: nat, cs: seq<Command>)
    ensures Inv(Run(NewArena(base, size), cs)) && Validates(Run(NewArena(base, size), cs))
  {
    RunInv(NewArena(base, size), cs);
    InvValidates(Run(NewArena(base, size), cs));
  }

  predicate Live(h: Arena, addr: int, size: nat) {
    exists i :: 0 <= i < |h.blocks| && h.blocks[i] == Block(addr, size, false)
  }

  /** Two live payloads never overlap, and a live block never shares its address. */
  lemma LiveDisjoint(h: Arena, a: int, s: nat, b: int, t: nat)
    requires Inv(h) && Live(h, a, s) && Live(h, b, t)
    ensures (a == b && s == t) || a + s + HEADER <= b || b + t + HEADER <= a
  {
  }

  lemma AllocKeepsLive(h: Arena, n: nat, a: int, s: nat)
    requires Live(h, a, s)
    ensures Live(Alloc(h, n).0, a, s)
  {
    var h' := Alloc(h, n).0;
    var i :| 0 <= i < |h.blocks| && h.blocks[i] == Block(a, s, false);
    assert h'.blocks[i] == Block(a, s, false);
  }

  /** The block handed out is live, large enough and clear of every block that was live. */
  lemma AllocFresh(h: Arena, n: nat)
    requires Inv(h) && Alloc(h, n).1.Some?
    ensures var (h', r) := Alloc(h, n);
      var b := h'.blocks[r.value];
      && n <= b.size && Live(h', b.addr, b.size)
      && forall a: int, s: nat :: Live(h, a, s) ==> a + s + HEADER <= b.addr || b.End() + HEADER <= a
  {
    var (h', r) := Alloc(h, n);
    AllocInv(h, n);
    AllocIndex(h, n);
    var b := h'.blocks[r.value];
    assert b == Block(b.addr, b.size, false);
    forall a: int, s: nat | Live(h, a, s) ensures a + s + HEADER <= b.addr || b.End() + HEADER <= a {
      var i :| 0 <= i < |h.blocks| && h.blocks[i] == Block(a, s, false);
      assert h'.blocks[i] == Block(a, s, false) && i != r.value;
    }
  }

  /** Nothing else becomes live. */
  lemma AllocAddsOne(h: Arena, n: nat, a: int, s: nat)
    requires Live(Alloc(h, n).0, a, s) && !Live(h, a, s)
    ensures var (h', r) := Alloc(h, n); r.Some? && h'.blocks[r.value] == Block(a, s, false)
  {
    var (h', r) := Alloc(h, n);
    var i :| 0 <= i < |h'.blocks| && h'.blocks[i] == Block(a, s, false);
    assert i < |h.blocks| ==> h.blocks[i] == h'.blocks[i] || r == Some(i);
  }

  /** A live block at the address with room for n bytes. */
  ghost predicate Owned(h: Arena, a: int, n: nat) {
    exists s: nat :: n <= s && Live(h, a, s)
  }

  lemma OwnedApart(h: Arena, a: int, n: nat, b: int, k: nat)
    requires Inv(h) && Owned(h, a, n) && Owned(h, b, k)
    ensures a == b || a + n + HEADER <= b || b + k + HEADER <= a
    ensures h.base + PAGE <= a && a + n <= h.base + h.size
  {
    var s: nat :| n <= s && Live(h, a, s);
    var t: nat :| k <= t && Live(h, b, t);
    LiveDisjoint(h, a, s, b, t);
  }

  /** A block at the address with room for n bytes, in use or freed. */
  ghost predicate Held(h: Arena, a: int, n: nat) {
    exists i :: 0 <= i < |h.blocks| && h.blocks[i].addr == a && n <= h.blocks[i].size
  }

  lemma OwnedHeld(h: Arena, a: int, n: nat)
    requires Owned(h, a, n)
    ensures Held(h, a, n)
  {
    var s: nat :| n <= s && Live(h, a, s);
    var i :| 0 <= i < |h.blocks| && h.blocks[i] == Block(a, s, false);
  }

  lemma OwnedLess(h: Arena, a: int, n: nat, k: nat)
    requires Owned(h, a, n) && k <= n
    ensures Owned(h, a, k)
  {
  }

  lemma HeldApart(h: Arena, a: int, n: nat, b: int, k: nat)
    requires Inv(h) && Held(h, a, n) && Held(h, b, k)
    ensures a == b || a + n + HEADER <= b || b + k + HEADER <= a
    ensures h.base + PAGE <= a && a + n <= h.base + h.size
  {
  }

  lemma AllocKeepsHeld(h: Arena, n: nat, a: int, k: nat)
    requires Held(h, a, k)
    ensures Held(Alloc(h, n).0, a, k)
  {
    var h' := Alloc(h, n).0;
    var i :| 0 <= i < |h.blocks| && h.blocks[i].addr == a && k <= h.blocks[i].size;
    assert h'.blocks[i].addr == a && k <= h'.blocks[i].size;
  }

  lemma SetFreeKeepsHeld(h: Arena, j: nat, free: bool, a: int, k: nat)
    requires Held(h, a, k) && j < |h.blocks|
    ensures Held(SetFree(h, j, free), a, k)
  {
    var h' := SetFree(h, j, free);
    var i :| 0 <= i < |h.blocks| && h.blocks[i].addr == a && k <= h.blocks[i].size;
    assert h'.blocks[i].addr == a && k <= h'.blocks[i].size;
  }

  /** Blocks are never given up: whatever is allocated, freed or reallocated, an address once handed
      out keeps its block. */
  lemma {:induction false} RunKeepsHeld(h: Arena, cs: seq<Command>, a: int, k: nat)
    requires Held(h, a, k)
    ensures Held(Run(h, cs), a, k)
    decreases |cs|
  {
    hide Held, Alloc, FindAt;
    if cs != [] {
      match cs[0] {
        case DoAlloc(n) => AllocKeepsHeld(h, n, a, k);
        case DoFree(p) =>
          if FindAt(h.blocks, p) < |h.blocks| { SetFreeKeepsHeld(h, FindAt(h.blocks, p), true, a, k); }
        case DoRealloc(p, n) =>
          AllocKeepsHeld(h, Align16(n), a, k);
          ReallocKeepsHeld(h, p, n, a, k);
      }
      RunKeepsHeld(Step(h, cs[0]), cs[1..], a, k);
    }
  }

  lemma ReallocKeepsHeld(h: Arena, addr: int, n: nat, a: int, k: nat)
    requires Held(h, a, k) && Held(Alloc(h, Align16(n)).0, a, k)
    ensures Held(Realloc(h, addr, n).0, a, k)
  {
    hide Held;
    AllocIndex(h, Align16(n));
    var j := FindAt(h.blocks, addr);
    if j < |h.blocks| && Alloc(h, Align16(n)).1.Some? { SetFreeKeepsHeld(Alloc(h, Align16(n)).0, j, true, a, k); }
  }

  /** The arena and the address handed out. */
  function AllocAt(h: Arena, n: nat): (Arena, Option<int>) {
    var (h', r) := Alloc(h, n);
    (h', if r.Some? then AllocIndex(h, n); Some(h'.blocks[r.value].addr) else None)
  }

  /** The same for a sequence of requests, up to the first that fails. */
  function AllocAll(h: Arena, sizes: seq<nat>): (r: (Arena, Option<seq<int>>))
    ensures r.1.Some? ==> |r.1.value| == |sizes|
  {
    if sizes == [] then (h, Some([]))
    else
      var (h', r) := AllocAll(h, sizes[..|sizes| - 1]);
      if r.None? then (h', None)
      else
        var (h2, a) := AllocAt(h', sizes[|sizes| - 1]);
        (h2, if a.Some? then Some(r.value + [a.value]) else None)
  }

  lemma {:induction false} AllocAllConcat(h: Arena, xs: seq<nat>, ys: seq<nat>)
    ensures AllocAll(h, xs + ys) ==
            var (h', r) := AllocAll(h, xs);
            if r.None? then (h', None)
            else
              var (h2, q) := AllocAll(h', ys);
              (h2, if q.Some? then Some(r.value + q.value) else None)
    decreases |ys|
  {
    hide AllocAt;
    if ys == [] {
      assert xs + ys == xs;
      var (h', r) := AllocAll(h, xs);
      if r.Some? { assert r.value + [] == r.value; }
    } else {
      var front, last := ys[..|ys| - 1], ys[|ys| - 1];
      assert (xs + ys)[..|xs + ys| - 1] == xs + front && (xs + ys)[|xs + ys| - 1] == last;
      AllocAllConcat(h, xs, front);
      var (h', r) := AllocAll(h, xs);
      if r.Some? {
        var (h2, q) := AllocAll(h', front);
        if q.Some? {
          var (h3, a) := AllocAt(h2, last);
          if a.Some? { assert r.value + q.value + [a.value] == r.value + (q.value + [a.value]); }
        }
      }
    }
  }

  /** When one block is free, a sequence of requests takes it exactly when some request fits. */
  lemma {:induction false} OnlyFreeBlockTaken(h: Arena, k: nat, sizes: seq<nat>)
    requires Inv(h) && k < |h.blocks| && forall i :: 0 <= i < |h.blocks| ==> (h.blocks[i].free <==> i == k)
    requires AllocAll(h, sizes).1.Some?
    ensures h.blocks[k].addr in AllocAll(h, sizes).1.value <==>
            exists i :: 0 <= i < |sizes| && Align16(sizes[i]) <= h.blocks[k].size
    ensures var h' := AllocAll(h, sizes).0;
      && Inv(h') && |h.blocks| <= |h'.blocks|
      && h'.blocks[k] == h.blocks[k].(free := h.blocks[k].addr !in AllocAll(h, sizes).1.value)
      && forall i :: 0 <= i < |h'.blocks| && i != k ==> !h'.blocks[i].free
    decreases |sizes|
  {
    hide Inv, Align16;
    if sizes != [] {
      var front, n := sizes[..|sizes| - 1], sizes[|sizes| - 1];
      OnlyFreeBlockTaken(h, k, front);
      var h1 := AllocAll(h, front).0;
      AllocInv(h1, n);
      OneMoreRequest(h1, k, n);
      assert forall i :: 0 <= i < |front| ==> sizes[i] == front[i];
    }
  }

  /** One request on such a heap. */
  lemma OneMoreRequest(h: Arena, k: nat, n: nat)
    requires Inv(h) && k < |h.blocks| && AllocAt(h, n).1.Some?
    requires forall i :: 0 <= i < |h.blocks| && i != k ==> !h.blocks[i].free
    ensures var (h', a) := AllocAt(h, n);
      var taken := h.blocks[k].free && Align16(n) <= h.blocks[k].size;
      && |h.blocks| <= |h'.blocks| && (a.value == h.blocks[k].addr <==> taken)
      && h'.blocks[k] == h.blocks[k].(free := h.blocks[k].free && !taken)
      && forall i :: 0 <= i < |h'.blocks| && i != k ==> !h'.blocks[i].free
  {
    hide Align16;
  }

  lemma AlignFits(n: nat, s: nat)
    requires n <= s && s % 16 == 0
    ensures Align16(n) <= s
  {
  }

  lemma AllocOwned(h: Arena, n: nat)
    requires Inv(h) && Alloc(h, n).1.Some?
    ensures var (h', r) := Alloc(h, n);
      var p := h'.blocks[r.value].addr;
      && Owned(h', p, n)
      && forall a: int, k: nat :: Owned(h, a, k) ==> Owned(h', a, k) && a != p
  {
    var (h', r) := Alloc(h, n);
    AllocFresh(h, n);
    forall a: int, k: nat | Owned(h, a, k) ensures Owned(h', a, k) && a != h'.blocks[r.value].addr {
      var s: nat :| k <= s && Live(h, a, s);
      AllocKeepsLive(h, n, a, s);
    }
  }

  /** Once a request has overrun the arena, every later allocation can only reuse a freed
      block: the bump cursor never comes back. */
  lemma ExhaustionSticks(h: Arena, n: nat, cs: seq<Command>, m: nat)
    requires Alloc(h, n).1 == None
    ensures var h' := Run(Alloc(h, n).0, cs);
      |h'.blocks| == |h.blocks| &&
      (Alloc(h', m).1.Some? ==> Alloc(h', m).1.value == FirstFit(h'.blocks, Align16(m)) < |h'.blocks|)
  {
    OverrunSticks(Alloc(h, n).0, cs);
  }

  lemma {:induction false} OverrunSticks(h: Arena, cs: seq<Command>)
    requires h.cursor > h.base + h.size
    ensures var h' := Run(h, cs); |h'.blocks| == |h.blocks| && h'.cursor > h'.base + h'.size
    decreases |cs|
  {
    if cs != [] {
      assert Step(h, cs[0]).cursor > h.base + h.size;
      OverrunSticks(Step(h, cs[0]), cs[1..]);
    }
  }

  /** The address realloc returns is live afterwards unless the block had been freed and was
      already large enough: then a freed block is handed back and stays free. */
  lemma ReallocLiveIff(h: Arena, addr: int, n: nat)
    requires Inv(h) && Realloc(h, addr, n).1.Some?
    ensures var (h', r) := Realloc(h, addr, n);
      var k := FindAt(h.blocks, addr);
      (exists s :: Live(h', r.value, s)) <==>
        !(k < |h.blocks| && h.blocks[k].free && Align16(n) <= h.blocks[k].size)
  {
    var (h', r) := Realloc(h, addr, n);
    var k, size := FindAt(h.blocks, addr), Align16(n);
    if k < |h.blocks| && size <= h.blocks[k].size {
      if h.blocks[k].free {
        forall i | 0 <= i < |h.blocks| && h.blocks[i].addr == addr ensures i == k {
        }
      } else {
        assert Live(h', addr, h.blocks[k].size);
      }
    } else {
      AllocIndex(h, size);
      var (h1, r1) := Alloc(h, size);
      var b := h1.blocks[r1.value];
      assert k < |h.blocks| ==> r1.value != k;
      assert h'.blocks[r1.value] == b;
      assert Live(h', b.addr, b.size);
    }
  }

  /** When no freed block fits, the block lies at the cursor, which moves to the first page boundary behind
      the block and a header of sixteen bytes, also if that is past the end and the request fails. */
  lemma AllocBumps(h: Arena, n: nat)
    requires forall j :: 0 <= j < |h.blocks| ==>
               !(h.blocks[j].free && n <= h.blocks[j].size) && h.blocks[j].size % 16 == 0
    ensures var (h', r) := Alloc(h, n);
      && h'.cursor % 0x1000 == 0 && 0 <= h'.cursor - (h.cursor + 16 + Align16(n)) < 0x1000
      && (r.Some? <==> h'.cursor <= h.base + h.size)
      && (r.Some? ==> h'.blocks == h.blocks + [Block(h.cursor, Align16(n), false)] && r.value == |h.blocks|)
      && (r.None? ==> h'.blocks == h.blocks)
  {
  }

  /** A block that is too small is moved: it becomes free, every other live block stays live, and a block
      with room for the new size is live at another address.  Without room for that nothing is freed. */
  lemma ReallocMoves(h: Arena, addr: int, n: nat, k: nat)
    requires Inv(h) && k < |h.blocks| && h.blocks[k].addr == addr && h.blocks[k].size < n
    ensures var (h', r) := Realloc(h, addr, n);
      && (r.None? ==> h'.blocks == h.blocks)
      && (r.Some? ==>
            && r.value != addr && (exists s: nat :: n <= s && Live(h', r.value, s))
            && (forall s: nat :: !Live(h', addr, s))
            && forall a: int, s: nat :: Live(h, a, s) && a != addr ==> Live(h', a, s))
  {
    hide Inv, Align16;
    var size := Align16(n);
    assert FindAt(h.blocks, addr) == k by { FoundHere(h, k); }
    AllocIndex(h, size);
    AllocInv(h, size);
    var (h1, j) := Alloc(h, size);
    if j.Some? {
      var h' := Realloc(h, addr, n).0;
      assert j.value != k && h1.blocks[k].addr == addr && h' == SetFree(h1, k, true);
      MovedBlock(h1, k, j.value);
      forall a: int, s: nat | Live(h, a, s) && a != addr ensures Live(h', a, s) {
        AllocKeepsLive(h, size, a, s);
      }
    }
  }

  lemma FoundHere(h: Arena, k: nat)
    requires Inv(h) && k < |h.blocks|
    ensures FindAt(h.blocks, h.blocks[k].addr) == k
  {
  }

  lemma MovedBlock(h: Arena, k: nat, j: nat)
    requires Inv(h) && k < |h.blocks| && j < |h.blocks| && j != k && !h.blocks[j].free
    ensures var h' := SetFree(h, k, true);
      && h.blocks[j].addr != h.blocks[k].addr && Live(h', h.blocks[j].addr, h.blocks[j].size)
      && (forall s: nat :: !Live(h', h.blocks[k].addr, s))
      && forall a: int, s: nat :: Live(h, a, s) && a != h.blocks[k].addr ==> Live(h', a, s)
  {
    var h' := SetFree(h, k, true);
    assert h'.blocks[j] == Block(h.blocks[j].addr, h.blocks[j].size, false);
    forall a: int, s: nat | Live(h, a, s) && a != h.blocks[k].addr ensures Live(h', a, s) {
      var i :| 0 <= i < |h.blocks| && h.blocks[i] == Block(a, s, false);
      assert h'.blocks[i] == h.blocks[i];
    }
  }

  /** A block with room enough stays where it is, and an unknown address gets a new block. */
  lemma ReallocElse(h: Arena, addr: int, n: nat)
    ensures (exists k :: 0 <= k < |h.blocks| && h.blocks[k].addr == addr && n <= h.blocks[k].size) && Inv(h) ==>
      Realloc(h, addr, n) == (h, Some(addr))
    ensures (forall k :: 0 <= k < |h.blocks| ==> h.blocks[k].addr != addr) ==>
      Realloc(h, addr, n) == AllocAt(h, Align16(n))
  {
    if k :| 0 <= k < |h.blocks| && h.blocks[k].addr == addr && n <= h.blocks[k].size && Inv(h) {
      FoundHere(h, k);
      AlignFits(n, h.blocks[k].size);
    }
  }

  /** The smallest failing case: after alloc(32) and free, realloc to 16 hands the freed block out. */
  lemma FreedBlockComesBack()
    ensures var h := Run(NewArena(0, 0x10000), [DoAlloc(32), DoFree(0x1000)]);
      Realloc(h, 0x1000, 16) == (h, Some(0x1000)) && forall s: nat :: !Live(h, 0x1000, s)
  {
    var h0 := NewArena(0, 0x10000);
    var h1 := Alloc(h0, 32).0;
    assert h1 == Arena(0, 0x10000, 0x2000, [Block(0x1000, 32, false)]);
    var h2 := Free(h1, 0x1000).0;
    assert h2 == Arena(0, 0x10000, 0x2000, [Block(0x1000, 32, true)]);
    var cs := [DoAlloc(32), DoFree(0x1000)];
    assert cs[1..] == [DoFree(0x1000)] && cs[1..][1..] == [];
    assert Run(h0, cs) == Run(h1, cs[1..]) == Run(h2, []);
    assert h2.blocks[0].free;
  }

  // ------------------------------------------------------------ the object

  class GuestMem {
    var bytes: Mem

    constructor ()
      ensures bytes == map[]
    {
      bytes := map[];
    }

    method Store(a: int, bs: seq<byte>)
      modifies this
      ensures bytes == Write(old(bytes), a, bs)
    {
      bytes := Write(bytes, a, bs);
    }
  }

  lemma LiveFound(h: Arena, a: int, s: nat)
    requires Inv(h) && Live(h, a, s)
    ensures FindAt(h.blocks, a) < |h.blocks| && h.blocks[FindAt(h.blocks, a)] == Block(a, s, false)
  {
    var i :| 0 <= i < |h.blocks| && h.blocks[i] == Block(a, s, false);
    var k := FindAt(h.blocks, a);
    assert k <= i;
    assert k == i;
  }

  /** Copying a block's bytes into a freshly allocated one disturbs no live block. */
  lemma MoveKeepsBytes(h: Arena, n: nat, k: nat, m: Mem)
    requires Inv(h) && k < |h.blocks| && h.blocks[k].size < n && Alloc(h, n).1.Some?
    ensures var (h', r) := Alloc(h, n);
      var b, p := h.blocks[k], h'.blocks[r.value].addr;
      var m' := Write(m, p, Read(m, b.addr, b.size));
      && Read(m', p, b.size) == Read(m, b.addr, b.size)
      && forall a: int, s: nat {:trigger Live(h, a, s)} :: Live(h, a, s) ==> Read(m', a, s) == Read(m, a, s)
  {
    var (h', r) := Alloc(h, n);
    AllocFresh(h, n);
    var b, p := h.blocks[k], h'.blocks[r.value].addr;
    var bs := Read(m, b.addr, b.size);
    ReadBack(m, p, bs);
    forall a: int, s: nat | Live(h, a, s) ensures Read(Write(m, p, bs), a, s) == Read(m, a, s) {
      ReadAround(m, p, bs, a, s);
    }
  }

  class HeapAllocator {
    const mm: GuestMem
    const base: int
    const size: nat
    var cursor: int
    var blocks: seq<Block>

    function State(): Arena
      reads this
    {
      Arena(base, size, cursor, blocks)
    }

    ghost predicate Valid()
      reads this
    {
      Inv(State())
    }

    constructor (mm: GuestMem, base: int, size: nat)
      ensures Valid() && State() == NewArena(base, size) && this.mm == mm
      ensures cursor == base + 0x1000 && blocks == []
    {
      this.mm, this.base, this.size := mm, base, size;
      cursor, blocks := base + PAGE, [];
    }

    /** First fit, then bump.  Only the block handed out is written, and only when zeroed. */
    method AllocBlock(n: nat, zero: bool) returns (r: Option<int>)
      requires Valid()
      modifies this, mm
      ensures Valid() && State() == Alloc(old(State()), n).0
      ensures match Alloc(old(State()), n).1
        case None => r == None && mm.bytes == old(mm.bytes)
        case Some(k) =>
          var b := blocks[k];
          r == Some(b.addr) && mm.bytes == if zero then Write(old(mm.bytes), b.addr, Zeros(b.size)) else old(mm.bytes)
    {
      hide Inv, Write, Align16;
      AllocInv(State(), n);
      AllocIndex(State(), n);
      var size' := Align16(n);
      ghost var fit := FirstFit(blocks, size');
      for k := 0 to |blocks|
        invariant unchanged(this) && unchanged(mm) && k <= fit
      {
        if blocks[k].free && size' <= blocks[k].size {
          assert k == fit;
          blocks := blocks[k := blocks[k].(free := false)];
          if zero { mm.Store(blocks[k].addr, Zeros(blocks[k].size)); }
          return Some(blocks[k].addr);
        }
      }
      assert fit == |blocks|;
      var addr := cursor;
      cursor := PageUp(cursor + HEADER + size');
      if cursor > base + size { return None; }
      blocks := blocks + [Block(addr, size', false)];
      if zero { mm.Store(addr, Zeros(size')); }
      r := Some(addr);
    }

    method IndexOf(addr: int) returns (k: nat)
      ensures k == FindAt(blocks, addr)
    {
      ghost var at := FindAt(blocks, addr);
      k := 0;
      while k < |blocks|
        invariant 0 <= k <= |blocks| && k <= at
      {
        if blocks[k].addr == addr { return; }
        k := k + 1;
      }
    }

    method FreeBlock(addr: int) returns (ok: bool)
      requires Valid()
      modifies this`blocks
      ensures Valid() && (State(), ok) == Free(old(State()), addr)
      ensures ok <==> exists i :: 0 <= i < |blocks| && old(blocks)[i].addr == addr
      ensures |blocks| == |old(blocks)| && forall i :: 0 <= i < |blocks| ==>
        blocks[i] == if old(blocks)[i].addr == addr then old(blocks)[i].(free := true) else old(blocks)[i]
    {
      FreeInv(State(), addr);
      var k := IndexOf(addr);
      if k == |blocks| { return false; }
      blocks := blocks[k := blocks[k].(free := true)];
      ok := true;
    }

    method SizeOf(addr: int) returns (n: nat)
      ensures if exists i :: 0 <= i < |blocks| && blocks[i].addr == addr
        then exists i :: 0 <= i < |blocks| && blocks[i].addr == addr && n == blocks[i].size
        else n == 0
    {
      var k := IndexOf(addr);
      n := if k < |blocks| then blocks[k].size else 0;
    }

    /** Reallocating a live block keeps its bytes wherever it ends up, and leaves every byte
        of every other live block alone. */
    method ReallocBlock(addr: int, n: nat) returns (r: Option<int>)
      requires Valid()
      modifies this, mm
      ensures Valid() && (State(), r) == Realloc(old(State()), addr, n)
      ensures forall s: nat :: Live(old(State()), addr, s) && r.Some? ==>
                Read(mm.bytes, r.value, s) == Read(old(mm.bytes), addr, s)
      ensures forall a: int, s: nat {:trigger Live(old(State()), a, s)} :: Live(old(State()), a, s) ==>
                Read(mm.bytes, a, s) == Read(old(mm.bytes), a, s)
    {
      hide Inv, Live, Read, Write, FindAt, FirstFit, Align16;
      ReallocInv(State(), addr, n);
      forall s: nat | Live(State(), addr, s)
        ensures FindAt(blocks, addr) < |blocks| && blocks[FindAt(blocks, addr)] == Block(addr, s, false)
      {
        LiveFound(State(), addr, s);
      }
      var k := IndexOf(addr);
      var size' := Align16(n);
      if k < |blocks| && size' <= blocks[k].size {
        return Some(addr);
      }
      ghost var h := State();
      AllocIndex(h, size');
      var found := k < |blocks|;
      r := AllocBlock(size', false);
      if r.Some? && found {
        var b := blocks[k];
        var bs := Read(mm.bytes, b.addr, Min(b.size, size'));
        mm.Store(r.value, bs);
        blocks := blocks[k := b.(free := true)];
        MoveKeepsBytes(h, size', k, old(mm.bytes));
      }
    }

    method Validate() returns (ok: bool)
      ensures ok == Validates(State())
      ensures ok <==> InBounds(State()) && InOrder(State())
    {
      ValidatesIff(State());
      hide InBounds, InOrder;
      var floor := base + PAGE;
      for i := 0 to |blocks|
        invariant floor == if i == 0 then base + PAGE else blocks[i - 1].addr
        invariant forall j :: 0 <= j < i ==> base <= blocks[j].addr && blocks[j].End() <= base + size
        invariant Ascending(base + PAGE, blocks, i)
      {
        var b := blocks[i];
        if b.addr < base || base + size < b.End() { return false; }
        if b.addr < floor {
          assert !NotBelow(base + PAGE, blocks, i);
          return false;
        }
        floor := blocks[i].addr;
      }
      ok := true;
    }
  }
}
