/** PEB->Ldr of packages/pe-runner/src/loader.mjs: three doubly linked rings of module
    entries, rebuilt in heap blocks each time a module is registered. */
module LoaderRings {
  import opened Common
  import opened GuestMemory
  import opened Heap

  type Unit = x: int | 0 <= x < 0x1_0000

  datatype Module = Module(base: int, entry: int, imageSize: int, name: seq<Unit>)

  const ENTRY: nat := 0x68
  const LDR_DATA: nat := 0x50
  const NAME_LIMIT: nat := 260

  // ------------------------------------------------------------ memory, block by block

  ghost predicate SameOn(m: Mem, m': Mem, a: int, n: nat) {
    forall x {:trigger At(m', x)} :: a <= x < a + n ==> At(m', x) == At(m, x)
  }

  ghost predicate SameOutside(m: Mem, m': Mem, a: int, n: nat) {
    forall x {:trigger At(m', x)} :: x < a || a + n <= x ==> At(m', x) == At(m, x)
  }

  lemma SameRead(m: Mem, m': Mem, a: int, n: nat, p: int, k: nat)
    requires SameOn(m, m', a, n) && a <= p && p + k <= a + n
    ensures Read(m', p, k) == Read(m, p, k)
  {
  }

  // ------------------------------------------------------------ module names

  function Units(s: seq<Unit>): (bs: seq<byte>)
    ensures |bs| == 2 * |s|
  {
    if s == [] then [] else Le(s[0], 2) + Units(s[1..])
  }

  /** Room the heap gives to a name with its terminator. */
  function NameRoom(s: seq<Unit>): (n: nat)
    ensures 2 * |s| + 2 <= n && n % 16 == 0 && n >= 16
  {
    Align16(2 * |s| + 2)
  }

  /** What a name's block holds: writeUtf16's code units and terminator, then zeros. */
  function NameBytes(s: seq<Unit>): (bs: seq<byte>)
    ensures |bs| == NameRoom(s)
  {
    Units(s + [0]) + Zeros(NameRoom(s) - 2 * |s| - 2)
  }

  ghost predicate NameAt(m: Mem, a: int, s: seq<Unit>) {
    Read(m, a, NameRoom(s)) == NameBytes(s)
  }

  lemma {:induction false} NameUnits(m: Mem, a: int, s: seq<Unit>)
    ensures NameAt(m, a, s) <==> Read(m, a, 2 * |s| + 2) == Units(s + [0]) &&
                                 Read(m, a + 2 * |s| + 2, NameRoom(s) - 2 * |s| - 2) == Zeros(NameRoom(s) - 2 * |s| - 2)
  {
    hide Read, Units, Zeros, NameRoom;
    var xs, zs := Units(s + [0]), Zeros(NameRoom(s) - 2 * |s| - 2);
    assert |xs| == 2 * |s| + 2 && |xs| + |zs| == NameRoom(s);
    ReadConcat(m, a, xs, zs);
  }

  lemma {:induction false} UnitAt(m: Mem, a: int, s: seq<Unit>, i: nat)
    requires Read(m, a, 2 * |s|) == Units(s) && i < |s|
    ensures U16(m, a + 2 * i) == s[i]
    decreases |s|
  {
    hide Read;
    ReadConcat(m, a, Le(s[0], 2), Units(s[1..]));
    if i == 0 {
      Widths();
      UnLe(s[0], 2);
    } else {
      UnitAt(m, a + 2, s[1..], i - 1);
    }
  }

  /** Length of the name in code units: up to its first NUL, at most 260. */
  function NameLen(s: seq<Unit>): (n: nat)
    ensures n <= |s| && n <= NAME_LIMIT
    ensures forall j :: 0 <= j < n ==> s[j] != 0
    ensures n < |s| && n < NAME_LIMIT ==> s[n] == 0
  {
    NameLenFrom(s, 0)
  }

  function NameLenFrom(s: seq<Unit>, i: nat): (n: nat)
    requires i <= |s| && i <= NAME_LIMIT
    ensures i <= n <= |s| && n <= NAME_LIMIT
    ensures forall j :: i <= j < n ==> s[j] != 0
    ensures n < |s| && n < NAME_LIMIT ==> s[n] == 0
    decreases |s| - i
  {
    if i == |s| || i == NAME_LIMIT || s[i] == 0 then i else NameLenFrom(s, i + 1)
  }

  /** rec_len: reads the name back from guest memory. */
  method MeasureName(m: Mem, va: int, ghost s: seq<Unit>) returns (bytes: nat)
    requires NameAt(m, va, s)
    ensures bytes == 2 * NameLen(s)
  {
    ghost var len := NameLen(s);
    ghost var all := s + [0];
    NameUnits(m, va, s);
    var n := 0;
    while n < NAME_LIMIT
      invariant n <= len
    {
      UnitAt(m, va, all, n);
      assert all[n] == if n < |s| then s[n] else 0;
      if U16(m, va + n * 2) == 0 { break; }
      n := n + 1;
    }
    bytes := n * 2;
  }

  // ------------------------------------------------------------ one entry

  function Ustr(m: Mem, a: int, va: int, len: nat): Mem {
    W64(W32(W16(W16(m, a, len), a + 2, len + 2), a + 4, 0), a + 8, va)
  }

  ghost predicate UstrAt(m: Mem, a: int, va: int, len: nat) {
    && U16(m, a) == len % TWO16 && U16(m, a + 2) == (len + 2) % TWO16
    && U32(m, a + 4) == 0 && U64(m, a + 8) == va % TWO64
  }

  lemma UstrWritten(m: Mem, a: int, va: int, len: nat)
    ensures UstrAt(Ustr(m, a, va, len), a, va, len) && SameOutside(m, Ustr(m, a, va, len), a, 16)
  {
    hide Le, Un, Write;
    Widths();
    var m1 := W16(m, a, len);
    var m2 := W16(m1, a + 2, len + 2);
    var m3 := W32(m2, a + 4, 0);
    var m4 := W64(m3, a + 8, va);
    var b1, b2 := Le(len % TWO16, 2), Le((len + 2) % TWO16, 2);
    ReadBack(m, a, b1);
    ReadBack(m1, a + 2, b2);
    UnLe(len % TWO16, 2);
    UnLe((len + 2) % TWO16, 2);
    W32Reads(m2, a + 4, 0);
    W64Reads(m3, a + 8, va);
    SameRead(m3, m4, a + 4, 4, a + 4, 4);
    SameRead(m1, m4, a, 2, a, 2);
    SameRead(m2, m4, a + 2, 2, a + 2, 2);
  }

  function LinkWords(next: int, prev: int, k: nat): (ws: seq<int>)
    ensures |ws| == 2 * k
    ensures forall j :: 0 <= j < k ==> ws[2 * j] == next + 16 * j && ws[2 * j + 1] == prev + 16 * j
  {
    if k == 0 then [] else LinkWords(next, prev, k - 1) + [next + 16 * (k - 1), prev + 16 * (k - 1)]
  }

  /** The first k of the load-order, memory-order and initialisation-order links. */
  function Links(m: Mem, e: int, next: int, prev: int, k: nat): Mem {
    if k == 0 then m
    else
      var o := 16 * (k - 1);
      W64(W64(Links(m, e, next, prev, k - 1), e + o, next + o), e + o + 8, prev + o)
  }

  lemma {:induction false} LinksWritten(m: Mem, e: int, next: int, prev: int, k: nat)
    ensures TableAt(Links(m, e, next, prev, k), e, LinkWords(next, prev, k))
    ensures SameOutside(m, Links(m, e, next, prev, k), e, 16 * k)
  {
    hide Le, Write, Words, TableAt, W64, SameOutside, Read;
    if k == 0 {
      LinksNone(m, e);
    } else {
      var o, ws := 16 * (k - 1), LinkWords(next, prev, k - 1);
      var m1 := Links(m, e, next, prev, k - 1);
      LinksWritten(m, e, next, prev, k - 1);
      LinkPair(m1, e, ws, next + o, prev + o);
      SameOutsideChain(m, m1, Links(m, e, next, prev, k), e, o, 16);
    }
  }

  lemma LinksNone(m: Mem, e: int)
    ensures TableAt(m, e, []) && SameOutside(m, m, e, 0)
  {
  }

  lemma SameOutsideChain(m: Mem, m1: Mem, m2: Mem, a: int, n: nat, k: nat)
    requires SameOutside(m, m1, a, n) && SameOutside(m1, m2, a + n, k)
    ensures SameOutside(m, m2, a, n + k)
  {
  }

  lemma LinkPair(m: Mem, e: int, ws: seq<int>, v: int, w: int)
    requires TableAt(m, e, ws)
    ensures var a := e + 8 * |ws|;
      var m' := W64(W64(m, a, v), a + 8, w);
      TableAt(m', e, ws + [v, w]) && SameOutside(m, m', a, 16)
  {
    hide Le, Write, Words, TableAt;
    TableAppend(m, e, ws, v);
    TableAppend(W64(m, e + 8 * |ws|, v), e, ws + [v], w);
    assert ws + [v] + [w] == ws + [v, w];
  }

  function EntryMem(m: Mem, e: int, next: int, prev: int, rec: Module, va: int, len: nat): Mem {
    var m1 := Links(Write(m, e, Zeros(ENTRY)), e, next, prev, 3);
    var m2 := W32(W64(W64(m1, e + 0x30, rec.base), e + 0x38, rec.entry), e + 0x40, rec.imageSize);
    Ustr(Ustr(m2, e + 0x48, va, len), e + 0x58, va, len)
  }

  /** What a walker finds in one LDR_DATA_TABLE_ENTRY. */
  ghost predicate EntryAt(m: Mem, e: int, next: int, prev: int, rec: Module, va: int) {
    && TableAt(m, e, LinkWords(next, prev, 3) + [rec.base, rec.entry])
    && U32(m, e + 0x40) == rec.imageSize % TWO32
    && UstrAt(m, e + 0x48, va, 2 * NameLen(rec.name))
    && UstrAt(m, e + 0x58, va, 2 * NameLen(rec.name))
  }

  lemma EntryWritten(m: Mem, e: int, next: int, prev: int, rec: Module, va: int)
    ensures var m' := EntryMem(m, e, next, prev, rec, va, 2 * NameLen(rec.name));
      EntryAt(m', e, next, prev, rec, va) && SameOutside(m, m', e, ENTRY)
  {
    hide Le, Un, Write, Words, Links, LinkWords, Ustr, UstrAt, TableAt, Zeros, NameLen, Read;
    var len, ws := 2 * NameLen(rec.name), LinkWords(next, prev, 3);
    var m0 := Write(m, e, Zeros(ENTRY));
    var m1 := Links(m0, e, next, prev, 3);
    LinksWritten(m0, e, next, prev, 3);
    LinkPair(m1, e, ws, rec.base, rec.entry);
    var m2 := W64(W64(m1, e + 0x30, rec.base), e + 0x38, rec.entry);
    var m3 := W32(m2, e + 0x40, rec.imageSize);
    W32Reads(m2, e + 0x40, rec.imageSize);
    var m4 := Ustr(m3, e + 0x48, va, len);
    UstrWritten(m3, e + 0x48, va, len);
    var m5 := Ustr(m4, e + 0x58, va, len);
    UstrWritten(m4, e + 0x58, va, len);
    TableKept(m2, m5, e, ws + [rec.base, rec.entry]);
    SameRead(m3, m5, e + 0x40, 4, e + 0x40, 4);
    UstrKept(m4, m5, e + 0x48, va, len);
  }

  lemma W32Reads(m: Mem, a: int, v: int)
    ensures U32(W32(m, a, v), a) == v % TWO32
  {
    Widths();
    ReadBack(m, a, Le(v % TWO32, 4));
    UnLe(v % TWO32, 4);
  }

  lemma TableKept(m: Mem, m': Mem, a: int, ws: seq<int>)
    requires TableAt(m, a, ws) && SameOn(m, m', a, 8 * |ws|)
    ensures TableAt(m', a, ws)
  {
    SameRead(m, m', a, 8 * |ws|, a, 8 * |ws|);
  }

  lemma UstrKept(m: Mem, m': Mem, a: int, va: int, len: nat)
    requires UstrAt(m, a, va, len) && SameOn(m, m', a, 16)
    ensures UstrAt(m', a, va, len)
  {
    SameRead(m, m', a, 16, a, 2);
    SameRead(m, m', a, 16, a + 2, 2);
    SameRead(m, m', a, 16, a + 4, 4);
    SameRead(m, m', a, 16, a + 8, 8);
  }

  lemma EntryKept(m: Mem, m': Mem, e: int, next: int, prev: int, rec: Module, va: int)
    requires EntryAt(m, e, next, prev, rec, va) && SameOn(m, m', e, ENTRY)
    ensures EntryAt(m', e, next, prev, rec, va)
  {
    hide Le, Un, Read, Words, LinkWords, UstrAt, TableAt, NameLen;
    TableKept(m, m', e, LinkWords(next, prev, 3) + [rec.base, rec.entry]);
    SameRead(m, m', e, ENTRY, e + 0x40, 4);
    UstrKept(m, m', e + 0x48, va, 2 * NameLen(rec.name));
    UstrKept(m, m', e + 0x58, va, 2 * NameLen(rec.name));
  }

  // ------------------------------------------------------------ the whole structure

  /** First and last entry, as the three list heads hold them. */
  function Heads(es: seq<int>): (ws: seq<int>)
    requires es != []
    ensures |ws| == 6
  {
    var f, l := es[0], es[|es| - 1];
    [f, l, f + 0x10, l + 0x10, f + 0x20, l + 0x20]
  }

  ghost predicate EntriesAt(m: Mem, es: seq<int>, ns: seq<int>, list: seq<Module>, k: nat)
    requires |es| == |ns| == |list| && k <= |list|
  {
    var n := |list|;
    forall i :: 0 <= i < k ==> EntryAt(m, es[i], es[(i + 1) % n], es[(i + n - 1) % n], list[i], ns[i])
  }

  ghost predicate NamesAt(m: Mem, ns: seq<int>, list: seq<Module>)
    requires |ns| <= |list|
  {
    forall i :: 0 <= i < |ns| ==> NameAt(m, ns[i], list[i].name)
  }

  ghost predicate RingsAt(m: Mem, data: int, es: seq<int>, ns: seq<int>, list: seq<Module>) {
    && list != [] && |es| == |ns| == |list|
    && EntriesAt(m, es, ns, list, |list|) && NamesAt(m, ns, list)
    && TableAt(m, data + 0x10, Heads(es))
  }

  /** Distinct live heap blocks for the entries and the names. */
  ghost predicate Blocks(h: Arena, es: seq<int>, ns: seq<int>, list: seq<Module>) {
    && |es| <= |list| && |ns| <= |list|
    && (forall i :: 0 <= i < |es| ==> Owned(h, es[i], ENTRY))
    && (forall i :: 0 <= i < |ns| ==> Owned(h, ns[i], NameRoom(list[i].name)))
    && (forall i, j :: 0 <= i < j < |es| ==> es[i] != es[j])
    && (forall i, j :: 0 <= i < j < |ns| ==> ns[i] != ns[j])
    && (forall i, j :: 0 <= i < |es| && 0 <= j < |ns| ==> es[i] != ns[j])
  }

  /** ... none of which is the block of the loader data, which the guest may have freed. */
  ghost predicate Layout(h: Arena, data: int, es: seq<int>, ns: seq<int>, list: seq<Module>) {
    Held(h, data, LDR_DATA) && data !in es && data !in ns && Blocks(h, es, ns, list)
  }

  /** Writing inside one block leaves every other one alone. */
  lemma OtherHeld(h: Arena, a: int, n: nat, b: int, k: nat, m: Mem, m': Mem)
    requires Inv(h) && Held(h, a, n) && Held(h, b, k) && a != b && SameOutside(m, m', a, n)
    ensures SameOn(m, m', b, k)
  {
    hide Inv, Held;
    HeldApart(h, a, n, b, k);
  }

  lemma OtherBlock(h: Arena, a: int, n: nat, b: int, k: nat, m: Mem, m': Mem)
    requires Inv(h) && Owned(h, a, n) && Owned(h, b, k) && a != b && SameOutside(m, m', a, n)
    ensures SameOn(m, m', b, k)
  {
    hide Inv, Owned, Held;
    OwnedHeld(h, a, n);
    OwnedHeld(h, b, k);
    OtherHeld(h, a, n, b, k, m, m');
  }

  ghost predicate SameOffArena(m: Mem, m': Mem, h: Arena) {
    forall x {:trigger At(m', x)} :: x < h.base + PAGE || h.base + h.size <= x ==> At(m', x) == At(m, x)
  }

  /** Blocks in use stay in use, and all but the named ones keep their bytes. */
  ghost predicate Keeps(h: Arena, m: Mem, h': Arena, m': Mem, but: set<int>) {
    forall a: int, k: nat {:trigger Owned(h, a, k)} :: Owned(h, a, k) ==>
      Owned(h', a, k) && (a !in but ==> SameOn(m, m', a, k))
  }

  /** Blocks stay blocks, and all but the named one, in use or not, keep their bytes. */
  ghost predicate KeepsHeld(h: Arena, m: Mem, h': Arena, m': Mem, but: Option<int>) {
    forall a: int, k: nat {:trigger Held(h, a, k)} ::
      Held(h, a, k) ==> Held(h', a, k) && (but != Some(a) ==> SameOn(m, m', a, k))
  }

  /** None of these addresses was in use. */
  ghost predicate NewIn(h: Arena, es: seq<int>) {
    forall i, k: nat :: 0 <= i < |es| ==> !Owned(h, es[i], k)
  }

  lemma KeepsAll(h: Arena, m: Mem, but: set<int>)
    ensures Keeps(h, m, h, m, but) && NewIn(h, [])
  {
  }

  lemma KeepsOn(h: Arena, m: Mem, h1: Arena, m1: Mem, h2: Arena, m2: Mem, but: set<int>)
    requires Keeps(h, m, h1, m1, but) && Keeps(h1, m1, h2, m2, but)
    ensures Keeps(h, m, h2, m2, but)
  {
    hide Owned;
  }

  lemma KeepsMore(h: Arena, m: Mem, h': Arena, m': Mem, but: set<int>, more: set<int>)
    requires Keeps(h, m, h', m', but) && but <= more
    ensures Keeps(h, m, h', m', more)
  {
    hide Owned;
  }

  /** Writing blocks that were not in use before changes nothing that was. */
  lemma KeepsThroughNew(h: Arena, m: Mem, h1: Arena, m1: Mem, m2: Mem, es: seq<int>, but: set<int>)
    requires Keeps(h, m, h1, m1, but) && NewIn(h, es) && Keeps(h1, m1, h1, m2, set e | e in es)
    ensures Keeps(h, m, h1, m2, but)
  {
    hide Owned;
    forall a: int, k: nat | Owned(h, a, k) ensures Owned(h1, a, k) && (a !in but ==> SameOn(m, m2, a, k)) {
      forall i | 0 <= i < |es| ensures es[i] != a { assert !Owned(h, es[i], k); }
    }
  }

  lemma NewLater(h: Arena, m: Mem, h1: Arena, m1: Mem, but: set<int>, es: seq<int>)
    requires Keeps(h, m, h1, m1, but) && NewIn(h1, es)
    ensures NewIn(h, es)
  {
    hide Owned;
  }

  lemma NewAppend(h: Arena, es: seq<int>, e: int)
    requires NewIn(h, es) && NewIn(h, [e])
    ensures NewIn(h, es + [e])
  {
    hide Owned;
    forall i, k: nat | 0 <= i < |es + [e]| ensures !Owned(h, (es + [e])[i], k) {
      if i == |es| { assert !Owned(h, [e][0], k); } else { assert !Owned(h, es[i], k); }
    }
  }

  /** A write inside one block. */
  lemma KeepsBut(h: Arena, a: int, n: nat, m: Mem, m': Mem)
    requires Inv(h) && Held(h, a, n) && SameOutside(m, m', a, n)
    ensures Keeps(h, m, h, m', {a}) && KeepsHeld(h, m, h, m', Some(a)) && SameOffArena(m, m', h)
  {
    hide Inv, Owned, Held;
    HeldApart(h, a, n, a, n);
    forall b: int, k: nat | Held(h, b, k) && b != a ensures SameOn(m, m', b, k) {
      OtherHeld(h, a, n, b, k, m, m');
    }
    forall b: int, k: nat | Owned(h, b, k) && b != a ensures SameOn(m, m', b, k) {
      OwnedHeld(h, b, k);
    }
  }

  /** Length and Initialized, and zeros up to the first list head and behind the last. */
  ghost predicate DataHeader(m: Mem, data: int) {
    && U32(m, data) == 0x50 && At(m, data + 4) == 1
    && (forall x {:trigger At(m, x)} :: data + 5 <= x < data + 0x10 ==> At(m, x) == 0)
    && (forall x {:trigger At(m, x)} :: data + 0x40 <= x < data + 0x50 ==> At(m, x) == 0)
  }

  lemma HeaderWritten(m: Mem, data: int)
    ensures var m' := Write(Write(Write(m, data, Zeros(LDR_DATA)), data, Le(0x50, 4)), data + 4, [1]);
      DataHeader(m', data) && SameOutside(m, m', data, LDR_DATA)
  {
    hide Le, Un;
    var m1 := Write(m, data, Zeros(LDR_DATA));
    var m2 := Write(m1, data, Le(0x50, 4));
    var m' := Write(m2, data + 4, [1]);
    Widths();
    UnLe(0x50, 4);
    ReadBack(m1, data, Le(0x50, 4));
    ReadAround(m2, data + 4, [1], data, 4);
    forall x | data + 5 <= x < data + LDR_DATA ensures At(m', x) == 0 {
      assert At(m1, x) == Zeros(LDR_DATA)[x - data];
    }
  }

  lemma HeaderKept(m: Mem, m': Mem, data: int)
    requires DataHeader(m, data) && SameOn(m, m', data, 0x10) && SameOn(m, m', data + 0x40, 0x10)
    ensures DataHeader(m', data)
  {
    SameRead(m, m', data, 0x10, data, 4);
  }

  // ------------------------------------------------------------ a record the guest has freed

  /** The rings, and the loader data that names them. */
  ghost predicate Complete(m: Mem, data: int, es: seq<int>, ns: seq<int>, list: seq<Module>) {
    RingsAt(m, data, es, ns, list) && DataHeader(m, data)
  }

  function EntrySizes(n: nat): (sizes: seq<nat>)
    ensures |sizes| == n
  {
    seq<nat>(n, i => ENTRY)
  }

  function NameSizes(list: seq<Module>): (sizes: seq<nat>)
    ensures |sizes| == |list|
  {
    seq<nat>(|list|, i requires 0 <= i < |list| => 2 * |list[i].name| + 2)
  }

  /** What one rebuild asks the heap for. */
  function Requests(list: seq<Module>): seq<nat> { EntrySizes(|list|) + NameSizes(list) }

  lemma RequestsAre(list: seq<Module>)
    ensures |Requests(list)| == 2 * |list|
    ensures forall i :: 0 <= i < |list| ==>
      Requests(list)[i] == 0x68 && Requests(list)[|list| + i] == 2 * |list[i].name| + 2
  {
  }

  ghost predicate NulFree(list: seq<Module>) {
    forall i :: 0 <= i < |list| ==> 0 !in list[i].name
  }

  /** An entry built where the loader data are loses its memory-order link to the load-order head. */
  lemma NoEntryOverData(h: Arena, m: Mem, data: int, es: seq<int>, ns: seq<int>, list: seq<Module>)
    requires Inv(h) && Blocks(h, es, ns, list) && RingsAt(m, data, es, ns, list)
    requires 0 <= h.base && h.base + h.size < TWO64
    ensures data !in es
  {
    hide Inv, Owned, Heads, EntryAt, TableAt, NameAt;
    var n := |list|;
    forall i | 0 <= i < n ensures es[i] != data {
      var next := es[(i + 1) % n];
      MemoryLink(m, es[i], next, es[(i + n - 1) % n], list[i], ns[i]);
      FirstHead(m, data, es);
      OwnedApart(h, next, ENTRY, es[0], ENTRY);
      OwnedApart(h, es[0], ENTRY, next, ENTRY);
      ModIs(next + 0x10, TWO64, 0, next + 0x10);
      ModIs(es[0], TWO64, 0, es[0]);
    }
  }

  lemma MemoryLink(m: Mem, e: int, next: int, prev: int, rec: Module, va: int)
    requires EntryAt(m, e, next, prev, rec, va)
    ensures U64(m, e + 0x10) == (next + 0x10) % TWO64
  {
    hide Un, Read, Words, TableAt, UstrAt, NameLen;
    var ws := LinkWords(next, prev, 3) + [rec.base, rec.entry];
    TableWord(m, e, ws, 2);
    assert ws[2 * 1] == next + 0x10;
  }

  lemma FirstHead(m: Mem, data: int, es: seq<int>)
    requires es != [] && TableAt(m, data + 0x10, Heads(es))
    ensures U64(m, data + 0x10) == es[0] % TWO64
  {
    hide Un, Read, Words, TableAt;
    TableWord(m, data + 0x10, Heads(es), 0);
  }

  /** A name without NULs does not read like the start of the loader data. */
  lemma {:induction false} NoNameOverData(m: Mem, data: int, s: seq<Unit>)
    requires NameAt(m, data, s) && 0 !in s
    ensures !DataHeader(m, data)
  {
    hide NameAt, U32;
    HeaderBytes(m, data);
    NameStart(m, data, s);
    assert |s| >= 2 ==> s[1] in s;
  }

  lemma HeaderBytes(m: Mem, data: int)
    ensures U32(m, data) == LDR_DATA ==> At(m, data) == 0x50 && At(m, data + 2) == 0 && At(m, data + 3) == 0
  {
    var bs := Read(m, data, 4);
    LeUn(bs);
    assert Le(0x50, 4) == [0x50, 0, 0, 0] by {
      assert Le(0x50, 4) == [0x50] + Le(0, 3) && Le(0, 3) == [0] + Le(0, 2) && Le(0, 2) == [0] + Le(0, 1);
      assert Le(0, 1) == [0] + Le(0, 0);
    }
    assert bs[0] == At(m, data) && bs[2] == At(m, data + 2) && bs[3] == At(m, data + 3);
  }

  /** The first bytes of a name's block: an empty name is a NUL, one unit is followed by zeros. */
  lemma {:induction false} NameStart(m: Mem, a: int, s: seq<Unit>)
    requires NameAt(m, a, s)
    ensures |s| == 0 ==> At(m, a) == 0
    ensures |s| == 1 ==> At(m, a + 4) == 0
    ensures |s| >= 2 ==> At(m, a + 2) + 256 * At(m, a + 3) == s[1]
  {
    hide Read, Units, Zeros, NameRoom, NameAt, U16;
    NameUnits(m, a, s);
    var all := s + [0];
    UnitAt(m, a, all, 0);
    UnitIs(m, a);
    if |s| == 1 {
      var k := NameRoom(s) - 4;
      assert Read(m, a + 4, k)[0] == At(m, a + 4) && Zeros(k)[0] == 0;
    } else if |s| >= 2 {
      UnitAt(m, a, all, 1);
      UnitIs(m, a + 2);
    }
  }

  lemma UnitIs(m: Mem, a: int)
    ensures U16(m, a) == At(m, a) + 256 * At(m, a + 1)
  {
    var bs := Read(m, a, 2);
    assert bs[1..] == [At(m, a + 1)] && bs[1..][1..] == [];
    assert Un(bs[1..]) == At(m, a + 1) + 256 * Un([]);
  }

  /** With names free of NULs the structure is complete only if no new block took the loader data's. */
  lemma CompleteApart(h: Arena, m: Mem, data: int, es: seq<int>, ns: seq<int>, list: seq<Module>)
    requires Inv(h) && Blocks(h, es, ns, list) && Complete(m, data, es, ns, list) && NulFree(list)
    requires 0 <= h.base && h.base + h.size < TWO64
    ensures data !in es && data !in ns
  {
    hide Inv, Blocks, EntriesAt, NameAt, DataHeader, TableAt;
    NoEntryOverData(h, m, data, es, ns, list);
    forall i | 0 <= i < |ns| ensures ns[i] != data {
      if ns[i] == data { NoNameOverData(m, data, list[i].name); }
    }
  }

  /** The failing case: the guest frees the loader data and loads a module with a short name, which
      is then written over the record. */
  lemma {:induction false} FreedRecordIsReused(base: int, entry: int, size: int)
    ensures var h := Run(NewArena(0, 0x10000), [DoAlloc(LDR_DATA), DoFree(0x1000)]);
      && Held(h, 0x1000, LDR_DATA) && !Owned(h, 0x1000, LDR_DATA)
      && AllocAll(h, Requests([Module(base, entry, size, [0x61])])).1 == Some([0x2000, 0x1000])
  {
    hide AllocAll, AllocAt, Held, Owned, Requests, Run;
    FreedRecord();
    var h := Arena(0, 0x10000, 0x2000, [Block(0x1000, LDR_DATA, true)]);
    var list := [Module(base, entry, size, [0x61])];
    var h2 := Arena(0, 0x10000, 0x3000, [Block(0x1000, LDR_DATA, true), Block(0x2000, 0x70, false)]);
    EntryAfterRecord(h, h2);
    NameOverRecord(h2);
    NoRequests(h);
    OneMoreTaken(h, [], ENTRY, h, []);
    assert [] + [0x2000] == [0x2000] && [0x2000] + [0x1000] == [0x2000, 0x1000];
    OneMoreTaken(h, [] + [ENTRY], 4, h2, [0x2000]);
    ShortRequests(list);
  }

  lemma {:induction false} FreedRecord()
    ensures var h := Run(NewArena(0, 0x10000), [DoAlloc(LDR_DATA), DoFree(0x1000)]);
      && h == Arena(0, 0x10000, 0x2000, [Block(0x1000, LDR_DATA, true)])
      && Held(h, 0x1000, LDR_DATA) && !Owned(h, 0x1000, LDR_DATA)
  {
    var h0 := NewArena(0, 0x10000);
    var cs := [DoAlloc(LDR_DATA), DoFree(0x1000)];
    var h1 := Arena(0, 0x10000, 0x2000, [Block(0x1000, LDR_DATA, false)]);
    var h := Arena(0, 0x10000, 0x2000, [Block(0x1000, LDR_DATA, true)]);
    assert Alloc(h0, LDR_DATA).0 == h1;
    assert Free(h1, 0x1000).0 == h;
    assert cs[1..] == [DoFree(0x1000)] && cs[1..][1..] == [];
    assert Run(h0, cs) == Run(h1, cs[1..]) == Run(h, []) == h;
    assert h.blocks[0].addr == 0x1000;
  }

  lemma EntryAfterRecord(h: Arena, h2: Arena)
    requires h == Arena(0, 0x10000, 0x2000, [Block(0x1000, LDR_DATA, true)])
    requires h2 == Arena(0, 0x10000, 0x3000, [Block(0x1000, LDR_DATA, true), Block(0x2000, 0x70, false)])
    ensures AllocAt(h, ENTRY) == (h2, Some(0x2000))
  {
    assert Align16(ENTRY) == 0x70 && FirstFit(h.blocks, 0x70) == 1 && PageUp(0x2080) == 0x3000;
    assert h.blocks + [Block(0x2000, 0x70, false)] == h2.blocks;
  }

  lemma NameOverRecord(h: Arena)
    requires h == Arena(0, 0x10000, 0x3000, [Block(0x1000, LDR_DATA, true), Block(0x2000, 0x70, false)])
    ensures AllocAt(h, 4).1 == Some(0x1000)
  {
    assert Align16(4) == 16 && FirstFit(h.blocks, 16) == 0;
  }

  lemma ShortRequests(list: seq<Module>)
    requires |list| == 1 && |list[0].name| == 1
    ensures Requests(list) == [] + [ENTRY] + [4]
  {
  }

  /** A block handed out and zeroed. */
  lemma BlockTaken(h: Arena, m: Mem, n: nat)
    requires Inv(h) && Alloc(h, n).1.Some?
    ensures var (h', r) := Alloc(h, n);
      r.value < |h'.blocks| &&
      var b := h'.blocks[r.value];
      var m' := Write(m, b.addr, Zeros(b.size));
      && Owned(h', b.addr, Align16(n)) && NewIn(h, [b.addr]) && Read(m', b.addr, Align16(n)) == Zeros(Align16(n))
      && Keeps(h, m, h', m', {}) && KeepsHeld(h, m, h', m', Some(b.addr)) && SameOffArena(m, m', h')
  {
    hide Inv, Owned, Held, Align16, Alloc, Zeros;
    var (h', r) := Alloc(h, n);
    AllocIndex(h, n);
    AllocInv(h, n);
    var b := h'.blocks[r.value];
    var m' := Write(m, b.addr, Zeros(b.size));
    BlockRoom(h', r.value, n);
    AllocOwned(h, n);
    KeepsBut(h', b.addr, b.size, m, m');
    forall a: int, k: nat | Held(h, a, k) ensures Held(h', a, k) && (a != b.addr ==> SameOn(m, m', a, k)) {
      AllocKeepsHeld(h, n, a, k);
    }
    forall a: int, k: nat | Owned(h, a, k) ensures Owned(h', a, k) && SameOn(m, m', a, k) {
    }
    assert forall i :: 0 <= i < Align16(n) ==> At(m', b.addr + i) == Zeros(b.size)[i];
    assert Read(m', b.addr, Align16(n)) == Zeros(Align16(n));
  }

  lemma BlockRoom(h: Arena, k: nat, n: nat)
    requires Inv(h) && k < |h.blocks| && !h.blocks[k].free && n <= h.blocks[k].size
    ensures var b := h.blocks[k];
      Align16(n) <= b.size && Owned(h, b.addr, Align16(n)) && Held(h, b.addr, b.size)
  {
    var b := h.blocks[k];
    AlignFits(n, b.size);
    assert Live(h, b.addr, b.size);
  }

  lemma NothingTaken(h: Arena, m: Mem, n: nat)
    requires Alloc(h, n).1.None?
    ensures var h' := Alloc(h, n).0; Keeps(h, m, h', m, {}) && KeepsHeld(h, m, h', m, None) && SameOffArena(m, m, h')
  {
    hide Held;
    var h' := Alloc(h, n).0;
    forall a: int, k: nat | Held(h, a, k) ensures Held(h', a, k) { AllocKeepsHeld(h, n, a, k); }
    forall a: int, k: nat | Owned(h, a, k) ensures Owned(h', a, k) {
      var s: nat :| k <= s && Live(h, a, s);
      AllocKeepsLive(h, n, a, s);
    }
  }

  class Loader {
    const heap: HeapAllocator
    const pebBase: int
    var ldrVa: int

    ghost predicate Valid()
      reads this, heap
    {
      && heap.Valid()
      && 0 <= heap.base && heap.base + heap.size < TWO64
      && (pebBase + 0x20 <= heap.base + PAGE || heap.base + heap.size <= pebBase + 0x18)
      && (ldrVa != 0 ==> Held(heap.State(), ldrVa, LDR_DATA))
    }

    constructor (heap: HeapAllocator, pebBase: int)
      requires heap.Valid() && 0 <= heap.base && heap.base + heap.size < TWO64
      requires pebBase + 0x20 <= heap.base + PAGE || heap.base + heap.size <= pebBase + 0x18
      ensures Valid() && this.heap == heap && this.pebBase == pebBase && ldrVa == 0
    {
      this.heap, this.pebBase, ldrVa := heap, pebBase, 0;
    }

    /** alloc(n): a zeroed block apart from every block in use. */
    method Take(n: nat) returns (r: Option<int>)
      requires heap.Valid()
      modifies heap, heap.mm
      ensures heap.Valid() && SameOffArena(old(heap.mm.bytes), heap.mm.bytes, heap.State())
      ensures (heap.State(), r) == AllocAt(old(heap.State()), n)
      ensures r.Some? ==> Owned(heap.State(), r.value, Align16(n)) && NewIn(old(heap.State()), [r.value])
      ensures r.Some? ==> Read(heap.mm.bytes, r.value, Align16(n)) == Zeros(Align16(n))
      ensures Keeps(old(heap.State()), old(heap.mm.bytes), heap.State(), heap.mm.bytes, {})
      ensures KeepsHeld(old(heap.State()), old(heap.mm.bytes), heap.State(), heap.mm.bytes, r)
    {
      hide Inv, Owned, Held, Keeps, KeepsHeld, NewIn, SameOffArena, Read, Zeros, Align16, Alloc;
      ghost var h, m := heap.State(), heap.mm.bytes;
      r := heap.AllocBlock(n, true);
      AllocIndex(h, n);
      if r.Some? {
        BlockTaken(h, m, n);
      } else {
        NothingTaken(h, m, n);
      }
    }

    /** data: where the loader data are; a freed record may be handed out again. */
    method TakeEntries(list: seq<Module>, ghost data: int) returns (r: Option<seq<int>>)
      requires heap.Valid() && Held(heap.State(), data, LDR_DATA)
      modifies heap, heap.mm
      ensures heap.Valid() && Held(heap.State(), data, LDR_DATA)
      ensures r == AllocAll(old(heap.State()), EntrySizes(|list|)).1
      ensures r.Some? ==> heap.State() == AllocAll(old(heap.State()), EntrySizes(|list|)).0
      ensures SameOffArena(old(heap.mm.bytes), heap.mm.bytes, heap.State())
      ensures r.Some? && data !in r.value ==> SameOn(old(heap.mm.bytes), heap.mm.bytes, data, LDR_DATA)
      ensures r.Some? ==> |r.value| == |list| && Blocks(heap.State(), r.value, [], list)
      ensures r.Some? ==> NewIn(old(heap.State()), r.value)
      ensures Keeps(old(heap.State()), old(heap.mm.bytes), heap.State(), heap.mm.bytes, {})
    {
      hide Inv, Owned, Held, Keeps, NewIn, Blocks, AllocAt, AllocAll, EntrySizes;
      var es: seq<int> := [];
      ghost var h0, m0 := heap.State(), heap.mm.bytes;
      KeepsAll(h0, m0, {});
      NoBlocks(h0, list);
      NoRequests(h0);
      for i := 0 to |list|
        invariant |es| == i && heap.Valid() && Blocks(heap.State(), es, [], list)
        invariant Held(heap.State(), data, LDR_DATA) && (data !in es ==> SameOn(m0, heap.mm.bytes, data, LDR_DATA))
        invariant SameOffArena(m0, heap.mm.bytes, h0)
        invariant Keeps(h0, m0, heap.State(), heap.mm.bytes, {}) && NewIn(h0, es)
        invariant heap.base == h0.base && heap.size == h0.size
        invariant AllocAll(h0, EntrySizes(i)) == (heap.State(), Some(es))
      {
        ghost var h, m := heap.State(), heap.mm.bytes;
        var e := Take(ENTRY);
        KeepsOn(h0, m0, h, m, heap.State(), heap.mm.bytes, {});
        OneMoreEntrySize(i);
        OneMoreTaken(h0, EntrySizes(i), ENTRY, h, es);
        if e.None? {
          EntrySizesPrefix(i + 1, |list|);
          FailureStays(h0, EntrySizes(i + 1), EntrySizes(|list|));
          return None;
        }
        NewLater(h0, m0, h, m, {}, [e.value]);
        NewAppend(h0, es, e.value);
        OwnedLess(heap.State(), e.value, Align16(ENTRY), ENTRY);
        EntryTaken(h, m, heap.State(), heap.mm.bytes, es, [], list, e.value);
        es := es + [e.value];
      }
      r := Some(es);
    }

    method TakeName(s: seq<Unit>) returns (r: Option<int>)
      requires heap.Valid()
      modifies heap, heap.mm
      ensures heap.Valid() && SameOffArena(old(heap.mm.bytes), heap.mm.bytes, heap.State())
      ensures (heap.State(), r) == AllocAt(old(heap.State()), 2 * |s| + 2)
      ensures r.Some? ==> Owned(heap.State(), r.value, NameRoom(s)) && NameAt(heap.mm.bytes, r.value, s)
      ensures r.Some? ==> NewIn(old(heap.State()), [r.value])
      ensures Keeps(old(heap.State()), old(heap.mm.bytes), heap.State(), heap.mm.bytes, {})
      ensures KeepsHeld(old(heap.State()), old(heap.mm.bytes), heap.State(), heap.mm.bytes, r)
    {
      hide Inv, Owned, Held, Read, Write, Units, Zeros, Keeps, NewIn, AllocAt, Align16, NameAt;
      ghost var h0, m0 := heap.State(), heap.mm.bytes;
      r := Take(2 * |s| + 2);
      if r.Some? {
        ghost var m := heap.mm.bytes;
        heap.mm.Store(r.value, Units(s + [0]));
        NameStored(m, r.value, s);
        OwnedHeld(heap.State(), r.value, NameRoom(s));
        KeepsBut(heap.State(), r.value, NameRoom(s), m, heap.mm.bytes);
        assert (set e | e in [r.value]) == {r.value};
        KeepsThroughNew(h0, m0, heap.State(), m, heap.mm.bytes, [r.value], {});
        HeldThroughNew(h0, m0, heap.State(), m, heap.mm.bytes, r);
      }
    }

    method TakeNames(list: seq<Module>, ghost data: int, ghost es: seq<int>) returns (r: Option<seq<int>>)
      requires heap.Valid() && |es| == |list| && Blocks(heap.State(), es, [], list) &&
        Held(heap.State(), data, LDR_DATA)
      modifies heap, heap.mm
      ensures heap.Valid() && Held(heap.State(), data, LDR_DATA)
      ensures r == AllocAll(old(heap.State()), NameSizes(list)).1
      ensures SameOffArena(old(heap.mm.bytes), heap.mm.bytes, heap.State())
      ensures r.Some? && data !in r.value ==> SameOn(old(heap.mm.bytes), heap.mm.bytes, data, LDR_DATA)
      ensures r.Some? ==> |r.value| == |list| && Blocks(heap.State(), es, r.value, list)
      ensures r.Some? ==> NamesAt(heap.mm.bytes, r.value, list)
      ensures r.Some? ==> NewIn(old(heap.State()), r.value)
      ensures Keeps(old(heap.State()), old(heap.mm.bytes), heap.State(), heap.mm.bytes, {})
    {
      hide Inv, Owned, Held, NameAt, Keeps, NewIn, Blocks, NamesAt, AllocAt, AllocAll, NameSizes;
      var ns: seq<int> := [];
      ghost var h0, m0 := heap.State(), heap.mm.bytes;
      KeepsAll(h0, m0, {});
      NoRequests(h0);
      assert NamesAt(heap.mm.bytes, ns, list) by { NoNames(heap.mm.bytes, list); }
      for i := 0 to |list|
        invariant |ns| == i && heap.Valid() && Blocks(heap.State(), es, ns, list)
        invariant Held(heap.State(), data, LDR_DATA) && (data !in ns ==> SameOn(m0, heap.mm.bytes, data, LDR_DATA))
        invariant NamesAt(heap.mm.bytes, ns, list)
        invariant SameOffArena(m0, heap.mm.bytes, h0)
        invariant Keeps(h0, m0, heap.State(), heap.mm.bytes, {}) && NewIn(h0, ns)
        invariant heap.base == h0.base && heap.size == h0.size
        invariant AllocAll(h0, NameSizes(list)[..i]) == (heap.State(), Some(ns))
      {
        ghost var h, m := heap.State(), heap.mm.bytes;
        var n := TakeName(list[i].name);
        KeepsOn(h0, m0, h, m, heap.State(), heap.mm.bytes, {});
        OneMoreNameSize(list, i);
        OneMoreTaken(h0, NameSizes(list)[..i], 2 * |list[i].name| + 2, h, ns);
        if n.None? {
          FailureStays(h0, NameSizes(list)[..i + 1], NameSizes(list));
          return None;
        }
        NewLater(h0, m0, h, m, {}, [n.value]);
        NewAppend(h0, ns, n.value);
        NameTaken(h, m, heap.State(), heap.mm.bytes, es, ns, list, n.value);
        ns := ns + [n.value];
      }
      assert NameSizes(list)[..|list|] == NameSizes(list);
      r := Some(ns);
    }

    method WriteUstr(at: int, va: int, ghost s: seq<Unit>)
      requires NameAt(heap.mm.bytes, va, s)
      modifies heap.mm
      ensures heap.mm.bytes == Ustr(old(heap.mm.bytes), at, va, 2 * NameLen(s))
    {
      var len := MeasureName(heap.mm.bytes, va, s);
      heap.mm.Store(at, Le(len % TWO16, 2));
      heap.mm.Store(at + 2, Le((len + 2) % TWO16, 2));
      heap.mm.Store(at + 4, Le(0, 4));
      heap.mm.Store(at + 8, Le(va % TWO64, 8));
    }

    method WriteEntry(e: int, next: int, prev: int, rec: Module, va: int)
      requires heap.Valid() && NameAt(heap.mm.bytes, va, rec.name)
      requires Owned(heap.State(), e, ENTRY) && Owned(heap.State(), va, NameRoom(rec.name)) && e != va
      modifies heap.mm
      ensures EntryAt(heap.mm.bytes, e, next, prev, rec, va)
      ensures SameOutside(old(heap.mm.bytes), heap.mm.bytes, e, ENTRY)
    {
      hide Le, Un, Write, Words, LinkWords, Ustr, UstrAt, TableAt, Zeros, NameLen, Read, Inv, Owned;
      ghost var m0 := heap.mm.bytes;
      heap.mm.Store(e, Zeros(ENTRY));
      ghost var base := heap.mm.bytes;
      for k := 0 to 3
        invariant heap.mm.bytes == Links(base, e, next, prev, k)
      {
        var off := 16 * k;
        heap.mm.Store(e + off, Le((next + off) % TWO64, 8));
        heap.mm.Store(e + off + 8, Le((prev + off) % TWO64, 8));
      }
      LinksWritten(base, e, next, prev, 3);
      heap.mm.Store(e + 0x30, Le(rec.base % TWO64, 8));
      heap.mm.Store(e + 0x38, Le(rec.entry % TWO64, 8));
      heap.mm.Store(e + 0x40, Le(rec.imageSize % TWO32, 4));
      ghost var m1 := heap.mm.bytes;
      NameKept(heap.State(), e, va, rec.name, m0, m1);
      WriteUstr(e + 0x48, va, rec.name);
      UstrWritten(m1, e + 0x48, va, 2 * NameLen(rec.name));
      NameKept(heap.State(), e, va, rec.name, m0, heap.mm.bytes);
      WriteUstr(e + 0x58, va, rec.name);
      EntryWritten(m0, e, next, prev, rec, va);
    }

    method WriteEntries(list: seq<Module>, es: seq<int>, ns: seq<int>, ghost data: int)
      requires heap.Valid() && |es| == |ns| == |list| && list != []
      requires Blocks(heap.State(), es, ns, list) && NamesAt(heap.mm.bytes, ns, list)
      requires Held(heap.State(), data, LDR_DATA)
      modifies heap.mm
      ensures EntriesAt(heap.mm.bytes, es, ns, list, |list|) && NamesAt(heap.mm.bytes, ns, list)
      ensures SameOffArena(old(heap.mm.bytes), heap.mm.bytes, heap.State())
      ensures data !in es ==> SameOn(old(heap.mm.bytes), heap.mm.bytes, data, LDR_DATA)
      ensures Keeps(heap.State(), old(heap.mm.bytes), heap.State(), heap.mm.bytes, set e | e in es)
    {
      hide Inv, Owned, Held, NameAt, EntryAt, Keeps;
      var n := |list|;
      ghost var h, m0, all := heap.State(), heap.mm.bytes, set e | e in es;
      KeepsAll(h, m0, all);
      for i := 0 to n
        invariant EntriesAt(heap.mm.bytes, es, ns, list, i) && NamesAt(heap.mm.bytes, ns, list)
        invariant SameOffArena(m0, heap.mm.bytes, h)
        invariant data !in es ==> SameOn(m0, heap.mm.bytes, data, LDR_DATA)
        invariant Keeps(h, m0, h, heap.mm.bytes, all)
      {
        ghost var m := heap.mm.bytes;
        WriteEntry(es[i], es[(i + 1) % n], es[(i + n - 1) % n], list[i], ns[i]);
        OneEntryMore(h, es, ns, list, i, m, heap.mm.bytes);
        OwnedHeld(h, es[i], ENTRY);
        KeepsBut(h, es[i], ENTRY, m, heap.mm.bytes);
        KeepsMore(h, m, h, heap.mm.bytes, {es[i]}, all);
        KeepsOn(h, m0, h, m, h, heap.mm.bytes, all);
      }
    }

    /** The PEB_LDR_DATA block: allocated once, wiped on every rebuild, also when the guest has freed it. */
    method PrepareData() returns (ok: bool)
      requires Valid()
      modifies this`ldrVa, heap, heap.mm
      ensures Valid() && (old(ldrVa) != 0 ==> ldrVa == old(ldrVa) && ok && heap.State() == old(heap.State()))
      ensures ok ==> Held(heap.State(), ldrVa, LDR_DATA) && DataHeader(heap.mm.bytes, ldrVa)
      ensures ok && old(ldrVa) == 0 ==> Owned(heap.State(), ldrVa, LDR_DATA)
      ensures Keeps(old(heap.State()), old(heap.mm.bytes), heap.State(), heap.mm.bytes, {ldrVa})
      ensures SameOffArena(old(heap.mm.bytes), heap.mm.bytes, heap.State())
    {
      hide Inv, Owned, Held, Keeps, NewIn, DataHeader, U32, Read, Write, Le, AllocAt;
      ghost var h0, m0 := heap.State(), heap.mm.bytes;
      if ldrVa == 0 {
        var d := Take(LDR_DATA);
        KeepsMore(h0, m0, heap.State(), heap.mm.bytes, {}, {if d.Some? then d.value else 0});
        if d.None? { return false; }
        ldrVa := d.value;
        OwnedHeld(heap.State(), ldrVa, LDR_DATA);
      } else {
        KeepsAll(h0, m0, {ldrVa});
      }
      ghost var h, m := heap.State(), heap.mm.bytes;
      heap.mm.Store(ldrVa, Zeros(LDR_DATA));
      heap.mm.Store(ldrVa, Le(0x50, 4));
      heap.mm.Store(ldrVa + 4, [1]);
      HeaderWritten(m, ldrVa);
      KeepsBut(h, ldrVa, LDR_DATA, m, heap.mm.bytes);
      KeepsOn(h0, m0, h, m, h, heap.mm.bytes, {ldrVa});
      ok := true;
    }

    /** Entries, names and heads, in blocks that were not in use.  The structure is complete when none
        of them took the block of the loader data. */
    method BuildRings(list: seq<Module>) returns (ok: bool, es: seq<int>, ns: seq<int>)
      requires Valid() && list != [] && Held(heap.State(), ldrVa, LDR_DATA) && DataHeader(heap.mm.bytes, ldrVa)
      modifies heap, heap.mm
      ensures Valid() && Held(heap.State(), ldrVa, LDR_DATA)
      ensures AllocAll(old(heap.State()), Requests(list)).1 == if ok then Some(es + ns) else None
      ensures ok ==> |es| == |ns| == |list| && Blocks(heap.State(), es, ns, list)
      ensures ok && ldrVa !in es && ldrVa !in ns ==> Complete(heap.mm.bytes, ldrVa, es, ns, list)
      ensures ok ==> NewIn(old(heap.State()), es) && NewIn(old(heap.State()), ns)
      ensures Keeps(old(heap.State()), old(heap.mm.bytes), heap.State(), heap.mm.bytes, {ldrVa})
      ensures SameOffArena(old(heap.mm.bytes), heap.mm.bytes, heap.State())
    {
      hide Inv, Owned, Held, Blocks, RingsAt, EntriesAt, NamesAt, Keeps, NewIn, DataHeader;
      hide AllocAll, EntrySizes, NameSizes;
      ghost var h0, m0 := heap.State(), heap.mm.bytes;
      AllocAllConcat(h0, EntrySizes(|list|), NameSizes(list));
      es, ns := [], [];
      var entries := TakeEntries(list, ldrVa);
      ghost var h1, m1 := heap.State(), heap.mm.bytes;
      KeepsMore(h0, m0, h1, m1, {}, {ldrVa});
      if entries.None? { return false, [], []; }
      es := entries.value;
      var names := TakeNames(list, ldrVa, es);
      ghost var h2, m2 := heap.State(), heap.mm.bytes;
      KeepsMore(h1, m1, h2, m2, {}, {ldrVa});
      KeepsOn(h0, m0, h1, m1, h2, m2, {ldrVa});
      if names.None? { return false, es, []; }
      ns := names.value;
      NewLater(h0, m0, h1, m1, {ldrVa}, ns);
      WriteEntries(list, es, ns, ldrVa);
      ghost var m3 := heap.mm.bytes;
      KeepsThroughNew(h0, m0, h2, m2, m3, es, {ldrVa});
      WriteHeads(list, es, ns);
      KeepsBut(h2, ldrVa, LDR_DATA, m3, heap.mm.bytes);
      KeepsOn(h0, m0, h2, m3, h2, heap.mm.bytes, {ldrVa});
      if ldrVa !in es && ldrVa !in ns {
        HeaderKept(m0, heap.mm.bytes, ldrVa);
      }
      ok := true;
    }

    /** Outside the arena only the PEB's loader pointer may have changed. */
    ghost predicate OnlyPeb(m: Mem, m': Mem)
      reads this, heap
    {
      forall x {:trigger At(m', x)} ::
        (x < heap.base + PAGE || heap.base + heap.size <= x) && !(pebBase + 0x18 <= x < pebBase + 0x20) ==>
        At(m', x) == At(m, x)
    }

    /** Rebuilds the three rings; false when the heap is exhausted on the way.  Every block that was in
        use keeps its bytes, the loader data apart, and outside the arena only PEB->Ldr changes.  The
        result is complete whenever the loader data's block was in use; when the guest had freed it,
        exactly when none of the rebuild's requests is given that block. */
    method RebuildLdr(list: seq<Module>) returns (ok: bool, es: seq<int>, ns: seq<int>)
      requires Valid()
      modifies this`ldrVa, heap, heap.mm
      ensures Valid() && (old(ldrVa) != 0 ==> ldrVa == old(ldrVa))
      ensures list == [] ==> ok && unchanged(this) && unchanged(heap) && unchanged(heap.mm)
      ensures ok && list != [] ==> |es| == |ns| == |list| && Blocks(heap.State(), es, ns, list)
      ensures ok && list != [] ==> NewIn(old(heap.State()), es) && NewIn(old(heap.State()), ns)
      ensures list != [] && old(ldrVa) != 0 ==>
        AllocAll(old(heap.State()), Requests(list)).1 == if ok then Some(es + ns) else None
      ensures ok && list != [] && (old(ldrVa) == 0 || Owned(old(heap.State()), old(ldrVa), LDR_DATA)) ==>
        ldrVa !in es && ldrVa !in ns
      ensures ok && list != [] && ldrVa !in es && ldrVa !in ns ==>
        Complete(heap.mm.bytes, ldrVa, es, ns, list) && Layout(heap.State(), ldrVa, es, ns, list)
      ensures ok && list != [] && NulFree(list) ==>
        (Complete(heap.mm.bytes, ldrVa, es, ns, list) <==> ldrVa !in es && ldrVa !in ns)
      ensures ok && list != [] && pebBase >= 0 ==> U64(heap.mm.bytes, pebBase + 0x18) == ldrVa
      ensures Keeps(old(heap.State()), old(heap.mm.bytes), heap.State(), heap.mm.bytes, {ldrVa})
      ensures OnlyPeb(old(heap.mm.bytes), heap.mm.bytes)
    {
      hide Inv, Owned, Held, Blocks, RingsAt, U64, Le, Keeps, NewIn, DataHeader, AllocAll, Requests, NulFree, Complete;
      ghost var h0, m0 := heap.State(), heap.mm.bytes;
      es, ns := [], [];
      if list == [] {
        KeepsAll(h0, m0, {ldrVa});
        return true, [], [];
      }
      ok := PrepareData();
      if !ok { return; }
      ghost var h1, m1 := heap.State(), heap.mm.bytes;
      ok, es, ns := BuildRings(list);
      ghost var h2, m2 := heap.State(), heap.mm.bytes;
      KeepsOn(h0, m0, h1, m1, h2, m2, {ldrVa});
      if !ok { return; }
      NewLater(h0, m0, h1, m1, {ldrVa}, es);
      NewLater(h0, m0, h1, m1, {ldrVa}, ns);
      NotTaken(h1, ldrVa, es, ns);
      HeldApart(h2, ldrVa, LDR_DATA, ldrVa, LDR_DATA);
      if pebBase >= 0 {
        heap.mm.Store(pebBase + 0x18, Le(ldrVa % TWO64, 8));
        W64Reads(m2, pebBase + 0x18, ldrVa);
        if ldrVa !in es && ldrVa !in ns { CompleteKept(h2, ldrVa, es, ns, list, m2, heap.mm.bytes); }
        KeepsInArena(h2, m2, heap.mm.bytes, {ldrVa});
        KeepsOn(h0, m0, h2, m2, h2, heap.mm.bytes, {ldrVa});
      }
      if Complete(heap.mm.bytes, ldrVa, es, ns, list) && NulFree(list) {
        CompleteApart(h2, heap.mm.bytes, ldrVa, es, ns, list);
      }
    }

    method WriteHeads(list: seq<Module>, es: seq<int>, ns: seq<int>)
      requires heap.Valid() && list != [] && |es| == |ns| == |list|
      requires Blocks(heap.State(), es, ns, list) && Held(heap.State(), ldrVa, LDR_DATA)
      requires EntriesAt(heap.mm.bytes, es, ns, list, |list|) && NamesAt(heap.mm.bytes, ns, list)
      modifies heap.mm
      ensures TableAt(heap.mm.bytes, ldrVa + 0x10, Heads(es))
      ensures ldrVa !in es && ldrVa !in ns ==> RingsAt(heap.mm.bytes, ldrVa, es, ns, list)
      ensures SameOutside(old(heap.mm.bytes), heap.mm.bytes, ldrVa + 0x10, 0x30)
    {
      hide Inv, Owned, Held, Blocks, NameAt, EntryAt, Words, Le, Un, TableAt;
      ghost var m := heap.mm.bytes;
      var head, last := ldrVa + 0x10, |es| - 1;
      heap.mm.Store(head, Le(es[0] % TWO64, 8));
      heap.mm.Store(head + 8, Le(es[last] % TWO64, 8));
      heap.mm.Store(head + 0x10, Le((es[0] + 0x10) % TWO64, 8));
      heap.mm.Store(head + 0x18, Le((es[last] + 0x10) % TWO64, 8));
      heap.mm.Store(head + 0x20, Le((es[0] + 0x20) % TWO64, 8));
      heap.mm.Store(head + 0x28, Le((es[last] + 0x20) % TWO64, 8));
      HeadsWritten(m, head, es[0], es[last]);
      if ldrVa !in es && ldrVa !in ns {
        EntriesKept(heap.State(), ldrVa, es, ns, list, m, heap.mm.bytes);
      }
    }
  }

  lemma CompleteKept(h: Arena, data: int, es: seq<int>, ns: seq<int>, list: seq<Module>, m: Mem, m': Mem)
    requires Inv(h) && Layout(h, data, es, ns, list) && Complete(m, data, es, ns, list)
    requires forall x {:trigger At(m', x)} :: h.base + PAGE <= x < h.base + h.size ==> At(m', x) == At(m, x)
    ensures Complete(m', data, es, ns, list)
  {
    hide Inv, Owned, Held, Blocks, RingsAt, DataHeader;
    RingsKept(h, data, es, ns, list, m, m');
    HeldApart(h, data, LDR_DATA, data, LDR_DATA);
    HeaderKept(m, m', data);
  }

  /** A block in use is not handed out. */
  lemma NotTaken(h: Arena, data: int, es: seq<int>, ns: seq<int>)
    requires NewIn(h, es) && NewIn(h, ns)
    ensures Owned(h, data, LDR_DATA) ==> data !in es && data !in ns
  {
    hide Owned;
  }

  lemma NoBlocks(h: Arena, list: seq<Module>)
    ensures Blocks(h, [], [], list)
  {
  }

  lemma NoRequests(h: Arena)
    ensures AllocAll(h, []) == (h, Some([])) && EntrySizes(0) == []
  {
  }

  lemma OneMoreEntrySize(i: nat)
    ensures EntrySizes(i + 1) == EntrySizes(i) + [ENTRY]
  {
  }

  lemma EntrySizesPrefix(i: nat, n: nat)
    requires i <= n
    ensures EntrySizes(i) <= EntrySizes(n)
  {
  }

  lemma OneMoreNameSize(list: seq<Module>, i: nat)
    requires i < |list|
    ensures NameSizes(list)[..i + 1] == NameSizes(list)[..i] + [2 * |list[i].name| + 2]
  {
  }

  lemma OneMoreTaken(h: Arena, sizes: seq<nat>, n: nat, h1: Arena, r: seq<int>)
    requires AllocAll(h, sizes) == (h1, Some(r))
    ensures var (h2, a) := AllocAt(h1, n);
      AllocAll(h, sizes + [n]) == (h2, if a.Some? then Some(r + [a.value]) else None)
  {
    hide AllocAt;
    assert (sizes + [n])[..|sizes|] == sizes;
  }

  /** Once a request has failed, the sequence has. */
  lemma FailureStays(h: Arena, xs: seq<nat>, all: seq<nat>)
    requires xs <= all && AllocAll(h, xs).1.None?
    ensures AllocAll(h, all).1.None?
  {
    AllocAllConcat(h, xs, all[|xs|..]);
    assert xs + all[|xs|..] == all;
  }

  /** Storing the units of a name in a zeroed block. */
  lemma {:induction false} NameStored(m: Mem, a: int, s: seq<Unit>)
    requires Read(m, a, NameRoom(s)) == Zeros(NameRoom(s))
    ensures var m' := Write(m, a, Units(s + [0]));
      NameAt(m', a, s) && SameOutside(m, m', a, NameRoom(s))
  {
    hide Units, NameRoom, NameAt;
    var bs, k, room := Units(s + [0]), 2 * |s| + 2, NameRoom(s);
    var m' := Write(m, a, bs);
    NameUnits(m', a, s);
    ReadBack(m, a, bs);
    ReadSplit(m, a, room, k);
    ReadAround(m, a, bs, a + k, room - k);
    assert Zeros(room)[k..] == Zeros(room - k);
    assert (Read(m, a, k) + Read(m, a + k, room - k))[k..] == Read(m, a + k, room - k);
  }

  lemma HeldThroughNew(h: Arena, m: Mem, h1: Arena, m1: Mem, m2: Mem, but: Option<int>)
    requires KeepsHeld(h, m, h1, m1, but) && KeepsHeld(h1, m1, h1, m2, but)
    ensures KeepsHeld(h, m, h1, m2, but)
  {
    hide Held;
  }

  lemma HeadsWritten(m: Mem, a: int, f: int, l: int)
    ensures var m2 := W64(W64(m, a, f), a + 8, l);
      var m4 := W64(W64(m2, a + 0x10, f + 0x10), a + 0x18, l + 0x10);
      var m6 := W64(W64(m4, a + 0x20, f + 0x20), a + 0x28, l + 0x20);
      TableAt(m6, a, [f, l, f + 0x10, l + 0x10, f + 0x20, l + 0x20]) && SameOutside(m, m6, a, 0x30)
  {
    assert TableAt(m, a, []);
    hide Words, Le, Write, TableAt, W64, SameOutside;
    LinkPair(m, a, [], f, l);
    var m2 := W64(W64(m, a, f), a + 8, l);
    assert [] + [f, l] == [f, l];
    LinkPair(m2, a, [f, l], f + 0x10, l + 0x10);
    var m4 := W64(W64(m2, a + 0x10, f + 0x10), a + 0x18, l + 0x10);
    SameOutsideChain(m, m2, m4, a, 0x10, 0x10);
    var ws := [f, l] + [f + 0x10, l + 0x10];
    LinkPair(m4, a, ws, f + 0x20, l + 0x20);
    SameOutsideChain(m, m4, W64(W64(m4, a + 0x20, f + 0x20), a + 0x28, l + 0x20), a, 0x20, 0x10);
    assert ws + [f + 0x20, l + 0x20] == [f, l, f + 0x10, l + 0x10, f + 0x20, l + 0x20];
  }

  /** A write inside the loader-data block keeps every entry and name. */
  lemma EntriesKept(h: Arena, data: int, es: seq<int>, ns: seq<int>, list: seq<Module>, m: Mem, m': Mem)
    requires Inv(h) && list != [] && |es| == |ns| == |list| && Layout(h, data, es, ns, list)
    requires EntriesAt(m, es, ns, list, |list|) && NamesAt(m, ns, list)
    requires SameOutside(m, m', data, LDR_DATA)
    ensures EntriesAt(m', es, ns, list, |list|) && NamesAt(m', ns, list)
  {
    hide Inv, Owned, Held, EntryAt, Read, NameAt;
    var n := |list|;
    forall j | 0 <= j < n
      ensures EntryAt(m', es[j], es[(j + 1) % n], es[(j + n - 1) % n], list[j], ns[j])
    {
      OwnedHeld(h, es[j], ENTRY);
      OtherHeld(h, data, LDR_DATA, es[j], ENTRY, m, m');
      EntryKept(m, m', es[j], es[(j + 1) % n], es[(j + n - 1) % n], list[j], ns[j]);
    }
    forall j | 0 <= j < n ensures NameAt(m', ns[j], list[j].name) {
      OwnedHeld(h, ns[j], NameRoom(list[j].name));
      OtherHeld(h, data, LDR_DATA, ns[j], NameRoom(list[j].name), m, m');
      NameSame(m, m', ns[j], list[j].name);
    }
  }

  lemma NameSame(m: Mem, m': Mem, a: int, s: seq<Unit>)
    requires NameAt(m, a, s) && SameOn(m, m', a, NameRoom(s))
    ensures NameAt(m', a, s)
  {
    SameRead(m, m', a, NameRoom(s), a, NameRoom(s));
  }

  /** A write outside the arena keeps the whole structure. */
  lemma RingsKept(h: Arena, data: int, es: seq<int>, ns: seq<int>, list: seq<Module>, m: Mem, m': Mem)
    requires Inv(h) && Layout(h, data, es, ns, list) && RingsAt(m, data, es, ns, list)
    requires forall x {:trigger At(m', x)} :: h.base + PAGE <= x < h.base + h.size ==> At(m', x) == At(m, x)
    ensures RingsAt(m', data, es, ns, list)
  {
    hide Inv, Owned, Held, EntryAt, Read, Words, TableAt, NameAt;
    var n := |list|;
    forall j | 0 <= j < n
      ensures EntryAt(m', es[j], es[(j + 1) % n], es[(j + n - 1) % n], list[j], ns[j])
    {
      OwnedApart(h, es[j], ENTRY, es[j], ENTRY);
      EntryKept(m, m', es[j], es[(j + 1) % n], es[(j + n - 1) % n], list[j], ns[j]);
    }
    forall j | 0 <= j < n ensures NameAt(m', ns[j], list[j].name) {
      var k := NameRoom(list[j].name);
      OwnedApart(h, ns[j], k, ns[j], k);
      NameSame(m, m', ns[j], list[j].name);
    }
    HeldApart(h, data, LDR_DATA, data, LDR_DATA);
    TableKept(m, m', data + 0x10, Heads(es));
  }

  /** A write outside the arena keeps every block. */
  lemma KeepsInArena(h: Arena, m: Mem, m': Mem, but: set<int>)
    requires Inv(h) && forall x {:trigger At(m', x)} :: h.base + PAGE <= x < h.base + h.size ==> At(m', x) == At(m, x)
    ensures Keeps(h, m, h, m', but)
  {
    hide Inv, Owned;
    forall a: int, k: nat | Owned(h, a, k) ensures SameOn(m, m', a, k) { OwnedApart(h, a, k, a, k); }
  }

  lemma NoNames(m: Mem, list: seq<Module>)
    ensures NamesAt(m, [], list)
  {
  }

  /** A new block for an entry extends the layout. */
  lemma EntryTaken(h: Arena, m: Mem, h': Arena, m': Mem, es: seq<int>, ns: seq<int>, list: seq<Module>, e: int)
    requires Blocks(h, es, ns, list) && Keeps(h, m, h', m', {}) && |es| < |list|
    requires Owned(h', e, ENTRY) && NewIn(h, [e])
    ensures Blocks(h', es + [e], ns, list)
  {
    hide Owned;
    assert forall k: nat {:trigger Owned(h, e, k)} :: !Owned(h, e, k) by {
      forall k: nat ensures !Owned(h, e, k) { assert !Owned(h, [e][0], k); }
    }
    assert forall i :: 0 <= i < |es| ==> es[i] != e;
    assert forall i :: 0 <= i < |ns| ==> ns[i] != e;
  }

  /** A new block for a name extends the layout and keeps the names before it. */
  lemma NameTaken(h: Arena, m: Mem, h': Arena, m': Mem, es: seq<int>, ns: seq<int>, list: seq<Module>, n: int)
    requires Blocks(h, es, ns, list) && Keeps(h, m, h', m', {}) && |ns| < |list|
    requires Owned(h', n, NameRoom(list[|ns|].name))
    requires NewIn(h, [n]) && NamesAt(m, ns, list) && NameAt(m', n, list[|ns|].name)
    ensures Blocks(h', es, ns + [n], list) && NamesAt(m', ns + [n], list)
  {
    hide Owned, NameAt;
    assert forall k: nat {:trigger Owned(h, n, k)} :: !Owned(h, n, k) by {
      forall k: nat ensures !Owned(h, n, k) { assert !Owned(h, [n][0], k); }
    }
    assert forall i :: 0 <= i < |es| ==> es[i] != n;
    assert forall i :: 0 <= i < |ns| ==> ns[i] != n;
    forall j | 0 <= j < |ns| ensures NameAt(m', ns[j], list[j].name) {
      assert Owned(h, ns[j], NameRoom(list[j].name));
      NameSame(m, m', ns[j], list[j].name);
    }
  }

  lemma NameKept(h: Arena, e: int, va: int, s: seq<Unit>, m: Mem, m': Mem)
    requires Inv(h) && Owned(h, e, ENTRY) && Owned(h, va, NameRoom(s)) && e != va
    requires NameAt(m, va, s) && SameOutside(m, m', e, ENTRY)
    ensures NameAt(m', va, s)
  {
    hide Inv, Owned, NameAt;
    OtherBlock(h, e, ENTRY, va, NameRoom(s), m, m');
    NameSame(m, m', va, s);
  }

  /** Writing entry i extends the written prefix and disturbs nothing else. */
  lemma OneEntryMore(h: Arena, es: seq<int>, ns: seq<int>, list: seq<Module>, i: nat, m: Mem, m': Mem)
    requires Inv(h) && |es| == |ns| == |list| && i < |list|
    requires Blocks(h, es, ns, list) && NamesAt(m, ns, list) && EntriesAt(m, es, ns, list, i)
    requires SameOutside(m, m', es[i], ENTRY)
    requires var n := |list|; EntryAt(m', es[i], es[(i + 1) % n], es[(i + n - 1) % n], list[i], ns[i])
    ensures EntriesAt(m', es, ns, list, i + 1) && NamesAt(m', ns, list)
    ensures SameOffArena(m, m', h)
  {
    hide Inv, Owned, EntryAt, NameAt;
    var n := |list|;
    forall j | 0 <= j < i
      ensures EntryAt(m', es[j], es[(j + 1) % n], es[(j + n - 1) % n], list[j], ns[j])
    {
      OtherBlock(h, es[i], ENTRY, es[j], ENTRY, m, m');
      EntryKept(m, m', es[j], es[(j + 1) % n], es[(j + n - 1) % n], list[j], ns[j]);
    }
    forall j | 0 <= j < n ensures NameAt(m', ns[j], list[j].name) {
      NameKept(h, es[i], ns[j], list[j].name, m, m');
    }
    OwnedApart(h, es[i], ENTRY, es[i], ENTRY);
  }

  // ------------------------------------------------------------ walking the rings

  const DLL_BASE: int := 0x30

  /** Follows Flink k times from a link field. */
  function Walk(m: Mem, link: int, k: nat): int
    decreases k
  {
    if k == 0 then link else U64(m, Walk(m, link, k - 1))
  }

  /** The three lists: 0 load order, 1 memory order, 2 initialisation order. */
  function HeadOf(data: int, which: nat): int { data + 0x10 + 0x10 * which }

  predicate Addressable(es: seq<int>) {
    forall i :: 0 <= i < |es| ==> 0 <= es[i] < TWO64 - 0x100
  }

  lemma EntryLinks(m: Mem, e: int, next: int, prev: int, rec: Module, va: int, which: nat)
    requires EntryAt(m, e, next, prev, rec, va) && which < 3
    requires 0 <= next < TWO64 - 0x100 && 0 <= prev < TWO64 - 0x100
    ensures U64(m, e + 0x10 * which) == next + 0x10 * which
    ensures U64(m, e + 0x10 * which + 8) == prev + 0x10 * which
    ensures U64(m, e + DLL_BASE) == rec.base % TWO64
  {
    hide Un, Read, Words, TableAt, UstrAt, NameLen;
    var ws := LinkWords(next, prev, 3) + [rec.base, rec.entry];
    TableWord(m, e, ws, 2 * which);
    TableWord(m, e, ws, 2 * which + 1);
    TableWord(m, e, ws, 6);
    assert ws[2 * which] == next + 16 * which && ws[2 * which + 1] == prev + 16 * which;
  }

  /** One hop. */
  lemma RingHop(m: Mem, data: int, es: seq<int>, ns: seq<int>, list: seq<Module>, which: nat, j: nat, i: nat, link: int)
    requires RingsAt(m, data, es, ns, list) && Addressable(es) && which < 3 && j < |list| && i == (j + 1) % |list|
    requires link == es[j] + 0x10 * which
    ensures i < |list| && U64(m, link) == es[i] + 0x10 * which
  {
    hide EntryAt, Un, Read, Words, TableAt, NameAt, Heads, EntriesAt, NamesAt, U64;
    RingEntry(m, data, es, ns, list, j, which);
  }

  lemma {:induction false} WalkLink(m: Mem, data: int, es: seq<int>, ns: seq<int>, list: seq<Module>, which: nat,
                                    k: nat)
    requires RingsAt(m, data, es, ns, list) && Addressable(es) && which < 3
    ensures Walk(m, U64(m, HeadOf(data, which)), k) == es[k % |list|] + 0x10 * which
    decreases k
  {
    hide U64, EntriesAt, NamesAt, TableAt, Heads, Addressable;
    var n := |list|;
    if k == 0 {
      RingHead(m, data, es, ns, list, which);
      ModIs(0, n, 0, 0);
    } else {
      WalkLink(m, data, es, ns, list, which, k - 1);
      NextMod(k - 1, n);
      RingHop(m, data, es, ns, list, which, (k - 1) % n, k % n, Walk(m, U64(m, HeadOf(data, which)), k - 1));
    }
  }

  /** From the head's first entry, k hops along any of the three rings reach entry k modulo n,
      in load order, with its module's base. */
  lemma WalkVisits(m: Mem, data: int, es: seq<int>, ns: seq<int>, list: seq<Module>, which: nat, k: nat)
    requires RingsAt(m, data, es, ns, list) && Addressable(es) && which < 3
    ensures var n := |list|;
      var link := Walk(m, U64(m, HeadOf(data, which)), k);
      link == es[k % n] + 0x10 * which &&
      U64(m, link - 0x10 * which + DLL_BASE) == list[k % n].base % TWO64
  {
    hide U64, EntriesAt, NamesAt, TableAt, Heads, Addressable, Walk;
    WalkLink(m, data, es, ns, list, which, k);
    RingEntry(m, data, es, ns, list, k % |list|, which);
  }

  lemma RingEntry(m: Mem, data: int, es: seq<int>, ns: seq<int>, list: seq<Module>, i: nat, which: nat)
    requires RingsAt(m, data, es, ns, list) && Addressable(es) && which < 3 && i < |list|
    ensures var n := |list|;
      var link := es[i] + 0x10 * which;
      && (i + 1) % n < n && (i + n - 1) % n < n
      && U64(m, link) == es[(i + 1) % n] + 0x10 * which
      && U64(m, link + 8) == es[(i + n - 1) % n] + 0x10 * which
      && U64(m, es[i] + DLL_BASE) == list[i].base % TWO64
  {
    hide EntryAt, Un, Read, Words, TableAt, NameAt, Heads, U64;
    var n := |list|;
    EntryLinks(m, es[i], es[(i + 1) % n], es[(i + n - 1) % n], list[i], ns[i], which);
  }

  lemma RingHead(m: Mem, data: int, es: seq<int>, ns: seq<int>, list: seq<Module>, which: nat)
    requires RingsAt(m, data, es, ns, list) && Addressable(es) && which < 3
    ensures U64(m, HeadOf(data, which)) == es[0] + 0x10 * which
  {
    hide EntryAt, Un, Read, Words, TableAt, NameAt, U64;
    TableWord(m, data + 0x10, Heads(es), 2 * which);
  }

  /** The Blink of each list head is the last entry's link in that list. */
  lemma HeadBlink(m: Mem, data: int, es: seq<int>, ns: seq<int>, list: seq<Module>, which: nat)
    requires RingsAt(m, data, es, ns, list) && Addressable(es) && which < 3
    ensures U64(m, data + 0x10 + 0x10 * which + 8) == es[|list| - 1] + 0x10 * which
  {
    hide EntryAt, Un, Read, Words, TableAt, NameAt, U64;
    TableWord(m, data + 0x10, Heads(es), 2 * which + 1);
    ModIs(es[|list| - 1] + 0x10 * which, TWO64, 0, es[|list| - 1] + 0x10 * which);
  }

  /** Follows Blink k times from a link field. */
  function WalkBack(m: Mem, link: int, k: nat): int
    decreases k
  {
    if k == 0 then link else U64(m, WalkBack(m, link, k - 1) + 8)
  }

  lemma PreviousMod(k: nat, n: nat)
    requires n > 0
    ensures ((n - 1 - k) % n + n - 1) % n == (n - 2 - k) % n
  {
    var q, r := (n - 1 - k) / n, (n - 1 - k) % n;
    assert n - 1 - k == n * q + r;
    if r == 0 {
      ModIs(n - 2 - k, n, q - 1, n - 1);
      ModIs(n - 1, n, 0, n - 1);
    } else {
      ModIs(n - 2 - k, n, q, r - 1);
      ModIs(r + n - 1, n, 1, r - 1);
    }
  }

  lemma {:induction false} WalkBackLink(m: Mem, data: int, es: seq<int>, ns: seq<int>, list: seq<Module>, which: nat,
                                        k: nat)
    requires RingsAt(m, data, es, ns, list) && Addressable(es) && which < 3
    ensures WalkBack(m, U64(m, data + 0x10 + 0x10 * which + 8), k) == es[(|list| - 1 - k) % |list|] + 0x10 * which
    decreases k
  {
    hide U64, EntriesAt, NamesAt, TableAt, Heads, Addressable;
    var n := |list|;
    if k == 0 {
      HeadBlink(m, data, es, ns, list, which);
      ModIs(n - 1, n, 0, n - 1);
    } else {
      WalkBackLink(m, data, es, ns, list, which, k - 1);
      PreviousMod(k - 1, n);
      RingEntry(m, data, es, ns, list, (n - k) % n, which);
    }
  }

  /** From a head's Blink, k hops backwards reach entry n - 1 - k modulo n, with its module's base. */
  lemma WalkBackVisits(m: Mem, data: int, es: seq<int>, ns: seq<int>, list: seq<Module>, which: nat, k: nat)
    requires RingsAt(m, data, es, ns, list) && Addressable(es) && which < 3
    ensures var n := |list|;
      var link := WalkBack(m, U64(m, data + 0x10 + 0x10 * which + 8), k);
      link == es[(n - 1 - k) % n] + 0x10 * which &&
      U64(m, link - 0x10 * which + 0x30) == list[(n - 1 - k) % n].base % TWO64
  {
    hide U64, EntriesAt, NamesAt, TableAt, Heads, Addressable, WalkBack;
    WalkBackLink(m, data, es, ns, list, which, k);
    RingEntry(m, data, es, ns, list, (|list| - 1 - k) % |list|, which);
  }

  /** What else a reader finds in an entry: entry point, size, and both name records, which give the length
      of the name up to its first NUL or 260 units and the address at which the units are. */
  lemma EntryReads(m: Mem, data: int, es: seq<int>, ns: seq<int>, list: seq<Module>, i: nat)
    requires RingsAt(m, data, es, ns, list) && i < |list|
    ensures var e, va, s := es[i], ns[i], list[i].name;
      && U64(m, e + 0x30) == list[i].base % TWO64 && U64(m, e + 0x38) == list[i].entry % TWO64
      && U32(m, e + 0x40) == list[i].imageSize % TWO32
      && (exists n: nat :: MeasuredLength(s, n) && U16(m, e + 0x48) == U16(m, e + 0x58) == 2 * n &&
                           U16(m, e + 0x4A) == U16(m, e + 0x5A) == 2 * n + 2)
      && U32(m, e + 0x4C) == U32(m, e + 0x5C) == 0
      && U64(m, e + 0x50) == U64(m, e + 0x60) == va % TWO64
      && Spells(m, va, s)
  {
    hide Un, Read, Words, TableAt, NameLen, NameAt, U16, U32, U64;
    var n, s := |list|, list[i].name;
    var next, prev := es[(i + 1) % n], es[(i + n - 1) % n];
    assert EntryAt(m, es[i], next, prev, list[i], ns[i]);
    var ws := LinkWords(next, prev, 3) + [list[i].base, list[i].entry];
    TableWord(m, es[i], ws, 6);
    TableWord(m, es[i], ws, 7);
    LengthMeasured(s);
    NameReads(m, ns[i], s);
    ModIs(2 * NameLen(s), TWO16, 0, 2 * NameLen(s));
    ModIs(2 * NameLen(s) + 2, TWO16, 0, 2 * NameLen(s) + 2);
  }

  ghost predicate MeasuredLength(s: seq<Unit>, n: nat) {
    n <= |s| && n <= 260 && (forall j :: 0 <= j < n ==> s[j] != 0) && (n < |s| && n < 260 ==> s[n] == 0)
  }

  lemma {:induction false} LengthMeasured(s: seq<Unit>)
    ensures MeasuredLength(s, NameLen(s))
  {
  }

  /** The units of the name in a row, then a NUL. */
  ghost predicate Spells(m: Mem, va: int, s: seq<Unit>) {
    (forall j {:trigger s[j]} :: 0 <= j < |s| ==> U16(m, va + 2 * j) == s[j]) && U16(m, va + 2 * |s|) == 0
  }

  lemma {:induction false} NameReads(m: Mem, va: int, s: seq<Unit>)
    requires NameAt(m, va, s)
    ensures Spells(m, va, s)
  {
    hide Units, Zeros, Read, NameRoom, NameAt, U16;
    NameUnits(m, va, s);
    forall j: nat | j < |s| ensures U16(m, va + 2 * j) == s[j] { UnitAt(m, va, s + [0], j); }
    UnitAt(m, va, s + [0], |s|);
  }

  /** What a reader finds in the loader data. */
  lemma RecordReads(m: Mem, data: int, es: seq<int>, ns: seq<int>, list: seq<Module>)
    requires Complete(m, data, es, ns, list)
    ensures U32(m, data) == 0x50 && At(m, data + 4) == 1
    ensures forall which :: 0 <= which < 3 ==>
      && U64(m, data + 0x10 + 0x10 * which) == (es[0] + 0x10 * which) % TWO64
      && U64(m, data + 0x18 + 0x10 * which) == (es[|es| - 1] + 0x10 * which) % TWO64
  {
    hide EntryAt, Un, Read, Words, TableAt, NameAt, U64;
    forall which: nat | which < 3
      ensures U64(m, data + 0x10 + 0x10 * which) == (es[0] + 0x10 * which) % TWO64
      ensures U64(m, data + 0x18 + 0x10 * which) == (es[|es| - 1] + 0x10 * which) % TWO64
    {
      TableWord(m, data + 0x10, Heads(es), 2 * which);
      TableWord(m, data + 0x10, Heads(es), 2 * which + 1);
    }
  }

  /** The walk closes after exactly n hops: it is back at the first entry then, and not before. */
  lemma WalkCloses(m: Mem, data: int, es: seq<int>, ns: seq<int>, list: seq<Module>, which: nat, k: nat, h: Arena)
    requires RingsAt(m, data, es, ns, list) && Addressable(es) && which < 3
    requires Layout(h, data, es, ns, list) && 0 < k <= |list|
    ensures var first := U64(m, HeadOf(data, which));
      Walk(m, first, k) == first <==> k == |list|
  {
    hide EntryAt, Un, Read, Words, TableAt, NameAt, Heads, Owned, U64;
    var n := |list|;
    WalkVisits(m, data, es, ns, list, which, 0);
    WalkVisits(m, data, es, ns, list, which, k);
    ModIs(0, n, 0, 0);
    if k < n { ModIs(k, n, 0, k); } else { ModIs(k, n, 1, 0); }
    assert Walk(m, U64(m, HeadOf(data, which)), 0) == U64(m, HeadOf(data, which));
  }

  /** Unlike the list a Windows loader keeps, the ring leaves its head out: no number of hops
      ever comes back to it. */
  lemma HeadIsNotInTheRing(m: Mem, data: int, es: seq<int>, ns: seq<int>, list: seq<Module>, which: nat, k: nat,
                           h: Arena)
    requires Inv(h) && RingsAt(m, data, es, ns, list) && Addressable(es) && which < 3
    requires Layout(h, data, es, ns, list)
    ensures Walk(m, U64(m, HeadOf(data, which)), k) != HeadOf(data, which)
  {
    WalkVisits(m, data, es, ns, list, which, k);
    OwnedHeld(h, es[k % |list|], ENTRY);
    HeldApart(h, data, LDR_DATA, es[k % |list|], ENTRY);
  }

  /** Blink undoes Flink at every link of every ring. */
  lemma BlinkInverts(m: Mem, data: int, es: seq<int>, ns: seq<int>, list: seq<Module>, which: nat, i: nat)
    requires RingsAt(m, data, es, ns, list) && Addressable(es) && which < 3 && i < |list|
    ensures var link := es[i] + 0x10 * which;
      U64(m, U64(m, link) + 8) == link && U64(m, U64(m, link + 8)) == link
  {
    hide EntryAt, Un, Read, Words, TableAt, NameAt, Heads, RingsAt, U64;
    var n := |list|;
    var j, p := (i + 1) % n, (i + n - 1) % n;
    assert (j + n - 1) % n == i && (p + 1) % n == i by {
      if i + 1 < n {
        ModIs(i + 1, n, 0, i + 1);
        ModIs(i + n, n, 1, i);
      } else {
        ModIs(i + 1, n, 1, 0);
        ModIs(n - 1, n, 0, n - 1);
      }
      if i > 0 {
        ModIs(i + n - 1, n, 1, i - 1);
        ModIs(i, n, 0, i);
      } else {
        ModIs(n - 1, n, 0, n - 1);
        ModIs(n, n, 1, 0);
      }
    }
    RingEntry(m, data, es, ns, list, i, which);
    RingEntry(m, data, es, ns, list, j, which);
    RingEntry(m, data, es, ns, list, p, which);
  }

  /** Blocks of a heap below 2^64 - 256 are addressable, so the results above apply to every
      structure the loader builds there. */
  lemma LayoutAddressable(h: Arena, data: int, es: seq<int>, ns: seq<int>, list: seq<Module>)
    requires Inv(h) && Layout(h, data, es, ns, list) && 0 <= h.base && h.base + h.size <= TWO64 - 0x100
    ensures Addressable(es)
  {
    forall i | 0 <= i < |es| ensures 0 <= es[i] < TWO64 - 0x100 {
      OwnedApart(h, es[i], ENTRY, es[i], ENTRY);
    }
  }
}
