/** The ELF64 header writers of tools/gen-elf-fixtures.mjs and the reader of
    packages/triage/src/elf.mjs (chapter 4 of the System V gABI). */
module ElfFile {
  import opened Common
  import opened GuestMemory

  // ------------------------------------------------------------ fields in a buffer

  /** A little-endian integer of a given width at an offset. */
  datatype Field = Field(at: nat, width: nat, value: nat)

  function End(f: Field): nat { f.at + f.width }

  function FieldBytes(f: Field): (bs: seq<byte>)
    ensures |bs| == f.width
  {
    Le(f.value % Pow256(f.width), f.width)
  }

  function Splice(s: seq<byte>, o: nat, bs: seq<byte>): (r: seq<byte>)
    requires o + |bs| <= |s|
    ensures |r| == |s|
    ensures forall i :: 0 <= i < |s| ==> r[i] == if o <= i < o + |bs| then bs[i - o] else s[i]
  {
    s[..o] + bs + s[o + |bs|..]
  }

  predicate InBounds(fs: seq<Field>, n: nat) { forall k :: 0 <= k < |fs| ==> End(fs[k]) <= n }

  /** Ascending fields that do not overlap, all inside [lo, hi). */
  ghost predicate Chain(fs: seq<Field>, lo: nat, hi: nat) {
    && lo <= hi
    && (fs != [] ==> lo <= fs[0].at && End(fs[|fs| - 1]) <= hi)
    && forall k :: 0 <= k < |fs| - 1 ==> End(fs[k]) <= fs[k + 1].at
  }

  lemma {:induction false} ChainWithin(fs: seq<Field>, lo: nat, hi: nat, k: nat)
    requires Chain(fs, lo, hi) && k < |fs|
    ensures lo <= fs[k].at && End(fs[k]) <= hi
    decreases |fs|
  {
    if |fs| > 1 {
      var n := |fs| - 1;
      ChainFront(fs, lo, hi);
      if k < n { ChainWithin(fs[..n], lo, fs[n].at, k); } else { ChainWithin(fs[..n], lo, fs[n].at, 0); }
    }
  }

  lemma ChainFront(fs: seq<Field>, lo: nat, hi: nat)
    requires Chain(fs, lo, hi) && |fs| > 1
    ensures var n := |fs| - 1;
      lo <= fs[n].at ==> Chain(fs[..n], lo, fs[n].at)
    ensures lo <= fs[|fs| - 1].at
    decreases |fs|
  {
    var n := |fs| - 1;
    assert End(fs[n - 1]) <= fs[n - 1 + 1].at;
    forall k | 0 <= k < n - 1 ensures End(fs[..n][k]) <= fs[..n][k + 1].at {
      assert End(fs[k]) <= fs[k + 1].at;
    }
    if n > 1 {
      var front := fs[..n];
      assert Chain(front, lo, Max(hi, End(front[n - 1])));
      ChainFront(front, lo, Max(hi, End(front[n - 1])));
    }
  }

  function WriteAll(s: seq<byte>, fs: seq<Field>): (r: seq<byte>)
    requires InBounds(fs, |s|)
    ensures |r| == |s|
  {
    if fs == [] then s
    else Splice(WriteAll(s, fs[..|fs| - 1]), fs[|fs| - 1].at, FieldBytes(fs[|fs| - 1]))
  }

  /** The value a reader finds. */
  function Get(b: seq<byte>, o: nat, width: nat): nat
    requires o + width <= |b|
  {
    Un(b[o..o + width])
  }

  /** Low byte first. */
  lemma GetIs(b: seq<byte>, o: nat)
    ensures o + 2 <= |b| ==> Get(b, o, 2) == b[o] as int + 0x100 * (b[o + 1] as int)
    ensures o + 4 <= |b| ==>
              Get(b, o, 4) == Get(b, o, 2) + 0x1_0000 * (b[o + 2] as int) + 0x100_0000 * (b[o + 3] as int)
    ensures o + 8 <= |b| ==> Get(b, o, 8) == Get(b, o, 4) + 0x1_0000_0000 * Get(b, o + 4, 4)
  {
    hide Un;
    if o + 2 <= |b| { UnTwo(b[o..o + 2]); }
    if o + 4 <= |b| { UnFour(b[o..o + 4]); }
    if o + 8 <= |b| {
      UnEight(b[o..o + 8]);
      assert b[o..o + 8][4..] == b[o + 4..o + 8];
    }
  }

  ghost predicate SameOutside(s: seq<byte>, t: seq<byte>, lo: nat, hi: nat) {
    |s| == |t| && forall i :: 0 <= i < |s| && !(lo <= i < hi) ==> t[i] == s[i]
  }

  ghost predicate SameInside(s: seq<byte>, t: seq<byte>, lo: nat, hi: nat) {
    |s| == |t| && forall i :: lo <= i < hi && i < |s| ==> t[i] == s[i]
  }

  /** Every field reads back as its value, modulo its width. */
  ghost predicate Holds(b: seq<byte>, fs: seq<Field>) {
    forall k :: 0 <= k < |fs| ==>
      End(fs[k]) <= |b| && Get(b, fs[k].at, fs[k].width) == fs[k].value % Pow256(fs[k].width)
  }

  lemma GetSame(s: seq<byte>, t: seq<byte>, lo: nat, hi: nat, o: nat, width: nat)
    requires SameInside(s, t, lo, hi) && lo <= o && o + width <= hi && o + width <= |s|
    ensures Get(t, o, width) == Get(s, o, width)
  {
    assert t[o..o + width] == s[o..o + width];
  }

  lemma GetSpliced(s: seq<byte>, f: Field)
    requires End(f) <= |s|
    ensures Get(Splice(s, f.at, FieldBytes(f)), f.at, f.width) == f.value % Pow256(f.width)
  {
    assert Splice(s, f.at, FieldBytes(f))[f.at..End(f)] == FieldBytes(f);
    UnLe(f.value % Pow256(f.width), f.width);
  }

  /** Writing a chain of fields: each is read back, and nothing else changes. */
  lemma {:induction false} ChainWritten(s: seq<byte>, fs: seq<Field>, lo: nat, hi: nat)
    requires Chain(fs, lo, hi) && hi <= |s|
    ensures InBounds(fs, |s|) && Holds(WriteAll(s, fs), fs) && SameOutside(s, WriteAll(s, fs), lo, hi)
    decreases |fs|
  {
    hide FieldBytes, Get;
    forall k | 0 <= k < |fs| ensures lo <= fs[k].at && End(fs[k]) <= hi { ChainWithin(fs, lo, hi, k); }
    if fs != [] {
      var n := |fs| - 1;
      var front, f := fs[..n], fs[n];
      if n > 0 { ChainFront(fs, lo, hi); } else { assert Chain(front, lo, f.at); }
      ChainWritten(s, front, lo, f.at);
      var t, u := WriteAll(s, front), WriteAll(s, fs);
      GetSpliced(t, f);
      forall k | 0 <= k < n ensures Get(u, fs[k].at, fs[k].width) == fs[k].value % Pow256(fs[k].width) {
        assert front[k] == fs[k];
        ChainWithin(front, lo, f.at, k);
        GetSame(t, u, lo, f.at, fs[k].at, fs[k].width);
      }
    }
  }

  /** The writers' stores, one after the other. */
  method PutAll(b: array<byte>, fs: seq<Field>)
    requires InBounds(fs, b.Length)
    modifies b
    ensures b[..] == WriteAll(old(b[..]), fs)
  {
    for k := 0 to |fs|
      invariant b[..] == WriteAll(old(b[..]), fs[..k])
    {
      assert fs[..k + 1][..k] == fs[..k];
      PutField(b, fs[k]);
    }
    assert fs[..|fs|] == fs;
  }

  method PutField(b: array<byte>, f: Field)
    requires End(f) <= b.Length
    modifies b
    ensures b[..] == Splice(old(b[..]), f.at, FieldBytes(f))
  {
    var v := f.value % Pow256(f.width);
    ghost var all := FieldBytes(f);
    for i := 0 to f.width
      invariant forall j :: 0 <= j < b.Length ==>
                  b[j] == if f.at <= j < f.at + i then all[j - f.at] else old(b[..])[j]
      invariant v >= 0 && i <= f.width && Le(v, f.width - i) == all[i..]
    {
      b[f.at + i] := v % 256;
      v := v / 256;
    }
  }

  // ------------------------------------------------------------ the structures

  datatype Ehdr = Ehdr(
    entry: nat, phoff: nat, shoff: nat, flags: nat, ehsize: nat,
    phentsize: nat, phnum: nat, shentsize: nat, shnum: nat, shstrndx: nat)

  datatype Phdr = Phdr(kind: nat, flags: nat, offset: nat, vaddr: nat, paddr: nat, filesz: nat, memsz: nat, align: nat)

  datatype Shdr = Shdr(
    name: nat, kind: nat, flags: nat, addr: nat, offset: nat, size: nat, link: nat, info: nat,
    addralign: nat, entsize: nat)

  const EHDR: nat := 64
  const PHDR: nat := 56
  const SHDR: nat := 64

  function EhdrFields(h: Ehdr): (fs: seq<Field>)
    ensures |fs| == 20
  {
    [Field(0, 1, 0x7F), Field(1, 1, 0x45), Field(2, 1, 0x4C), Field(3, 1, 0x46),
     Field(4, 1, 2), Field(5, 1, 1), Field(6, 1, 1),
     Field(16, 2, 2), Field(18, 2, 0x3E), Field(20, 4, 1),
     Field(24, 8, h.entry), Field(32, 8, h.phoff), Field(40, 8, h.shoff), Field(48, 4, h.flags),
     Field(52, 2, h.ehsize), Field(54, 2, h.phentsize), Field(56, 2, h.phnum), Field(58, 2, h.shentsize),
     Field(60, 2, h.shnum), Field(62, 2, h.shstrndx)]
  }

  function PhdrFields(o: nat, p: Phdr): (fs: seq<Field>)
    ensures |fs| == 8
  {
    [Field(o, 4, p.kind), Field(o + 4, 4, p.flags), Field(o + 8, 8, p.offset), Field(o + 16, 8, p.vaddr),
     Field(o + 24, 8, p.paddr), Field(o + 32, 8, p.filesz), Field(o + 40, 8, p.memsz), Field(o + 48, 8, p.align)]
  }

  function ShdrFields(o: nat, s: Shdr): (fs: seq<Field>)
    ensures |fs| == 10
  {
    [Field(o, 4, s.name), Field(o + 4, 4, s.kind), Field(o + 8, 8, s.flags), Field(o + 16, 8, s.addr),
     Field(o + 24, 8, s.offset), Field(o + 32, 8, s.size), Field(o + 40, 4, s.link), Field(o + 44, 4, s.info),
     Field(o + 48, 8, s.addralign), Field(o + 56, 8, s.entsize)]
  }

  // ------------------------------------------------------------ the string table

  predicate NulFree(name: seq<byte>) { forall i :: 0 <= i < |name| ==> name[i] != 0 }

  /** Contents of the table for these names, behind the leading NUL. */
  function TableBytes(names: seq<seq<byte>>): seq<byte> {
    if names == [] then [0] else TableBytes(names[..|names| - 1]) + names[|names| - 1] + [0]
  }

  /** Offset of the k-th name. */
  function NameOffset(names: seq<seq<byte>>, k: nat): nat
    requires k < |names|
  {
    |TableBytes(names[..k])|
  }

  /** The table and where each name went; a repeated name keeps its last place. */
  method Strtab(names: seq<seq<byte>>) returns (bytes: seq<byte>, offs: map<seq<byte>, nat>)
    ensures bytes == TableBytes(names)
    ensures forall n :: n in offs <==> n in names
    ensures forall n :: n in offs ==> Names(names, offs[n], n)
  {
    bytes, offs := [0], map[];
    for k := 0 to |names|
      invariant bytes == TableBytes(names[..k])
      invariant forall n :: n in offs <==> n in names[..k]
      invariant forall n :: n in offs ==> Names(names, offs[n], n)
    {
      assert names[..k + 1][..k] == names[..k];
      assert |bytes| == NameOffset(names, k);
      offs := offs[names[k] := |bytes|];
      bytes := bytes + names[k] + [0];
    }
    assert names[..|names|] == names;
  }

  /** An offset that stands for a name: 0 for the empty one, or where the name was put. */
  ghost predicate Names(names: seq<seq<byte>>, o: nat, name: seq<byte>) {
    || (o == 0 && name == [])
    || exists k :: 0 <= k < |names| && names[k] == name && o == NameOffset(names, k)
  }

  lemma {:induction false} NameInTable(names: seq<seq<byte>>, k: nat)
    requires k < |names|
    ensures var o, t, n := NameOffset(names, k), TableBytes(names), |names[k]|;
      o + n + 1 <= |t| && t[o..o + n] == names[k] && t[o + n] == 0
  {
    var last := |names| - 1;
    if k < last {
      var front := names[..last];
      assert front[..k] == names[..k] && front[k] == names[k];
      NameInTable(front, k);
      assert TableBytes(names)[..|TableBytes(front)|] == TableBytes(front);
    }
  }

  // ------------------------------------------------------------ reading

  /** cstr: up to the first NUL, the end of the file or max bytes. */
  function CStr(b: seq<byte>, o: nat, max: nat): seq<byte>
    decreases max
  {
    if max == 0 || o >= |b| || b[o] == 0 then [] else [b[o]] + CStr(b, o + 1, max - 1)
  }

  /** A NUL-terminated string is read whole, or cut at max bytes. */
  lemma {:induction false} CStrReads(b: seq<byte>, o: nat, max: nat, name: seq<byte>)
    requires o + |name| < |b| && b[o..o + |name|] == name && b[o + |name|] == 0 && NulFree(name)
    ensures CStr(b, o, max) == name[..Min(max, |name|)]
    decreases max
  {
    if name != [] && max > 0 {
      var rest := name[1..];
      assert b[o] == name[0] && b[o + 1..o + 1 + |rest|] == rest;
      CStrReads(b, o + 1, max - 1, rest);
      assert name[..Min(max, |name|)] == [name[0]] + rest[..Min(max - 1, |rest|)];
    }
  }

  datatype Error = BadMagic | BadClass | BadMachine | NoLoad

  datatype Section = Section(hdr: Shdr, name: seq<byte>)

  datatype Elf = Elf(
    kind: nat, entry: nat, phdrs: seq<Phdr>, interp: Option<seq<byte>>, execStack: bool, relro: bool,
    sections: seq<Section>)

  const PT_LOAD: nat := 1
  const PT_INTERP: nat := 3
  const PT_GNU_STACK: nat := 0x6474E551
  const PT_GNU_RELRO: nat := 0x6474E552
  const INTERP_MAX: nat := 256
  const NAME_MAX: nat := 64

  function PhdrOf(b: seq<byte>, o: nat): Phdr
    requires o + PHDR <= |b|
  {
    Phdr(Get(b, o, 4), Get(b, o + 4, 4), Get(b, o + 8, 8), Get(b, o + 16, 8),
         Get(b, o + 24, 8), Get(b, o + 32, 8), Get(b, o + 40, 8), Get(b, o + 48, 8))
  }

  /** The reader leaves info and addralign out. */
  function ShdrOf(b: seq<byte>, o: nat): Shdr
    requires o + SHDR <= |b|
  {
    Shdr(Get(b, o, 4), Get(b, o + 4, 4), Get(b, o + 8, 8), Get(b, o + 16, 8), Get(b, o + 24, 8),
         Get(b, o + 32, 8), Get(b, o + 40, 4), 0, 0, Get(b, o + 56, 8))
  }

  /** Headers from the i-th on, until one does not fit. */
  function PhdrsOf(b: seq<byte>, phoff: nat, entsize: nat, i: nat, n: nat): seq<Phdr>
    decreases n - i
  {
    if i >= n || phoff + i * entsize + PHDR > |b| then []
    else [PhdrOf(b, phoff + i * entsize)] + PhdrsOf(b, phoff, entsize, i + 1, n)
  }

  function ShdrsOf(b: seq<byte>, shoff: nat, i: nat, n: nat): seq<Shdr>
    decreases n - i
  {
    if i >= n || shoff + i * SHDR + SHDR > |b| then []
    else [ShdrOf(b, shoff + i * SHDR)] + ShdrsOf(b, shoff, i + 1, n)
  }

  function Named(b: seq<byte>, shstrOff: nat, hdrs: seq<Shdr>): (ss: seq<Section>)
    ensures |ss| == |hdrs|
    ensures forall k :: 0 <= k < |ss| ==>
              ss[k] == Section(hdrs[k], if shstrOff == 0 then [] else CStr(b, shstrOff + hdrs[k].name, NAME_MAX))
  {
    seq(|hdrs|, k requires 0 <= k < |hdrs| =>
      Section(hdrs[k], if shstrOff == 0 then [] else CStr(b, shstrOff + hdrs[k].name, NAME_MAX)))
  }

  /** The first program header of a kind. */
  function FirstOf(ps: seq<Phdr>, kind: nat): (r: Option<Phdr>)
    ensures r.Some? <==> exists k :: 0 <= k < |ps| && ps[k].kind == kind
    ensures r.Some? ==> r.value in ps && r.value.kind == kind
  {
    if ps == [] then None
    else if ps[0].kind == kind then Some(ps[0])
    else
      var rest := FirstOf(ps[1..], kind);
      assert forall k :: 1 <= k < |ps| ==> ps[k] == ps[1..][k - 1];
      assert rest.Some? ==> exists k :: 0 <= k < |ps[1..]| && ps[1..][k].kind == kind && ps[k + 1].kind == kind;
      rest
  }

  predicate HasLoad(ps: seq<Phdr>) { FirstOf(ps, PT_LOAD).Some? }

  function InterpOf(b: seq<byte>, ps: seq<Phdr>): Option<seq<byte>> {
    match FirstOf(ps, PT_INTERP)
    case None => None
    case Some(p) => Some(CStr(b, p.offset, INTERP_MAX))
  }

  /** PF_X of the stack segment. */
  predicate ExecStack(ps: seq<Phdr>) {
    FirstOf(ps, PT_GNU_STACK).Some? && FirstOf(ps, PT_GNU_STACK).value.flags % 2 == 1
  }

  predicate Relro(ps: seq<Phdr>) { FirstOf(ps, PT_GNU_RELRO).Some? }

  function Parse(b: seq<byte>): Result<Elf, Error> {
    if |b| < EHDR || b[0] != 0x7F || b[1] != 0x45 || b[2] != 0x4C || b[3] != 0x46 then Err(BadMagic)
    else if b[4] != 2 then Err(BadClass)
    else if Get(b, 18, 2) != 0x3E then Err(BadMachine)
    else
      var kind := Get(b, 16, 2);
      var ps := PhdrsOf(b, Get(b, 32, 8), Get(b, 54, 2), 0, Get(b, 56, 2));
      if !HasLoad(ps) && kind != 1 then Err(NoLoad)
      else
        var hdrs := ShdrsOf(b, Get(b, 40, 8), 0, Get(b, 60, 2));
        var ndx := Get(b, 62, 2);
        var shstrOff := TableOffset(hdrs, ndx);
        Ok(Elf(kind, Get(b, 24, 8), ps, InterpOf(b, ps), ExecStack(ps), Relro(ps), Named(b, shstrOff, hdrs)))
  }

  // ------------------------------------------------------------ what the reader answers

  /** Header k is the first of its kind. */
  predicate FirstAt(ps: seq<Phdr>, kind: nat, k: nat) {
    k < |ps| && ps[k].kind == kind && forall j :: 0 <= j < k ==> ps[j].kind != kind
  }

  lemma {:induction false} FirstIs(ps: seq<Phdr>, kind: nat, k: nat)
    requires FirstAt(ps, kind, k)
    ensures FirstOf(ps, kind) == Some(ps[k])
  {
    if k > 0 {
      FirstIs(ps[1..], kind, k - 1);
    }
  }

  lemma FirstFound(ps: seq<Phdr>, kind: nat) returns (k: nat)
    requires exists j :: 0 <= j < |ps| && ps[j].kind == kind
    ensures FirstAt(ps, kind, k)
  {
    k := 0;
    while ps[k].kind != kind
      invariant k < |ps| && forall j :: 0 <= j < k ==> ps[j].kind != kind
      decreases |ps| - k
    {
      k := k + 1;
    }
  }

  /** The stack is executable when the first PT_GNU_STACK header has its lowest flag, relocations are
      read-only when there is a PT_GNU_RELRO header, and the first PT_INTERP header names the interpreter. */
  lemma SegmentsMean(b: seq<byte>, ps: seq<Phdr>)
    ensures ExecStack(ps) <==> exists k: nat :: FirstAt(ps, 0x6474E551, k) && ps[k].flags % 2 == 1
    ensures Relro(ps) <==> exists k :: 0 <= k < |ps| && ps[k].kind == 0x6474E552
    ensures InterpOf(b, ps).None? <==> forall k :: 0 <= k < |ps| ==> ps[k].kind != 3
    ensures forall k: nat :: FirstAt(ps, 3, k) ==> InterpOf(b, ps) == Some(CStr(b, ps[k].offset, 256))
  {
    hide FirstOf, CStr;
    forall k: nat, kind: nat | FirstAt(ps, kind, k) ensures FirstOf(ps, kind) == Some(ps[k]) { FirstIs(ps, kind, k); }
    if exists j :: 0 <= j < |ps| && ps[j].kind == 0x6474E551 {
      var k := FirstFound(ps, 0x6474E551);
    }
  }

  predicate IsPhdr(b: seq<byte>, o: nat, p: Phdr) {
    && o + 56 <= |b|
    && p.kind == Get(b, o, 4) && p.flags == Get(b, o + 4, 4) && p.offset == Get(b, o + 8, 8)
    && p.vaddr == Get(b, o + 16, 8) && p.paddr == Get(b, o + 24, 8) && p.filesz == Get(b, o + 32, 8)
    && p.memsz == Get(b, o + 40, 8) && p.align == Get(b, o + 48, 8)
  }

  predicate IsShdr(b: seq<byte>, o: nat, s: Shdr) {
    && o + 64 <= |b|
    && s.name == Get(b, o, 4) && s.kind == Get(b, o + 4, 4) && s.flags == Get(b, o + 8, 8)
    && s.addr == Get(b, o + 16, 8) && s.offset == Get(b, o + 24, 8) && s.size == Get(b, o + 32, 8)
    && s.link == Get(b, o + 40, 4) && s.entsize == Get(b, o + 56, 8)
  }

  /** Headers read one behind the other; those missing at the end of the n announced start with one that
      does not fit into the file. */
  ghost predicate PhdrTable(b: seq<byte>, at: nat, size: nat, n: nat, ps: seq<Phdr>) {
    && |ps| <= n && (|ps| < n ==> at + |ps| * size + 56 > |b|)
    && forall k: nat :: k < |ps| ==> IsPhdr(b, at + k * size, ps[k])
  }

  ghost predicate ShdrTable(b: seq<byte>, at: nat, n: nat, ss: seq<Shdr>) {
    && |ss| <= n && (|ss| < n ==> at + |ss| * 64 + 64 > |b|)
    && forall k: nat :: k < |ss| ==> IsShdr(b, at + k * 64, ss[k])
  }

  lemma {:induction false} PhdrsAre(b: seq<byte>, at: nat, size: nat, i: nat, n: nat)
    requires i <= n
    ensures PhdrTable(b, at + i * size, size, n - i, PhdrsOf(b, at, size, i, n))
    decreases n - i
  {
    hide Get, IsPhdr, PhdrTable;
    if i < n && at + i * size + PHDR <= |b| {
      PhdrsAre(b, at, size, i + 1, n);
      PhdrIs(b, at + i * size);
      assert at + (i + 1) * size == at + i * size + size;
      OneMorePhdr(b, at + i * size, size, n - i, PhdrOf(b, at + i * size), PhdrsOf(b, at, size, i + 1, n));
    } else {
      NoPhdr(b, at + i * size, size, n - i);
    }
  }

  lemma NoPhdr(b: seq<byte>, at: nat, size: nat, n: nat)
    requires n > 0 ==> at + 56 > |b|
    ensures PhdrTable(b, at, size, n, [])
  {
  }

  lemma OneMorePhdr(b: seq<byte>, at: nat, size: nat, n: nat, p: Phdr, rest: seq<Phdr>)
    requires n > 0 && IsPhdr(b, at, p) && PhdrTable(b, at + size, size, n - 1, rest)
    ensures PhdrTable(b, at, size, n, [p] + rest)
  {
    hide IsPhdr;
    var ps := [p] + rest;
    forall k: nat | k <= |rest| ensures at + k * size == if k == 0 then at else at + size + (k - 1) * size {
    }
    forall k: nat | k < |ps| ensures IsPhdr(b, at + k * size, ps[k]) {
      if k > 0 { assert IsPhdr(b, at + size + (k - 1) * size, rest[k - 1]); }
    }
    assert at + |ps| * size == at + size + |rest| * size;
  }

  lemma PhdrIs(b: seq<byte>, o: nat)
    requires o + PHDR <= |b|
    ensures IsPhdr(b, o, PhdrOf(b, o))
  {
    hide Get;
  }

  lemma {:induction false} ShdrsAre(b: seq<byte>, at: nat, i: nat, n: nat)
    requires i <= n
    ensures ShdrTable(b, at + i * 64, n - i, ShdrsOf(b, at, i, n))
    decreases n - i
  {
    hide Get, IsShdr, ShdrTable;
    if i < n && at + i * SHDR + SHDR <= |b| {
      ShdrsAre(b, at, i + 1, n);
      ShdrIs(b, at + i * SHDR);
      OneMoreShdr(b, at + i * 64, n - i, ShdrOf(b, at + i * SHDR), ShdrsOf(b, at, i + 1, n));
    } else {
      NoShdr(b, at + i * 64, n - i);
    }
  }

  lemma NoShdr(b: seq<byte>, at: nat, n: nat)
    requires n > 0 ==> at + 64 > |b|
    ensures ShdrTable(b, at, n, [])
  {
  }

  lemma OneMoreShdr(b: seq<byte>, at: nat, n: nat, s: Shdr, rest: seq<Shdr>)
    requires n > 0 && IsShdr(b, at, s) && ShdrTable(b, at + 64, n - 1, rest)
    ensures ShdrTable(b, at, n, [s] + rest)
  {
    hide IsShdr;
    var ss := [s] + rest;
    forall k: nat | k < |ss| ensures IsShdr(b, at + k * 64, ss[k]) {
      if k > 0 { assert IsShdr(b, at + 64 + (k - 1) * 64, rest[k - 1]); }
    }
  }

  lemma ShdrIs(b: seq<byte>, o: nat)
    requires o + SHDR <= |b|
    ensures IsShdr(b, o, ShdrOf(b, o))
  {
    hide Get;
  }

  predicate Magic(b: seq<byte>) { |b| >= 64 && b[..4] == [0x7F, 0x45, 0x4C, 0x46] }

  predicate Accepted(b: seq<byte>) { Magic(b) && b[4] == 2 && b[18] == 0x3E && b[19] == 0 }

  /** The program headers the file header announces. */
  function Headers(b: seq<byte>): seq<Phdr>
    requires |b| >= 64
  {
    PhdrsOf(b, Get(b, 32, 8), Get(b, 54, 2), 0, Get(b, 56, 2))
  }

  lemma LoadIs(ps: seq<Phdr>)
    ensures HasLoad(ps) <==> exists k :: 0 <= k < |ps| && ps[k].kind == 1
  {
    hide FirstOf;
  }

  /** The refusals, by the bytes of the file: bad magic, class or machine, and a file that has no loadable
      segment and is not an object file. */
  lemma RefusedIff(b: seq<byte>)
    ensures Parse(b) == Err(BadMagic) <==> !Magic(b)
    ensures Parse(b) == Err(BadClass) <==> Magic(b) && b[4] != 2
    ensures Parse(b) == Err(BadMachine) <==> Magic(b) && b[4] == 2 && !Accepted(b)
    ensures Parse(b) == Err(NoLoad) <==>
              Accepted(b) && Get(b, 16, 2) != 1 && forall k :: 0 <= k < |Headers(b)| ==> Headers(b)[k].kind != 1
  {
    hide Get, PhdrsOf, ShdrsOf, InterpOf, ExecStack, Relro, Named, HasLoad;
    if |b| >= 64 {
      LoadIs(Headers(b));
      GetIs(b, 18);
      assert b[..4] == [b[0], b[1], b[2], b[3]];
    }
  }

  /** Where the result's program headers and scalars were read ... */
  lemma ReadFrom(b: seq<byte>, e: Elf)
    requires Parse(b) == Ok(e)
    ensures |b| >= 64 && e.kind == Get(b, 16, 2) && e.entry == Get(b, 24, 8) && e.phdrs == Headers(b)
    ensures PhdrTable(b, Get(b, 32, 8), Get(b, 54, 2), Get(b, 56, 2), e.phdrs)
    ensures e.execStack == ExecStack(e.phdrs) && e.relro == Relro(e.phdrs) && e.interp == InterpOf(b, e.phdrs)
  {
    hide Get, PhdrsOf, ShdrsOf, InterpOf, ExecStack, Relro, PhdrTable, HasLoad, Named;
    PhdrsAre(b, Get(b, 32, 8), Get(b, 54, 2), 0, Get(b, 56, 2));
  }

  /** Each name is read at its own offset behind the table, unless there is none. */
  ghost predicate NamesRead(b: seq<byte>, ndx: nat, hdrs: seq<Shdr>, ss: seq<Section>) {
    && |ss| == |hdrs|
    && (forall k :: 0 <= k < |ss| ==> ss[k].hdr == hdrs[k])
    && (ndx >= |hdrs| || hdrs[ndx].offset == 0 ==> forall k :: 0 <= k < |ss| ==> ss[k].name == [])
    && (ndx < |hdrs| && hdrs[ndx].offset != 0 ==>
          forall k :: 0 <= k < |ss| ==> ss[k].name == CStr(b, hdrs[ndx].offset + hdrs[k].name, 64))
  }

  /** ... and where its sections were. */
  lemma SectionsReadFrom(b: seq<byte>, e: Elf) returns (hdrs: seq<Shdr>)
    requires Parse(b) == Ok(e)
    ensures |b| >= 64 && ShdrTable(b, Get(b, 40, 8), Get(b, 60, 2), hdrs)
    ensures NamesRead(b, Get(b, 62, 2), hdrs, e.sections)
  {
    hide Get, PhdrsOf, ShdrsOf, InterpOf, ExecStack, Relro, ShdrTable, CStr, HasLoad, NamesRead;
    hdrs := ShdrsOf(b, Get(b, 40, 8), 0, Get(b, 60, 2));
    ShdrsAre(b, Get(b, 40, 8), 0, Get(b, 60, 2));
    NamedAre(b, Get(b, 62, 2), hdrs);
  }

  lemma NamedAre(b: seq<byte>, ndx: nat, hdrs: seq<Shdr>)
    ensures NamesRead(b, ndx, hdrs, Named(b, TableOffset(hdrs, ndx), hdrs))
  {
    hide CStr;
  }

  // ------------------------------------------------------------ the reader's loops

  method ReadPhdrs(b: array<byte>, phoff: nat, entsize: nat, n: nat) returns (ps: seq<Phdr>)
    ensures ps == PhdrsOf(b[..], phoff, entsize, 0, n)
  {
    hide Get, PhdrOf;
    ghost var bs := b[..];
    ps := [];
    var i := 0;
    while i < n
      invariant i <= n && ps + PhdrsOf(bs, phoff, entsize, i, n) == PhdrsOf(bs, phoff, entsize, 0, n)
    {
      var o := phoff + i * entsize;
      if o + PHDR > b.Length { break; }
      assert PhdrsOf(bs, phoff, entsize, i, n) == [PhdrOf(bs, o)] + PhdrsOf(bs, phoff, entsize, i + 1, n);
      ps := ps + [PhdrOf(b[..], o)];
      i := i + 1;
    }
  }

  method ReadShdrs(b: array<byte>, shoff: nat, n: nat) returns (ss: seq<Shdr>)
    ensures ss == ShdrsOf(b[..], shoff, 0, n)
  {
    hide Get, ShdrOf;
    ghost var bs := b[..];
    ss := [];
    var i := 0;
    while i < n
      invariant i <= n && ss + ShdrsOf(bs, shoff, i, n) == ShdrsOf(bs, shoff, 0, n)
    {
      var o := shoff + i * SHDR;
      if o + SHDR > b.Length { break; }
      assert ShdrsOf(bs, shoff, i, n) == [ShdrOf(bs, o)] + ShdrsOf(bs, shoff, i + 1, n);
      ss := ss + [ShdrOf(b[..], o)];
      i := i + 1;
    }
  }

  method ReadCStr(b: array<byte>, o: nat, max: nat) returns (s: seq<byte>)
    ensures s == CStr(b[..], o, max)
  {
    s := [];
    var i := 0;
    while i < max && o + i < b.Length && b[o + i] != 0
      invariant i <= max && s + CStr(b[..], o + i, max - i) == CStr(b[..], o, max)
    {
      s := s + [b[o + i]];
      i := i + 1;
    }
  }

  method FindPhdr(ps: seq<Phdr>, kind: nat) returns (r: Option<Phdr>)
    ensures r == FirstOf(ps, kind)
  {
    var i := 0;
    while i < |ps|
      invariant i <= |ps| && FirstOf(ps, kind) == FirstOf(ps[i..], kind)
    {
      if ps[i].kind == kind { return Some(ps[i]); }
      i := i + 1;
    }
    r := None;
  }

  method ParseElf(b: array<byte>) returns (r: Result<Elf, Error>)
    ensures r == Parse(b[..])
  {
    hide Get, PhdrsOf, ShdrsOf, CStr, HasLoad, FirstOf;
    if b.Length < EHDR || b[0] != 0x7F || b[1] != 0x45 || b[2] != 0x4C || b[3] != 0x46 { return Err(BadMagic); }
    if b[4] != 2 { return Err(BadClass); }
    var kind := Get(b[..], 16, 2);
    if Get(b[..], 18, 2) != 0x3E { return Err(BadMachine); }
    var ps := ReadPhdrs(b, Get(b[..], 32, 8), Get(b[..], 54, 2), Get(b[..], 56, 2));
    if !HasLoad(ps) && kind != 1 { return Err(NoLoad); }
    var interp := None;
    var at := FindPhdr(ps, PT_INTERP);
    if at.Some? {
      var path := ReadCStr(b, at.value.offset, INTERP_MAX);
      interp := Some(path);
    }
    var stack := FindPhdr(ps, PT_GNU_STACK);
    var execStack := stack.Some? && stack.value.flags % 2 == 1;
    var ro := FindPhdr(ps, PT_GNU_RELRO);
    var relro := ro.Some?;
    var hdrs := ReadShdrs(b, Get(b[..], 40, 8), Get(b[..], 60, 2));
    var ndx := Get(b[..], 62, 2);
    var shstrOff := TableOffset(hdrs, ndx);
    var sections: seq<Section> := [];
    for k := 0 to |hdrs|
      invariant sections == Named(b[..], shstrOff, hdrs)[..k]
    {
      var name := [];
      if shstrOff != 0 { name := ReadCStr(b, shstrOff + hdrs[k].name, NAME_MAX); }
      sections := sections + [Section(hdrs[k], name)];
    }
    assert sections == Named(b[..], shstrOff, hdrs);
    r := Ok(Elf(kind, Get(b[..], 24, 8), ps, interp, execStack, relro, sections));
  }

  // ------------------------------------------------------------ the round trip

  lemma PhdrChain(o: nat, p: Phdr)
    ensures Chain(PhdrFields(o, p), o, o + PHDR)
  {
  }

  lemma ShdrChain(o: nat, s: Shdr)
    ensures Chain(ShdrFields(o, s), o, o + SHDR)
  {
  }

  lemma EhdrChain(h: Ehdr)
    ensures Chain(EhdrFields(h), 0, EHDR)
  {
  }

  /** What a generator lays out: headers, section names and the place of the name table. */
  datatype Image = Image(hdr: Ehdr, phdrs: seq<Phdr>, shdrs: seq<Shdr>, names: seq<seq<byte>>, strOff: nat)

  function PhdrAt(im: Image, k: nat): nat { im.hdr.phoff + k * PHDR }
  function ShdrAt(im: Image, k: nat): nat { im.hdr.shoff + k * SHDR }

  predicate Apart(a: nat, n: nat, b: nat, m: nat) { n == 0 || m == 0 || a + n <= b || b + m <= a }

  /** A region, if it is not empty, lies behind the file header and inside n bytes. */
  predicate Inside(a: nat, size: nat, n: nat) { size == 0 || EHDR <= a <= a + size <= n }

  /** Size of the name table, when the header's index names a section. */
  function TableSize(im: Image): nat { if HasNames(im) then |TableBytes(im.names)| else 0 }

  /** The header's name-table index is that of a section; files without sections have none. */
  predicate HasNames(im: Image) { im.hdr.shstrndx < |im.shdrs| }

  /** The regions are disjoint and inside a buffer of n bytes. */
  predicate Placed(im: Image, n: nat) {
    var P, S, T := |im.phdrs| * PHDR, |im.shdrs| * SHDR, TableSize(im);
    && EHDR <= n
    && Inside(im.hdr.phoff, P, n) && Inside(im.hdr.shoff, S, n) && Inside(im.strOff, T, n)
    && Apart(im.hdr.phoff, P, im.hdr.shoff, S)
    && Apart(im.hdr.phoff, P, im.strOff, T)
    && Apart(im.hdr.shoff, S, im.strOff, T)
  }

  ghost predicate PhdrsIn(b: seq<byte>, im: Image, n: nat)
    requires n <= |im.phdrs|
  {
    forall k :: 0 <= k < n ==> Holds(b, PhdrFields(PhdrAt(im, k), im.phdrs[k]))
  }

  ghost predicate ShdrsIn(b: seq<byte>, im: Image, n: nat)
    requires n <= |im.shdrs|
  {
    forall k :: 0 <= k < n ==> Holds(b, ShdrFields(ShdrAt(im, k), im.shdrs[k]))
  }

  ghost predicate TableIn(b: seq<byte>, im: Image) {
    var t := TableBytes(im.names);
    im.strOff + |t| <= |b| && b[im.strOff..im.strOff + |t|] == t
  }

  /** The buffer carries every header and, if there is one, the name table. */
  ghost predicate LaidOut(b: seq<byte>, im: Image) {
    && Holds(b, EhdrFields(im.hdr))
    && PhdrsIn(b, im, |im.phdrs|)
    && ShdrsIn(b, im, |im.shdrs|)
    && (HasNames(im) ==> TableIn(b, im))
  }

  /** Writing a header over a region keeps fields held elsewhere. */
  lemma HoldsAround(s: seq<byte>, t: seq<byte>, fs: seq<Field>, lo: nat, hi: nat)
    requires Holds(s, fs) && Chain(fs, lo, hi) && SameInside(s, t, lo, hi)
    ensures Holds(t, fs)
  {
    hide Get;
    forall k | 0 <= k < |fs|
      ensures End(fs[k]) <= |t| && Get(t, fs[k].at, fs[k].width) == fs[k].value % Pow256(fs[k].width)
    {
      ChainWithin(fs, lo, hi, k);
      GetSame(s, t, lo, hi, fs[k].at, fs[k].width);
    }
  }

  lemma PhdrsAround(s: seq<byte>, t: seq<byte>, im: Image, n: nat)
    requires n <= |im.phdrs| && PhdrsIn(s, im, n) && SameInside(s, t, im.hdr.phoff, PhdrAt(im, n))
    ensures PhdrsIn(t, im, n)
  {
    hide Holds;
    forall k | 0 <= k < n ensures Holds(t, PhdrFields(PhdrAt(im, k), im.phdrs[k])) {
      PhdrChain(PhdrAt(im, k), im.phdrs[k]);
      HoldsAround(s, t, PhdrFields(PhdrAt(im, k), im.phdrs[k]), PhdrAt(im, k), PhdrAt(im, k) + PHDR);
    }
  }

  lemma ShdrsAround(s: seq<byte>, t: seq<byte>, im: Image, n: nat)
    requires n <= |im.shdrs| && ShdrsIn(s, im, n) && SameInside(s, t, im.hdr.shoff, ShdrAt(im, n))
    ensures ShdrsIn(t, im, n)
  {
    hide Holds;
    forall k | 0 <= k < n ensures Holds(t, ShdrFields(ShdrAt(im, k), im.shdrs[k])) {
      ShdrChain(ShdrAt(im, k), im.shdrs[k]);
      HoldsAround(s, t, ShdrFields(ShdrAt(im, k), im.shdrs[k]), ShdrAt(im, k), ShdrAt(im, k) + SHDR);
    }
  }

  /** One header written by its stores. */
  method PutHeader(b: array<byte>, fs: seq<Field>, lo: nat, hi: nat)
    requires Chain(fs, lo, hi) && hi <= b.Length
    modifies b
    ensures Holds(b[..], fs) && SameOutside(old(b[..]), b[..], lo, hi)
  {
    ChainWritten(b[..], fs, lo, hi);
    PutAll(b, fs);
  }

  method PutPhdrs(b: array<byte>, im: Image)
    requires im.phdrs == [] || PhdrAt(im, |im.phdrs|) <= b.Length
    modifies b
    ensures PhdrsIn(b[..], im, |im.phdrs|)
    ensures SameOutside(old(b[..]), b[..], im.hdr.phoff, PhdrAt(im, |im.phdrs|))
  {
    hide Holds, PhdrFields, Chain;
    for k := 0 to |im.phdrs|
      invariant PhdrsIn(b[..], im, k)
      invariant SameOutside(old(b[..]), b[..], im.hdr.phoff, PhdrAt(im, k))
    {
      ghost var s := b[..];
      PhdrChain(PhdrAt(im, k), im.phdrs[k]);
      PutHeader(b, PhdrFields(PhdrAt(im, k), im.phdrs[k]), PhdrAt(im, k), PhdrAt(im, k) + PHDR);
      PhdrsAround(s, b[..], im, k);
    }
  }

  method PutShdrs(b: array<byte>, im: Image)
    requires im.shdrs == [] || ShdrAt(im, |im.shdrs|) <= b.Length
    modifies b
    ensures ShdrsIn(b[..], im, |im.shdrs|)
    ensures SameOutside(old(b[..]), b[..], im.hdr.shoff, ShdrAt(im, |im.shdrs|))
  {
    hide Holds, ShdrFields, Chain;
    for k := 0 to |im.shdrs|
      invariant ShdrsIn(b[..], im, k)
      invariant SameOutside(old(b[..]), b[..], im.hdr.shoff, ShdrAt(im, k))
    {
      ghost var s := b[..];
      ShdrChain(ShdrAt(im, k), im.shdrs[k]);
      PutHeader(b, ShdrFields(ShdrAt(im, k), im.shdrs[k]), ShdrAt(im, k), ShdrAt(im, k) + SHDR);
      ShdrsAround(s, b[..], im, k);
    }
  }

  method PutTable(b: array<byte>, o: nat, bytes: seq<byte>)
    requires o + |bytes| <= b.Length
    modifies b
    ensures b[..] == Splice(old(b[..]), o, bytes)
  {
    for i := 0 to |bytes|
      invariant forall j :: 0 <= j < b.Length ==>
                  b[j] == if o <= j < o + i then bytes[j - o] else old(b[..])[j]
    {
      b[o + i] := bytes[i];
    }
  }

  predicate InRegions(im: Image, i: nat) {
    || i < EHDR
    || im.hdr.phoff <= i < PhdrAt(im, |im.phdrs|)
    || im.hdr.shoff <= i < ShdrAt(im, |im.shdrs|)
    || im.strOff <= i < im.strOff + TableSize(im)
  }

  /** The name table, if there is one. */
  method PutNames(b: array<byte>, im: Image)
    requires Placed(im, b.Length)
    modifies b
    ensures HasNames(im) ==> TableIn(b[..], im)
    ensures SameOutside(old(b[..]), b[..], im.strOff, im.strOff + TableSize(im))
  {
    hide TableBytes;
    if HasNames(im) {
      TableStartsWithNul(im.names);
      var bytes, offs := Strtab(im.names);
      PutTable(b, im.strOff, bytes);
    }
  }

  /** What one region's stores leave alone in the others. */
  lemma OtherRegion(s: seq<byte>, t: seq<byte>, a: nat, n: nat, b: nat, m: nat)
    requires SameOutside(s, t, b, b + m) && Apart(a, n, b, m)
    ensures SameInside(s, t, a, a + n)
  {
  }

  lemma TableAround(s: seq<byte>, t: seq<byte>, im: Image)
    requires TableIn(s, im) && SameInside(s, t, im.strOff, im.strOff + |TableBytes(im.names)|)
    ensures TableIn(t, im)
  {
    hide TableBytes;
    var o, n := im.strOff, |TableBytes(im.names)|;
    assert t[o..o + n] == s[o..o + n];
  }

  /** The generators' order: file header, program headers, name table, section headers. */
  method WriteImage(b: array<byte>, im: Image)
    requires Placed(im, b.Length)
    modifies b
    ensures LaidOut(b[..], im)
    ensures forall i :: 0 <= i < b.Length && !InRegions(im, i) ==> b[i] == old(b[..])[i]
  {
    hide Holds, PhdrsIn, ShdrsIn, EhdrFields, TableBytes, TableIn, Chain, SameInside, Apart;
    var P, S, T := |im.phdrs| * PHDR, |im.shdrs| * SHDR, TableSize(im);
    EhdrChain(im.hdr);
    PutHeader(b, EhdrFields(im.hdr), 0, EHDR);
    ghost var s := b[..];
    PutPhdrs(b, im);
    ghost var t := b[..];
    HeaderAround(s, t, im, im.hdr.phoff, P, b.Length);
    PutNames(b, im);
    ghost var u := b[..];
    HeaderAround(t, u, im, im.strOff, T, b.Length);
    OtherRegion(t, u, im.hdr.phoff, P, im.strOff, T);
    PhdrsAround(t, u, im, |im.phdrs|);
    PutShdrs(b, im);
    HeaderAround(u, b[..], im, im.hdr.shoff, S, b.Length);
    OtherRegion(u, b[..], im.hdr.phoff, P, im.hdr.shoff, S);
    PhdrsAround(u, b[..], im, |im.phdrs|);
    TableKept(u, b[..], im, b.Length);
  }

  lemma HeaderAround(s: seq<byte>, t: seq<byte>, im: Image, a: nat, size: nat, n: nat)
    requires Holds(s, EhdrFields(im.hdr)) && SameOutside(s, t, a, a + size) && Inside(a, size, n)
    ensures Holds(t, EhdrFields(im.hdr))
  {
    hide Holds, EhdrFields;
    EhdrChain(im.hdr);
    HoldsAround(s, t, EhdrFields(im.hdr), 0, EHDR);
  }

  lemma TableKept(s: seq<byte>, t: seq<byte>, im: Image, n: nat)
    requires Placed(im, n) && SameOutside(s, t, im.hdr.shoff, im.hdr.shoff + |im.shdrs| * SHDR)
    requires HasNames(im) ==> TableIn(s, im)
    ensures HasNames(im) ==> TableIn(t, im)
  {
    hide TableBytes;
    if HasNames(im) {
      OtherRegion(s, t, im.strOff, TableSize(im), im.hdr.shoff, |im.shdrs| * SHDR);
      TableAround(s, t, im);
    }
  }

  // ------------------------------------------------------------ what the reader makes of it

  predicate Fits(fs: seq<Field>) { forall k :: 0 <= k < |fs| ==> fs[k].value < Pow256(fs[k].width) }

  /** Values within their fields' widths, sizes as the header counts them, each section named. */
  ghost predicate WellFormed(im: Image, sectionNames: seq<seq<byte>>) {
    && Fits(EhdrFields(im.hdr))
    && (forall k :: 0 <= k < |im.phdrs| ==> Fits(PhdrFields(0, im.phdrs[k])))
    && (forall k :: 0 <= k < |im.shdrs| ==> Fits(ShdrFields(0, im.shdrs[k])))
    && im.hdr.phentsize == PHDR && im.hdr.phnum == |im.phdrs| && im.hdr.shnum == |im.shdrs|
    && |sectionNames| == |im.shdrs|
    && (HasNames(im) ==>
          && im.shdrs[im.hdr.shstrndx].offset == im.strOff
          && forall k :: 0 <= k < |im.shdrs| ==>
            NulFree(sectionNames[k]) && Names(im.names, im.shdrs[k].name, sectionNames[k]))
  }

  function Seen(s: Shdr): Shdr { s.(info := 0, addralign := 0) }

  function Cut(name: seq<byte>): seq<byte> { name[..Min(NAME_MAX, |name|)] }

  /** Sections as the reader lists them. */
  function SeenSections(im: Image, sectionNames: seq<seq<byte>>): (ss: seq<Section>)
    requires |sectionNames| == |im.shdrs|
    ensures |ss| == |im.shdrs|
    ensures forall k :: 0 <= k < |ss| ==>
      ss[k] == Section(Seen(im.shdrs[k]), if HasNames(im) then Cut(sectionNames[k]) else [])
  {
    seq(|im.shdrs|, k requires 0 <= k < |im.shdrs| =>
      Section(Seen(im.shdrs[k]), if HasNames(im) then Cut(sectionNames[k]) else []))
  }

  /** What the reader should return. */
  function Expected(b: seq<byte>, im: Image, sectionNames: seq<seq<byte>>): Result<Elf, Error>
    requires |sectionNames| == |im.shdrs|
  {
    if !HasLoad(im.phdrs) then Err(NoLoad)
    else Ok(Elf(2, im.hdr.entry, im.phdrs, InterpOf(b, im.phdrs), ExecStack(im.phdrs), Relro(im.phdrs),
                SeenSections(im, sectionNames)))
  }

  lemma FieldValue(b: seq<byte>, fs: seq<Field>, gs: seq<Field>, k: nat)
    requires Holds(b, fs) && k < |fs| == |gs| && gs[k].value == fs[k].value && gs[k].width == fs[k].width && Fits(gs)
    ensures End(fs[k]) <= |b| && Get(b, fs[k].at, fs[k].width) == fs[k].value
  {
    hide Get, Pow256;
    ModIs(fs[k].value, Pow256(fs[k].width), 0, fs[k].value);
  }

  lemma PhdrRead(b: seq<byte>, o: nat, p: Phdr)
    requires Holds(b, PhdrFields(o, p)) && Fits(PhdrFields(0, p))
    ensures o + PHDR <= |b| && PhdrOf(b, o) == p
  {
    hide Get, Holds, Fits;
    var fs, gs := PhdrFields(o, p), PhdrFields(0, p);
    FieldValue(b, fs, gs, 0);
    FieldValue(b, fs, gs, 1);
    FieldValue(b, fs, gs, 2);
    FieldValue(b, fs, gs, 3);
    FieldValue(b, fs, gs, 4);
    FieldValue(b, fs, gs, 5);
    FieldValue(b, fs, gs, 6);
    FieldValue(b, fs, gs, 7);
  }

  lemma ShdrRead(b: seq<byte>, o: nat, s: Shdr)
    requires Holds(b, ShdrFields(o, s)) && Fits(ShdrFields(0, s))
    ensures o + SHDR <= |b| && ShdrOf(b, o) == Seen(s)
  {
    hide Get, Holds, Fits;
    var fs, gs := ShdrFields(o, s), ShdrFields(0, s);
    FieldValue(b, fs, gs, 0);
    FieldValue(b, fs, gs, 1);
    FieldValue(b, fs, gs, 2);
    FieldValue(b, fs, gs, 3);
    FieldValue(b, fs, gs, 4);
    FieldValue(b, fs, gs, 5);
    FieldValue(b, fs, gs, 6);
    FieldValue(b, fs, gs, 9);
  }

  lemma {:induction false} PhdrsRead(b: seq<byte>, im: Image, i: nat)
    requires PhdrsIn(b, im, |im.phdrs|) && i <= |im.phdrs|
    requires forall k :: 0 <= k < |im.phdrs| ==> Fits(PhdrFields(0, im.phdrs[k]))
    ensures PhdrsOf(b, im.hdr.phoff, PHDR, i, |im.phdrs|) == im.phdrs[i..]
    decreases |im.phdrs| - i
  {
    hide Holds, Fits, PhdrOf, PhdrFields;
    if i < |im.phdrs| {
      PhdrRead(b, PhdrAt(im, i), im.phdrs[i]);
      PhdrsRead(b, im, i + 1);
    }
  }

  lemma {:induction false} ShdrsRead(b: seq<byte>, im: Image, i: nat)
    requires ShdrsIn(b, im, |im.shdrs|) && i <= |im.shdrs|
    requires forall k :: 0 <= k < |im.shdrs| ==> Fits(ShdrFields(0, im.shdrs[k]))
    ensures var hs := ShdrsOf(b, im.hdr.shoff, i, |im.shdrs|);
      |hs| == |im.shdrs| - i && forall k :: 0 <= k < |hs| ==> hs[k] == Seen(im.shdrs[i + k])
    decreases |im.shdrs| - i
  {
    hide Holds, Fits, ShdrOf, ShdrFields;
    if i < |im.shdrs| {
      ShdrRead(b, ShdrAt(im, i), im.shdrs[i]);
      ShdrsRead(b, im, i + 1);
      var rest := ShdrsOf(b, im.hdr.shoff, i + 1, |im.shdrs|);
      var hs := ShdrsOf(b, im.hdr.shoff, i, |im.shdrs|);
      assert hs == [Seen(im.shdrs[i])] + rest;
      forall k | 0 <= k < |hs| ensures hs[k] == Seen(im.shdrs[i + k]) {
        if k > 0 { assert rest[k - 1] == Seen(im.shdrs[i + 1 + (k - 1)]); }
      }
    }
  }

  lemma {:induction false} TableStartsWithNul(names: seq<seq<byte>>)
    ensures |TableBytes(names)| > 0 && TableBytes(names)[0] == 0
  {
    if names != [] { TableStartsWithNul(names[..|names| - 1]); }
  }

  lemma Within(b: seq<byte>, p: nat, t: seq<byte>, o: nat, n: nat)
    requires p + |t| <= |b| && b[p..p + |t|] == t && o + n < |t|
    ensures b[p + o..p + o + n] == t[o..o + n] && b[p + o + n] == t[o + n]
  {
    var v, w := b[p + o..p + o + n], t[o..o + n];
    forall i | 0 <= i < n ensures v[i] == w[i] { assert v[i] == b[p + (o + i)] == t[o + i]; }
    assert v == w;
    assert b[p + (o + n)] == t[o + n];
  }

  /** A name offset reads back as its name, cut at 64 characters. */
  lemma NameRead(b: seq<byte>, im: Image, o: nat, name: seq<byte>)
    requires TableIn(b, im) && Names(im.names, o, name) && NulFree(name)
    ensures CStr(b, im.strOff + o, NAME_MAX) == Cut(name)
  {
    hide TableBytes, CStr;
    var t, p := TableBytes(im.names), im.strOff;
    if o == 0 && name == [] {
      TableStartsWithNul(im.names);
    } else {
      var k: nat :| k < |im.names| && im.names[k] == name && o == NameOffset(im.names, k);
      NameInTable(im.names, k);
    }
    Within(b, p, t, o, |name|);
    CStrReads(b, p + o, NAME_MAX, name);
  }

  /** The file header: magic, class, type and machine as fixed by the writer, the rest as given. */
  lemma EhdrRead(b: seq<byte>, h: Ehdr)
    requires Holds(b, EhdrFields(h)) && Fits(EhdrFields(h))
    ensures |b| >= EHDR && b[0] == 0x7F && b[1] == 0x45 && b[2] == 0x4C && b[3] == 0x46 && b[4] == 2
    ensures Get(b, 16, 2) == 2 && Get(b, 18, 2) == 0x3E && Get(b, 24, 8) == h.entry
    ensures Get(b, 32, 8) == h.phoff && Get(b, 40, 8) == h.shoff && Get(b, 54, 2) == h.phentsize
    ensures Get(b, 56, 2) == h.phnum && Get(b, 60, 2) == h.shnum && Get(b, 62, 2) == h.shstrndx
  {
    hide Get, Holds, Fits;
    var fs := EhdrFields(h);
    FieldValue(b, fs, fs, 0);
    FieldValue(b, fs, fs, 1);
    FieldValue(b, fs, fs, 2);
    FieldValue(b, fs, fs, 3);
    FieldValue(b, fs, fs, 4);
    FieldValue(b, fs, fs, 7);
    FieldValue(b, fs, fs, 8);
    FieldValue(b, fs, fs, 10);
    FieldValue(b, fs, fs, 11);
    FieldValue(b, fs, fs, 12);
    FieldValue(b, fs, fs, 15);
    FieldValue(b, fs, fs, 16);
    FieldValue(b, fs, fs, 18);
    FieldValue(b, fs, fs, 19);
    forall i | 0 <= i < 5 ensures Get(b, i, 1) == b[i] { GetOne(b, i); }
  }

  lemma GetOne(b: seq<byte>, i: nat)
    requires i < |b|
    ensures Get(b, i, 1) == b[i]
  {
    assert b[i..i + 1] == [b[i]];
    assert [b[i]][1..] == [];
  }

  /** The name table the reader uses: the header's, or none when its index names no section. */
  function TableOffset(hdrs: seq<Shdr>, ndx: nat): nat { if ndx < |hdrs| then hdrs[ndx].offset else 0 }

  lemma SectionsRead(b: seq<byte>, im: Image, sectionNames: seq<seq<byte>>)
    requires LaidOut(b, im) && WellFormed(im, sectionNames) && (HasNames(im) ==> im.strOff != 0)
    ensures var hdrs := ShdrsOf(b, im.hdr.shoff, 0, |im.shdrs|);
      |hdrs| == |im.shdrs| && Named(b, TableOffset(hdrs, im.hdr.shstrndx), hdrs) == SeenSections(im, sectionNames)
  {
    hide Fits, ShdrsOf, CStr, PhdrsIn, ShdrsIn, TableIn, Holds, EhdrFields, PhdrFields, ShdrFields;
    hide TableBytes, Names, NulFree, Cut, Named, SeenSections;
    ShdrsRead(b, im, 0);
    var hdrs := ShdrsOf(b, im.hdr.shoff, 0, |im.shdrs|);
    assert HasNames(im) ==> hdrs[im.hdr.shstrndx] == Seen(im.shdrs[0 + im.hdr.shstrndx]);
    var ns, ss := Named(b, TableOffset(hdrs, im.hdr.shstrndx), hdrs), SeenSections(im, sectionNames);
    forall k: nat | k < |im.shdrs| ensures ns[k] == ss[k] {
      assert hdrs[k] == Seen(im.shdrs[0 + k]);
      if HasNames(im) { NameRead(b, im, im.shdrs[k].name, sectionNames[k]); }
    }
    assert ns == ss;
  }

  /** Reading back a laid-out image gives every header and, when there is a name table, every section
      name; an image without section headers gives no sections. */
  lemma RoundTrip(b: seq<byte>, im: Image, sectionNames: seq<seq<byte>>)
    requires Placed(im, |b|) && LaidOut(b, im) && WellFormed(im, sectionNames)
    ensures Parse(b) == Expected(b, im, sectionNames)
  {
    hide Get, Holds, Fits, PhdrsOf, ShdrsOf, Named, PhdrsIn, ShdrsIn, TableIn, EhdrFields, PhdrFields;
    hide ShdrFields, TableBytes, Names, NulFree, HasLoad, InterpOf, ExecStack, Relro, Cut, Seen;
    EhdrRead(b, im.hdr);
    PhdrsRead(b, im, 0);
    if HasNames(im) { TableStartsWithNul(im.names); }
    SectionsRead(b, im, sectionNames);
    assert im.phdrs[0..] == im.phdrs;
  }
}
