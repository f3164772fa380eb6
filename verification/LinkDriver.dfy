/** linkDriver of packages/compiler-worker/src/linkdriver.mjs: page layout of the linked
    sections, and relocation of their bytes in place. */
module LinkDriver {
  import opened Common
  import opened GuestMemory
  import opened Coff

  const PAGE: nat := 4096
  const TWO31: int := 0x8000_0000

  const ABS: nat := 1
  const ADDR32: nat := 2
  const REL32: nat := 4
  const SECTION: nat := 10
  const SECREL: nat := 11

  datatype Missing = Named(name: string) | Index(symIndex: nat)

  datatype Error =
    | OutOfReach(target: int) | Unsupported(kind: nat) | BadTargetSection | FieldPastEnd
    | Unresolved(missing: seq<Missing>)

  datatype Input = Input(objs: seq<Obj>, resolve: string -> Option<int>, imageBase: int)

  // ------------------------------------------------------------ page layout

  function PageCeil(n: nat): (c: nat)
    ensures n <= c < n + PAGE && c % PAGE == 0
  {
    (n + PAGE - 1) / PAGE * PAGE
  }

  /** RVA cursor before the i-th section name. */
  function Cursor(secs: seq<Sec>, i: nat): (rva: nat)
    requires i <= |ORDER|
    ensures rva % PAGE == 0
  {
    if i == 0 then 0x1000
    else Cursor(secs, i - 1) + if Present(secs, ORDER[i - 1]) then PageCeil(|Bucket(secs, ORDER[i - 1])|) else 0
  }

  function NameIndex(name: string): (i: nat)
    requires Kept(name)
    ensures i < |ORDER| && ORDER[i] == name
  {
    if name == ORDER[0] then 0 else if name == ORDER[1] then 1 else if name == ORDER[2] then 2 else 3
  }

  function Rva(secs: seq<Sec>, name: string): nat
    requires Kept(name)
  {
    Cursor(secs, NameIndex(name))
  }

  lemma {:induction false} CursorGrows(secs: seq<Sec>, i: nat, j: nat)
    requires i < j <= |ORDER|
    ensures Cursor(secs, i) + (if Present(secs, ORDER[i]) then |Bucket(secs, ORDER[i])| else 0) <= Cursor(secs, j)
  {
    if i + 1 < j { CursorGrows(secs, i, j - 1); }
  }

  /** Output sections start on pages, above the headers, and do not overlap. */
  lemma SectionsApart(secs: seq<Sec>, a: string, b: string)
    requires Kept(a) && Kept(b) && a != b && Present(secs, a) && Present(secs, b)
    ensures Rva(secs, a) % PAGE == 0 && 0x1000 <= Rva(secs, a)
    ensures Rva(secs, a) + |Bucket(secs, a)| <= Rva(secs, b) || Rva(secs, b) + |Bucket(secs, b)| <= Rva(secs, a)
  {
    var i, j := NameIndex(a), NameIndex(b);
    if i < j { CursorGrows(secs, i, j); } else { CursorGrows(secs, j, i); }
    if i > 0 { CursorGrows(secs, 0, i); }
  }

  /** In the order .text, .rdata, .data, .bss the first section that exists is at 0x1000 and each later
      one at the first page boundary behind the one before. */
  lemma {:induction false} RvaTight(secs: seq<Sec>, i: nat, j: nat)
    requires i < j < 4
    requires var names := [".text", ".rdata", ".data", ".bss"];
      Present(secs, names[j]) && forall k :: i < k < j ==> !Present(secs, names[k])
    ensures var names := [".text", ".rdata", ".data", ".bss"];
      var end := Rva(secs, names[i]) + |Bucket(secs, names[i])|;
      Present(secs, names[i]) ==> Rva(secs, names[j]) % 4096 == 0 && 0 <= Rva(secs, names[j]) - end < 4096
    ensures var names := [".text", ".rdata", ".data", ".bss"];
      i == 0 && !Present(secs, names[0]) ==> Rva(secs, names[j]) == 0x1000
  {
    var names := [".text", ".rdata", ".data", ".bss"];
    IndexOf(i);
    IndexOf(j);
    CursorSkips(secs, i + 1, j);
  }

  lemma IndexOf(i: nat)
    requires i < 4
    ensures Kept(ORDER[i]) && NameIndex(ORDER[i]) == i && ORDER[i] == [".text", ".rdata", ".data", ".bss"][i]
  {
  }

  lemma {:induction false} CursorSkips(secs: seq<Sec>, i: nat, j: nat)
    requires i <= j <= |ORDER| && forall k :: i <= k < j ==> !Present(secs, ORDER[k])
    ensures Cursor(secs, j) == Cursor(secs, i)
    decreases j
  {
    if i < j { CursorSkips(secs, i, j - 1); }
  }

  lemma FirstRva(secs: seq<Sec>)
    ensures Rva(secs, ".text") == 0x1000
  {
    IndexOf(0);
  }

  // ------------------------------------------------------------ what one relocation does

  datatype Target = Address(addr: int) | Unknown(missing: Missing) | BadSection

  lemma SymbolKept(objs: seq<Obj>, count: nat, name: string)
    requires count <= |objs| && name in Symbols(objs, count)
    ensures Kept(Symbols(objs, count)[name].section)
  {
    hide Kept, Base;
    SymbolsLast(objs, count - 1, |objs[count - 1].symbols|, name);
  }

  function SymbolAddress(x: Input, name: string): Option<int> {
    var syms := Symbols(x.objs, |x.objs|);
    if name in syms then
      SymbolKept(x.objs, |x.objs|, name);
      Some(x.imageBase + Rva(Flat(x.objs), syms[name].section) + syms[name].offset)
    else x.resolve(name)
  }

  function TargetOf(x: Input, oi: nat, rel: Reloc): Target
    requires oi < |x.objs|
  {
    var obj := x.objs[oi];
    if rel.symIndex >= |obj.symbolsByIndex| || obj.symbolsByIndex[rel.symIndex].None? then Unknown(Index(rel.symIndex))
    else
      var sym := obj.symbolsByIndex[rel.symIndex].value;
      if sym.sectionNumber > 0 then
        var t := sym.sectionNumber - 1;
        if t >= |obj.sections| || !Kept(obj.sections[t].name) then BadSection
        else Address(x.imageBase + Rva(Flat(x.objs), obj.sections[t].name) + Base(x.objs, oi, t) + sym.value)
      else match SymbolAddress(x, sym.name)
        case None => Unknown(Named(sym.name))
        case Some(a) => Address(a)
  }

  // ------------------------------------------------------------ which address a target is

  /** The address lies value bytes behind the start of section si of object oi: counted from the linked
      section's RVA that is behind the copy's place in the bucket, where the section's own byte is. */
  ghost predicate PointsInto(x: Input, oi: nat, si: nat, value: nat, addr: int) {
    && oi < |x.objs| && si < |x.objs[oi].sections| && Kept(x.objs[oi].sections[si].name)
    && Position(x.objs, oi, si) < |Flat(x.objs)|
    && var sec := x.objs[oi].sections[si];
       var d, b := addr - x.imageBase - Rva(Flat(x.objs), sec.name), Bucket(Flat(x.objs), sec.name);
       && d == Start(Flat(x.objs), Position(x.objs, oi, si)) + value
       && (value < |sec.data| ==> 0 <= d < |b| && b[d] == sec.data[value])
  }

  lemma PointsHere(x: Input, oi: nat, si: nat, value: nat)
    requires oi < |x.objs| && si < |x.objs[oi].sections| && Kept(x.objs[oi].sections[si].name)
    ensures var name := x.objs[oi].sections[si].name;
      PointsInto(x, oi, si, value, x.imageBase + Rva(Flat(x.objs), name) + Base(x.objs, oi, si) + value)
  {
    hide Bucket, Rva, Flat, Kept;
    PositionIs(x.objs, oi, si);
    SectionPlaced(x.objs, oi, si);
    var sec, s := x.objs[oi].sections[si], Base(x.objs, oi, si);
    assert value < |sec.data| ==> Bucket(Flat(x.objs), sec.name)[s..s + |sec.data|][value] == sec.data[value];
  }

  /** A name means its last external definition, and without one what the resolver says. */
  ghost predicate RightName(x: Input, name: string, a: Option<int>) {
    MeansExport(x, name, a) && (NoExport(x.objs, name) ==> a == x.resolve(name))
  }

  ghost predicate MeansExport(x: Input, name: string, a: Option<int>) {
    forall o: nat, k: nat :: LastExport(x.objs, name, o, k) ==>
      var y := x.objs[o].symbols[k];
      a.Some? && PointsInto(x, o, y.sectionNumber - 1, y.value, a.value)
  }

  ghost predicate NoExport(objs: seq<Obj>, name: string) {
    forall o: nat, k: nat :: !Exports(objs, o, k, name)
  }

  lemma NameIsRight(x: Input, name: string)
    ensures RightName(x, name, SymbolAddress(x, name))
  {
    hide Bucket, Rva, Flat, Kept, Symbols, PointsInto, Start, MeansExport;
    assert MeansExport(x, name, SymbolAddress(x, name)) by { NameMeansExport(x, name); }
    TableHasExports(x.objs, name);
  }

  lemma NameMeansExport(x: Input, name: string)
    ensures MeansExport(x, name, SymbolAddress(x, name))
  {
    hide SymbolAddress, PointsInto;
    forall o: nat, k: nat | LastExport(x.objs, name, o, k)
      ensures var y := x.objs[o].symbols[k];
        SymbolAddress(x, name).Some? && PointsInto(x, o, y.sectionNumber - 1, y.value, SymbolAddress(x, name).value)
    {
      ExportPlaced(x, name, o, k);
    }
  }

  lemma ExportPlaced(x: Input, name: string, o: nat, k: nat)
    requires LastExport(x.objs, name, o, k)
    ensures var y := x.objs[o].symbols[k];
      SymbolAddress(x, name).Some? && PointsInto(x, o, y.sectionNumber - 1, y.value, SymbolAddress(x, name).value)
  {
    hide Bucket, Rva, Flat, Symbols, PointsInto, Start;
    var y := x.objs[o].symbols[k];
    TableIsLastExport(x.objs, name, o, k);
    PositionIs(x.objs, o, y.sectionNumber - 1);
    PointsHere(x, o, y.sectionNumber - 1, y.value);
  }

  /** What a relocation's symbol means: an address in the section it is defined in, what its name means,
      or one of the two ways to have no address. */
  ghost predicate RightTarget(x: Input, oi: nat, rel: Reloc, t: Target)
    requires oi < |x.objs|
  {
    var obj, i := x.objs[oi], rel.symIndex;
    if i >= |obj.symbolsByIndex| || obj.symbolsByIndex[i].None? then t == Unknown(Index(i))
    else
      var sym := obj.symbolsByIndex[i].value;
      if sym.sectionNumber == 0 then
        exists a :: RightName(x, sym.name, a) && t == if a.Some? then Address(a.value) else Unknown(Named(sym.name))
      else if sym.sectionNumber <= |obj.sections| &&
              obj.sections[sym.sectionNumber - 1].name in [".text", ".rdata", ".data", ".bss"]
      then t.Address? && PointsInto(x, oi, sym.sectionNumber - 1, sym.value, t.addr)
      else t == BadSection
  }

  lemma TargetIsRight(x: Input, oi: nat, rel: Reloc)
    requires oi < |x.objs|
    ensures RightTarget(x, oi, rel, TargetOf(x, oi, rel))
  {
    hide Bucket, Rva, Flat, Base, SymbolAddress, PointsInto, RightName;
    var obj := x.objs[oi];
    if rel.symIndex < |obj.symbolsByIndex| && obj.symbolsByIndex[rel.symIndex].Some? {
      var sym := obj.symbolsByIndex[rel.symIndex].value;
      NameIsRight(x, sym.name);
      if 1 <= sym.sectionNumber <= |obj.sections| && Kept(obj.sections[sym.sectionNumber - 1].name) {
        PointsHere(x, oi, sym.sectionNumber - 1, sym.value);
      }
    }
  }

  datatype Action = Patch(at: nat, bytes: seq<byte>) | Skip | Absent(missing: Missing) | Fail(error: Error)

  /** Address of the field: its section's RVA plus the relocation's own offset.  The offset of
      the section's copy within the bucket does not enter. */
  function FieldAddress(x: Input, name: string, rel: Reloc): int
    requires Kept(name)
  {
    x.imageBase + Rva(Flat(x.objs), name) + rel.va
  }

  function Act(x: Input, oi: nat, name: string, rel: Reloc): Action
    requires oi < |x.objs| && Kept(name)
  {
    match TargetOf(x, oi, rel)
    case BadSection => Fail(BadTargetSection)
    case Unknown(m) => Absent(m)
    case Address(t) =>
      if REL32 <= rel.kind <= REL32 + 4 then
        var disp := t - (FieldAddress(x, name, rel) + 4);
        if -TWO31 <= disp < TWO31 then Patch(rel.va, Le(disp % TWO32, 4)) else Fail(OutOfReach(t))
      else if rel.kind == ABS then
        if rel.va + 8 <= |Bucket(Flat(x.objs), name)| then Patch(rel.va, Le(t % TWO64, 8)) else Fail(FieldPastEnd)
      else if rel.kind == ADDR32 then Patch(rel.va, Le(t % TWO32, 4))
      else if rel.kind == SECREL || rel.kind == SECTION then Skip
      else Fail(Unsupported(rel.kind))
  }

  function Signed32(v: nat): int { if v < TWO31 then v else v - TWO32 }

  /** A patched field encodes its target: PC-relative from the end of the field, absolute, or
      the low 32 bits; and a PC-relative target is refused exactly when it is out of reach. */
  lemma FieldEncodes(x: Input, oi: nat, name: string, rel: Reloc)
    requires oi < |x.objs| && Kept(name) && TargetOf(x, oi, rel).Address?
    ensures var t, act, f := TargetOf(x, oi, rel).addr, Act(x, oi, name, rel), FieldAddress(x, name, rel);
      && (REL32 <= rel.kind <= REL32 + 4 ==>
            if -TWO31 <= t - (f + 4) < TWO31
            then act.Patch? && |act.bytes| == 4 && f + 4 + Signed32(Un(act.bytes)) == t
            else act == Fail(OutOfReach(t)))
      && (rel.kind == ABS && act.Patch? ==> |act.bytes| == 8 && Un(act.bytes) == t % TWO64)
      && (rel.kind == ADDR32 ==> act.Patch? && |act.bytes| == 4 && Un(act.bytes) == t % TWO32)
  {
    hide Le, Un, Rva, TargetOf;
    var t, f := TargetOf(x, oi, rel).addr, FieldAddress(x, name, rel);
    Widths();
    UnLe((t - (f + 4)) % TWO32, 4);
    UnLe(t % TWO64, 8);
    UnLe(t % TWO32, 4);
  }

  ghost predicate Stores(act: Action, at: nat, n: nat) {
    act.Patch? && act.at == at && |act.bytes| == n
  }

  /** What the COFF relocation kinds ask for: kinds 4 to 8 the signed distance from behind the field, kind 1
      the whole address, kind 2 its low half, kinds 10 and 11 nothing; and each reason to refuse. */
  ghost predicate RightAction(x: Input, oi: nat, name: string, rel: Reloc, act: Action)
    requires oi < |x.objs| && Kept(name)
  {
    match TargetOf(x, oi, rel)
    case BadSection => act == Fail(BadTargetSection)
    case Unknown(m) => act == Absent(m)
    case Address(t) =>
      var behind := x.imageBase + Rva(Flat(x.objs), name) + rel.va + 4;
      if 4 <= rel.kind <= 8 then
        if -0x8000_0000 <= t - behind < 0x8000_0000
        then Stores(act, rel.va, 4) && t - behind in {Un(act.bytes), Un(act.bytes) - 0x1_0000_0000}
        else act == Fail(OutOfReach(t))
      else if rel.kind == 1 then
        if rel.va + 8 <= |Bucket(Flat(x.objs), name)|
        then Stores(act, rel.va, 8) && Un(act.bytes) == t % 0x1_0000_0000_0000_0000
        else act == Fail(FieldPastEnd)
      else if rel.kind == 2 then Stores(act, rel.va, 4) && Un(act.bytes) == t % 0x1_0000_0000
      else if rel.kind in {10, 11} then act == Skip
      else act == Fail(Unsupported(rel.kind))
  }

  lemma ActIsRight(x: Input, oi: nat, name: string, rel: Reloc)
    requires oi < |x.objs| && Kept(name)
    ensures RightAction(x, oi, name, rel, Act(x, oi, name, rel))
  {
    hide Le, Un, Rva, TargetOf, Bucket, Flat;
    if TargetOf(x, oi, rel).Address? { FieldEncodes(x, oi, name, rel); }
  }

  // ------------------------------------------------------------ all relocations in order

  /** A relocation of section si, whose name it carries, of object oi. */
  datatype Job = Job(oi: nat, si: nat, name: string, rel: Reloc)

  function ActOf(x: Input, j: Job): Action {
    if j.oi < |x.objs| && Kept(j.name) then Act(x, j.oi, j.name, j.rel) else Skip
  }

  function SecJobs(objs: seq<Obj>, oi: nat, si: nat, n: nat): (js: seq<Job>)
    requires oi < |objs| && si < |objs[oi].sections| && n <= |objs[oi].sections[si].relocs|
  {
    if n == 0 then []
    else SecJobs(objs, oi, si, n - 1) + [Job(oi, si, objs[oi].sections[si].name, objs[oi].sections[si].relocs[n - 1])]
  }

  /** Jobs of the kept sections below n of one object. */
  function ObjJobs(objs: seq<Obj>, oi: nat, n: nat): seq<Job>
    requires oi < |objs| && n <= |objs[oi].sections|
  {
    if n == 0 then []
    else
      var x := objs[oi].sections[n - 1];
      ObjJobs(objs, oi, n - 1) + if Kept(x.name) then SecJobs(objs, oi, n - 1, |x.relocs|) else []
  }

  function Jobs(objs: seq<Obj>, n: nat): seq<Job>
    requires n <= |objs|
  {
    if n == 0 then [] else Jobs(objs, n - 1) + ObjJobs(objs, n - 1, |objs[n - 1].sections|)
  }

  /** Where relocation r of a section comes in the order of all relocations. */
  function JobIndex(objs: seq<Obj>, oi: nat, si: nat, r: nat): nat
    requires oi < |objs| && si < |objs[oi].sections|
  {
    |Jobs(objs, oi)| + |ObjJobs(objs, oi, si)| + r
  }

  /** Every relocation of a kept section is carried out: it is a job of its own. */
  lemma JobListed(objs: seq<Obj>, oi: nat, si: nat, r: nat)
    requires oi < |objs| && si < |objs[oi].sections| && r < |objs[oi].sections[si].relocs| &&
      Kept(objs[oi].sections[si].name)
    ensures var k, sec := JobIndex(objs, oi, si, r), objs[oi].sections[si];
      k < |Jobs(objs, |objs|)| && Jobs(objs, |objs|)[k] == Job(oi, si, sec.name, sec.relocs[r])
  {
    var sec := objs[oi].sections[si];
    hide Kept, Jobs, ObjJobs;
    JobSteps(objs, oi, si);
    var before, own, mine := Jobs(objs, oi), ObjJobs(objs, oi, si), SecJobs(objs, oi, si, |sec.relocs|);
    SecJobAt(objs, oi, si, |sec.relocs|, r);
    ObjJobsPrefix(objs, oi, si + 1, |objs[oi].sections|);
    JobsPrefix(objs, oi + 1, |objs|);
    assert (own + mine)[|own| + r] == mine[r];
    assert Jobs(objs, oi + 1)[|before| + |own| + r] == ObjJobs(objs, oi, |objs[oi].sections|)[|own| + r];
  }

  lemma JobSteps(objs: seq<Obj>, oi: nat, si: nat)
    requires oi < |objs| && si < |objs[oi].sections| && Kept(objs[oi].sections[si].name)
    ensures Jobs(objs, oi + 1) == Jobs(objs, oi) + ObjJobs(objs, oi, |objs[oi].sections|)
    ensures ObjJobs(objs, oi, si + 1) == ObjJobs(objs, oi, si) + SecJobs(objs, oi, si, |objs[oi].sections[si].relocs|)
  {
  }

  lemma {:induction false} SecJobAt(objs: seq<Obj>, oi: nat, si: nat, n: nat, r: nat)
    requires oi < |objs| && si < |objs[oi].sections| && r < n <= |objs[oi].sections[si].relocs|
    ensures |SecJobs(objs, oi, si, n)| == n
    ensures SecJobs(objs, oi, si, n)[r] == Job(oi, si, objs[oi].sections[si].name, objs[oi].sections[si].relocs[r])
  {
    if n > 1 { SecJobAt(objs, oi, si, n - 1, if r < n - 1 then r else 0); }
  }

  /** ... and nothing else is carried out ... */
  lemma {:induction false} JobsOnly(objs: seq<Obj>, n: nat, k: nat)
    requires n <= |objs| && k < |Jobs(objs, n)|
    ensures exists oi: nat, si: nat, r: nat ::
      && oi < n && si < |objs[oi].sections| && r < |objs[oi].sections[si].relocs|
      && Kept(objs[oi].sections[si].name) && k == JobIndex(objs, oi, si, r)
  {
    hide Kept;
    var front := |Jobs(objs, n - 1)|;
    if k < front {
      JobsOnly(objs, n - 1, k);
    } else {
      var si, r := ObjJobsOnly(objs, n - 1, |objs[n - 1].sections|, k - front);
      assert k == JobIndex(objs, n - 1, si, r);
    }
  }

  lemma {:induction false} ObjJobsOnly(objs: seq<Obj>, oi: nat, n: nat, k: nat) returns (si: nat, r: nat)
    requires oi < |objs| && n <= |objs[oi].sections| && k < |ObjJobs(objs, oi, n)|
    ensures si < n && r < |objs[oi].sections[si].relocs| && Kept(objs[oi].sections[si].name)
    ensures k == |ObjJobs(objs, oi, si)| + r
  {
    hide Kept;
    var front := |ObjJobs(objs, oi, n - 1)|;
    if k < front {
      si, r := ObjJobsOnly(objs, oi, n - 1, k);
    } else {
      si, r := n - 1, k - front;
      SecJobsLength(objs, oi, si, |objs[oi].sections[si].relocs|);
    }
  }

  lemma {:induction false} SecJobsLength(objs: seq<Obj>, oi: nat, si: nat, n: nat)
    requires oi < |objs| && si < |objs[oi].sections| && n <= |objs[oi].sections[si].relocs|
    ensures |SecJobs(objs, oi, si, n)| == n
  {
    if n > 0 { SecJobsLength(objs, oi, si, n - 1); }
  }

  /** ... in the order of the object files: object by object, section by section. */
  lemma JobsInOrder(objs: seq<Obj>, oi: nat, si: nat, r: nat, oi': nat, si': nat, r': nat)
    requires oi < |objs| && si < |objs[oi].sections| && r < |objs[oi].sections[si].relocs|
    requires oi' < |objs| && si' < |objs[oi'].sections| && Kept(objs[oi].sections[si].name)
    requires oi < oi' || (oi == oi' && (si < si' || (si == si' && r < r')))
    ensures JobIndex(objs, oi, si, r) < JobIndex(objs, oi', si', r')
  {
    hide Kept, Jobs, ObjJobs;
    JobSteps(objs, oi, si);
    SecJobsLength(objs, oi, si, |objs[oi].sections[si].relocs|);
    ObjJobsPrefix(objs, oi, si + 1, |objs[oi].sections|);
    if oi < oi' {
      JobsPrefix(objs, oi + 1, oi');
    } else if si < si' {
      ObjJobsPrefix(objs, oi, si + 1, si');
    }
  }

  /** Bytes past the end of the buffer are dropped, as typed-array stores drop them. */
  function Patched(b: seq<byte>, at: nat, bs: seq<byte>): (r: seq<byte>)
    ensures |r| == |b|
    ensures forall i :: 0 <= i < |b| ==> r[i] == if at <= i < at + |bs| then bs[i - at] else b[i]
  {
    seq<byte>(|b|, i requires 0 <= i < |b| => if at <= i < at + |bs| then bs[i - at] else b[i])
  }

  type Image = map<string, seq<byte>>

  function ApplyOne(out: Image, name: string, act: Action): Image {
    if act.Patch? && name in out then out[name := Patched(out[name], act.at, act.bytes)] else out
  }

  ghost function Apply(x: Input, js: seq<Job>, out: Image): (r: Image)
    ensures r.Keys == out.Keys && forall n :: n in out ==> |r[n]| == |out[n]|
  {
    if js == [] then out
    else ApplyOne(Apply(x, js[..|js| - 1], out), js[|js| - 1].name, ActOf(x, js[|js| - 1]))
  }

  ghost function AllMissing(x: Input, js: seq<Job>): seq<Missing>
  {
    if js == [] then []
    else
      var act := ActOf(x, js[|js| - 1]);
      AllMissing(x, js[..|js| - 1]) + if act.Absent? then [act.missing] else []
  }

  ghost function FirstError(x: Input, js: seq<Job>): Option<Error>
  {
    if js == [] then None
    else
      var front, act := FirstError(x, js[..|js| - 1]), ActOf(x, js[|js| - 1]);
      if front.None? && act.Fail? then Some(act.error) else front
  }

  lemma {:induction false} InSequence(x: Input, js: seq<Job>, more: seq<Job>, out: Image)
    ensures Apply(x, js + more, out) == Apply(x, more, Apply(x, js, out))
    ensures AllMissing(x, js + more) == AllMissing(x, js) + AllMissing(x, more)
    ensures FirstError(x, js + more) == if FirstError(x, js).Some? then FirstError(x, js) else FirstError(x, more)
  {
    hide ActOf;
    if more == [] {
      assert js + more == js;
    } else {
      assert (js + more)[..|js + more| - 1] == js + more[..|more| - 1];
      InSequence(x, js, more[..|more| - 1], out);
    }
  }

  /** The error reported is that of the first relocation that fails. */
  lemma {:induction false} FirstErrorIs(x: Input, js: seq<Job>)
    requires FirstError(x, js).Some?
    ensures exists k :: 0 <= k < |js| && ActOf(x, js[k]) == Fail(FirstError(x, js).value) &&
                        forall l :: 0 <= l < k ==> !ActOf(x, js[l]).Fail?
  {
    hide ActOf;
    var front := js[..|js| - 1];
    if FirstError(x, front).Some? {
      FirstErrorIs(x, front);
      var k :| 0 <= k < |front| && ActOf(x, front[k]) == Fail(FirstError(x, front).value) &&
               forall l :: 0 <= l < k ==> !ActOf(x, front[l]).Fail?;
      assert js[k] == front[k] && forall l :: 0 <= l < k ==> js[l] == front[l];
    } else {
      NoError(x, front);
      assert forall l :: 0 <= l < |front| ==> js[l] == front[l];
      assert ActOf(x, js[|js| - 1]) == Fail(FirstError(x, js).value);
    }
  }

  lemma {:induction false} NoError(x: Input, js: seq<Job>)
    requires FirstError(x, js).None?
    ensures forall l :: 0 <= l < |js| ==> !ActOf(x, js[l]).Fail?
  {
    hide ActOf;
    if js != [] {
      NoError(x, js[..|js| - 1]);
      assert forall l :: 0 <= l < |js| - 1 ==> js[l] == js[..|js| - 1][l];
    }
  }

  /** What is reported as unresolved are the symbols without an address. */
  lemma {:induction false} MissingAre(x: Input, js: seq<Job>, m: Missing)
    ensures m in AllMissing(x, js) <==> exists k :: 0 <= k < |js| && ActOf(x, js[k]) == Absent(m)
  {
    hide ActOf;
    if js != [] {
      var front, last := js[..|js| - 1], |js| - 1;
      MissingAre(x, front, m);
      assert forall k :: 0 <= k < last ==> js[k] == front[k];
      assert ActOf(x, js[last]) == Absent(m) ==> m in AllMissing(x, js);
    }
  }

  // ------------------------------------------------------------ what the linked bytes are

  predicate Hits(x: Input, j: Job, name: string, i: nat)
  {
    j.name == name && ActOf(x, j).Patch? && ActOf(x, j).at <= i < ActOf(x, j).at + |ActOf(x, j).bytes|
  }

  ghost predicate NoneHits(x: Input, js: seq<Job>, name: string, i: nat) {
    forall k :: 0 <= k < |js| ==> !Hits(x, js[k], name, i)
  }

  /** A byte no field covers is the byte linkSections put there. */
  lemma {:induction false} UntouchedByte(x: Input, js: seq<Job>, out: Image, name: string, i: nat)
    requires name in out && i < |out[name]|
    requires NoneHits(x, js, name, i)
    ensures Apply(x, js, out)[name][i] == out[name][i]
  {
    hide ActOf;
    if js != [] {
      var front := js[..|js| - 1];
      assert forall k :: 0 <= k < |front| ==> front[k] == js[k];
      UntouchedByte(x, front, out, name, i);
      assert !Hits(x, js[|js| - 1], name, i);
    }
  }

  /** A byte exactly one field covers holds that field's byte, whatever the order of patching. */
  lemma {:induction false} FieldByte(x: Input, js: seq<Job>, out: Image, name: string, i: nat, k: nat)
    requires name in out && i < |out[name]| && k < |js|
    requires Hits(x, js[k], name, i)
    requires forall l :: 0 <= l < |js| && Hits(x, js[l], name, i) ==> l == k
    ensures Apply(x, js, out)[name][i] == ActOf(x, js[k]).bytes[i - ActOf(x, js[k]).at]
  {
    hide ActOf;
    var front := js[..|js| - 1];
    assert forall l :: 0 <= l < |front| ==> front[l] == js[l];
    assert Hits(x, js[k], name, i);
    if k == |js| - 1 {
      UntouchedByte(x, front, out, name, i);
    } else {
      FieldByte(x, front, out, name, i, k);
      assert !Hits(x, js[|js| - 1], name, i);
    }
  }

  /** The fields do not overlap. */
  ghost predicate FieldsApart(x: Input, js: seq<Job>)
  {
    forall k, l, name, i: nat ::
      0 <= k < |js| && 0 <= l < |js| && Hits(x, js[k], name, i) && Hits(x, js[l], name, i) ==> k == l
  }

  /** Main result: in the linked image every in-bounds field holds its encoded value, and every
      other byte is untouched. */
  lemma LinkedField(x: Input, js: seq<Job>, out: Image, k: nat)
    requires k < |js| && FieldsApart(x, js)
    requires js[k].name in out && ActOf(x, js[k]).Patch?
    requires ActOf(x, js[k]).at + |ActOf(x, js[k]).bytes| <= |out[js[k].name]|
    ensures var act := ActOf(x, js[k]);
      Apply(x, js, out)[js[k].name][act.at..act.at + |act.bytes|] == act.bytes
  {
    hide ActOf;
    var act, name := ActOf(x, js[k]), js[k].name;
    var got := Apply(x, js, out)[name][act.at..act.at + |act.bytes|];
    forall d | 0 <= d < |act.bytes| ensures got[d] == act.bytes[d] {
      var i := act.at + d;
      assert Hits(x, js[k], name, i);
      FieldByte(x, js, out, name, i, k);
    }
  }

  /** The linker succeeds exactly when every relocation of every kept section is applied or is
      debug information. */
  lemma {:induction false} SucceedsIff(x: Input, js: seq<Job>)
    ensures FirstError(x, js).None? && AllMissing(x, js) == [] <==>
            forall k :: 0 <= k < |js| ==> ActOf(x, js[k]).Patch? || ActOf(x, js[k]).Skip?
  {
    hide ActOf;
    if js != [] {
      var front := js[..|js| - 1];
      SucceedsIff(x, front);
      assert forall k :: 0 <= k < |front| ==> front[k] == js[k];
    }
  }

  /** No earlier section of the same name has any bytes. */
  ghost predicate EarlierEmpty(objs: seq<Obj>, oi: nat, si: nat)
    requires oi < |objs| && si < |objs[oi].sections|
  {
    forall j ::
      0 <= j < Position(objs, oi, si) && j < |Flat(objs)| && Flat(objs)[j].name == objs[oi].sections[si].name ==>
      Flat(objs)[j].data == []
  }

  /** A relocation is applied inside its own section's copy exactly when that copy starts its
      bucket, which is when every earlier section of the name is empty; otherwise the field is
      patched at the bucket's start instead. */
  lemma OwnCopyIff(x: Input, oi: nat, si: nat, rel: Reloc)
    requires oi < |x.objs| && si < |x.objs[oi].sections|
    requires Kept(x.objs[oi].sections[si].name) && Act(x, oi, x.objs[oi].sections[si].name, rel).Patch?
    ensures Act(x, oi, x.objs[oi].sections[si].name, rel).at == Base(x.objs, oi, si) + rel.va <==>
            EarlierEmpty(x.objs, oi, si)
  {
    hide Bucket, TargetOf;
    PositionIs(x.objs, oi, si);
    StartsBucketIff(Flat(x.objs), Position(x.objs, oi, si));
  }

  /** The buffers before relocation. */
  ghost predicate Unpatched(x: Input, out: Image) {
    forall n :: n in out ==> out[n] == Bucket(Flat(x.objs), n)
  }

  predicate PatchKind(kind: nat) { REL32 <= kind <= REL32 + 4 || kind == ABS || kind == ADDR32 }

  function Width(kind: nat): nat { if kind == ABS then 8 else 4 }

  /** A field's value is right for a target: PC-relative from the end of the field, absolute, or
      the low 32 bits. */
  predicate Encodes(kind: nat, place: int, field: nat, target: int) {
    && (REL32 <= kind <= REL32 + 4 ==> place + 4 + Signed32(field) == target)
    && (kind == ABS ==> field == target % TWO64)
    && (kind == ADDR32 ==> field == target % TWO32)
  }

  /** Relocation r of a kept section is of a kind that patches, and its field lies in the section. */
  predicate Patches(x: Input, oi: nat, si: nat, r: nat) {
    && oi < |x.objs| && si < |x.objs[oi].sections| && r < |x.objs[oi].sections[si].relocs|
    && var sec := x.objs[oi].sections[si];
       var rel := sec.relocs[r];
       Kept(sec.name) && PatchKind(rel.kind) && rel.va + Width(rel.kind) <= |sec.data|
  }

  /** Offset in the linked section of the field that relocation r of this section is about. */
  function OwnField(x: Input, oi: nat, si: nat, r: nat): nat
    requires Patches(x, oi, si, r)
  {
    Base(x.objs, oi, si) + x.objs[oi].sections[si].relocs[r].va
  }

  /** No other relocation patches a byte of that field. */
  ghost predicate OthersMiss(x: Input, oi: nat, si: nat, r: nat)
    requires Patches(x, oi, si, r)
  {
    var js, k, at := Jobs(x.objs, |x.objs|), JobIndex(x.objs, oi, si, r), OwnField(x, oi, si, r);
    var sec := x.objs[oi].sections[si];
    forall l, i: nat :: 0 <= l < |js| && at <= i < at + Width(sec.relocs[r].kind) && Hits(x, js[l], sec.name, i) ==>
      l == k
  }

  /** The linked field of relocation r is right exactly when no earlier section of the name has bytes,
      or the object file's own bytes there were right already; in the first case they are patched, in
      the other left alone. */
  ghost predicate FieldOutcome(x: Input, linked: Image, oi: nat, si: nat, r: nat)
    requires Patches(x, oi, si, r)
  {
    var sec := x.objs[oi].sections[si];
    var rel, at := sec.relocs[r], OwnField(x, oi, si, r);
    var place, w := x.imageBase + Rva(Flat(x.objs), sec.name) + at, Width(rel.kind);
    && sec.name in linked && at + w <= |linked[sec.name]| && TargetOf(x, oi, rel).Address?
    && var field, own, t := linked[sec.name][at..at + w], sec.data[rel.va..rel.va + w], TargetOf(x, oi, rel).addr;
       && (Encodes(rel.kind, place, Un(field), t) <==>
           EarlierEmpty(x.objs, oi, si) || Encodes(rel.kind, place, Un(own), t))
       && (!EarlierEmpty(x.objs, oi, si) ==> field == own)
  }

  ghost predicate Succeeds(x: Input) {
    FirstError(x, Jobs(x.objs, |x.objs|)) == None && AllMissing(x, Jobs(x.objs, |x.objs|)) == []
  }

  /** What a successful link did with one relocation: it stored the encoded target at the relocation's
      offset from the start of the linked section. */
  lemma PatchApplied(x: Input, oi: nat, si: nat, r: nat)
    requires Patches(x, oi, si, r) && Succeeds(x)
    ensures var sec := x.objs[oi].sections[si];
      var rel := sec.relocs[r];
      var act := Act(x, oi, sec.name, rel);
      && TargetOf(x, oi, rel).Address? && act.Patch? && act.at == rel.va && |act.bytes| == Width(rel.kind)
      && Encodes(rel.kind, FieldAddress(x, sec.name, rel), Un(act.bytes), TargetOf(x, oi, rel).addr)
  {
    hide Bucket, Rva, TargetOf, Jobs, FirstError, AllMissing, Le, Un, Kept;
    var js, k, sec := Jobs(x.objs, |x.objs|), JobIndex(x.objs, oi, si, r), x.objs[oi].sections[si];
    JobListed(x.objs, oi, si, r);
    SucceedsIff(x, js);
    assert ActOf(x, js[k]).Patch?;
    FieldEncodes(x, oi, sec.name, sec.relocs[r]);
  }

  /** The linker's promise, for a section whose copy starts its bucket: after a successful link the
      field of each of its relocations encodes the target. */
  lemma RelocationCorrect(x: Input, out: Image, oi: nat, si: nat, r: nat)
    requires Patches(x, oi, si, r) && Succeeds(x) && OthersMiss(x, oi, si, r)
    requires Unpatched(x, out) && x.objs[oi].sections[si].name in out
    requires EarlierEmpty(x.objs, oi, si)
    ensures FieldOutcome(x, Apply(x, Jobs(x.objs, |x.objs|), out), oi, si, r)
    ensures var sec := x.objs[oi].sections[si];
      var rel, at := sec.relocs[r], OwnField(x, oi, si, r);
      var linked := Apply(x, Jobs(x.objs, |x.objs|), out)[sec.name];
      Encodes(rel.kind, x.imageBase + Rva(Flat(x.objs), sec.name) + at, Un(linked[at..at + Width(rel.kind)]),
              TargetOf(x, oi, rel).addr)
  {
    hide Bucket, Rva, TargetOf, Base, Jobs, Apply, FirstError, AllMissing, Le, Un, Kept, Encodes, JobIndex, Succeeds;
    hide EarlierEmpty, Act, PatchKind, Width;
    var js, k, sec := Jobs(x.objs, |x.objs|), JobIndex(x.objs, oi, si, r), x.objs[oi].sections[si];
    var at, act := OwnField(x, oi, si, r), Act(x, oi, sec.name, sec.relocs[r]);
    JobListed(x.objs, oi, si, r);
    PatchApplied(x, oi, si, r);
    SectionPlaced(x.objs, oi, si);
    OwnCopyIff(x, oi, si, sec.relocs[r]);
    var linked := Apply(x, js, out)[sec.name];
    var field := linked[at..at + |act.bytes|];
    forall d | 0 <= d < |act.bytes| ensures field[d] == act.bytes[d] {
      assert Hits(x, js[k], sec.name, at + d);
      FieldByte(x, js, out, sec.name, at + d, k);
    }
    assert field == act.bytes;
  }

  /** A byte of a section's copy that no relocation hits is the object file's. */
  lemma OwnByte(x: Input, js: seq<Job>, out: Image, oi: nat, si: nat, d: nat)
    requires oi < |x.objs| && si < |x.objs[oi].sections| && d < |x.objs[oi].sections[si].data|
    requires Unpatched(x, out) && x.objs[oi].sections[si].name in out
    requires NoneHits(x, js, x.objs[oi].sections[si].name, Base(x.objs, oi, si) + d)
    ensures var sec, i := x.objs[oi].sections[si], Base(x.objs, oi, si) + d;
      i < |Apply(x, js, out)[sec.name]| && Apply(x, js, out)[sec.name][i] == sec.data[d]
  {
    hide Bucket, Base, Apply, NoneHits;
    var sec, at := x.objs[oi].sections[si], Base(x.objs, oi, si);
    SectionPlaced(x.objs, oi, si);
    UntouchedByte(x, js, out, sec.name, at + d);
    assert Bucket(Flat(x.objs), sec.name)[at..at + |sec.data|][d] == sec.data[d];
  }

  /** For any other section the whole field of its own copy is left as the object file had it, so it
      is right only if those bytes were. */
  lemma RelocationMissed(x: Input, out: Image, oi: nat, si: nat, r: nat)
    requires Patches(x, oi, si, r) && Succeeds(x) && OthersMiss(x, oi, si, r)
    requires Unpatched(x, out) && x.objs[oi].sections[si].name in out
    requires !EarlierEmpty(x.objs, oi, si)
    ensures FieldOutcome(x, Apply(x, Jobs(x.objs, |x.objs|), out), oi, si, r)
  {
    hide Bucket, Rva, TargetOf, Base, Jobs, Apply, FirstError, AllMissing, Le, Un, Kept, Encodes, JobIndex, Succeeds;
    hide EarlierEmpty, Act, PatchKind;
    var js, k, sec := Jobs(x.objs, |x.objs|), JobIndex(x.objs, oi, si, r), x.objs[oi].sections[si];
    var rel, at := sec.relocs[r], OwnField(x, oi, si, r);
    var w := Width(rel.kind);
    JobListed(x.objs, oi, si, r);
    PatchApplied(x, oi, si, r);
    SectionPlaced(x.objs, oi, si);
    OwnCopyIff(x, oi, si, rel);
    assert Base(x.objs, oi, si) >= 16;
    var linked := Apply(x, js, out)[sec.name];
    var field, own := linked[at..at + w], sec.data[rel.va..rel.va + w];
    forall d | 0 <= d < w ensures field[d] == own[d] {
      assert !Hits(x, js[k], sec.name, at + d);
      assert NoneHits(x, js, sec.name, at + d);
      OwnByte(x, js, out, oi, si, rel.va + d);
    }
    assert field == own;
  }

  /** The smallest failing case: two objects, one relocation each.  The second object's relocation
      rewrites the first one's field, and its own field keeps the object file's zeros. */
  lemma SecondObjectMisses()
    ensures var rel := Reloc(0, 0, ABS);
      var text := Sec(".text", [0, 0, 0, 0, 0, 0, 0, 0], [rel]);
      var obj := Obj([text], [], [Some(Sym("f", 0, 1, 3, 0))]);
      var x := Input([obj, obj], name => None, 0x140000000);
      var linked := Apply(x, Jobs(x.objs, 2), map[".text" := Bucket(Flat(x.objs), ".text")])[".text"];
      && Succeeds(x) && |linked| == 24
      && TargetOf(x, 0, rel) == Address(0x140001000) && linked[..8] == Le(0x140001010, 8)
      && TargetOf(x, 1, rel) == Address(0x140001010) && linked[16..] == text.data
  {
    var rel := Reloc(0, 0, ABS);
    var text := Sec(".text", [0, 0, 0, 0, 0, 0, 0, 0], [rel]);
    var obj := Obj([text], [], [Some(Sym("f", 0, 1, 3, 0))]);
    var x := Input([obj, obj], name => None, 0x140000000);
    hide Bucket, TargetOf, Act, Le, Jobs;
    TwoObjects(x, obj, text, rel);
    TwoJobs(x.objs, text, rel);
    TwoPatches(x, Job(0, 0, ".text", rel), Job(1, 0, ".text", rel), ".text", Bucket(Flat(x.objs), ".text"));
  }

  lemma TwoObjects(x: Input, obj: Obj, text: Sec, rel: Reloc)
    requires rel == Reloc(0, 0, ABS) && text == Sec(".text", [0, 0, 0, 0, 0, 0, 0, 0], [rel])
    requires obj == Obj([text], [], [Some(Sym("f", 0, 1, 3, 0))])
    requires x.objs == [obj, obj] && x.imageBase == 0x140000000
    ensures Kept(".text")
    ensures TargetOf(x, 0, rel) == Address(0x140001000) && TargetOf(x, 1, rel) == Address(0x140001010)
    ensures Act(x, 0, ".text", rel) == Patch(0, Le(0x140001000, 8)) &&
      Act(x, 1, ".text", rel) == Patch(0, Le(0x140001010, 8))
    ensures |Bucket(Flat(x.objs), ".text")| == 24 && Bucket(Flat(x.objs), ".text")[16..] == text.data
  {
    hide Le, Base, Bucket, Rva, Kept;
    TwoCopies(x.objs, obj, text);
  }

  lemma {:induction false} TwoCopies(objs: seq<Obj>, obj: Obj, text: Sec)
    requires objs == [obj, obj] && obj.sections == [text] && text.name == ".text" &&
      text.data == [0, 0, 0, 0, 0, 0, 0, 0]
    ensures Kept(".text") && Base(objs, 0, 0) == 0 && Base(objs, 1, 0) == 16 && Rva(Flat(objs), ".text") == 0x1000
    ensures |Bucket(Flat(objs), ".text")| == 24 && Bucket(Flat(objs), ".text")[16..] == text.data
  {
    assert objs[..1] == [obj] && [obj][..0] == [] && objs[..0] == [];
    assert Flat([obj]) == [text] && Flat(objs) == [text, text];
    assert Before(objs, 1, 0) == [text] && Before(objs, 0, 0) == [];
    assert [text, text][..1] == [text] && [text][..0] == [];
    assert Bucket([text], ".text") == text.data;
    assert Bucket([text, text], ".text") == Padded(text.data) + text.data;
    assert Base(objs, 1, 0) == 16 && Base(objs, 0, 0) == 0;
    assert ORDER[0] == ".text";
    assert Kept(".text") && Rva(Flat(objs), ".text") == 0x1000;
  }

  lemma {:induction false} TwoJobs(objs: seq<Obj>, text: Sec, rel: Reloc)
    requires |objs| == 2 && objs[0].sections == [text] && objs[1].sections == [text] && text.relocs == [rel] &&
      Kept(text.name)
    ensures Jobs(objs, 2) == [Job(0, 0, text.name, rel), Job(1, 0, text.name, rel)]
  {
    hide Kept, ObjJobs;
    OneJob(objs, 0, text, rel);
    OneJob(objs, 1, text, rel);
    assert Jobs(objs, 0) == [];
    assert Jobs(objs, 1) == [Job(0, 0, text.name, rel)];
  }

  lemma OneJob(objs: seq<Obj>, oi: nat, text: Sec, rel: Reloc)
    requires oi < |objs| && objs[oi].sections == [text] && text.relocs == [rel] && Kept(text.name)
    ensures ObjJobs(objs, oi, 1) == [Job(oi, 0, text.name, rel)]
  {
    hide Kept;
    assert SecJobs(objs, oi, 0, 0) == [] && ObjJobs(objs, oi, 0) == [];
    assert SecJobs(objs, oi, 0, 1) == [Job(oi, 0, text.name, rel)];
  }

  /** Two patches at the start of one section: the second is what remains. */
  lemma TwoPatches(x: Input, j: Job, k: Job, name: string, b: seq<byte>)
    requires j.name == k.name == name && |b| >= 8
    requires ActOf(x, j).Patch? && ActOf(x, j).at == 0 && |ActOf(x, j).bytes| == 8
    requires ActOf(x, k).Patch? && ActOf(x, k).at == 0 && |ActOf(x, k).bytes| == 8
    ensures Apply(x, [j, k], map[name := b])[name] == ActOf(x, k).bytes + b[8..]
    ensures FirstError(x, [j, k]) == None && AllMissing(x, [j, k]) == []
  {
    hide ActOf;
    assert [j, k][..1] == [j] && [j][..0] == [];
    NoJobs(x, map[name := b]);
    assert Apply(x, [j], map[name := b])[name] == ActOf(x, j).bytes + b[8..];
    assert FirstError(x, [j]) == None && AllMissing(x, [j]) == [];
  }

  // ------------------------------------------------------------ the linker

  lemma NoJobs(x: Input, out: Image)
    ensures Apply(x, [], out) == out && AllMissing(x, []) == [] && FirstError(x, []) == None
  {
  }

  lemma OneMoreJob(x: Input, js: seq<Job>, j: Job, out: Image)
    ensures Apply(x, js + [j], out) == ApplyOne(Apply(x, js, out), j.name, ActOf(x, j))
    ensures AllMissing(x, js + [j]) == AllMissing(x, js) + if ActOf(x, j).Absent? then [ActOf(x, j).missing] else []
    ensures FirstError(x, js + [j]) ==
            if FirstError(x, js).None? && ActOf(x, j).Fail? then Some(ActOf(x, j).error) else FirstError(x, js)
  {
    hide ActOf, ApplyOne;
    assert (js + [j])[..|js|] == js;
  }

  lemma ErrorStays(x: Input, js: seq<Job>, all: seq<Job>)
    requires js <= all && FirstError(x, js).Some?
    ensures FirstError(x, all) == FirstError(x, js)
  {
    assert all == js + all[|js|..];
    InSequence(x, js, all[|js|..], map[]);
  }

  lemma {:induction false} SecJobsPrefix(objs: seq<Obj>, oi: nat, si: nat, k: nat, n: nat)
    requires oi < |objs| && si < |objs[oi].sections| && k <= n <= |objs[oi].sections[si].relocs|
    ensures SecJobs(objs, oi, si, k) <= SecJobs(objs, oi, si, n)
  {
    if k < n { SecJobsPrefix(objs, oi, si, k, n - 1); }
  }

  lemma {:induction false} ObjJobsPrefix(objs: seq<Obj>, oi: nat, k: nat, n: nat)
    requires oi < |objs| && k <= n <= |objs[oi].sections|
    ensures ObjJobs(objs, oi, k) <= ObjJobs(objs, oi, n)
  {
    if k < n { ObjJobsPrefix(objs, oi, k, n - 1); }
  }

  lemma {:induction false} JobsPrefix(objs: seq<Obj>, k: nat, n: nat)
    requires k <= n <= |objs|
    ensures Jobs(objs, k) <= Jobs(objs, n)
  {
    if k < n { JobsPrefix(objs, k, n - 1); }
  }

  lemma TextIsKept()
    ensures Kept(".text")
  {
    assert ORDER[0] == ".text";
  }

  /** RVA of DriverEntry, else of its decorated name, else of the code section. */
  function EntryRva(x: Input): Option<nat> {
    var syms := Symbols(x.objs, |x.objs|);
    var name := if "DriverEntry" in syms then "DriverEntry" else "_DriverEntry@8";
    if name in syms then
      SymbolKept(x.objs, |x.objs|, name);
      Some(Rva(Flat(x.objs), syms[name].section) + syms[name].offset)
    else
      TextIsKept();
      if Present(Flat(x.objs), ".text") then Some(Rva(Flat(x.objs), ".text")) else None
  }

  /** Stores bytes one by one; stores past the end have no effect. */
  method StoreBytes(buf: array<byte>, at: nat, bs: seq<byte>)
    modifies buf
    ensures buf[..] == Patched(old(buf[..]), at, bs)
  {
    for k := 0 to |bs|
      invariant buf[..] == Patched(old(buf[..]), at, bs[..k])
    {
      if at + k < buf.Length {
        buf[at + k] := bs[k];
      }
    }
    assert bs[..|bs|] == bs;
  }

  /** The RVA loop: one page-rounded slot per section that exists, in link order. */
  method SectionRvas(sections: map<string, seq<byte>>, ghost secs: seq<Sec>) returns (rvas: map<string, nat>)
    requires forall n :: n in sections <==> Kept(n) && Present(secs, n)
    requires forall n :: n in sections ==> sections[n] == Bucket(secs, n)
    ensures rvas.Keys == sections.Keys && forall n :: n in sections ==> rvas[n] == Rva(secs, n)
  {
    hide Bucket, Present;
    rvas := map[];
    var cursor := 0x1000;
    for i := 0 to |ORDER|
      invariant cursor == Cursor(secs, i)
      invariant rvas.Keys <= sections.Keys
      invariant forall j :: 0 <= j < i && ORDER[j] in sections ==> ORDER[j] in rvas && rvas[ORDER[j]] == Cursor(secs, j)
    {
      assert forall j :: 0 <= j < i ==> ORDER[j] != ORDER[i];
      assert ORDER[i] in ORDER;
      if ORDER[i] in sections {
        rvas := rvas[ORDER[i] := cursor];
        cursor := cursor + PageCeil(|sections[ORDER[i]]|);
      }
    }
    forall n | n in sections ensures n in rvas && rvas[n] == Rva(secs, n) {
      assert ORDER[NameIndex(n)] == n;
    }
  }

  /** The second offset pass: its own loops, over buckets for the sections that exist. */
  method TrackOffsets(objs: seq<Obj>, sections: map<string, seq<byte>>) returns (track: seq<map<nat, nat>>)
    requires forall n :: n in sections <==> Kept(n) && Present(Flat(objs), n)
    ensures |track| == |objs|
    ensures forall oi :: 0 <= oi < |objs| ==> OffsetsOf(objs, oi, |objs[oi].sections|, track[oi])
  {
    hide OffsetsOf, Represents, Bucket, Present;
    track := [];
    var buckets: map<string, seq<seq<byte>>> := map n | n in sections :: [];
    NothingPlaced(buckets);
    assert objs[..0] == [];
    for oi := 0 to |objs|
      invariant |track| == oi && buckets.Keys == sections.Keys && Represents(buckets, Flat(objs[..oi]))
      invariant forall o :: 0 <= o < oi ==> OffsetsOf(objs, o, |objs[o].sections|, track[o])
    {
      var m;
      buckets, m := TrackObject(buckets, objs, oi);
      track := track + [m];
    }
  }

  lemma NothingPlaced(buckets: map<string, seq<seq<byte>>>)
    requires forall n :: n in buckets ==> buckets[n] == []
    ensures Represents(buckets, [])
  {
  }

  method TrackObject(buckets: map<string, seq<seq<byte>>>, objs: seq<Obj>, oi: nat)
    returns (buckets': map<string, seq<seq<byte>>>, m: map<nat, nat>)
    requires oi < |objs| && Represents(buckets, Flat(objs[..oi]))
    requires forall n :: n in buckets <==> Kept(n) && Present(Flat(objs), n)
    ensures buckets'.Keys == buckets.Keys && Represents(buckets', Flat(objs[..oi + 1]))
    ensures OffsetsOf(objs, oi, |objs[oi].sections|, m)
  {
    hide Kept, Bucket, Represents, Present;
    buckets', m := buckets, map[];
    var secs := objs[oi].sections;
    assert Before(objs, oi, 0) == Flat(objs[..oi]);
    for si := 0 to |secs|
      invariant buckets'.Keys == buckets.Keys && Represents(buckets', Before(objs, oi, si))
      invariant OffsetsOf(objs, oi, si, m)
    {
      var s := secs[si];
      SectionPresent(objs, oi, si);
      assert Before(objs, oi, si + 1) == Before(objs, oi, si) + [s];
      if s.name !in buckets' {
        DropKeeps(buckets', Before(objs, oi, si), s);
        continue;
      }
      var arr := buckets'[s.name];
      var curLen := TotalLength(arr);
      var aligned := Align16(curLen);
      if aligned > curLen { arr := arr + [Zeros(aligned - curLen)]; }
      arr := arr + [s.data];
      ChunkAdded(buckets', Before(objs, oi, si), s, arr);
      buckets' := buckets'[s.name := arr];
      m := m[si := aligned];
    }
    assert objs[..oi + 1][..oi] == objs[..oi];
    assert Before(objs, oi, |secs|) == Flat(objs[..oi + 1]);
  }

  method AllocateBuffers(sections: map<string, seq<byte>>) returns (bufs: map<string, array<byte>>)
    ensures bufs.Keys == sections.Keys
    ensures forall n :: n in bufs ==> fresh(bufs[n]) && bufs[n][..] == sections[n]
    ensures forall n, k :: n in bufs && k in bufs && n != k ==> bufs[n] != bufs[k]
  {
    bufs := map[];
    var names := sections.Keys;
    while names != {}
      invariant names <= sections.Keys && bufs.Keys == sections.Keys - names
      invariant forall n :: n in bufs ==> fresh(bufs[n]) && bufs[n][..] == sections[n]
      invariant forall n, k :: n in bufs && k in bufs && n != k ==> bufs[n] != bufs[k]
    {
      var n :| n in names;
      names := names - {n};
      var data := sections[n];
      var buf := new byte[|data|](i requires 0 <= i < |data| => data[i]);
      bufs := bufs[n := buf];
    }
  }

  class Linker {
    const x: Input
    var bufs: map<string, array<byte>>
    var rvas: map<string, nat>
    var track: seq<map<nat, nat>>
    var symbols: map<string, Place>
    var unresolved: seq<Missing>

    ghost function Bufs(): set<object>
      reads this`bufs
    {
      set n | n in bufs :: bufs[n]
    }

    ghost function Contents(): Image
      reads this`bufs, Bufs()
    {
      map n | n in bufs :: bufs[n][..]
    }

    ghost predicate Valid()
      reads this
    {
      && (forall n :: n in bufs <==> Kept(n) && Present(Flat(x.objs), n))
      && (forall n, k :: n in bufs && k in bufs && n != k ==> bufs[n] != bufs[k])
      && (forall n :: n in bufs ==> bufs[n].Length == |Bucket(Flat(x.objs), n)|)
      && rvas.Keys == bufs.Keys
      && (forall n :: n in bufs ==> rvas[n] == Rva(Flat(x.objs), n))
      && |track| == |x.objs|
      && (forall oi :: 0 <= oi < |x.objs| ==> OffsetsOf(x.objs, oi, |x.objs[oi].sections|, track[oi]))
      && symbols == Symbols(x.objs, |x.objs|)
    }

    constructor (x: Input)
      ensures Valid() && this.x == x && unresolved == [] && fresh(Bufs())
      ensures forall n :: n in bufs ==> bufs[n][..] == Bucket(Flat(x.objs), n)
    {
      hide Bucket, Present, OffsetsOf, Kept, Rva, Symbols;
      this.x := x;
      unresolved := [];
      var sections, syms := LinkSections(x.objs);
      symbols := syms;
      var rs := SectionRvas(sections, Flat(x.objs));
      rvas := rs;
      var ts := TrackOffsets(x.objs, sections);
      track := ts;
      var bs := AllocateBuffers(sections);
      bufs := bs;
    }

    method SymAddr(name: string) returns (a: Option<int>)
      requires Valid()
      ensures a == SymbolAddress(x, name) && RightName(x, name, a)
    {
      NameIsRight(x, name);
      hide RightName;
      hide Bucket, OffsetsOf, Rva, Symbols, Base;
      if name in symbols {
        var p := symbols[name];
        SymbolPresent(x.objs, name);
        a := Some(x.imageBase + rvas[p.section] + p.offset);
      } else {
        a := x.resolve(name);
      }
    }

    /** Target of a relocation whose symbol is defined in section si of its own object. */
    method InternalAddr(oi: nat, si: nat, value: nat) returns (t: Target)
      requires Valid() && oi < |x.objs|
      ensures t == if si < |x.objs[oi].sections| && Kept(x.objs[oi].sections[si].name)
        then Address(x.imageBase + Rva(Flat(x.objs), x.objs[oi].sections[si].name) + Base(x.objs, oi, si) + value)
        else BadSection
    {
      hide Bucket, Rva, Symbols, Base, Kept, OffsetsOf, Present;
      var obj := x.objs[oi];
      if si >= |obj.sections| { return BadSection; }
      SectionPresent(x.objs, oi, si);
      OffsetKnown(x.objs, oi, track[oi], si);
      var name := obj.sections[si].name;
      if name !in rvas { return BadSection; }
      t := Address(x.imageBase + rvas[name] + track[oi][si] + value);
    }

    method Resolve(oi: nat, rel: Reloc) returns (t: Target)
      requires Valid() && oi < |x.objs|
      ensures t == TargetOf(x, oi, rel) && RightTarget(x, oi, rel, t)
    {
      hide RightTarget, Valid, Bucket, Rva, Symbols, Base, SymbolAddress, Kept, Flat;
      TargetIsRight(x, oi, rel);
      var obj := x.objs[oi];
      if rel.symIndex >= |obj.symbolsByIndex| || obj.symbolsByIndex[rel.symIndex].None? {
        return Unknown(Index(rel.symIndex));
      }
      var sym := obj.symbolsByIndex[rel.symIndex].value;
      if sym.sectionNumber > 0 {
        t := InternalAddr(oi, sym.sectionNumber - 1, sym.value);
      } else {
        var a := SymAddr(sym.name);
        t := if a.None? then Unknown(Named(sym.name)) else Address(a.value);
      }
    }

    /** One relocation: patches its field, records an unresolved symbol, or stops the link. */
    method Relocate(oi: nat, si: nat, rel: Reloc) returns (err: Option<Error>)
      requires Valid() && oi < |x.objs| && si < |x.objs[oi].sections| && Kept(x.objs[oi].sections[si].name)
      modifies this`unresolved, Bufs()
      ensures Valid()
      ensures var name := x.objs[oi].sections[si].name;
        var act := Act(x, oi, name, rel);
        && Contents() == ApplyOne(old(Contents()), name, act)
        && unresolved == old(unresolved) + (if act.Absent? then [act.missing] else [])
        && err == if act.Fail? then Some(act.error) else None
    {
      hide Bucket, Rva, Symbols, Base, SymbolAddress, Kept, OffsetsOf, Present, TargetOf, RightTarget;
      hide Le, Contents, Patched;
      var name := x.objs[oi].sections[si].name;
      SectionPresent(x.objs, oi, si);
      var buf := bufs[name];
      ghost var before := Contents();
      var target := Resolve(oi, rel);
      err := None;
      if target.BadSection? { return Some(BadTargetSection); }
      if target.Unknown? {
        unresolved := unresolved + [target.missing];
        return;
      }
      var t := target.addr;
      var field := x.imageBase + rvas[name] + rel.va;
      if REL32 <= rel.kind <= REL32 + 4 {
        var disp := t - (field + 4);
        if !(-TWO31 <= disp < TWO31) { return Some(OutOfReach(t)); }
        StoreField(name, rel.va, Le(disp % TWO32, 4));
      } else if rel.kind == ABS {
        if rel.va + 8 > buf.Length { return Some(FieldPastEnd); }
        StoreField(name, rel.va, Le(t % TWO64, 8));
      } else if rel.kind == ADDR32 {
        StoreField(name, rel.va, Le(t % TWO32, 4));
      } else if rel.kind != SECREL && rel.kind != SECTION {
        return Some(Unsupported(rel.kind));
      }
    }

    /** What a loop over jobs has done: the first error, or all effects in order. */
    ghost predicate Done(js: seq<Job>, err: Option<Error>, out: Image, missing: seq<Missing>)
      reads this, Bufs()
    {
      && err == FirstError(x, js)
      && (err.None? ==> Contents() == Apply(x, js, out) && unresolved == missing + AllMissing(x, js))
    }

    method RelocateSection(oi: nat, si: nat) returns (err: Option<Error>)
      requires Valid() && oi < |x.objs| && si < |x.objs[oi].sections| && Kept(x.objs[oi].sections[si].name)
      modifies this`unresolved, Bufs()
      ensures Valid() && Done(SecJobs(x.objs, oi, si, |x.objs[oi].sections[si].relocs|), err, old(Contents()),
                              old(unresolved))
    {
      hide Act, Contents, Kept, Valid, Rva, Apply, AllMissing, FirstError, ApplyOne;
      ghost var out := Contents();
      NoJobs(x, out);
      err := None;
      var rels := x.objs[oi].sections[si].relocs;
      for k := 0 to |rels|
        invariant err == None && Valid() && Done(SecJobs(x.objs, oi, si, k), None, old(Contents()), old(unresolved))
      {
        OneMoreJob(x, SecJobs(x.objs, oi, si, k), Job(oi, si, x.objs[oi].sections[si].name, rels[k]), out);
        err := Relocate(oi, si, rels[k]);
        if err.Some? {
          SecJobsPrefix(x.objs, oi, si, k + 1, |rels|);
          ErrorStays(x, SecJobs(x.objs, oi, si, k + 1), SecJobs(x.objs, oi, si, |rels|));
          return;
        }
      }
    }

    method RelocateObject(oi: nat) returns (err: Option<Error>)
      requires Valid() && oi < |x.objs|
      modifies this`unresolved, Bufs()
      ensures Valid() && Done(ObjJobs(x.objs, oi, |x.objs[oi].sections|), err, old(Contents()), old(unresolved))
    {
      hide Act, ActOf, Contents, Kept, Valid, Rva, SecJobs, Apply, AllMissing, FirstError;
      ghost var out, missing := Contents(), unresolved;
      NoJobs(x, out);
      err := None;
      var secs := x.objs[oi].sections;
      for si := 0 to |secs|
        invariant err == None && Valid() && Done(ObjJobs(x.objs, oi, si), None, out, missing)
      {
        if Kept(secs[si].name) {
          ghost var js, more := ObjJobs(x.objs, oi, si), SecJobs(x.objs, oi, si, |secs[si].relocs|);
          InSequence(x, js, more, out);
          err := RelocateSection(oi, si);
          assert ObjJobs(x.objs, oi, si + 1) == js + more;
          if err.Some? {
            ObjJobsPrefix(x.objs, oi, si + 1, |secs|);
            ErrorStays(x, js + more, ObjJobs(x.objs, oi, |secs|));
            return;
          }
        } else {
          assert ObjJobs(x.objs, oi, si + 1) == ObjJobs(x.objs, oi, si);
        }
      }
    }

    method RelocateAll() returns (err: Option<Error>)
      requires Valid()
      modifies this`unresolved, Bufs()
      ensures Valid() && Done(Jobs(x.objs, |x.objs|), err, old(Contents()), old(unresolved))
    {
      hide Act, ActOf, Contents, Kept, Valid, Rva, ObjJobs, Apply, AllMissing, FirstError;
      ghost var out, missing := Contents(), unresolved;
      NoJobs(x, out);
      err := None;
      for oi := 0 to |x.objs|
        invariant err == None && Valid() && Done(Jobs(x.objs, oi), None, out, missing)
      {
        ghost var js, more := Jobs(x.objs, oi), ObjJobs(x.objs, oi, |x.objs[oi].sections|);
        InSequence(x, js, more, out);
        err := RelocateObject(oi);
        assert Jobs(x.objs, oi + 1) == js + more;
        if err.Some? {
          JobsPrefix(x.objs, oi + 1, |x.objs|);
          ErrorStays(x, js + more, Jobs(x.objs, |x.objs|));
          return;
        }
      }
    }

    /** The link: every relocation, then the unresolved names, then the entry point. */
    method Link() returns (r: Result<Option<nat>, Error>)
      requires Valid() && unresolved == []
      modifies this`unresolved, Bufs()
      ensures Valid()
      ensures var js := Jobs(x.objs, |x.objs|);
        && (r.Ok? <==> FirstError(x, js).None? && AllMissing(x, js) == [])
        && (r.Ok? ==> Contents() == Apply(x, js, old(Contents())) && r.value == EntryRva(x))
        && (FirstError(x, js).Some? ==> r == Err(FirstError(x, js).value))
        && (r.Err? && FirstError(x, js).None? ==> r == Err(Unresolved(AllMissing(x, js))))
    {
      hide Act, ActOf, Contents, Kept, Rva, Jobs, Apply, AllMissing, FirstError;
      hide Symbols, Bucket, Base, OffsetsOf, Present;
      var err := RelocateAll();
      if err.Some? { return Err(err.value); }
      assert [] + AllMissing(x, Jobs(x.objs, |x.objs|)) == AllMissing(x, Jobs(x.objs, |x.objs|));
      if unresolved != [] { return Err(Unresolved(unresolved)); }
      var name := if "DriverEntry" in symbols then "DriverEntry" else "_DriverEntry@8";
      if name in symbols {
        SymbolPresent(x.objs, name);
        r := Ok(Some(rvas[symbols[name].section] + symbols[name].offset));
      } else {
        TextIsKept();
        r := Ok(if ".text" in rvas then Some(rvas[".text"]) else None);
      }
    }

    method StoreField(name: string, at: nat, bs: seq<byte>)
      requires Valid() && name in bufs
      modifies Bufs()
      ensures Valid() && name in old(Contents())
      ensures Contents() == old(Contents())[name := Patched(old(Contents())[name], at, bs)]
    {
      hide Bucket, Rva, Symbols, Kept, OffsetsOf, Present, Patched;
      StoreBytes(bufs[name], at, bs);
    }
  }

  lemma OffsetKnown(objs: seq<Obj>, oi: nat, offs: map<nat, nat>, si: nat)
    requires oi < |objs| && si < |objs[oi].sections| && OffsetsOf(objs, oi, |objs[oi].sections|, offs)
    ensures si in offs <==> Kept(objs[oi].sections[si].name)
    ensures si in offs ==> offs[si] == Base(objs, oi, si)
  {
    hide Base, Kept;
  }

  lemma SectionPresent(objs: seq<Obj>, oi: nat, si: nat)
    requires oi < |objs| && si < |objs[oi].sections|
    ensures Present(Flat(objs), objs[oi].sections[si].name)
  {
    PositionIs(objs, oi, si);
    assert Flat(objs)[Position(objs, oi, si)] in Flat(objs);
  }

  lemma SymbolPresent(objs: seq<Obj>, name: string)
    requires name in Symbols(objs, |objs|)
    ensures Kept(Symbols(objs, |objs|)[name].section) && Present(Flat(objs), Symbols(objs, |objs|)[name].section)
  {
    hide Kept, Base, Present;
    var last := |objs| - 1;
    var n := |objs[last].symbols|;
    SymbolsLast(objs, last, n, name);
    var o: nat, k: nat :| LastDefinition(objs, last, n, name, o, k) &&
                          Symbols(objs, |objs|)[name] == PlaceOf(objs, o, objs[o].symbols[k]);
    SectionPresent(objs, o, objs[o].symbols[k].sectionNumber - 1);
  }

  // ------------------------------------------------------------ the whole link

  datatype Linked = Linked(sections: Image, entry: Option<nat>)

  /** Exactly the sections that exist; bytes no relocation hits are the merged ones; and every field
      no other relocation disturbs has the outcome stated above, for the target that its symbol means. */
  ghost predicate LinkedRight(x: Input, linked: Image) {
    && (forall n :: n in linked <==> Kept(n) && Present(Flat(x.objs), n))
    && (forall n :: n in linked ==> |linked[n]| == |Bucket(Flat(x.objs), n)|)
    && (forall n, i: nat :: n in linked && i < |linked[n]| && NoneHits(x, Jobs(x.objs, |x.objs|), n, i) ==>
          linked[n][i] == Bucket(Flat(x.objs), n)[i])
    && (forall oi: nat, si: nat, r: nat :: Patches(x, oi, si, r) && OthersMiss(x, oi, si, r) ==>
          FieldOutcome(x, linked, oi, si, r))
    && (forall oi: nat, si: nat, r: nat :: Patches(x, oi, si, r) ==> FieldMeans(x, oi, si, r))
  }

  /** The target and the action FieldOutcome speaks of are the right ones. */
  ghost predicate FieldMeans(x: Input, oi: nat, si: nat, r: nat)
    requires Patches(x, oi, si, r)
  {
    var sec := x.objs[oi].sections[si];
    var rel := sec.relocs[r];
    && RightTarget(x, oi, rel, TargetOf(x, oi, rel))
    && RightAction(x, oi, sec.name, rel, Act(x, oi, sec.name, rel))
  }

  lemma MeansRight(x: Input, oi: nat, si: nat, r: nat)
    requires Patches(x, oi, si, r)
    ensures FieldMeans(x, oi, si, r)
  {
    hide RightTarget, RightAction, TargetOf, Act;
    var sec := x.objs[oi].sections[si];
    TargetIsRight(x, oi, sec.relocs[r]);
    ActIsRight(x, oi, sec.name, sec.relocs[r]);
  }

  lemma AppliedRight(x: Input, out: Image)
    requires Succeeds(x) && Unpatched(x, out)
    requires forall n :: n in out <==> Kept(n) && Present(Flat(x.objs), n)
    ensures LinkedRight(x, Apply(x, Jobs(x.objs, |x.objs|), out))
  {
    hide Succeeds, FieldOutcome, FieldMeans;
    hide Apply, Bucket, Jobs, Kept, Present, EarlierEmpty, OthersMiss, NoneHits;
    forall oi: nat, si: nat, r: nat | Patches(x, oi, si, r) ensures FieldMeans(x, oi, si, r) {
      MeansRight(x, oi, si, r);
    }
    var js := Jobs(x.objs, |x.objs|);
    var linked := Apply(x, js, out);
    forall n, i: nat | n in linked && i < |linked[n]| && NoneHits(x, js, n, i)
      ensures linked[n][i] == Bucket(Flat(x.objs), n)[i]
    {
      UntouchedByte(x, js, out, n, i);
    }
    forall oi: nat, si: nat, r: nat | Patches(x, oi, si, r) && OthersMiss(x, oi, si, r)
      ensures FieldOutcome(x, linked, oi, si, r)
    {
      SectionPresent(x.objs, oi, si);
      if EarlierEmpty(x.objs, oi, si) {
        RelocationCorrect(x, out, oi, si, r);
      } else {
        RelocationMissed(x, out, oi, si, r);
      }
    }
  }

  /** Where execution starts: DriverEntry, else its decorated name, else the start of .text if there is one. */
  ghost predicate RightEntry(x: Input, e: Option<nat>) {
    if !NoExport(x.objs, "DriverEntry") then EntersAt(x, "DriverEntry", e)
    else if !NoExport(x.objs, "_DriverEntry@8") then EntersAt(x, "_DriverEntry@8", e)
    else e == if Present(Flat(x.objs), ".text") then Some(0x1000) else None
  }

  ghost predicate EntersAt(x: Input, name: string, e: Option<nat>) {
    e.Some? && MeansExport(x, name, Some(x.imageBase + e.value))
  }

  lemma EntryIsRight(x: Input)
    ensures RightEntry(x, EntryRva(x))
  {
    hide Bucket, Rva, Flat, Kept, Symbols, MeansExport, Present, Exports;
    FirstRva(Flat(x.objs));
    TableHasExports(x.objs, "DriverEntry");
    TableHasExports(x.objs, "_DriverEntry@8");
    NameMeansExport(x, "DriverEntry");
    NameMeansExport(x, "_DriverEntry@8");
  }

  /** linkDriver: succeeds exactly when every relocation is applied or is debug information. */
  method LinkDriver(x: Input) returns (r: Result<Linked, Error>)
    ensures r.Ok? <==> Succeeds(x)
    ensures r.Ok? ==> LinkedRight(x, r.value.sections) && RightEntry(x, r.value.entry)
    ensures r.Err? ==> var js := Jobs(x.objs, |x.objs|);
      r.error == if FirstError(x, js).Some? then FirstError(x, js).value else Unresolved(AllMissing(x, js))
  {
    hide LinkedRight, RightEntry, Apply, Bucket, Jobs, Kept, Present, EntryRva, Flat, FirstError, AllMissing;
    EntryIsRight(x);
    var linker := new Linker(x);
    ghost var out := linker.Contents();
    var res := linker.Link();
    if res.Err? { return Err(res.error); }
    AppliedRight(x, out);
    r := Ok(Linked(map n | n in linker.bufs :: linker.bufs[n][..], res.value));
  }
}
