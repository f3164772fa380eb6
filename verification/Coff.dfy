/** linkSections of packages/compiler-worker/src/coff.mjs: the sections of all objects are
    concatenated by name, each copy padded to a 16-byte boundary. */
module Coff {
  import opened Common
  import opened GuestMemory

  datatype Reloc = Reloc(va: nat, symIndex: nat, kind: nat)
  datatype Sec = Sec(name: string, data: seq<byte>, relocs: seq<Reloc>)
  datatype Sym = Sym(name: string, value: nat, sectionNumber: nat, storageClass: nat, auxCount: nat)
  /** Sections are numbered by position; symbolsByIndex has holes at auxiliary records. */
  datatype Obj = Obj(sections: seq<Sec>, symbols: seq<Sym>, symbolsByIndex: seq<Option<Sym>>)
  datatype Place = Place(section: string, offset: nat)

  const ORDER: seq<string> := [".text", ".rdata", ".data", ".bss"]

  predicate Kept(name: string) { name in ORDER }

  // ------------------------------------------------------------ layout of one bucket

  function Padded(b: seq<byte>): (p: seq<byte>)
    ensures |p| == Align16(|b|) && b <= p
    ensures forall i :: |b| <= i < |p| ==> p[i] == 0
  {
    b + Zeros(Align16(|b|) - |b|)
  }

  /** Contents of the bucket of a name after the sections so far. */
  function Bucket(secs: seq<Sec>, name: string): seq<byte> {
    if secs == [] then []
    else
      var front, x := Bucket(secs[..|secs| - 1], name), secs[|secs| - 1];
      if x.name == name then Padded(front) + x.data else front
  }

  /** Where the k-th section's copy starts in its bucket. */
  function Start(secs: seq<Sec>, k: nat): nat
    requires k < |secs|
  {
    Align16(|Bucket(secs[..k], secs[k].name)|)
  }

  lemma {:induction false} BucketGrows(secs: seq<Sec>, k: nat, name: string)
    requires k <= |secs|
    ensures Bucket(secs[..k], name) <= Bucket(secs, name)
  {
    if k < |secs| {
      BucketGrows(secs[..|secs| - 1], k, name);
      assert secs[..|secs| - 1][..k] == secs[..k];
    } else {
      assert secs[..k] == secs;
    }
  }

  /** Each copy is intact, starts on a 16-byte boundary, and is preceded by zero padding only. */
  lemma CopyIntact(secs: seq<Sec>, k: nat)
    requires k < |secs|
    ensures var b, s, x := Bucket(secs, secs[k].name), Start(secs, k), secs[k];
      && s % 16 == 0 && s + |x.data| <= |b| && b[s..s + |x.data|] == x.data
      && var before := |Bucket(secs[..k], x.name)|;
         before <= s < before + 16 && forall i :: before <= i < s ==> b[i] == 0
  {
    var x := secs[k];
    var front := Bucket(secs[..k], x.name);
    assert secs[..k + 1][..k] == secs[..k];
    var upto := Bucket(secs[..k + 1], x.name);
    assert upto == Padded(front) + x.data;
    BucketGrows(secs, k + 1, x.name);
    var b, s := Bucket(secs, x.name), Start(secs, k);
    assert b[..|upto|] == upto;
    assert b[s..s + |x.data|] == upto[s..];
    forall i | |front| <= i < s ensures b[i] == 0 {
      assert b[i] == upto[i] == Padded(front)[i];
    }
  }

  /** Copies of one bucket do not overlap. */
  lemma CopiesApart(secs: seq<Sec>, j: nat, k: nat)
    requires j < k < |secs| && secs[j].name == secs[k].name
    ensures Start(secs, j) + |secs[j].data| <= Start(secs, k)
  {
    var name := secs[j].name;
    assert secs[..j + 1][..j] == secs[..j];
    assert secs[..k][..j + 1] == secs[..j + 1];
    BucketGrows(secs[..k], j + 1, name);
  }

  /** A section starts its bucket exactly when every earlier section of that name is empty. */
  lemma {:induction false} StartsBucketIff(secs: seq<Sec>, k: nat)
    requires k < |secs|
    ensures Start(secs, k) == 0 <==> forall j :: 0 <= j < k && secs[j].name == secs[k].name ==> secs[j].data == []
  {
    var name := secs[k].name;
    EmptyBucketIff(secs[..k], name);
    if forall j :: 0 <= j < k && secs[j].name == name ==> secs[j].data == [] {
      assert forall x :: x in secs[..k] && x.name == name ==> x.data == [];
    } else {
      var j :| 0 <= j < k && secs[j].name == name && secs[j].data != [];
      assert secs[..k][j] in secs[..k];
    }
  }

  lemma {:induction false} EmptyBucketIff(secs: seq<Sec>, name: string)
    ensures Bucket(secs, name) == [] <==> forall x :: x in secs && x.name == name ==> x.data == []
  {
    if secs != [] {
      var front, x := secs[..|secs| - 1], secs[|secs| - 1];
      EmptyBucketIff(front, name);
      assert secs == front + [x];
      if x.name == name {
        assert |Bucket(secs, name)| == Align16(|Bucket(front, name)|) + |x.data|;
      }
    }
  }

  // ------------------------------------------------------------ all objects

  function Flat(objs: seq<Obj>): seq<Sec> {
    if objs == [] then [] else Flat(objs[..|objs| - 1]) + objs[|objs| - 1].sections
  }

  /** Sections placed before section si of object oi. */
  function Before(objs: seq<Obj>, oi: nat, si: nat): seq<Sec>
    requires oi < |objs| && si <= |objs[oi].sections|
  {
    Flat(objs[..oi]) + objs[oi].sections[..si]
  }

  /** Offset of a section's copy in its bucket. */
  function Base(objs: seq<Obj>, oi: nat, si: nat): nat
    requires oi < |objs| && si < |objs[oi].sections|
  {
    Align16(|Bucket(Before(objs, oi, si), objs[oi].sections[si].name)|)
  }

  lemma {:induction false} FlatPrefix(objs: seq<Obj>, oi: nat)
    requires oi < |objs|
    ensures Flat(objs[..oi]) + objs[oi].sections <= Flat(objs)
  {
    if oi == |objs| - 1 {
      assert Flat(objs) == Flat(objs[..oi]) + objs[oi].sections;
    } else {
      FlatPrefix(objs[..|objs| - 1], oi);
      assert objs[..|objs| - 1][..oi] == objs[..oi];
    }
  }

  /** Position of a section in the flattened order. */
  function Position(objs: seq<Obj>, oi: nat, si: nat): nat
    requires oi < |objs|
  {
    |Flat(objs[..oi])| + si
  }

  lemma PositionIs(objs: seq<Obj>, oi: nat, si: nat)
    requires oi < |objs| && si < |objs[oi].sections|
    ensures var k := Position(objs, oi, si);
      k < |Flat(objs)| && Flat(objs)[k] == objs[oi].sections[si] &&
      Flat(objs)[..k] == Before(objs, oi, si) && Base(objs, oi, si) == Start(Flat(objs), k)
  {
    FlatPrefix(objs, oi);
    var k, pre := Position(objs, oi, si), Flat(objs[..oi]) + objs[oi].sections;
    assert Flat(objs)[..|pre|] == pre;
    assert Flat(objs)[..k] == pre[..k];
  }

  /** linkSections keeps every kept section: intact, aligned, at the offset both passes use. */
  lemma SectionPlaced(objs: seq<Obj>, oi: nat, si: nat)
    requires oi < |objs| && si < |objs[oi].sections|
    ensures var x, s := objs[oi].sections[si], Base(objs, oi, si);
      var b := Bucket(Flat(objs), x.name);
      s % 16 == 0 && s + |x.data| <= |b| && b[s..s + |x.data|] == x.data
  {
    PositionIs(objs, oi, si);
    CopyIntact(Flat(objs), Position(objs, oi, si));
  }

  // ------------------------------------------------------------ symbols

  predicate Exported(obj: Obj, y: Sym) {
    && 0 < y.sectionNumber <= |obj.sections| && y.storageClass == 2 && y.auxCount == 0
    && Kept(obj.sections[y.sectionNumber - 1].name)
  }

  function PlaceOf(objs: seq<Obj>, oi: nat, y: Sym): Place
    requires oi < |objs| && Exported(objs[oi], y)
  {
    var si := y.sectionNumber - 1;
    Place(objs[oi].sections[si].name, Base(objs, oi, si) + y.value)
  }

  /** Symbol table after the first n symbols of object oi; later definitions win. */
  function SymbolsIn(objs: seq<Obj>, oi: nat, n: nat): map<string, Place>
    requires oi < |objs| && n <= |objs[oi].symbols|
    decreases oi, n + 1
  {
    if n == 0 then Symbols(objs, oi)
    else
      var front, y := SymbolsIn(objs, oi, n - 1), objs[oi].symbols[n - 1];
      if Exported(objs[oi], y) then front[y.name := PlaceOf(objs, oi, y)] else front
  }

  function Symbols(objs: seq<Obj>, count: nat): map<string, Place>
    requires count <= |objs|
    decreases count, 0
  {
    if count == 0 then map[] else SymbolsIn(objs, count - 1, |objs[count - 1].symbols|)
  }

  /** Symbol k of object oi exports the name. */
  ghost predicate Defines(objs: seq<Obj>, oi: nat, k: nat, name: string) {
    && oi < |objs| && k < |objs[oi].symbols|
    && Exported(objs[oi], objs[oi].symbols[k]) && objs[oi].symbols[k].name == name
  }

  predicate Earlier(o: nat, k: nat, oi: nat, n: nat) { o < oi || (o == oi && k < n) }

  /** The last definition of the name before symbol n of object oi. */
  ghost predicate LastDefinition(objs: seq<Obj>, oi: nat, n: nat, name: string, o: nat, k: nat) {
    && Defines(objs, o, k, name) && Earlier(o, k, oi, n)
    && forall o': nat, k': nat :: Defines(objs, o', k', name) && Earlier(o', k', oi, n) ==> !Earlier(o, k, o', k')
  }

  ghost predicate Undefined(objs: seq<Obj>, oi: nat, n: nat, name: string) {
    forall o: nat, k: nat :: Defines(objs, o, k, name) ==> !Earlier(o, k, oi, n)
  }

  ghost predicate PlacedLast(objs: seq<Obj>, oi: nat, n: nat, name: string, p: Place) {
    exists o: nat, k: nat :: LastDefinition(objs, oi, n, name, o, k) && p == PlaceOf(objs, o, objs[o].symbols[k])
  }

  /** Moving the end of the table's prefix over no definition of the name. */
  lemma MoveOn(objs: seq<Obj>, oi: nat, n: nat, oi': nat, n': nat, name: string)
    requires forall o: nat, k: nat :: Defines(objs, o, k, name) ==> (Earlier(o, k, oi, n) <==> Earlier(o, k, oi', n'))
    ensures Undefined(objs, oi, n, name) ==> Undefined(objs, oi', n', name)
    ensures forall p :: PlacedLast(objs, oi, n, name, p) ==> PlacedLast(objs, oi', n', name, p)
  {
    hide Exported, Earlier, PlaceOf;
    forall p | PlacedLast(objs, oi, n, name, p) ensures PlacedLast(objs, oi', n', name, p) {
      var o: nat, k: nat :| LastDefinition(objs, oi, n, name, o, k) && p == PlaceOf(objs, o, objs[o].symbols[k]);
      assert LastDefinition(objs, oi', n', name, o, k);
    }
  }

  /** A name is in the table exactly when some object exports it, and its place is that of its last
      definition, at its section's copy. */
  lemma {:induction false} SymbolsLast(objs: seq<Obj>, oi: nat, n: nat, name: string)
    requires oi < |objs| && n <= |objs[oi].symbols|
    ensures if name in SymbolsIn(objs, oi, n) then PlacedLast(objs, oi, n, name, SymbolsIn(objs, oi, n)[name])
            else Undefined(objs, oi, n, name)
    decreases oi, n
  {
    hide Exported, PlaceOf, PlacedLast, Undefined, LastDefinition;
    if n == 0 {
      FirstSymbol(objs, oi, name);
      if oi > 0 {
        SymbolsLast(objs, oi - 1, |objs[oi - 1].symbols|, name);
        MoveOn(objs, oi - 1, |objs[oi - 1].symbols|, oi, 0, name);
      }
    } else if Defines(objs, oi, n - 1, name) {
      NewDefinition(objs, oi, n, name);
    } else {
      SymbolsLast(objs, oi, n - 1, name);
      MoveOn(objs, oi, n - 1, oi, n, name);
    }
  }

  lemma FirstSymbol(objs: seq<Obj>, oi: nat, name: string)
    requires oi < |objs|
    ensures SymbolsIn(objs, oi, 0) == if oi == 0 then map[] else SymbolsIn(objs, oi - 1, |objs[oi - 1].symbols|)
    ensures oi == 0 ==> Undefined(objs, oi, 0, name)
  {
  }

  lemma NewDefinition(objs: seq<Obj>, oi: nat, n: nat, name: string)
    requires oi < |objs| && 0 < n <= |objs[oi].symbols| && Defines(objs, oi, n - 1, name)
    ensures name in SymbolsIn(objs, oi, n) && PlacedLast(objs, oi, n, name, SymbolsIn(objs, oi, n)[name])
  {
    hide Exported, PlaceOf;
    assert LastDefinition(objs, oi, n, name, oi, n - 1);
  }

  /** Each exported definition that no later one replaces is in the finished table. */
  lemma DefinitionKept(objs: seq<Obj>, oi: nat, k: nat)
    requires oi < |objs| && k < |objs[oi].symbols|
    requires var name := objs[oi].symbols[k].name;
      LastDefinition(objs, |objs| - 1, |objs[|objs| - 1].symbols|, name, oi, k)
    ensures var y := objs[oi].symbols[k];
      Exported(objs[oi], y) && y.name in Symbols(objs, |objs|) && Symbols(objs, |objs|)[y.name] == PlaceOf(objs, oi, y)
  {
    hide Exported, PlaceOf;
    var last, name := |objs| - 1, objs[oi].symbols[k].name;
    var n := |objs[last].symbols|;
    SymbolsLast(objs, last, n, name);
    assert Defines(objs, oi, k, name) && Earlier(oi, k, last, n);
    var o: nat, j: nat :| LastDefinition(objs, last, n, name, o, j) &&
                          Symbols(objs, |objs|)[name] == PlaceOf(objs, o, objs[o].symbols[j]);
    assert o == oi && j == k;
  }

  /** Symbol k of object o is an external definition of the name in one of the four linked sections. */
  ghost predicate Exports(objs: seq<Obj>, o: nat, k: nat, name: string) {
    && o < |objs| && k < |objs[o].symbols|
    && var y := objs[o].symbols[k];
       && y.name == name && y.storageClass == 2 && y.auxCount == 0 && 1 <= y.sectionNumber <= |objs[o].sections|
       && objs[o].sections[y.sectionNumber - 1].name in [".text", ".rdata", ".data", ".bss"]
  }

  /** ... and none comes after it. */
  ghost predicate LastExport(objs: seq<Obj>, name: string, o: nat, k: nat) {
    && Exports(objs, o, k, name)
    && forall o': nat, k': nat :: Exports(objs, o', k', name) ==> o' < o || (o' == o && k' <= k)
  }

  lemma ExportsDefine(objs: seq<Obj>, o: nat, k: nat, name: string)
    ensures Exports(objs, o, k, name) <==> Defines(objs, o, k, name)
  {
  }

  lemma LastExportIs(objs: seq<Obj>, name: string, o: nat, k: nat)
    requires objs != []
    ensures LastExport(objs, name, o, k) <==> LastDefinition(objs, |objs| - 1, |objs[|objs| - 1].symbols|, name, o, k)
  {
    hide Exports, Defines;
    forall o': nat, k': nat ensures Exports(objs, o', k', name) <==> Defines(objs, o', k', name) {
      ExportsDefine(objs, o', k', name);
    }
    forall o': nat, k': nat | Defines(objs, o', k', name)
      ensures Earlier(o', k', |objs| - 1, |objs[|objs| - 1].symbols|)
    {
      DefinesWithin(objs, o', k', name);
    }
  }

  lemma DefinesWithin(objs: seq<Obj>, o: nat, k: nat, name: string)
    requires Defines(objs, o, k, name)
    ensures Earlier(o, k, |objs| - 1, |objs[|objs| - 1].symbols|)
  {
  }

  /** The finished table has a name exactly when some object exports it ... */
  lemma TableHasExports(objs: seq<Obj>, name: string)
    ensures name in Symbols(objs, |objs|) <==> exists o: nat, k: nat :: Exports(objs, o, k, name)
    ensures name in Symbols(objs, |objs|) ==> exists o: nat, k: nat :: LastExport(objs, name, o, k)
  {
    hide Bucket, Symbols, SymbolsIn, Exports, Defines, Earlier, PlaceOf, LastExport, LastDefinition;
    if objs == [] {
      NoSymbols(objs);
      forall o: nat, k: nat ensures !Exports(objs, o, k, name) { ExportsSome(objs, o, k, name); }
    } else {
      var last := |objs| - 1;
      var n := |objs[last].symbols|;
      LastTable(objs);
      SymbolsLast(objs, last, n, name);
      if name in Symbols(objs, |objs|) {
        var o: nat, k: nat :| LastDefinition(objs, last, n, name, o, k);
        LastExportIs(objs, name, o, k);
        LastIsExport(objs, name, o, k);
      }
      forall o: nat, k: nat | Exports(objs, o, k, name) ensures Defines(objs, o, k, name) && Earlier(o, k, last, n) {
        ExportsDefine(objs, o, k, name);
        DefinesWithin(objs, o, k, name);
      }
    }
  }

  lemma ExportsSome(objs: seq<Obj>, o: nat, k: nat, name: string)
    ensures Exports(objs, o, k, name) ==> objs != []
  {
  }

  lemma LastIsExport(objs: seq<Obj>, name: string, o: nat, k: nat)
    requires LastExport(objs, name, o, k)
    ensures Exports(objs, o, k, name)
  {
  }

  /** ... and then it says: the symbol's value into the copy of the section its last definition names. */
  lemma TableIsLastExport(objs: seq<Obj>, name: string, o: nat, k: nat)
    requires LastExport(objs, name, o, k)
    ensures var y := objs[o].symbols[k];
      var si := y.sectionNumber - 1;
      && name in Symbols(objs, |objs|) && Position(objs, o, si) < |Flat(objs)|
      && Symbols(objs, |objs|)[name] ==
         Place(objs[o].sections[si].name, Start(Flat(objs), Position(objs, o, si)) + y.value)
  {
    hide Bucket, Symbols, SymbolsIn, Flat, Start;
    LastExportIs(objs, name, o, k);
    DefinitionKept(objs, o, k);
    PositionIs(objs, o, objs[o].symbols[k].sectionNumber - 1);
  }

  lemma NoSymbols(objs: seq<Obj>)
    ensures Symbols(objs, 0) == map[]
  {
  }

  lemma LastTable(objs: seq<Obj>)
    requires objs != []
    ensures Symbols(objs, |objs|) == SymbolsIn(objs, |objs| - 1, |objs[|objs| - 1].symbols|)
  {
  }

  // ------------------------------------------------------------ the linker's loops

  function Concat(chunks: seq<seq<byte>>): seq<byte> {
    if chunks == [] then [] else Concat(chunks[..|chunks| - 1]) + chunks[|chunks| - 1]
  }

  predicate Present(secs: seq<Sec>, name: string) { exists x :: x in secs && x.name == name }

  /** Chunk lists stand for the buckets of the sections so far. */
  ghost predicate Represents(chunks: map<string, seq<seq<byte>>>, secs: seq<Sec>) {
    forall n :: n in chunks ==> Concat(chunks[n]) == Bucket(secs, n) && (chunks[n] != [] <==> Present(secs, n))
  }

  ghost predicate AllBuckets(chunks: map<string, seq<seq<byte>>>) { forall n :: n in chunks <==> Kept(n) }

  lemma ConcatAppend(chunks: seq<seq<byte>>, c: seq<byte>)
    ensures Concat(chunks + [c]) == Concat(chunks) + c
  {
    assert (chunks + [c])[..|chunks|] == chunks;
  }

  method TotalLength(chunks: seq<seq<byte>>) returns (n: nat)
    ensures n == |Concat(chunks)|
  {
    n := 0;
    for i := 0 to |chunks|
      invariant n == |Concat(chunks[..i])|
    {
      assert chunks[..i + 1][..i] == chunks[..i];
      n := n + |chunks[i]|;
    }
    assert chunks[..|chunks|] == chunks;
  }

  /** One section: pad the bucket, note the offset, append the data. */
  method PlaceSection(chunks: map<string, seq<seq<byte>>>, x: Sec, ghost secs: seq<Sec>)
    returns (chunks': map<string, seq<seq<byte>>>, at: nat)
    requires Represents(chunks, secs) && x.name in chunks
    ensures chunks'.Keys == chunks.Keys && Represents(chunks', secs + [x]) && at == Align16(|Bucket(secs, x.name)|)
  {
    var arr := chunks[x.name];
    var cur := TotalLength(arr);
    at := Align16(cur);
    if at > cur { arr := arr + [Zeros(at - cur)]; }
    arr := arr + [x.data];
    ChunkAdded(chunks, secs, x, arr);
    chunks' := chunks[x.name := arr];
  }

  /** Padding, if any is needed, and then the data. */
  lemma ChunkAdded(chunks: map<string, seq<seq<byte>>>, secs: seq<Sec>, x: Sec, arr: seq<seq<byte>>)
    requires Represents(chunks, secs) && x.name in chunks
    requires var was, cur := chunks[x.name], |Concat(chunks[x.name])|;
      arr == (if Align16(cur) > cur then was + [Zeros(Align16(cur) - cur)] else was) + [x.data]
    ensures |Concat(chunks[x.name])| == |Bucket(secs, x.name)|
    ensures Represents(chunks[x.name := arr], secs + [x])
  {
    var was, cur := chunks[x.name], |Concat(chunks[x.name])|;
    var padded := arr[..|arr| - 1];
    if Align16(cur) > cur { ConcatAppend(was, Zeros(Align16(cur) - cur)); } else { assert Zeros(0) == []; }
    assert Concat(padded) == Padded(Bucket(secs, x.name));
    ConcatAppend(padded, x.data);
    var chunks' := chunks[x.name := arr];
    assert (secs + [x])[..|secs|] == secs;
    forall n | n in chunks'
      ensures Concat(chunks'[n]) == Bucket(secs + [x], n) && (chunks'[n] != [] <==> Present(secs + [x], n))
    {
      PresentAppend(secs, x, n);
    }
  }

  lemma PresentAppend(secs: seq<Sec>, x: Sec, name: string)
    ensures Present(secs + [x], name) == (Present(secs, name) || x.name == name)
  {
    var all := secs + [x];
    assert all[|secs|] == x;
    if Present(secs, name) {
      var z :| z in secs && z.name == name;
      assert z in all;
    }
  }

  /** A section without a bucket leaves every bucket as it was. */
  lemma DropKeeps(chunks: map<string, seq<seq<byte>>>, secs: seq<Sec>, x: Sec)
    requires Represents(chunks, secs) && x.name !in chunks
    ensures Represents(chunks, secs + [x])
  {
    assert (secs + [x])[..|secs|] == secs;
    forall n | n in chunks ensures Present(secs + [x], n) == Present(secs, n) {
      PresentAppend(secs, x, n);
    }
  }

  /** Offsets of an object's kept sections, by section number. */
  ghost predicate OffsetsOf(objs: seq<Obj>, oi: nat, n: nat, offs: map<nat, nat>)
    requires oi < |objs| && n <= |objs[oi].sections|
  {
    forall si: nat :: (si in offs <==> si < n && Kept(objs[oi].sections[si].name)) &&
                 (si in offs ==> offs[si] == Base(objs, oi, si))
  }

  /** The section loop of one object in linkSections. */
  method PlaceObject(chunks: map<string, seq<seq<byte>>>, objs: seq<Obj>, oi: nat)
    returns (chunks': map<string, seq<seq<byte>>>, offs: map<nat, nat>)
    requires oi < |objs| && AllBuckets(chunks) && Represents(chunks, Flat(objs[..oi]))
    ensures AllBuckets(chunks') && Represents(chunks', Flat(objs[..oi + 1]))
    ensures OffsetsOf(objs, oi, |objs[oi].sections|, offs)
  {
    hide Kept, Bucket, Represents;
    chunks', offs := chunks, map[];
    var secs := objs[oi].sections;
    assert Before(objs, oi, 0) == Flat(objs[..oi]);
    for si := 0 to |secs|
      invariant AllBuckets(chunks') && Represents(chunks', Before(objs, oi, si))
      invariant OffsetsOf(objs, oi, si, offs)
    {
      var x := secs[si];
      assert Before(objs, oi, si + 1) == Before(objs, oi, si) + [x];
      if x.name in chunks' {
        var at;
        chunks', at := PlaceSection(chunks', x, Before(objs, oi, si));
        offs := offs[si := at];
      } else {
        DropKeeps(chunks', Before(objs, oi, si), x);
      }
    }
    assert objs[..oi + 1][..oi] == objs[..oi];
    assert Before(objs, oi, |secs|) == Flat(objs[..oi + 1]);
  }

  method EmptyBuckets() returns (chunks: map<string, seq<seq<byte>>>)
    ensures AllBuckets(chunks) && Represents(chunks, [])
  {
    chunks := map[".text" := [], ".rdata" := [], ".data" := [], ".bss" := []];
  }

  method LinkSections(objs: seq<Obj>) returns (sections: map<string, seq<byte>>, symbols: map<string, Place>)
    ensures forall n :: n in sections <==> Kept(n) && Present(Flat(objs), n)
    ensures forall n :: n in sections ==> sections[n] == Bucket(Flat(objs), n)
    ensures symbols == Symbols(objs, |objs|)
  {
    hide Represents, OffsetsOf, Bucket;
    var chunks := EmptyBuckets();
    symbols := map[];
    assert objs[..0] == [] && objs[..|objs|] == objs;
    for oi := 0 to |objs|
      invariant AllBuckets(chunks) && Represents(chunks, Flat(objs[..oi]))
      invariant symbols == Symbols(objs, oi)
    {
      var offs;
      chunks, offs := PlaceObject(chunks, objs, oi);
      symbols := AddSymbols(symbols, objs, oi, offs);
    }
    sections := Merge(chunks, Flat(objs));
  }

  method Merge(chunks: map<string, seq<seq<byte>>>, ghost secs: seq<Sec>) returns (sections: map<string, seq<byte>>)
    requires AllBuckets(chunks) && Represents(chunks, secs)
    ensures forall n :: n in sections <==> Kept(n) && Present(secs, n)
    ensures forall n :: n in sections ==> sections[n] == Bucket(secs, n)
  {
    sections := map n | n in chunks && chunks[n] != [] :: Concat(chunks[n]);
  }

  /** The symbol loop of one object. */
  method AddSymbols(symbols: map<string, Place>, objs: seq<Obj>, oi: nat, offs: map<nat, nat>)
    returns (symbols': map<string, Place>)
    requires oi < |objs| && symbols == Symbols(objs, oi) && OffsetsOf(objs, oi, |objs[oi].sections|, offs)
    ensures symbols' == Symbols(objs, oi + 1)
  {
    hide Kept, Base;
    symbols' := symbols;
    var syms := objs[oi].symbols;
    for k := 0 to |syms|
      invariant symbols' == SymbolsIn(objs, oi, k)
    {
      var y := syms[k];
      if y.sectionNumber > 0 && y.storageClass == 2 && y.auxCount == 0 {
        var si := y.sectionNumber - 1;
        if si < |objs[oi].sections| && si in offs {
          symbols' := symbols'[y.name := Place(objs[oi].sections[si].name, offs[si] + y.value)];
        }
      }
    }
  }
}
