/** The protected-memory facade: the object of packages/pe-runner/src/memory.mjs that owns the
    region table, its access checks, and what whole runs of operations keep. */
module MemoryManager {
  import opened Common
  import opened Regions
  import opened RegionCuts

  const PAGE: int := 0x1000
  const MAX_SAFE_INTEGER: int := 0x1F_FFFF_FFFF_FFFF
  const WRITABLE: set<Flag> := {ReadWrite, WriteCopy, ExecuteReadWrite, ExecuteWriteCopy}
  const READABLE: set<Flag> := {ReadOnly, ExecuteRead} + WRITABLE
  const EXECUTABLE: set<Flag> := {Execute, ExecuteRead, ExecuteReadWrite, ExecuteWriteCopy}

  datatype Kind = Read | Write | Fetch

  datatype Config = Config(strictWrites: bool, strictFetch: bool)

  function PageFloor(a: int): int { a - a % PAGE }

  // ------------------------------------------------------------ access checks

  predicate Permits(cfg: Config, protect: set<Flag>, kind: Kind) {
    match kind
    case Read => protect * READABLE != {}
    case Write => protect * WRITABLE != {}
    case Fetch => if cfg.strictFetch then protect * EXECUTABLE != {} else protect * READABLE != {}
  }

  /** Whether the access faults, and the table it leaves behind. */
  function Checked(cfg: Config, rs: seq<Region>, kind: Kind, a: int): (bool, seq<Region>) {
    var k := HitIndex(rs, a);
    if k == |rs| then ((kind.Write? && cfg.strictWrites) || (kind.Fetch? && cfg.strictFetch), rs)
    else if rs[k].state != Commit then (true, rs)
    else if Guarded(rs[k].protect) then (true, rs[k := Disarm(rs[k])])
    else (!Permits(cfg, rs[k].protect, kind), rs)
  }

  predicate Guarded(protect: set<Flag>) { Guard in protect }

  function Disarm(r: Region): Region { r.(protect := r.protect - {Guard}) }

  lemma DisarmedPermits(cfg: Config, r: Region, kind: Kind)
    ensures !Guarded(Disarm(r).protect)
    ensures Permits(cfg, Disarm(r).protect, kind) == Permits(cfg, r.protect, kind)
  {
    var p := r.protect;
    assert (p - {Guard}) * READABLE == p * READABLE;
    assert (p - {Guard}) * WRITABLE == p * WRITABLE;
    assert (p - {Guard}) * EXECUTABLE == p * EXECUTABLE;
  }

  lemma SameExtentsSameHits(rs: seq<Region>, k: nat, r: Region, a: int)
    requires k < |rs| && r.base == rs[k].base && r.size == rs[k].size
    ensures HitIndex(rs[k := r], a) == HitIndex(rs, a)
  {
    var ts := rs[k := r];
    var h := HitIndex(rs, a);
    if h < |rs| {
      LookupIs(ts, a, h);
    } else {
      LookupNone(ts, a);
    }
  }

  ghost predicate Armed(rs: seq<Region>, a: int) {
    var k := HitIndex(rs, a);
    k < |rs| && rs[k].state == Commit && Guarded(rs[k].protect)
  }

  /** Guards fire once: whatever the access, the first touch of a committed guarded region
      faults and disarms the whole region, so that the next access anywhere in it faults
      exactly when its protection forbids it. */
  lemma GuardOneShot(cfg: Config, rs: seq<Region>, kind: Kind, a: int, kind': Kind, a': int)
    requires Armed(rs, a) && HitIndex(rs, a') == HitIndex(rs, a)
    ensures var (fault, ts) := Checked(cfg, rs, kind, a);
      fault && Checked(cfg, ts, kind', a') == (!Permits(cfg, rs[HitIndex(rs, a)].protect, kind'), ts)
  {
    var k := HitIndex(rs, a);
    SameExtentsSameHits(rs, k, Disarm(rs[k]), a');
    DisarmedPermits(cfg, rs[k], kind');
  }

  /** ... and no access changes what another region answers. */
  lemma GuardIsLocal(cfg: Config, rs: seq<Region>, kind: Kind, a: int, a': int)
    requires HitIndex(rs, a') != HitIndex(rs, a) || !Armed(rs, a)
    ensures Lookup(Checked(cfg, rs, kind, a).1, a') == Lookup(rs, a')
  {
    var k := HitIndex(rs, a);
    if Armed(rs, a) {
      SameExtentsSameHits(rs, k, Disarm(rs[k]), a');
    }
  }

  /** Protections that allow each kind of access; without strict fetches, code may run where it can be read. */
  function Allowing(cfg: Config, kind: Kind): set<Flag> {
    if kind.Write? then {ReadWrite, WriteCopy, ExecuteReadWrite, ExecuteWriteCopy}
    else if kind.Fetch? && cfg.strictFetch then {Execute, ExecuteRead, ExecuteReadWrite, ExecuteWriteCopy}
    else {ReadOnly, ReadWrite, WriteCopy, ExecuteRead, ExecuteReadWrite, ExecuteWriteCopy}
  }

  /** What the first region at an address decides: memory that is only reserved always faults, a guard
      faults and goes, other committed memory faults when its protection is not among the allowing ones,
      and where no region is, only strict writes and strict fetches fault. */
  ghost predicate RightAccess(cfg: Config, rs: seq<Region>, kind: Kind, a: int, fault: bool, rs': seq<Region>) {
    match Lookup(rs, a)
    case None => rs' == rs && (fault <==> (kind.Write? && cfg.strictWrites) || (kind.Fetch? && cfg.strictFetch))
    case Some(r) =>
      if r.state == Reserve then fault && rs' == rs
      else if Guard in r.protect then fault && GuardGone(rs, a, rs')
      else rs' == rs && (fault <==> r.protect !! Allowing(cfg, kind))
  }

  /** Only the first region that covers the address has changed, and only by its guard. */
  ghost predicate GuardGone(rs: seq<Region>, a: int, rs': seq<Region>) {
    exists k :: 0 <= k < |rs| && rs[k].Covers(a) && (forall j :: 0 <= j < k ==> !rs[j].Covers(a)) &&
                rs' == rs[k := rs[k].(protect := rs[k].protect - {Guard})]
  }

  lemma CheckedIsRight(cfg: Config, rs: seq<Region>, kind: Kind, a: int)
    ensures RightAccess(cfg, rs, kind, a, Checked(cfg, rs, kind, a).0, Checked(cfg, rs, kind, a).1)
  {
    hide GuardGone;
    var k := HitIndex(rs, a);
    if k < |rs| {
      var p := rs[k].protect;
      PermitsIff(cfg, p, kind);
      if Guard in p { GuardGoes(rs, a, k); }
    }
  }

  lemma GuardGoes(rs: seq<Region>, a: int, k: nat)
    requires k < |rs| && k == HitIndex(rs, a)
    ensures GuardGone(rs, a, rs[k := Disarm(rs[k])])
  {
  }

  lemma PermitsIff(cfg: Config, p: set<Flag>, kind: Kind)
    ensures Permits(cfg, p, kind) <==> !(p !! Allowing(cfg, kind))
  {
    assert READABLE == {ReadOnly, ReadWrite, WriteCopy, ExecuteRead, ExecuteReadWrite, ExecuteWriteCopy};
  }

  // ------------------------------------------------------------ accesses of several bytes

  predicate Bypassed(raw: seq<(int, nat)>, a: int) {
    exists r :: r in raw && r.0 <= a < r.0 + r.1
  }

  /** The access checks let an access to this one byte through. */
  predicate Accepts(cfg: Config, rs: seq<Region>, raw: seq<(int, nat)>, kind: Kind, a: int) {
    Bypassed(raw, a) || !Checked(cfg, rs, kind, a).0
  }

  ghost predicate AcceptsAll(cfg: Config, rs: seq<Region>, raw: seq<(int, nat)>, kind: Kind, a: int, n: nat) {
    forall x :: a <= x < a + n ==> Accepts(cfg, rs, raw, kind, x)
  }

  /** A region or a bypassed range begins or ends here. */
  predicate Edge(rs: seq<Region>, raw: seq<(int, nat)>, x: int) {
    || (exists r :: r in rs && (r.base == x || r.End() == x))
    || (exists r :: r in raw && (r.0 == x || r.0 + r.1 == x))
  }

  ghost predicate AcceptsEdges(cfg: Config, rs: seq<Region>, raw: seq<(int, nat)>, kind: Kind, a: int, n: nat) {
    forall x :: a < x < a + n && Edge(rs, raw, x) ==> Accepts(cfg, rs, raw, kind, x)
  }

  lemma SameBetweenEdges(cfg: Config, rs: seq<Region>, raw: seq<(int, nat)>, kind: Kind, x: int)
    requires !Edge(rs, raw, x)
    ensures Accepts(cfg, rs, raw, kind, x) == Accepts(cfg, rs, raw, kind, x - 1)
  {
    var k := HitIndex(rs, x - 1);
    forall j | 0 <= j < |rs| ensures rs[j].Covers(x) == rs[j].Covers(x - 1) {
      assert rs[j] in rs;
    }
    if k < |rs| {
      LookupIs(rs, x, k);
    } else {
      LookupNone(rs, x);
    }
  }

  lemma {:induction false} AcceptedSoFar(cfg: Config, rs: seq<Region>, raw: seq<(int, nat)>, kind: Kind, a: int,
                                         n: nat, x: int)
    requires Accepts(cfg, rs, raw, kind, a) && AcceptsEdges(cfg, rs, raw, kind, a, n) && a <= x < a + n
    ensures Accepts(cfg, rs, raw, kind, x)
    decreases x - a
  {
    hide Accepts, Edge;
    if x > a && !Edge(rs, raw, x) {
      AcceptedSoFar(cfg, rs, raw, kind, a, n, x - 1);
      SameBetweenEdges(cfg, rs, raw, kind, x);
    }
  }

  /** The checks look at the first byte only.  An access of n bytes would be accepted byte by byte
      exactly when its first byte is and so is every later one at which a region begins or ends. */
  lemma AcceptsAllIff(cfg: Config, rs: seq<Region>, raw: seq<(int, nat)>, kind: Kind, a: int, n: nat)
    requires n > 0
    ensures AcceptsAll(cfg, rs, raw, kind, a, n) <==>
            Accepts(cfg, rs, raw, kind, a) && AcceptsEdges(cfg, rs, raw, kind, a, n)
  {
    hide Accepts, Edge;
    if Accepts(cfg, rs, raw, kind, a) && AcceptsEdges(cfg, rs, raw, kind, a, n) {
      forall x | a <= x < a + n ensures Accepts(cfg, rs, raw, kind, x) {
        AcceptedSoFar(cfg, rs, raw, kind, a, n, x);
      }
    }
  }

  /** The failing case: an eight-byte write from a writable page into a read-only one goes through. */
  lemma {:induction false} StraddlingWriteAccepted(cfg: Config)
    ensures var rs := [Region(0x1000, 0x1000, {ReadWrite}, Commit, 0), Region(0x2000, 0x1000, {ReadOnly}, Commit, 0)];
      Accepts(cfg, rs, [], Write, 0x1FFC) && !Accepts(cfg, rs, [], Write, 0x2000) &&
      !AcceptsAll(cfg, rs, [], Write, 0x1FFC, 8)
  {
    var rs := [Region(0x1000, 0x1000, {ReadWrite}, Commit, 0), Region(0x2000, 0x1000, {ReadOnly}, Commit, 0)];
    LookupIs(rs, 0x1FFC, 0);
    LookupIs(rs, 0x2000, 1);
    assert ReadWrite in {ReadWrite} * WRITABLE;
    assert {ReadOnly} * WRITABLE == {};
  }

  // ------------------------------------------------------------ whole runs

  datatype Command =
    | Map(base: int, bytes: int, protect: set<Flag>, state: State, kind: int)
    | ProtectRange(base: int, size: nat, protect: set<Flag>)
    | Free(base: int, size: nat, decommit: bool)
    | Touch(access: Kind, addr: int)

  function FreeEnd(b: int, size: nat): int { if size != 0 then b + size else b + MAX_SAFE_INTEGER }

  function FreeCut(decommit: bool): Cut { if decommit then Decommit else Release }

  function Step(cfg: Config, rs: seq<Region>, c: Command): seq<Region> {
    match c
    case Map(base, size, p, st, kd) =>
      if size <= 0 then rs else SortByBase(rs + [Region(PageFloor(base), size, p, st, kd)])
    case ProtectRange(base, size, p) => Retable(Protect(p), rs, PageFloor(base), PageFloor(base) + size)
    case Free(base, size, dec) => Retable(FreeCut(dec), rs, PageFloor(base), FreeEnd(PageFloor(base), size))
    case Touch(kind, a) => Checked(cfg, rs, kind, a).1
  }

  function Run(cfg: Config, rs: seq<Region>, cs: seq<Command>): seq<Region>
    decreases |cs|
  {
    if cs == [] then rs else Run(cfg, Step(cfg, rs, cs[0]), cs[1..])
  }

  lemma CheckedSorted(cfg: Config, rs: seq<Region>, kind: Kind, a: int)
    requires SortedByBase(rs)
    ensures SortedByBase(Checked(cfg, rs, kind, a).1)
  {
  }

  lemma StepSorted(cfg: Config, rs: seq<Region>, c: Command)
    requires SortedByBase(rs)
    ensures SortedByBase(Step(cfg, rs, c))
  {
    hide SortByBase, CutAll, HitIndex;
    match c
    case Map(base, size, p, st, kd) =>
      if size > 0 { SortSorted(rs + [Region(PageFloor(base), size, p, st, kd)]); }
    case ProtectRange(base, size, p) => CutSorted(Protect(p), rs, PageFloor(base), PageFloor(base) + size);
    case Free(base, size, dec) => CutSorted(FreeCut(dec), rs, PageFloor(base), FreeEnd(PageFloor(base), size));
    case Touch(kind, a) => CheckedSorted(cfg, rs, kind, a);
  }

  /** Every table any run reaches from a sorted one (in particular from the empty one) is sorted. */
  lemma {:induction false} RunSorted(cfg: Config, rs: seq<Region>, cs: seq<Command>)
    requires SortedByBase(rs)
    ensures SortedByBase(Run(cfg, rs, cs))
    decreases |cs|
  {
    if cs != [] {
      StepSorted(cfg, rs, cs[0]);
      RunSorted(cfg, Step(cfg, rs, cs[0]), cs[1..]);
    }
  }

  /** The command's range leaves the address alone; a touch leaves it alone unless it disarms
      the guard of the region found there. */
  predicate Avoids(rs: seq<Region>, c: Command, a: int) {
    match c
    case Map(base, size, _, _, _) => !(PageFloor(base) <= a < PageFloor(base) + size)
    case ProtectRange(base, size, _) => !(PageFloor(base) <= a < PageFloor(base) + size)
    case Free(base, size, _) => !(PageFloor(base) <= a < FreeEnd(PageFloor(base), size))
    case Touch(_, x) => HitIndex(rs, x) == HitIndex(rs, a) < |rs| ==> !Guarded(rs[HitIndex(rs, a)].protect)
  }

  predicate RunAvoids(cfg: Config, rs: seq<Region>, cs: seq<Command>, a: int)
    decreases |cs|
  {
    cs == [] || (Avoids(rs, cs[0], a) && RunAvoids(cfg, Step(cfg, rs, cs[0]), cs[1..], a))
  }

  lemma StepFrame(cfg: Config, rs: seq<Region>, c: Command, a: int)
    requires SortedByBase(rs) && Avoids(rs, c, a)
    ensures AttrAt(Step(cfg, rs, c), a) == AttrAt(rs, a)
  {
    hide SortByBase, CutAll, HitIndex;
    match c
    case Map(base, size, p, st, kd) =>
      if size > 0 { MapExact(rs, Region(PageFloor(base), size, p, st, kd), a); }
    case ProtectRange(base, size, p) => CutExact(Protect(p), rs, PageFloor(base), PageFloor(base) + size, a);
    case Free(base, size, dec) => CutExact(FreeCut(dec), rs, PageFloor(base), FreeEnd(PageFloor(base), size), a);
    case Touch(kind, x) =>
      GuardIsLocal(cfg, rs, kind, x, a);
  }

  /** No run changes what is known about an address its ranges avoid, however it cuts, shadows
      and re-sorts the regions around that address. */
  lemma {:induction false} RunFrame(cfg: Config, rs: seq<Region>, cs: seq<Command>, a: int)
    requires SortedByBase(rs) && RunAvoids(cfg, rs, cs, a)
    ensures AttrAt(Run(cfg, rs, cs), a) == AttrAt(rs, a)
    decreases |cs|
  {
    if cs != [] {
      StepSorted(cfg, rs, cs[0]);
      StepFrame(cfg, rs, cs[0], a);
      RunFrame(cfg, Step(cfg, rs, cs[0]), cs[1..], a);
    }
  }

  /** A protection set on a mapped address stays until a later command names that address. */
  lemma ProtectionSticks(cfg: Config, rs: seq<Region>, base: int, size: nat, p: set<Flag>, cs: seq<Command>, a: int)
    requires SortedByBase(rs) && AttrAt(rs, a).Some? && PageFloor(base) <= a < PageFloor(base) + size
    requires RunAvoids(cfg, Step(cfg, rs, ProtectRange(base, size, p)), cs, a)
    ensures AttrAt(Run(cfg, rs, [ProtectRange(base, size, p)] + cs), a) ==
            Some(AttrAt(rs, a).value.(protect := p))
  {
    hide SortByBase, CutAll, HitIndex;
    var c := ProtectRange(base, size, p);
    var b := PageFloor(base);
    CutExact(Protect(p), rs, b, b + size, a);
    StepSorted(cfg, rs, c);
    RunFrame(cfg, Step(cfg, rs, c), cs, a);
    assert ([c] + cs)[1..] == cs;
  }

  // ------------------------------------------------------------ the object

  datatype Query = Query(base: int, size: nat, state: int, protect: set<Flag>, kind: int)

  /** First nonzero protection among the regions the range touches: what protect returns. */
  function OldProtect(rs: seq<Region>, b: int, e: int): set<Flag> {
    if rs == [] then {}
    else
      var first := OldProtect(rs[..|rs| - 1], b, e);
      if first == {} && Touched(rs[|rs| - 1], b, e) then rs[|rs| - 1].protect else first
  }

  /** The old protection reported: that of the first region the range meets, of those that have one. */
  ghost predicate FirstProtect(rs: seq<Region>, b: int, e: int, p: set<Flag>) {
    if forall r :: r in rs && b < r.base + r.size && r.base < e ==> r.protect == {} then p == {}
    else exists k :: 0 <= k < |rs| && Meets(rs[k], b, e) && p == rs[k].protect &&
                     forall j :: 0 <= j < k ==> !Meets(rs[j], b, e)
  }

  predicate Meets(r: Region, b: int, e: int) { b < r.base + r.size && r.base < e && r.protect != {} }

  lemma {:induction false} OldProtectIs(rs: seq<Region>, b: int, e: int)
    ensures FirstProtect(rs, b, e, OldProtect(rs, b, e))
  {
    if rs != [] {
      var front, n := rs[..|rs| - 1], |rs| - 1;
      OldProtectIs(front, b, e);
      assert forall j :: 0 <= j < n ==> rs[j] == front[j];
      assert forall r :: r in rs <==> r in front || r == rs[n];
      if OldProtect(front, b, e) != {} {
        var k :| 0 <= k < n && Meets(front[k], b, e) && OldProtect(front, b, e) == front[k].protect &&
                 forall j :: 0 <= j < k ==> !Meets(front[j], b, e);
        assert rs[k] in rs && Meets(rs[k], b, e);
      } else {
        NoneMeets(front, b, e);
        assert Meets(rs[n], b, e) ==> OldProtect(rs, b, e) == rs[n].protect;
      }
    }
  }

  lemma NoneMeets(rs: seq<Region>, b: int, e: int)
    requires FirstProtect(rs, b, e, {})
    ensures forall j :: 0 <= j < |rs| ==> !Meets(rs[j], b, e)
  {
    forall j | 0 <= j < |rs| ensures !Meets(rs[j], b, e) {
      assert rs[j] in rs;
    }
  }

  /** The new region where it lies, except behind a region that starts no higher. */
  function NewOver(before: Option<Region>, r: Region, a: int): Option<Region> {
    if r.base <= a < r.base + r.size && (before.None? || r.base < before.value.base) then Some(r) else before
  }

  function Reprotected(t: Option<Attr>, inside: bool, p: set<Flag>): Option<Attr> {
    if t.Some? && inside then Some(t.value.(protect := p)) else t
  }

  function Reserved(t: Option<Attr>): Option<Attr> {
    if t.Some? then Some(t.value.(state := Reserve)) else None
  }

  lemma DecommitReserves(rs: seq<Region>, b: int, e: int)
    requires b <= e && SortedByBase(rs)
    ensures NoHole(rs, b, e) ==> forall a :: b <= a < e ==>
      AttrAt(Retable(Decommit, rs, b, e), a) == Reserved(AttrAt(rs, a))
  {
    hide NoHole, Retable, AttrAt;
    DecommitExactIff(rs, b, e);
    if NoHole(rs, b, e) {
      forall a | b <= a < e ensures AttrAt(Retable(Decommit, rs, b, e), a) == Reserved(AttrAt(rs, a)) {
        assert DecommitExactAt(rs, b, e, a);
      }
    }
  }

  lemma {:induction false} TouchedIff(rs: seq<Region>, b: int, e: int)
    ensures AnyTouched(rs, b, e) <==> exists r :: r in rs && b < r.base + r.size && r.base < e
  {
    if rs != [] {
      TouchedIff(rs[..|rs| - 1], b, e);
      assert forall r :: r in rs <==> r in rs[..|rs| - 1] || r == rs[|rs| - 1];
    }
  }

  predicate AnyTouched(rs: seq<Region>, b: int, e: int) {
    rs != [] && (AnyTouched(rs[..|rs| - 1], b, e) || Touched(rs[|rs| - 1], b, e))
  }

  lemma CutAllNext(op: Cut, rs: seq<Region>, i: nat, b: int, e: int)
    requires b <= e && i < |rs|
    ensures CutAll(op, rs[..i + 1], b, e) == CutAll(op, rs[..i], b, e) + Pieces(op, rs[i], b, e)
    ensures OldProtect(rs[..i + 1], b, e) ==
            if OldProtect(rs[..i], b, e) == {} && Touched(rs[i], b, e) then rs[i].protect else OldProtect(rs[..i], b, e)
    ensures AnyTouched(rs[..i + 1], b, e) == (AnyTouched(rs[..i], b, e) || Touched(rs[i], b, e))
  {
    assert rs[..i + 1][..i] == rs[..i];
  }

  lemma Associate(w: seq<Region>, x: seq<Region>, y: seq<Region>, z: seq<Region>)
    ensures w + x + y + z == w + (x + y + z)
  {
  }

  /** The loop of protect: rebuilds the table region by region, unsorted. */
  method CutForProtect(table: seq<Region>, b: int, e: int, newProtect: set<Flag>)
    returns (out: seq<Region>, previous: set<Flag>)
    requires b <= e
    ensures out == CutAll(Protect(newProtect), table, b, e)
    ensures previous == OldProtect(table, b, e)
  {
    out, previous := [], {};
    for i := 0 to |table|
      invariant out == CutAll(Protect(newProtect), table[..i], b, e)
      invariant previous == OldProtect(table[..i], b, e)
    {
      var r := table[i];
      CutAllNext(Protect(newProtect), table, i, b, e);
      ghost var before := out;
      if r.End() <= b || e <= r.base {
        out := out + [r];
      } else {
        previous := if previous != {} then previous else r.protect;
        if r.base < b { out := out + [r.(size := b - r.base)]; }
        assert out == before + Below(r, b);
        var cs := if b < r.base then r.base else b;
        var ce := if r.End() < e then r.End() else e;
        out := out + [r.(base := cs, size := ce - cs, protect := newProtect)];
        assert out == before + Below(r, b) + Middle(Protect(newProtect), r, b, e);
        if e < r.End() { out := out + [r.(base := e, size := r.End() - e)]; }
        assert out == before + Below(r, b) + Middle(Protect(newProtect), r, b, e) + Above(r, e);
        Associate(before, Below(r, b), Middle(Protect(newProtect), r, b, e), Above(r, e));
      }
    }
    assert table[..|table|] == table;
  }

  /** The loop of free, for a release or a decommit. */
  method CutForFree(table: seq<Region>, b: int, e: int, decommit: bool) returns (out: seq<Region>, freed: bool)
    requires b <= e
    ensures out == CutAll(FreeCut(decommit), table, b, e)
    ensures freed == AnyTouched(table, b, e)
  {
    out, freed := [], false;
    for i := 0 to |table|
      invariant out == CutAll(FreeCut(decommit), table[..i], b, e)
      invariant freed == AnyTouched(table[..i], b, e)
    {
      var r := table[i];
      CutAllNext(FreeCut(decommit), table, i, b, e);
      ghost var before := out;
      if r.End() <= b || e <= r.base {
        out := out + [r];
      } else {
        freed := true;
        if r.base < b { out := out + [r.(size := b - r.base)]; }
        assert out == before + Below(r, b);
        if decommit {
          out := out + [r.(base := b, size := (if r.End() < e then r.End() else e) - b, state := Reserve)];
        }
        assert out == before + Below(r, b) + Middle(FreeCut(decommit), r, b, e);
        if e < r.End() { out := out + [r.(base := e, size := r.End() - e)]; }
        assert out == before + Below(r, b) + Middle(FreeCut(decommit), r, b, e) + Above(r, e);
        Associate(before, Below(r, b), Middle(FreeCut(decommit), r, b, e), Above(r, e));
      }
    }
    assert table[..|table|] == table;
  }

  class MemoryManager {
    var regions: seq<Region>
    var faults: seq<(Kind, int)>
    var bypassRanges: seq<(int, nat)>
    const cfg: Config

    ghost predicate Valid()
      reads this
    {
      SortedByBase(regions)
    }

    constructor (cfg: Config)
      ensures Valid() && regions == [] && faults == [] && bypassRanges == [] && this.cfg == cfg
    {
      this.cfg := cfg;
      regions, faults, bypassRanges := [], [], [];
    }

    method MapRegion(base: int, size: int, protect: set<Flag>, state: State, kind: int) returns (b: int)
      requires Valid()
      modifies this`regions
      ensures Valid() && b % 0x1000 == 0 && b <= base < b + 0x1000
      ensures size <= 0 ==> regions == old(regions)
      ensures size > 0 ==>
        forall a :: Lookup(regions, a) == NewOver(Lookup(old(regions), a), Region(b, size, protect, state, kind), a)
      ensures regions == Step(cfg, old(regions), Map(base, size, protect, state, kind))
    {
      hide SortByBase, HitIndex;
      StepSorted(cfg, regions, Map(base, size, protect, state, kind));
      b := PageFloor(base);
      if size <= 0 { return; }
      forall a { MapExact(regions, Region(b, size, protect, state, kind), a); }
      regions := SortByBase(regions + [Region(b, size, protect, state, kind)]);
    }

    method Find(a: int) returns (k: nat)
      ensures k == HitIndex(regions, a)
    {
      k := 0;
      while k < |regions|
        invariant 0 <= k <= |regions|
        invariant forall j :: 0 <= j < k ==> !regions[j].Covers(a)
      {
        if regions[k].Covers(a) {
          LookupIs(regions, a, k);
          return;
        }
        k := k + 1;
      }
    }

    method ProtectRegions(base: int, size: nat, newProtect: set<Flag>) returns (previous: set<Flag>)
      requires Valid()
      modifies this`regions
      ensures Valid()
      ensures regions == Step(cfg, old(regions), ProtectRange(base, size, newProtect))
      ensures var b := base - base % 0x1000;
        && (forall a :: AttrAt(regions, a) == Reprotected(AttrAt(old(regions), a), b <= a < b + size, newProtect))
        && FirstProtect(old(regions), b, b + size, previous)
    {
      hide SortByBase, CutAll, HitIndex;
      StepSorted(cfg, regions, ProtectRange(base, size, newProtect));
      var b := PageFloor(base);
      forall a { CutExact(Protect(newProtect), regions, b, b + size, a); }
      OldProtectIs(regions, b, b + size);
      var out;
      out, previous := CutForProtect(regions, b, b + size, newProtect);
      regions := SortByBase(out);
    }

    method FreeRegions(base: int, size: nat, decommit: bool) returns (freed: bool)
      requires Valid()
      modifies this`regions
      ensures Valid()
      ensures regions == Step(cfg, old(regions), Free(base, size, decommit))
      ensures var b := base - base % 0x1000;
        var e := b + if size == 0 then 0x1F_FFFF_FFFF_FFFF else size;
        && (freed <==> exists r :: r in old(regions) && b < r.base + r.size && r.base < e)
        && (forall a :: !(decommit && b <= a < e) ==>
              AttrAt(regions, a) == if b <= a < e then None else AttrAt(old(regions), a))
        && (decommit && NoHole(old(regions), b, e) ==>
              forall a :: b <= a < e ==> AttrAt(regions, a) == Reserved(AttrAt(old(regions), a)))
    {
      hide SortByBase, CutAll, HitIndex, NoHole;
      StepSorted(cfg, regions, Free(base, size, decommit));
      var b := PageFloor(base);
      var e := FreeEnd(b, size);
      forall a | !(decommit && b <= a < e) { CutExact(FreeCut(decommit), regions, b, e, a); }
      if decommit { DecommitReserves(regions, b, e); }
      TouchedIff(regions, b, e);
      var out;
      out, freed := CutForFree(regions, b, e, decommit);
      regions := SortByBase(out);
    }

    method QueryAt(a: int) returns (q: Query)
      ensures match Lookup(regions, a)
        case None => q == Query(0, 0, 0x10000, {NoAccess}, 0)
        case Some(r) => q == Query(r.base, r.size, if r.state.Commit? then 0x1000 else 0x2000, r.protect, r.kind)
    {
      var k := Find(a);
      if k == |regions| {
        q := Query(0, 0, 0x10000, {NoAccess}, 0);
      } else {
        var r := regions[k];
        q := Query(r.base, r.size, if r.state.Commit? then 0x1000 else 0x2000, r.protect, r.kind);
      }
    }

    /** The guest's read, write or fetch of n bytes: bypassed ranges are not checked at all, and
        elsewhere the first byte decides for all of them. */
    method Access(kind: Kind, a: int, n: nat) returns (fault: bool)
      requires Valid()
      modifies this`regions, this`faults
      ensures Valid()
      ensures if exists r :: r in bypassRanges && r.0 <= a < r.0 + r.1 then !fault && regions == old(regions)
        else fault == Checked(cfg, old(regions), kind, a).0 && regions == Checked(cfg, old(regions), kind, a).1
      ensures !(exists r :: r in bypassRanges && r.0 <= a < r.0 + r.1) ==>
        RightAccess(cfg, old(regions), kind, a, fault, regions)
      ensures faults == if fault then old(faults) + [(kind, a)] else old(faults)
      ensures n > 0 ==> (AcceptsAll(cfg, old(regions), bypassRanges, kind, a, n) <==>
                           !fault && AcceptsEdges(cfg, old(regions), bypassRanges, kind, a, n))
    {
      hide Edge, RightAccess;
      CheckedIsRight(cfg, regions, kind, a);
      if n > 0 { AcceptsAllIff(cfg, regions, bypassRanges, kind, a, n); }
      if Bypassed(bypassRanges, a) {
        return false;
      }
      var k := Find(a);
      if k == |regions| {
        fault := (kind.Write? && cfg.strictWrites) || (kind.Fetch? && cfg.strictFetch);
      } else if regions[k].state != Commit {
        fault := true;
      } else if Guarded(regions[k].protect) {
        regions := regions[k := Disarm(regions[k])];
        fault := true;
      } else {
        fault := !Permits(cfg, regions[k].protect, kind);
      }
      if fault { faults := faults + [(kind, a)]; }
    }
  }
}
