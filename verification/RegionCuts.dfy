/** Splitting the region table at a range: VirtualProtect, release and decommit.
    Every operation cuts each region it touches into pieces, in table order, and re-sorts. */
module RegionCuts {
  import opened Common
  import opened Regions

  datatype Cut = Protect(protect: set<Flag>) | Release | Decommit

  predicate Touched(r: Region, b: int, e: int) { b < r.End() && r.base < e }

  function Below(r: Region, b: int): seq<Region> {
    if r.base < b then [r.(size := b - r.base)] else []
  }

  function Above(r: Region, e: int): seq<Region>
    requires r.base < e
  {
    if e < r.End() then [r.(base := e, size := r.End() - e)] else []
  }

  /** The decommitted middle starts at b even when the region starts later. */
  function Middle(op: Cut, r: Region, b: int, e: int): seq<Region>
    requires b <= e && Touched(r, b, e)
  {
    match op
    case Protect(p) =>
      var s := Max(r.base, b);
      [r.(base := s, size := Min(r.End(), e) - s, protect := p)]
    case Release => []
    case Decommit => [r.(base := b, size := Min(r.End(), e) - b, state := Reserve)]
  }

  function Pieces(op: Cut, r: Region, b: int, e: int): seq<Region>
    requires b <= e
  {
    if Touched(r, b, e) then Below(r, b) + Middle(op, r, b, e) + Above(r, e) else [r]
  }

  function CutAll(op: Cut, rs: seq<Region>, b: int, e: int): seq<Region>
    requires b <= e
  {
    if rs == [] then []
    else CutAll(op, rs[..|rs| - 1], b, e) + Pieces(op, rs[|rs| - 1], b, e)
  }

  function Retable(op: Cut, rs: seq<Region>, b: int, e: int): seq<Region>
    requires b <= e
  {
    SortByBase(CutAll(op, rs, b, e))
  }

  // ------------------------------------------------------------ what a cut does at one address

  /** The part of r on the same side of the range as a. */
  function Part(r: Region, b: int, e: int, a: int): Region
    requires b <= e && r.Covers(a)
  {
    var lo := if a < b then r.base else if a < e then Max(r.base, b) else Max(r.base, e);
    var hi := if a < b then Min(r.End(), b) else if a < e then Min(r.End(), e) else r.End();
    r.(base := lo, size := hi - lo)
  }

  /** What the search should find at a, given what it found before. */
  function Want(op: Cut, hit: Option<Region>, b: int, e: int, a: int): Option<Region>
    requires b <= e && (hit.Some? ==> hit.value.Covers(a))
  {
    match hit
    case None => None
    case Some(r) =>
      if !(b <= a < e) then Some(Part(r, b, e, a))
      else match op
        case Protect(p) => Some(Part(r, b, e, a).(protect := p))
        case Release => None
        case Decommit => Some(Part(r, b, e, a).(state := Reserve))
  }

  /** Base of every piece of r that covers a: monotone in r's own base. */
  function PieceBase(op: Cut, base: int, b: int, e: int, a: int): int {
    if a < b then base
    else if a < e then if op.Decommit? then b else Max(base, b)
    else Max(base, e)
  }

  lemma PiecesLookup(op: Cut, r: Region, b: int, e: int, a: int)
    requires b <= e
    requires r.Covers(a) || !(op.Decommit? && b <= a < e)
    requires op.Decommit? && b <= a < e ==> r.base <= b
    ensures Lookup(Pieces(op, r, b, e), a) == if r.Covers(a) then Want(op, Some(r), b, e, a) else None
  {
    if Touched(r, b, e) {
      hide Lookup, Below, Middle, Above, Part;
      var lo, m, hi := Below(r, b), Middle(op, r, b, e), Above(r, e);
      LookupConcat(lo + m, hi, a);
      LookupConcat(lo, m, a);
      SidesLookup(r, b, e, a);
      MiddleLookup(op, r, b, e, a);
    }
  }

  lemma SidesLookup(r: Region, b: int, e: int, a: int)
    requires b <= e && Touched(r, b, e)
    ensures Lookup(Below(r, b), a) == if r.Covers(a) && a < b then Some(Part(r, b, e, a)) else None
    ensures Lookup(Above(r, e), a) == if r.Covers(a) && e <= a then Some(Part(r, b, e, a)) else None
  {
  }

  lemma MiddleLookup(op: Cut, r: Region, b: int, e: int, a: int)
    requires b <= e && Touched(r, b, e)
    requires r.Covers(a) || !(op.Decommit? && b <= a < e)
    requires op.Decommit? && b <= a < e ==> r.base <= b
    ensures r.Covers(a) && b <= a < e ==> Lookup(Middle(op, r, b, e), a) == Want(op, Some(r), b, e, a)
    ensures !(r.Covers(a) && b <= a < e) ==> Lookup(Middle(op, r, b, e), a) == None
  {
  }

  lemma PiecesBase(op: Cut, r: Region, b: int, e: int, a: int)
    requires b <= e
    ensures forall q :: q in Pieces(op, r, b, e) && q.Covers(a) ==> q.base == PieceBase(op, r.base, b, e, a)
  {
  }

  lemma {:induction false} CutInOrder(op: Cut, rs: seq<Region>, b: int, e: int, a: int)
    requires b <= e && SortedByBase(rs)
    ensures var cs := CutAll(op, rs, b, e);
      HitsInOrder(cs, a) &&
      forall q :: q in cs && q.Covers(a) ==> rs != [] && q.base <= PieceBase(op, rs[|rs| - 1].base, b, e, a)
  {
    if rs != [] {
      var front, r := rs[..|rs| - 1], rs[|rs| - 1];
      CutInOrder(op, front, b, e, a);
      PiecesBase(op, r, b, e, a);
      var cs, ps := CutAll(op, front, b, e), Pieces(op, r, b, e);
      var all := CutAll(op, rs, b, e);
      forall i, j | 0 <= i < j < |all| && all[i].Covers(a) && all[j].Covers(a)
        ensures all[i].base <= all[j].base
      {
        if j >= |cs| {
          assert all[j] == ps[j - |cs|];
          if i < |cs| { assert all[i] == cs[i]; } else { assert all[i] == ps[i - |cs|]; }
        }
      }
    }
  }

  /** Away from a decommitted middle, the cut table answers exactly as wanted. */
  lemma {:induction false} CutLookup(op: Cut, rs: seq<Region>, b: int, e: int, a: int)
    requires b <= e
    requires !(op.Decommit? && b <= a < e)
    ensures Lookup(CutAll(op, rs, b, e), a) == Want(op, Lookup(rs, a), b, e, a)
  {
    if rs != [] {
      var front, r := rs[..|rs| - 1], rs[|rs| - 1];
      CutLookup(op, front, b, e, a);
      assert rs == front + [r];
      LookupConcat(front, [r], a);
      LookupConcat(CutAll(op, front, b, e), Pieces(op, r, b, e), a);
      PiecesLookup(op, r, b, e, a);
    }
  }

  // ------------------------------------------------------------ main results

  /** Re-protecting or releasing is exact at every address of every base-sorted table,
      overlapping or not: same region, cut at the range's ends, new protection (or nothing)
      inside the range and no change outside. */
  lemma CutExact(op: Cut, rs: seq<Region>, b: int, e: int, a: int)
    requires b <= e && SortedByBase(rs)
    requires !(op.Decommit? && b <= a < e)
    ensures Lookup(Retable(op, rs, b, e), a) == Want(op, Lookup(rs, a), b, e, a)
  {
    CutInOrder(op, rs, b, e, a);
    SortLookup(CutAll(op, rs, b, e), a);
    CutLookup(op, rs, b, e, a);
  }

  lemma CutSorted(op: Cut, rs: seq<Region>, b: int, e: int)
    requires b <= e
    ensures SortedByBase(Retable(op, rs, b, e))
  {
    SortSorted(CutAll(op, rs, b, e));
  }

  // ------------------------------------------------------------ decommit

  datatype Attr = Attr(protect: set<Flag>, state: State, kind: int)

  /** Protection, state and type at an address; None where nothing is mapped. */
  function AttrAt(rs: seq<Region>, a: int): Option<Attr> {
    var hit := Lookup(rs, a);
    if hit.None? then None else Some(Attr(hit.value.protect, hit.value.state, hit.value.kind))
  }

  /** First region that the range touches and that ends above a. */
  function FirstReach(rs: seq<Region>, e: int, a: int): (k: nat)
    ensures k <= |rs|
    ensures k < |rs| ==> rs[k].base < e && a < rs[k].End()
    ensures forall j :: 0 <= j < k ==> !(rs[j].base < e && a < rs[j].End())
  {
    if rs == [] || (rs[0].base < e && a < rs[0].End()) then 0
    else
      var k := FirstReach(rs[1..], e, a);
      assert forall j :: 1 <= j < k + 1 ==> rs[j] == rs[1..][j - 1];
      k + 1
  }

  lemma DecommitPieces(r: Region, b: int, e: int, a: int)
    requires b <= a < e
    ensures Lookup(Pieces(Decommit, r, b, e), a) ==
            if r.base < e && a < r.End() then Some(Middle(Decommit, r, b, e)[0]) else None
  {
    if Touched(r, b, e) {
      var m := Middle(Decommit, r, b, e);
      LookupConcat(Below(r, b) + m, Above(r, e), a);
      LookupConcat(Below(r, b), m, a);
    }
  }

  lemma {:induction false} DecommitLookup(rs: seq<Region>, b: int, e: int, a: int)
    requires b <= a < e
    ensures var k := FirstReach(rs, e, a);
      Lookup(CutAll(Decommit, rs, b, e), a) ==
      if k < |rs| then Some(Middle(Decommit, rs[k], b, e)[0]) else None
  {
    if rs != [] {
      var front, r := rs[..|rs| - 1], rs[|rs| - 1];
      DecommitLookup(front, b, e, a);
      LookupConcat(CutAll(Decommit, front, b, e), Pieces(Decommit, r, b, e), a);
      DecommitPieces(r, b, e, a);
      var k, kf := FirstReach(rs, e, a), FirstReach(front, e, a);
      if kf < |front| {
        assert rs[kf] == front[kf];
      } else {
        assert forall j :: 0 <= j < |front| ==> front[j] == rs[j];
      }
      assert k == kf || (kf == |front| && k == |rs|);
    }
  }

  /** Everything between the start of the range and a touched region is mapped. */
  ghost predicate NoHole(rs: seq<Region>, b: int, e: int) {
    forall r, x :: r in rs && Touched(r, b, e) && b <= x < r.base ==> Lookup(rs, x).Some?
  }

  ghost predicate DecommitExactAt(rs: seq<Region>, b: int, e: int, a: int)
    requires b <= e
  {
    AttrAt(Retable(Decommit, rs, b, e), a) ==
    match AttrAt(rs, a)
    case None => None
    case Some(t) => Some(if b <= a < e then t.(state := Reserve) else t)
  }

  lemma DecommitExactWithoutHole(rs: seq<Region>, b: int, e: int, a: int)
    requires b <= e && SortedByBase(rs) && NoHole(rs, b, e)
    ensures DecommitExactAt(rs, b, e, a)
  {
    hide SortByBase, CutAll;
    if b <= a < e {
      CutInOrder(Decommit, rs, b, e, a);
      SortLookup(CutAll(Decommit, rs, b, e), a);
      DecommitLookup(rs, b, e, a);
      var k, h := FirstReach(rs, e, a), HitIndex(rs, a);
      if k < |rs| {
        assert rs[k] in rs && Touched(rs[k], b, e);
        assert a < rs[k].base ==> Lookup(rs, a).Some?;
        assert a < rs[k].base ==> h < k;
        assert rs[k].Covers(a);
        LookupIs(rs, a, k);
      }
    } else {
      CutExact(Decommit, rs, b, e, a);
    }
  }

  lemma HoleGetsMapped(rs: seq<Region>, b: int, e: int, r: Region, x: int)
    requires b <= e && SortedByBase(rs)
    requires r in rs && Touched(r, b, e) && b <= x < r.base && Lookup(rs, x).None?
    ensures AttrAt(rs, x).None? && AttrAt(Retable(Decommit, rs, b, e), x).Some?
  {
    CutInOrder(Decommit, rs, b, e, x);
    SortLookup(CutAll(Decommit, rs, b, e), x);
    DecommitLookup(rs, b, e, x);
    assert FirstReach(rs, e, x) < |rs|;
  }

  /** Decommit reserves exactly the mapped part of its range if and only if the range has no
      unmapped gap before a region it touches; otherwise the gap itself becomes mapped. */
  lemma DecommitExactIff(rs: seq<Region>, b: int, e: int)
    requires b <= e && SortedByBase(rs)
    ensures (forall a :: DecommitExactAt(rs, b, e, a)) <==> NoHole(rs, b, e)
  {
    if NoHole(rs, b, e) {
      forall a ensures DecommitExactAt(rs, b, e, a) {
        DecommitExactWithoutHole(rs, b, e, a);
      }
    } else {
      var r, x :| r in rs && Touched(r, b, e) && b <= x < r.base && Lookup(rs, x).None?;
      HoleGetsMapped(rs, b, e, r, x);
      assert !DecommitExactAt(rs, b, e, x);
    }
  }

  /** A lone region starting a page above the decommitted range's start: the page below it
      becomes reserved memory although nothing was mapped there. */
  lemma DecommitMapsAGap()
    ensures var rs := [Region(0x2000, 0x1000, {ReadWrite}, Commit, 0x20000)];
      AttrAt(rs, 0x1000).None? && AttrAt(Retable(Decommit, rs, 0x1000, 0x3000), 0x1000).Some?
  {
    var r := Region(0x2000, 0x1000, {ReadWrite}, Commit, 0x20000);
    HoleGetsMapped([r], 0x1000, 0x3000, r, 0x1000);
  }

  // ------------------------------------------------------------ mapping

  lemma SortOfSorted(rs: seq<Region>)
    requires SortedByBase(rs)
    ensures SortByBase(rs) == rs
  {
    SortSorted(rs);
    forall v ensures WithBase(SortByBase(rs), v) == WithBase(rs, v) {
      SortStable(rs, v);
    }
    StableSortUnique(SortByBase(rs), rs);
  }

  /** A new region is found where it covers, unless an older region with the same or a lower
      base already covers the address. */
  lemma MapExact(rs: seq<Region>, r: Region, a: int)
    requires SortedByBase(rs)
    ensures SortedByBase(SortByBase(rs + [r]))
    ensures Lookup(SortByBase(rs + [r]), a) ==
            if r.Covers(a) && (Lookup(rs, a).None? || r.base < Lookup(rs, a).value.base) then Some(r)
            else Lookup(rs, a)
  {
    SortSorted(rs + [r]);
    assert (rs + [r])[..|rs|] == rs;
    SortOfSorted(rs);
    InsertLookup(rs, r, a);
  }
}
