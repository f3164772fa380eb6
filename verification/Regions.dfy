/** The region table of packages/pe-runner/src/memory.mjs as a value: a sequence of regions
    kept in base order, searched from the front.  Regions may overlap, so every statement
    here is about what the front-to-back search finds at an address. */
module Regions {
  import opened Common

  datatype State = Commit | Reserve

  /** Bits of a protection word. */
  datatype Flag =
    | NoAccess | ReadOnly | ReadWrite | WriteCopy
    | Execute | ExecuteRead | ExecuteReadWrite | ExecuteWriteCopy
    | Guard | NoCache | WriteCombine

  datatype Region = Region(base: int, size: nat, protect: set<Flag>, state: State, kind: int) {
    function End(): int { base + size }

    predicate Covers(a: int) { base <= a < End() }
  }

  // ------------------------------------------------------------ searching

  /** Index of the first region that covers the address, or the table's length. */
  function HitIndex(rs: seq<Region>, a: int): (k: nat)
    ensures k <= |rs|
    ensures k < |rs| ==> rs[k].Covers(a)
    ensures forall j :: 0 <= j < k ==> !rs[j].Covers(a)
  {
    if rs == [] || rs[0].Covers(a) then 0
    else
      var k := HitIndex(rs[1..], a);
      assert forall j :: 1 <= j < k + 1 ==> rs[j] == rs[1..][j - 1];
      k + 1
  }

  function Lookup(rs: seq<Region>, a: int): Option<Region> {
    var k := HitIndex(rs, a);
    if k < |rs| then Some(rs[k]) else None
  }

  /** The search is determined by "first covering index". */
  lemma LookupIs(rs: seq<Region>, a: int, k: nat)
    requires k < |rs| && rs[k].Covers(a)
    requires forall j :: 0 <= j < k ==> !rs[j].Covers(a)
    ensures HitIndex(rs, a) == k && Lookup(rs, a) == Some(rs[k])
  {
  }

  lemma LookupNone(rs: seq<Region>, a: int)
    requires forall j :: 0 <= j < |rs| ==> !rs[j].Covers(a)
    ensures Lookup(rs, a) == None
  {
  }

  lemma LookupConcat(xs: seq<Region>, ys: seq<Region>, a: int)
    ensures Lookup(xs + ys, a) == if Lookup(xs, a).Some? then Lookup(xs, a) else Lookup(ys, a)
  {
    var s := xs + ys;
    var i, j := HitIndex(xs, a), HitIndex(ys, a);
    if i < |xs| {
      LookupIs(s, a, i);
    } else if j < |ys| {
      LookupIs(s, a, |xs| + j);
    } else {
      LookupNone(s, a);
    }
  }

  // ------------------------------------------------------------ stable sort by base

  ghost predicate SortedByBase(rs: seq<Region>) {
    forall i, j :: 0 <= i < j < |rs| ==> rs[i].base <= rs[j].base
  }

  /** Number of leading regions whose base is at most v. */
  function UpperBound(rs: seq<Region>, v: int): (p: nat)
    ensures p <= |rs|
    ensures forall j :: 0 <= j < p ==> rs[j].base <= v
    ensures p < |rs| ==> v < rs[p].base
  {
    if rs == [] || v < rs[0].base then 0
    else
      var p := UpperBound(rs[1..], v);
      assert forall j :: 1 <= j < p + 1 ==> rs[j] == rs[1..][j - 1];
      p + 1
  }

  /** Inserts behind every region with the same or a smaller base. */
  function Insert(rs: seq<Region>, x: Region): seq<Region> {
    var p := UpperBound(rs, x.base);
    rs[..p] + [x] + rs[p..]
  }

  /** Array.prototype.sort with the base comparator; the language requires it to be stable. */
  function SortByBase(rs: seq<Region>): seq<Region> {
    if rs == [] then [] else Insert(SortByBase(rs[..|rs| - 1]), rs[|rs| - 1])
  }

  function WithBase(rs: seq<Region>, v: int): seq<Region> {
    if rs == [] then []
    else
      var front := WithBase(rs[..|rs| - 1], v);
      if rs[|rs| - 1].base == v then front + [rs[|rs| - 1]] else front
  }

  lemma {:induction false} SortSorted(rs: seq<Region>)
    ensures SortedByBase(SortByBase(rs))
  {
    if rs != [] {
      SortSorted(rs[..|rs| - 1]);
    }
  }

  lemma {:induction false} WithBaseConcat(xs: seq<Region>, ys: seq<Region>, v: int)
    ensures WithBase(xs + ys, v) == WithBase(xs, v) + WithBase(ys, v)
  {
    if ys == [] {
      assert xs + ys == xs;
    } else {
      assert (xs + ys)[..|xs + ys| - 1] == xs + ys[..|ys| - 1];
      WithBaseConcat(xs, ys[..|ys| - 1], v);
    }
  }

  lemma {:induction false} WithBaseAbsent(rs: seq<Region>, v: int)
    requires forall r :: r in rs ==> r.base != v
    ensures WithBase(rs, v) == []
  {
    if rs != [] {
      WithBaseAbsent(rs[..|rs| - 1], v);
    }
  }

  lemma {:induction false} AroundWithBase(lo: seq<Region>, x: Region, hi: seq<Region>, v: int)
    requires forall r :: r in hi ==> x.base < r.base
    ensures WithBase(lo + [x] + hi, v) == WithBase(lo + hi, v) + if x.base == v then [x] else []
  {
    var wl, wh := WithBase(lo, v), WithBase(hi, v);
    WithBaseConcat(lo + [x], hi, v);
    WithBaseConcat(lo, hi, v);
    assert (lo + [x])[..|lo|] == lo;
    if x.base == v {
      WithBaseAbsent(hi, v);
      assert wl + [x] + [] == wl + [] + [x];
    } else {
      assert wl + [] + wh == wl + wh + [];
    }
  }

  lemma {:induction false} AboveUpperBound(t: seq<Region>, v: int, r: Region)
    requires SortedByBase(t) && r in t[UpperBound(t, v)..]
    ensures v < r.base
  {
    var p := UpperBound(t, v);
    var k :| 0 <= k < |t| - p && t[p..][k] == r;
    assert t[p].base <= t[p + k].base;
  }

  lemma {:induction false} InsertWithBase(t: seq<Region>, x: Region, v: int)
    requires SortedByBase(t)
    ensures WithBase(Insert(t, x), v) == WithBase(t, v) + if x.base == v then [x] else []
  {
    hide WithBase, SortedByBase;
    var p := UpperBound(t, x.base);
    assert t == t[..p] + t[p..];
    forall r | r in t[p..] ensures x.base < r.base { AboveUpperBound(t, x.base, r); }
    AroundWithBase(t[..p], x, t[p..], v);
  }

  /** Sorting keeps the regions of each base, in their original order. */
  lemma {:induction false} SortStable(rs: seq<Region>, v: int)
    ensures WithBase(SortByBase(rs), v) == WithBase(rs, v)
  {
    hide Insert;
    if rs != [] {
      var front, x := rs[..|rs| - 1], rs[|rs| - 1];
      SortStable(front, v);
      SortSorted(front);
      InsertWithBase(SortByBase(front), x, v);
    }
  }

  lemma {:induction false} LastAtMost(rs: seq<Region>, v: int)
    requires SortedByBase(rs)
    requires rs == [] || rs[|rs| - 1].base <= v
    ensures var w := WithBase(rs, v);
      w != [] <==> rs != [] && rs[|rs| - 1].base == v
    ensures var w := WithBase(rs, v);
      w != [] ==> w[|w| - 1] == rs[|rs| - 1]
  {
    if rs != [] && rs[|rs| - 1].base < v {
      WithBaseAbsent(rs, v);
    }
  }

  lemma SameBaseTails(s: seq<Region>, t: seq<Region>, v: int)
    requires s != [] && t != [] && s[|s| - 1] == t[|t| - 1]
    requires WithBase(s, v) == WithBase(t, v)
    ensures WithBase(s[..|s| - 1], v) == WithBase(t[..|t| - 1], v)
  {
    if s[|s| - 1].base == v {
      AppendCancels(WithBase(s[..|s| - 1], v), WithBase(t[..|t| - 1], v), s[|s| - 1]);
    }
  }

  lemma AppendCancels(xs: seq<Region>, ys: seq<Region>, r: Region)
    requires xs + [r] == ys + [r]
    ensures xs == ys
  {
    assert xs == (xs + [r])[..|xs|] && ys == (ys + [r])[..|ys|];
  }

  /** A base-sorted table is determined by its per-base subsequences, so every stable
      sorting algorithm returns the table SortByBase returns. */
  lemma {:induction false} StableSortUnique(s: seq<Region>, t: seq<Region>)
    requires SortedByBase(s) && SortedByBase(t)
    requires forall v :: WithBase(s, v) == WithBase(t, v)
    ensures s == t
    decreases |s| + |t|
  {
    if s != [] || t != [] {
      var v := if t == [] then s[|s| - 1].base
               else if s == [] then t[|t| - 1].base
               else Max(s[|s| - 1].base, t[|t| - 1].base);
      assert WithBase(s, v) == WithBase(t, v);
      LastAtMost(s, v);
      LastAtMost(t, v);
      var s', t' := s[..|s| - 1], t[..|t| - 1];
      forall v ensures WithBase(s', v) == WithBase(t', v) {
        SameBaseTails(s, t, v);
      }
      StableSortUnique(s', t');
      assert s == s' + [s[|s| - 1]] && t == t' + [t[|t| - 1]];
    }
  }

  /** Regions covering the address appear in base order. */
  ghost predicate HitsInOrder(rs: seq<Region>, a: int) {
    forall i, j :: 0 <= i < j < |rs| && rs[i].Covers(a) && rs[j].Covers(a) ==> rs[i].base <= rs[j].base
  }

  lemma InsertLookup(t: seq<Region>, x: Region, a: int)
    requires SortedByBase(t)
    ensures Lookup(Insert(t, x), a) ==
            if x.Covers(a) && (Lookup(t, a).None? || x.base < Lookup(t, a).value.base) then Some(x)
            else Lookup(t, a)
  {
    var p := UpperBound(t, x.base);
    var lo, hi := t[..p], t[p..];
    assert t == lo + hi;
    LookupConcat(lo, hi, a);
    LookupConcat(lo + [x], hi, a);
    LookupConcat(lo, [x], a);
    var j := HitIndex(hi, a);
    assert j < |hi| ==> hi[j] == t[p + j] && t[p].base <= t[p + j].base;
  }

  /** Stability at work: sorting does not change which region an address hits. */
  lemma {:induction false} SortLookup(rs: seq<Region>, a: int)
    requires HitsInOrder(rs, a)
    ensures Lookup(SortByBase(rs), a) == Lookup(rs, a)
  {
    if rs != [] {
      var front, x := rs[..|rs| - 1], rs[|rs| - 1];
      SortSorted(front);
      SortLookup(front, a);
      InsertLookup(SortByBase(front), x, a);
      assert rs == front + [x];
      LookupConcat(front, [x], a);
      var k := HitIndex(front, a);
      assert k < |front| && x.Covers(a) ==> rs[k].base <= rs[|rs| - 1].base;
    }
  }
}
