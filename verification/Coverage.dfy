/** The instruction-address tracker of packages/ntsim-analyzer/src/coverage.mjs. */
module Coverage {
  import opened Common

  /** Executed addresses inside the image, in order. */
  function InRange(rips: seq<int>, lo: int, hi: int): (r: seq<int>)
    ensures forall a :: a in r ==> lo <= a < hi
  {
    if rips == [] then []
    else
      var front, x := InRange(rips[..|rips| - 1], lo, hi), rips[|rips| - 1];
      if lo <= x < hi then front + [x] else front
  }

  function Elements(s: seq<int>): set<int> { set x | x in s }

  /** Pairs of neighbours: what was executed next inside the image. */
  function Pairs(s: seq<int>): set<(int, int)> {
    if |s| <= 1 then {} else Pairs(s[..|s| - 1]) + {(s[|s| - 2], s[|s| - 1])}
  }

  class Tracker {
    const lo: int
    const hi: int
    var blocks: set<int>
    var edges: set<(int, int)>
    var prevRip: Option<int>
    var enabled: bool

    constructor (base: int, size: nat)
      ensures lo == base && hi == base + size && blocks == {} && edges == {} && prevRip == None && enabled
    {
      lo, hi := base, base + size;
      blocks, edges, prevRip, enabled := {}, {}, None, true;
    }

    method Reset()
      modifies this
      ensures blocks == {} && edges == {} && prevRip == None && enabled == old(enabled)
    {
      blocks, edges, prevRip := {}, {}, None;
    }

    method Pause()
      modifies this`enabled
      ensures !enabled
    {
      enabled := false;
    }

    method Resume()
      modifies this`enabled, this`prevRip
      ensures enabled && prevRip == None
    {
      enabled, prevRip := true, None;
    }

    /** The code hook. */
    method OnRip(rip: int)
      modifies this`blocks, this`edges, this`prevRip
      ensures if !enabled || !(lo <= rip < hi)
              then blocks == old(blocks) && edges == old(edges) && prevRip == old(prevRip)
              else blocks == old(blocks) + {rip} && prevRip == Some(rip) &&
                   edges == old(edges) + if old(prevRip).Some? then {(old(prevRip).value, rip)} else {}
    {
      if !enabled { return; }
      if rip < lo || rip >= hi { return; }
      blocks := blocks + {rip};
      if prevRip != None {
        edges := edges + {(prevRip.value, rip)};
      }
      prevRip := Some(rip);
    }

    /** One run from a reset tracker: the blocks are exactly the executed addresses inside the
        image and the edges exactly their successive pairs, however often control left the image
        in between; nothing is left over from earlier runs. */
    method Record(rips: seq<int>)
      modifies this
      ensures blocks == Elements(InRange(rips, lo, hi)) && edges == Pairs(InRange(rips, lo, hi)) && !enabled
      ensures forall a :: a in blocks <==> a in rips && lo <= a < hi
      ensures forall a, b :: (a, b) in edges <==> Successive(rips, lo, hi, a, b)
    {
      hide Successive, InRange;
      Reset();
      Resume();
      hide Pairs, Elements;
      NothingYet(lo, hi);
      assert rips[..0] == [];
      ghost var s := [];
      for i := 0 to |rips|
        invariant enabled && s == InRange(rips[..i], lo, hi)
        invariant blocks == Elements(s) && edges == Pairs(s)
        invariant prevRip == if s == [] then None else Some(s[|s| - 1])
      {
        OneMoreRip(rips, i, lo, hi);
        OnRip(rips[i]);
        s := InRange(rips[..i + 1], lo, hi);
      }
      assert rips[..|rips|] == rips;
      Pause();
      RecordedAre(rips, lo, hi);
    }
  }

  /** The same without the sequence in between. */
  lemma RecordedAre(rips: seq<int>, lo: int, hi: int)
    ensures forall a :: a in Elements(InRange(rips, lo, hi)) <==> a in rips && lo <= a < hi
    ensures forall a, b :: (a, b) in Pairs(InRange(rips, lo, hi)) <==> Successive(rips, lo, hi, a, b)
  {
    hide InRange, Pairs, Successive;
    forall a ensures a in Elements(InRange(rips, lo, hi)) <==> a in rips && lo <= a < hi {
      CoveredIff(rips, lo, hi, a);
    }
    forall a, b ensures (a, b) in Pairs(InRange(rips, lo, hi)) <==> Successive(rips, lo, hi, a, b) {
      PairsIff(rips, lo, hi, a, b);
    }
  }

  lemma OneMoreRip(rips: seq<int>, i: nat, lo: int, hi: int)
    requires i < |rips|
    ensures var s, s', x := InRange(rips[..i], lo, hi), InRange(rips[..i + 1], lo, hi), rips[i];
      if lo <= x < hi
      then s' != [] && s'[|s'| - 1] == x && Elements(s') == Elements(s) + {x} &&
           Pairs(s') == Pairs(s) + if s == [] then {} else {(s[|s| - 1], x)}
      else s' == s
  {
    hide Elements, InRange;
    var s := InRange(rips[..i], lo, hi);
    InRangeNext(rips, i, lo, hi);
    ElementsGrow(s, rips[i]);
    PairsGrow(s, rips[i]);
  }

  lemma InRangeNext(rips: seq<int>, i: nat, lo: int, hi: int)
    requires i < |rips|
    ensures InRange(rips[..i + 1], lo, hi) ==
            if lo <= rips[i] < hi then InRange(rips[..i], lo, hi) + [rips[i]] else InRange(rips[..i], lo, hi)
  {
    assert rips[..i + 1][..i] == rips[..i];
  }

  lemma {:induction false} CoveredIff(rips: seq<int>, lo: int, hi: int, a: int)
    ensures a in InRange(rips, lo, hi) <==> a in rips && lo <= a < hi
  {
    if rips != [] {
      CoveredIff(rips[..|rips| - 1], lo, hi, a);
      assert a in rips <==> a in rips[..|rips| - 1] || a == rips[|rips| - 1];
    }
  }

  /** a is executed and b is the next address executed inside the image. */
  ghost predicate Successive(rips: seq<int>, lo: int, hi: int, a: int, b: int) {
    exists i, j :: 0 <= i < j < |rips| && rips[i] == a && rips[j] == b && Next(rips, lo, hi, i, j)
  }

  ghost predicate Next(rips: seq<int>, lo: int, hi: int, i: int, j: int)
    requires 0 <= i < j < |rips|
  {
    lo <= rips[i] < hi && lo <= rips[j] < hi && forall k :: i < k < j ==> !(lo <= rips[k] < hi)
  }

  /** Where the last address inside the image was executed. */
  ghost predicate LastAt(rips: seq<int>, lo: int, hi: int, i: int) {
    0 <= i < |rips| && lo <= rips[i] < hi && forall k :: i < k < |rips| ==> !(lo <= rips[k] < hi)
  }

  lemma {:induction false} LastInRange(rips: seq<int>, lo: int, hi: int)
    ensures var s := InRange(rips, lo, hi);
      if s == [] then forall k :: 0 <= k < |rips| ==> !(lo <= rips[k] < hi)
      else exists i :: 0 <= i < |rips| && LastAt(rips, lo, hi, i) && rips[i] == s[|s| - 1]
  {
    if rips != [] {
      var front, x := rips[..|rips| - 1], rips[|rips| - 1];
      LastInRange(front, lo, hi);
      assert forall k :: 0 <= k < |front| ==> rips[k] == front[k];
      if lo <= x < hi {
        assert LastAt(rips, lo, hi, |rips| - 1);
      } else if InRange(front, lo, hi) != [] {
        var n := |InRange(front, lo, hi)| - 1;
        var i :| 0 <= i < |front| && LastAt(front, lo, hi, i) && front[i] == InRange(front, lo, hi)[n];
        assert LastAt(rips, lo, hi, i);
      }
    }
  }

  lemma {:induction false} PairsIff(rips: seq<int>, lo: int, hi: int, a: int, b: int)
    ensures (a, b) in Pairs(InRange(rips, lo, hi)) <==> Successive(rips, lo, hi, a, b)
  {
    if rips != [] {
      var front, x := rips[..|rips| - 1], rips[|rips| - 1];
      PairsIff(front, lo, hi, a, b);
      PairsGrow(InRange(front, lo, hi), x);
      LastInRange(front, lo, hi);
      assert forall k :: 0 <= k < |front| ==> rips[k] == front[k];
      SuccessiveNext(rips, lo, hi, a, b);
    }
  }

  lemma SuccessiveNext(rips: seq<int>, lo: int, hi: int, a: int, b: int)
    requires rips != []
    ensures var front, x := rips[..|rips| - 1], rips[|rips| - 1];
      var s := InRange(front, lo, hi);
      Successive(rips, lo, hi, a, b) <==>
        Successive(front, lo, hi, a, b) || (lo <= x < hi && b == x && s != [] && a == s[|s| - 1])
  {
    hide InRange, Next, LastAt;
    var front, x := rips[..|rips| - 1], rips[|rips| - 1];
    var s, n := InRange(front, lo, hi), |front|;
    LastInRange(front, lo, hi);
    if Successive(front, lo, hi, a, b) {
      var i, j :| 0 <= i < j < n && front[i] == a && front[j] == b && Next(front, lo, hi, i, j);
      NextInFront(rips, lo, hi, i, j);
      assert rips[i] == a && rips[j] == b;
    }
    if lo <= x < hi && b == x && s != [] && a == s[|s| - 1] {
      var i :| 0 <= i < n && LastAt(front, lo, hi, i) && front[i] == a;
      NextIsLast(rips, lo, hi, i);
      assert rips[i] == a && rips[n] == b;
    }
    if Successive(rips, lo, hi, a, b) {
      var i, j :| 0 <= i < j <= n && rips[i] == a && rips[j] == b && Next(rips, lo, hi, i, j);
      if j < n {
        NextInFront(rips, lo, hi, i, j);
        assert front[i] == a && front[j] == b;
      } else {
        NextIsLast(rips, lo, hi, i);
        NoneAfter(front, lo, hi, i);
      }
    }
  }

  lemma NextInFront(rips: seq<int>, lo: int, hi: int, i: int, j: int)
    requires 0 <= i < j < |rips| - 1
    ensures Next(rips, lo, hi, i, j) <==> Next(rips[..|rips| - 1], lo, hi, i, j)
  {
    assert forall k :: 0 <= k < |rips| - 1 ==> rips[..|rips| - 1][k] == rips[k];
  }

  lemma NextIsLast(rips: seq<int>, lo: int, hi: int, i: int)
    requires 0 <= i < |rips| - 1
    ensures Next(rips, lo, hi, i, |rips| - 1) <==>
            lo <= rips[|rips| - 1] < hi && LastAt(rips[..|rips| - 1], lo, hi, i)
  {
    assert forall k :: 0 <= k < |rips| - 1 ==> rips[..|rips| - 1][k] == rips[k];
  }

  lemma NoneAfter(rips: seq<int>, lo: int, hi: int, i: int)
    requires LastAt(rips, lo, hi, i)
    ensures forall i' :: LastAt(rips, lo, hi, i') ==> i' == i
    ensures InRange(rips, lo, hi) != []
  {
    LastInRange(rips, lo, hi);
  }

  lemma NothingYet(lo: int, hi: int)
    ensures Elements([]) == {} && Pairs([]) == {} && InRange([], lo, hi) == []
  {
  }

  lemma ElementsGrow(s: seq<int>, x: int)
    ensures Elements(s + [x]) == Elements(s) + {x}
  {
    assert (s + [x])[|s|] == x;
  }

  lemma PairsGrow(s: seq<int>, x: int)
    ensures Pairs(s + [x]) == if s == [] then {} else Pairs(s) + {(s[|s| - 1], x)}
  {
    var t := s + [x];
    assert t[..|t| - 1] == s;
    if s != [] { assert t[|t| - 2] == s[|s| - 1]; }
  }

  /** A tracker sees at most one block per address of the image. */
  lemma {:induction false} AtMostImageSize(s: set<int>, lo: int, size: nat)
    requires forall a :: a in s ==> lo <= a < lo + size
    ensures |s| <= size
  {
    if size > 0 {
      var top := lo + size - 1;
      AtMostImageSize(s - {top}, lo, size - 1);
      assert |s| <= |s - {top}| + 1 by {
        if top in s { assert s == (s - {top}) + {top}; } else { assert s == s - {top}; }
      }
    } else {
      assert forall a :: a !in s;
    }
  }
}
