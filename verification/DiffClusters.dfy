/** Byte-difference reports: the clustered scan of packages/ntsim-analyzer/src/selfmod.mjs and the
    run scan of packages/shellcode-runner/src/index.mjs. */
module DiffClusters {
  import opened Common
  import opened GuestMemory

  /** First and last changed offset of a cluster. */
  datatype Cluster = Cluster(first: nat, last: nat)

  /** Offset i of the old bytes has changed; bytes beyond the new buffer count as changed. */
  predicate Changed(before: seq<byte>, after: seq<byte>, i: nat)
    requires i < |before|
  {
    i >= |after| || before[i] != after[i]
  }

  function Count(before: seq<byte>, after: seq<byte>, n: nat): (c: nat)
    requires n <= |before|
    ensures c <= n
  {
    if n == 0 then 0 else Count(before, after, n - 1) + if Changed(before, after, n - 1) then 1 else 0
  }

  // ------------------------------------------------------------ what a clustering is

  /** Some changed offset follows a at a distance of at most gap, not beyond last. */
  ghost predicate Continues(before: seq<byte>, after: seq<byte>, a: nat, gap: nat, last: nat)
    requires last < |before|
  {
    exists b: nat :: a < b <= a + gap && b <= last && Changed(before, after, b)
  }

  /** c starts and ends on changed bytes, and inside it the next change is never further than gap. */
  ghost predicate Tight(before: seq<byte>, after: seq<byte>, gap: nat, c: Cluster, n: nat) {
    && c.first <= c.last < n <= |before|
    && Changed(before, after, c.first) && Changed(before, after, c.last)
    && forall a: nat :: c.first <= a < c.last && Changed(before, after, a) ==> Continues(before, after, a, gap, c.last)
  }

  /** The maximal clusters of the first n offsets, in order. */
  ghost predicate Clustering(before: seq<byte>, after: seq<byte>, gap: nat, n: nat, cs: seq<Cluster>)
    requires n <= |before|
  {
    && (forall k :: 0 <= k < |cs| ==> Tight(before, after, gap, cs[k], n))
    && (forall k :: 0 <= k < |cs| - 1 ==> cs[k].last + gap < cs[k + 1].first)
    && (forall i: nat :: i < n && Changed(before, after, i) ==> Inside(cs, i))
  }

  ghost predicate Inside(cs: seq<Cluster>, i: nat) {
    exists k :: 0 <= k < |cs| && cs[k].first <= i <= cs[k].last
  }

  lemma {:induction false} InOrder(cs: seq<Cluster>, gap: nat, j: nat, k: nat)
    requires forall k :: 0 <= k < |cs| ==> cs[k].first <= cs[k].last
    requires forall k :: 0 <= k < |cs| - 1 ==> cs[k].last + gap < cs[k + 1].first
    requires j < k < |cs|
    ensures cs[j].last + gap < cs[k].first
  {
    if j + 1 < k {
      InOrder(cs, gap, j, k - 1);
      assert cs[k - 1].last + gap < cs[k - 1 + 1].first;
    } else {
      assert cs[j].last + gap < cs[j + 1].first;
    }
  }

  lemma ClustersInOrder(before: seq<byte>, after: seq<byte>, gap: nat, n: nat, cs: seq<Cluster>, j: nat, k: nat)
    requires n <= |before| && Clustering(before, after, gap, n, cs) && j < k < |cs|
    ensures cs[j].last + gap < cs[k].first
  {
    hide Changed, Continues;
    forall i | 0 <= i < |cs| ensures cs[i].first <= cs[i].last { assert Tight(before, after, gap, cs[i], n); }
    InOrder(cs, gap, j, k);
  }

  /** The cluster an offset lies in is the only one. */
  lemma InsideOnly(before: seq<byte>, after: seq<byte>, gap: nat, n: nat, cs: seq<Cluster>, i: nat) returns (k: nat)
    requires n <= |before| && Clustering(before, after, gap, n, cs) && i < n && Changed(before, after, i)
    ensures k < |cs| && cs[k].first <= i <= cs[k].last
    ensures forall j: nat :: j < k ==> cs[j].last + gap < cs[k].first
    ensures forall j: nat :: k < j < |cs| ==> cs[k].last + gap < cs[j].first
  {
    hide Changed, Tight;
    assert Inside(cs, i);
    k :| 0 <= k < |cs| && cs[k].first <= i <= cs[k].last;
    forall j: nat | j < k ensures cs[j].last + gap < cs[k].first { ClustersInOrder(before, after, gap, n, cs, j, k); }
    forall j: nat | k < j < |cs| ensures cs[k].last + gap < cs[j].first {
      ClustersInOrder(before, after, gap, n, cs, k, j);
    }
  }

  lemma ClusterEnds(before: seq<byte>, after: seq<byte>, gap: nat, n: nat, cs: seq<Cluster>, k: nat)
    requires n <= |before| && Clustering(before, after, gap, n, cs) && k < |cs|
    ensures cs[k].first <= cs[k].last < n && Changed(before, after, cs[k].first) && Changed(before, after, cs[k].last)
    ensures forall a: nat :: cs[k].first <= a < cs[k].last && Changed(before, after, a) ==>
      Continues(before, after, a, gap, cs[k].last)
  {
    hide Changed, Continues, Inside;
    assert Tight(before, after, gap, cs[k], n);
  }

  /** Two clusterings agree on the first cluster they list. */
  lemma SameHead(before: seq<byte>, after: seq<byte>, gap: nat, n: nat, cs: seq<Cluster>, ds: seq<Cluster>, k: nat)
    requires n <= |before| && Clustering(before, after, gap, n, cs) && Clustering(before, after, gap, n, ds)
    requires k < |cs| && k <= |ds| && cs[..k] == ds[..k]
    ensures k < |ds| && ds[k].first <= cs[k].first
  {
    hide Clustering, Changed;
    ClusterEnds(before, after, gap, n, cs, k);
    var j := InsideOnly(before, after, gap, n, ds, cs[k].first);
    if j < k {
      ClusterEnds(before, after, gap, n, ds, j);
      assert ds[j] == ds[..k][j] == cs[..k][j] == cs[j];
      ClustersInOrder(before, after, gap, n, cs, j, k);
    }
    if k < j { ClusterEnds(before, after, gap, n, ds, k); }
  }

  lemma LastNotBeyond(before: seq<byte>, after: seq<byte>, gap: nat, n: nat, cs: seq<Cluster>, ds: seq<Cluster>, k: nat)
    requires n <= |before| && Clustering(before, after, gap, n, cs) && Clustering(before, after, gap, n, ds)
    requires k < |cs| && k < |ds| && cs[k].first == ds[k].first
    ensures cs[k].last <= ds[k].last
  {
    hide Clustering, Changed;
    if ds[k].last < cs[k].last {
      var a := ds[k].last;
      ClusterEnds(before, after, gap, n, cs, k);
      ClusterEnds(before, after, gap, n, ds, k);
      assert Continues(before, after, a, gap, cs[k].last);
      var b: nat :| a < b <= a + gap && b <= cs[k].last && Changed(before, after, b);
      var j := InsideOnly(before, after, gap, n, ds, b);
    }
  }

  /** A buffer pair has one clustering. */
  lemma {:induction false} ClusteringUnique(before: seq<byte>, after: seq<byte>, gap: nat, n: nat,
                                            cs: seq<Cluster>, ds: seq<Cluster>, k: nat)
    requires n <= |before| && Clustering(before, after, gap, n, cs) && Clustering(before, after, gap, n, ds)
    requires k <= |cs| && k <= |ds| && cs[..k] == ds[..k]
    ensures cs == ds
    decreases |cs| + |ds| - k
  {
    hide Clustering;
    if k < |cs| {
      SameHead(before, after, gap, n, cs, ds, k);
      SameHead(before, after, gap, n, ds, cs, k);
      LastNotBeyond(before, after, gap, n, cs, ds, k);
      LastNotBeyond(before, after, gap, n, ds, cs, k);
      assert cs[..k + 1] == cs[..k] + [cs[k]] && ds[..k + 1] == ds[..k] + [ds[k]];
      ClusteringUnique(before, after, gap, n, cs, ds, k + 1);
    } else if k < |ds| {
      SameHead(before, after, gap, n, ds, cs, k);
    } else {
      assert cs == cs[..k] && ds == ds[..k];
    }
  }

  // ------------------------------------------------------------ extending a clustering by one offset

  lemma SkipUnchanged(before: seq<byte>, after: seq<byte>, gap: nat, n: nat, cs: seq<Cluster>)
    requires n < |before| && Clustering(before, after, gap, n, cs) && !Changed(before, after, n)
    ensures Clustering(before, after, gap, n + 1, cs)
  {
    hide Changed, Continues, Inside;
    forall k | 0 <= k < |cs| ensures Tight(before, after, gap, cs[k], n + 1) {
      assert Tight(before, after, gap, cs[k], n);
    }
  }

  lemma TightLater(before: seq<byte>, after: seq<byte>, gap: nat, c: Cluster, n: nat)
    requires n < |before| && Tight(before, after, gap, c, n)
    ensures Tight(before, after, gap, c, n + 1)
  {
    hide Changed, Continues;
  }

  lemma TightSingle(before: seq<byte>, after: seq<byte>, gap: nat, n: nat)
    requires n < |before| && Changed(before, after, n)
    ensures Tight(before, after, gap, Cluster(n, n), n + 1)
  {
    hide Changed;
  }

  lemma TightExtended(before: seq<byte>, after: seq<byte>, gap: nat, n: nat, cs: seq<Cluster>)
    requires n < |before| && Clustering(before, after, gap, n, cs) && Changed(before, after, n)
    requires cs != [] && n <= cs[|cs| - 1].last + gap
    ensures Tight(before, after, gap, cs[|cs| - 1].(last := n), n + 1)
  {
    hide Changed, Continues, Clustering;
    var m := |cs| - 1;
    ClusterEnds(before, after, gap, n, cs, m);
    forall a: nat | cs[m].first <= a < n && Changed(before, after, a) ensures Continues(before, after, a, gap, n) {
      LaterChange(before, after, gap, n, cs, a);
    }
  }

  lemma OpenCluster(before: seq<byte>, after: seq<byte>, gap: nat, n: nat, cs: seq<Cluster>)
    requires n < |before| && Clustering(before, after, gap, n, cs) && Changed(before, after, n)
    requires cs != [] ==> cs[|cs| - 1].last + gap < n
    ensures Clustering(before, after, gap, n + 1, cs + [Cluster(n, n)])
  {
    hide Changed, Tight;
    var ds := cs + [Cluster(n, n)];
    TightSingle(before, after, gap, n);
    assert forall k :: 0 <= k < |cs| ==> ds[k] == cs[k];
    forall k | 0 <= k < |ds| - 1 ensures ds[k].last + gap < ds[k + 1].first {
      if k < |cs| - 1 { assert cs[k].last + gap < cs[k + 1].first; }
    }
    forall k | 0 <= k < |ds| ensures Tight(before, after, gap, ds[k], n + 1) {
      if k < |cs| { TightLater(before, after, gap, cs[k], n); }
    }
    forall i: nat | i < n + 1 && Changed(before, after, i) ensures Inside(ds, i) {
      if i < n {
        var k := InsideOnly(before, after, gap, n, cs, i);
        assert ds[k] == cs[k];
      } else {
        assert ds[|cs|] == Cluster(n, n);
      }
    }
  }

  lemma ExtendCluster(before: seq<byte>, after: seq<byte>, gap: nat, n: nat, cs: seq<Cluster>)
    requires n < |before| && Clustering(before, after, gap, n, cs) && Changed(before, after, n)
    requires cs != [] && n <= cs[|cs| - 1].last + gap
    ensures Clustering(before, after, gap, n + 1, cs[..|cs| - 1] + [cs[|cs| - 1].(last := n)])
  {
    hide Changed, Tight;
    var m := |cs| - 1;
    var ds := cs[..m] + [cs[m].(last := n)];
    assert forall k :: 0 <= k < m ==> ds[k] == cs[k];
    TightExtended(before, after, gap, n, cs);
    forall k | 0 <= k < |ds| ensures Tight(before, after, gap, ds[k], n + 1) {
      if k < m { TightLater(before, after, gap, cs[k], n); }
    }
    forall k | 0 <= k < |ds| - 1 ensures ds[k].last + gap < ds[k + 1].first {
      assert cs[k].last + gap < cs[k + 1].first;
    }
    forall i: nat | i < n + 1 && Changed(before, after, i) ensures Inside(ds, i) {
      if i < n {
        var k := InsideOnly(before, after, gap, n, cs, i);
        assert ds[k].first <= i <= ds[k].last;
      } else {
        ClusterEnds(before, after, gap, n, cs, m);
        assert ds[m].first <= n <= ds[m].last;
      }
    }
  }

  lemma LaterChange(before: seq<byte>, after: seq<byte>, gap: nat, n: nat, cs: seq<Cluster>, a: nat)
    requires n < |before| && Clustering(before, after, gap, n, cs) && Changed(before, after, n)
    requires cs != [] && n <= cs[|cs| - 1].last + gap
    requires cs[|cs| - 1].first <= a < n && Changed(before, after, a)
    ensures Continues(before, after, a, gap, n)
  {
    hide Clustering, Changed;
    var m := |cs| - 1;
    ClusterEnds(before, after, gap, n, cs, m);
    var k := InsideOnly(before, after, gap, n, cs, a);
    if a < cs[m].last {
      assert Continues(before, after, a, gap, cs[m].last);
      var b: nat :| a < b <= a + gap && b <= cs[m].last && Changed(before, after, b);
    }
  }

  lemma NothingClustered(before: seq<byte>, after: seq<byte>, gap: nat)
    ensures Clustering(before, after, gap, 0, [])
  {
  }

  // ------------------------------------------------------------ the two scans

  datatype Range = Range(rva: int, length: nat)

  function RangeOf(rva: int, c: Cluster): Range
    requires c.first <= c.last
  {
    Range(rva + c.first, c.last - c.first + 1)
  }

  /** The ranges are those of the clusters. */
  ghost predicate Reports(ranges: seq<Range>, rva: int, cs: seq<Cluster>) {
    |ranges| == |cs| && forall k :: 0 <= k < |cs| ==> cs[k].first <= cs[k].last && ranges[k] == RangeOf(rva, cs[k])
  }

  /** One section: counts every changed byte, and reports the first maxRanges maximal clusters. */
  method DiffSection(before: seq<byte>, now: seq<byte>, rva: int, maxRanges: nat, mergeGap: nat)
    returns (changed: nat, ranges: seq<Range>)
    ensures changed == Count(before, now, |before|)
    ensures exists cs :: Clustering(before, now, mergeGap, |before|, cs) && Reports(ranges, rva, Prefix(cs, maxRanges))
  {
    hide Clustering, Changed;
    changed, ranges := 0, [];
    NothingClustered(before, now, mergeGap);
    var runStart, runEnd := -1, -1;
    ghost var cs: seq<Cluster> := [];
    for i := 0 to |before|
      invariant changed == Count(before, now, i)
      invariant Clustering(before, now, mergeGap, i, cs)
      invariant runStart < 0 <==> cs == []
      invariant cs != [] ==> cs[|cs| - 1].first == runStart && cs[|cs| - 1].last == runEnd && runStart <= runEnd < i
      invariant Reports(ranges, rva, Prefix(if cs == [] then [] else cs[..|cs| - 1], maxRanges))
    {
      if Changed(before, now, i) {
        changed := changed + 1;
        if runStart < 0 {
          OpenCluster(before, now, mergeGap, i, cs);
          assert (cs + [Cluster(i, i)])[..|cs|] == cs;
          cs := cs + [Cluster(i, i)];
          runStart := i;
        } else if i - runEnd > mergeGap {
          OpenCluster(before, now, mergeGap, i, cs);
          assert cs == cs[..|cs| - 1] + [cs[|cs| - 1]] && (cs + [Cluster(i, i)])[..|cs|] == cs;
          if |ranges| < maxRanges {
            ranges := ranges + [Range(rva + runStart, runEnd - runStart + 1)];
          }
          cs := cs + [Cluster(i, i)];
          runStart := i;
        } else {
          ExtendCluster(before, now, mergeGap, i, cs);
          assert (cs[..|cs| - 1] + [cs[|cs| - 1].(last := i)])[..|cs| - 1] == cs[..|cs| - 1];
          cs := cs[..|cs| - 1] + [cs[|cs| - 1].(last := i)];
        }
        runEnd := i;
      } else {
        SkipUnchanged(before, now, mergeGap, i, cs);
      }
    }
    if runStart >= 0 {
      assert cs == cs[..|cs| - 1] + [cs[|cs| - 1]];
      if |ranges| < maxRanges {
        ranges := ranges + [Range(rva + runStart, runEnd - runStart + 1)];
      }
    }
    assert Reports(ranges, rva, Prefix(cs, maxRanges));
  }

  datatype Span = Span(start: nat, end: nat)

  const MAX_SPANS: nat := 256

  ghost predicate Spans(spans: seq<Span>, cs: seq<Cluster>) {
    |spans| == |cs| && forall k :: 0 <= k < |cs| ==> spans[k] == Span(cs[k].first, cs[k].last + 1)
  }

  /** Runs of changed bytes are the clusters of gap 1, and the byte count does not depend on how many
      of them are listed. */
  method DiffBuffers(before: seq<byte>, after: seq<byte>) returns (changedBytes: nat, spans: seq<Span>)
    ensures changedBytes == Count(before, after, |before|)
    ensures exists cs :: Clustering(before, after, 1, |before|, cs) && Spans(spans, Prefix(cs, MAX_SPANS))
  {
    hide Clustering, Changed;
    changedBytes, spans := 0, [];
    NothingClustered(before, after, 1);
    var start := -1;
    ghost var cs: seq<Cluster> := [];
    for i := 0 to |before|
      invariant -1 <= start < i && Clustering(before, after, 1, i, cs)
      invariant start >= 0 ==> cs != [] && cs[|cs| - 1] == Cluster(start, i - 1)
      invariant start >= 0 ==>
        changedBytes + (i - start) == Count(before, after, i) && Spans(spans, Prefix(cs[..|cs| - 1], MAX_SPANS))
      invariant start < 0 ==> changedBytes == Count(before, after, i) && Spans(spans, Prefix(cs, MAX_SPANS))
      invariant start < 0 && cs != [] ==> cs[|cs| - 1].last + 1 < i
    {
      if Changed(before, after, i) {
        if start < 0 {
          OpenCluster(before, after, 1, i, cs);
          assert (cs + [Cluster(i, i)])[..|cs|] == cs;
          cs := cs + [Cluster(i, i)];
          start := i;
        } else {
          ExtendCluster(before, after, 1, i, cs);
          assert (cs[..|cs| - 1] + [Cluster(start, i)])[..|cs| - 1] == cs[..|cs| - 1];
          cs := cs[..|cs| - 1] + [Cluster(start, i)];
        }
      } else {
        SkipUnchanged(before, after, 1, i, cs);
        if start >= 0 {
          assert cs == cs[..|cs| - 1] + [cs[|cs| - 1]];
          if |spans| < MAX_SPANS {
            spans := spans + [Span(start, i)];
          }
          changedBytes := changedBytes + (i - start);
          start := -1;
        }
      }
    }
    if start >= 0 {
      assert cs == cs[..|cs| - 1] + [cs[|cs| - 1]];
      if |spans| < MAX_SPANS {
        spans := spans + [Span(start, |before|)];
      }
      changedBytes := changedBytes + (|before| - start);
    }
    assert Spans(spans, Prefix(cs, MAX_SPANS));
  }

  /** With a gap of one, every byte between a run's ends has changed. */
  lemma {:induction false} RunsAreSolid(before: seq<byte>, after: seq<byte>, n: nat, cs: seq<Cluster>, k: nat, i: nat)
    requires n <= |before| && Clustering(before, after, 1, n, cs) && k < |cs| && cs[k].first <= i <= cs[k].last
    ensures i < n && Changed(before, after, i)
    decreases i
  {
    hide Clustering, Changed;
    ClusterEnds(before, after, 1, n, cs, k);
    if i > cs[k].first {
      RunsAreSolid(before, after, n, cs, k, i - 1);
      assert Continues(before, after, i - 1, 1, cs[k].last);
    }
  }

  function Lengths(cs: seq<Cluster>): int {
    if cs == [] then 0 else Lengths(cs[..|cs| - 1]) + cs[|cs| - 1].last - cs[|cs| - 1].first + 1
  }

  lemma {:induction false} CountSolid(before: seq<byte>, after: seq<byte>, a: nat, m: nat)
    requires a <= m <= |before| && forall i: nat :: a <= i < m ==> Changed(before, after, i)
    ensures Count(before, after, m) == Count(before, after, a) + m - a
    decreases m
  {
    if a < m { CountSolid(before, after, a, m - 1); }
  }

  /** Up to an offset between the k-th run and the next, the changed bytes are those of the first k runs. */
  lemma {:induction false} CountUpTo(before: seq<byte>, after: seq<byte>, cs: seq<Cluster>, k: nat, m: nat)
    requires Clustering(before, after, 1, |before|, cs) && k <= |cs| && m <= |before|
    requires (k < |cs| ==> m <= cs[k].first) && (k > 0 ==> cs[k - 1].last < m)
    ensures Count(before, after, m) == Lengths(cs[..k])
    decreases m
  {
    hide Clustering, Changed;
    if k > 0 && cs[k - 1].last == m - 1 {
      var c := cs[k - 1];
      ClusterEnds(before, after, 1, |before|, cs, k - 1);
      forall i: nat | c.first <= i < m ensures Changed(before, after, i) {
        RunsAreSolid(before, after, |before|, cs, k - 1, i);
      }
      CountSolid(before, after, c.first, m);
      if k > 1 { ClustersInOrder(before, after, 1, |before|, cs, k - 2, k - 1); }
      CountUpTo(before, after, cs, k - 1, c.first);
      assert cs[..k][..k - 1] == cs[..k - 1];
    } else if m > 0 {
      if Changed(before, after, m - 1) {
        var j := InsideOnly(before, after, 1, |before|, cs, m - 1);
        if j < k - 1 {
          ClustersInOrder(before, after, 1, |before|, cs, j, k - 1);
          ClusterEnds(before, after, 1, |before|, cs, k - 1);
        } else if j > k {
          ClustersInOrder(before, after, 1, |before|, cs, k, j);
          ClusterEnds(before, after, 1, |before|, cs, k);
        }
        assert false;
      }
      CountUpTo(before, after, cs, k, m - 1);
    } else if k > 0 {
      assert false;
    }
  }

  /** When no run is dropped, the run lengths add up to the number of changed bytes. */
  lemma RunLengthsSum(before: seq<byte>, after: seq<byte>, cs: seq<Cluster>)
    requires Clustering(before, after, 1, |before|, cs)
    ensures Lengths(cs) == Count(before, after, |before|)
  {
    hide Clustering;
    if cs != [] { ClusterEnds(before, after, 1, |before|, cs, |cs| - 1); }
    CountUpTo(before, after, cs, |cs|, |before|);
    assert cs[..|cs|] == cs;
  }
}
