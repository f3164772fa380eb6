/** Corpus bookkeeping of packages/ntsim-analyzer/src/fuzz.mjs: scoring, eviction and the
    admission rules of the seed phase and the main loop. */
module FuzzCorpus {
  import opened Common
  import opened GuestMemory

  type Input = seq<byte>

  datatype Res = Res(ok: bool, ntstatus: int)

  datatype Entry = Entry(buf: Input, blocks: set<int>, edges: set<(int, int)>, res: Res)

  datatype Campaign = Campaign(corpus: seq<Entry>, seen: set<int>, hits: map<int, nat>, best: Option<Entry>)

  // ------------------------------------------------------------ scores

  function HitCount(hits: map<int, nat>, b: int): nat { if b in hits then hits[b] else 1 }

  ghost function SumHits(s: set<int>, hits: map<int, nat>): nat {
    if s == {} then 0
    else
      var b := Pick(s);
      HitCount(hits, b) + SumHits(s - {b}, hits)
  }

  /** The sum does not depend on the order the set is walked in. */
  lemma {:induction false} SumHitsTake(s: set<int>, hits: map<int, nat>, b: int)
    requires b in s
    ensures SumHits(s, hits) == HitCount(hits, b) + SumHits(s - {b}, hits)
  {
    var c := Pick(s);
    if c != b {
      SumHitsTake(s - {c}, hits, b);
      SumHitsTake(s - {b}, hits, c);
      assert s - {c} - {b} == s - {b} - {c};
    }
  }

  /** Average hit count of an entry's blocks; lower is rarer.  Entries without blocks take the
      given score: 1 when a parent is picked, 0 when an entry is evicted. */
  ghost function Score(e: Entry, hits: map<int, nat>, empty: real): real {
    if e.blocks == {} then empty else SumHits(e.blocks, hits) as real / |e.blocks| as real
  }

  method ComputeScore(e: Entry, hits: map<int, nat>, empty: real) returns (s: real)
    ensures s == Score(e, hits, empty)
  {
    var sum, n, rest := 0, 0, e.blocks;
    while rest != {}
      invariant rest <= e.blocks && sum + SumHits(rest, hits) == SumHits(e.blocks, hits)
      invariant n + |rest| == |e.blocks|
    {
      var b :| b in rest;
      SumHitsTake(rest, hits, b);
      sum, n, rest := sum + HitCount(hits, b), n + 1, rest - {b};
    }
    s := if n != 0 then sum as real / n as real else empty;
  }

  // ------------------------------------------------------------ global hit counts

  /** Number of entries that cover each block. */
  ghost function Covering(corpus: seq<Entry>, b: int): nat {
    if corpus == [] then 0
    else Covering(corpus[..|corpus| - 1], b) + if b in corpus[|corpus| - 1].blocks then 1 else 0
  }

  ghost predicate CountsOf(hits: map<int, nat>, corpus: seq<Entry>) {
    forall b :: if b in hits then hits[b] == Covering(corpus, b) > 0 else Covering(corpus, b) == 0
  }

  /** Blocks shared with the corpus, entry by entry. */
  function Shared(corpus: seq<Entry>, s: set<int>): nat {
    if corpus == [] then 0 else Shared(corpus[..|corpus| - 1], s) + |corpus[|corpus| - 1].blocks * s|
  }

  lemma {:induction false} SharedTake(corpus: seq<Entry>, s: set<int>, b: int)
    requires b in s
    ensures Shared(corpus, s) == Shared(corpus, s - {b}) + Covering(corpus, b)
  {
    if corpus != [] {
      var x := corpus[|corpus| - 1].blocks;
      SharedTake(corpus[..|corpus| - 1], s, b);
      if b in x {
        assert x * s == x * (s - {b}) + {b};
      } else {
        assert x * s == x * (s - {b});
      }
    }
  }

  lemma {:induction false} SharedNone(corpus: seq<Entry>)
    ensures Shared(corpus, {}) == 0
  {
    if corpus != [] {
      SharedNone(corpus[..|corpus| - 1]);
      assert corpus[|corpus| - 1].blocks * {} == {};
    }
  }

  lemma HitCountIs(corpus: seq<Entry>, hits: map<int, nat>, b: int)
    requires CountsOf(hits, corpus)
    ensures HitCount(hits, b) == if Covering(corpus, b) > 0 then Covering(corpus, b) else 1
  {
    hide Covering;
  }

  /** Blocks no entry covers. */
  ghost function Uncovered(corpus: seq<Entry>, s: set<int>): set<int> {
    set b | b in s && Covering(corpus, b) == 0
  }

  /** Counted twice: summing up, block by block, how many entries cover it gives the number of blocks
      shared with each entry, and one for each block no entry covers. */
  lemma {:induction false} HitsCountSharing(corpus: seq<Entry>, hits: map<int, nat>, s: set<int>)
    requires CountsOf(hits, corpus)
    ensures SumHits(s, hits) == Shared(corpus, s) + |Uncovered(corpus, s)|
    decreases |s|
  {
    hide CountsOf, Covering, Shared, HitCount;
    if s == {} {
      SharedNone(corpus);
      assert Uncovered(corpus, s) == {};
    } else {
      var b := Pick(s);
      HitsCountSharing(corpus, hits, s - {b});
      SharedTake(corpus, s, b);
      HitCountIs(corpus, hits, b);
      var rest := Uncovered(corpus, s - {b});
      assert Uncovered(corpus, s) == if Covering(corpus, b) == 0 then rest + {b} else rest;
    }
  }

  /** So the score is, per block of the entry, the number of blocks it shares with the corpus. */
  lemma ScoreIsSharing(e: Entry, corpus: seq<Entry>, hits: map<int, nat>, empty: real)
    requires CountsOf(hits, corpus) && forall b :: b in e.blocks ==> Covering(corpus, b) > 0
    ensures e.blocks == {} ==> Score(e, hits, empty) == empty
    ensures e.blocks != {} ==> Score(e, hits, empty) * |e.blocks| as real == Shared(corpus, e.blocks) as real
  {
    hide CountsOf, Covering, Shared, SumHits;
    HitsCountSharing(corpus, hits, e.blocks);
    assert Uncovered(corpus, e.blocks) == {};
    if e.blocks != {} { TimesBack(SumHits(e.blocks, hits) as real, |e.blocks| as real); }
  }

  lemma TimesBack(a: real, b: real)
    requires b != 0.0
    ensures a / b * b == a
  {
  }

  lemma {:induction false} CoveringIs(corpus: seq<Entry>, b: int)
    ensures Covering(corpus, b) == |set i | 0 <= i < |corpus| && b in corpus[i].blocks|
  {
    var all := set i | 0 <= i < |corpus| && b in corpus[i].blocks;
    if corpus == [] {
      assert all == {};
    } else {
      var front, last := corpus[..|corpus| - 1], |corpus| - 1;
      CoveringIs(front, b);
      var some := set i | 0 <= i < |front| && b in front[i].blocks;
      assert all == if b in corpus[last].blocks then some + {last} else some;
    }
  }

  method BuildHitCounts(corpus: seq<Entry>) returns (hits: map<int, nat>)
    ensures CountsOf(hits, corpus)
  {
    hits := map[];
    for i := 0 to |corpus|
      invariant CountsOf(hits, corpus[..i])
    {
      assert corpus[..i + 1][..i] == corpus[..i];
      ghost var before := hits;
      var rest := corpus[i].blocks;
      while rest != {}
        invariant rest <= corpus[i].blocks
        invariant forall b :: b in hits <==> b in before || b in corpus[i].blocks - rest
        invariant forall b :: b in hits ==>
                    hits[b] == (if b in before then before[b] else 0) + if b in corpus[i].blocks - rest then 1 else 0
      {
        ghost var some := Pick(rest);
        var b :| b in rest;
        hits := hits[b := (if b in hits then hits[b] else 0) + 1];
        rest := rest - {b};
      }
    }
    assert corpus[..|corpus|] == corpus;
  }

  // ------------------------------------------------------------ eviction

  /** First entry of highest average hit count. */
  ghost predicate IsWorst(corpus: seq<Entry>, hits: map<int, nat>, k: nat) {
    && k < |corpus|
    && (forall j :: 0 <= j < |corpus| ==> Score(corpus[j], hits, 0.0) <= Score(corpus[k], hits, 0.0))
    && (forall j :: 0 <= j < k ==> Score(corpus[j], hits, 0.0) < Score(corpus[k], hits, 0.0))
  }

  ghost function Worst(corpus: seq<Entry>, hits: map<int, nat>): (k: nat)
    requires corpus != []
    ensures IsWorst(corpus, hits, k)
  {
    var n := |corpus| - 1;
    if n == 0 then 0
    else
      var k := Worst(corpus[..n], hits);
      assert forall j :: 0 <= j < n ==> corpus[..n][j] == corpus[j];
      if Score(corpus[k], hits, 0.0) < Score(corpus[n], hits, 0.0) then n else k
  }

  lemma WorstUnique(corpus: seq<Entry>, hits: map<int, nat>, k: nat)
    requires IsWorst(corpus, hits, k)
    ensures k == Worst(corpus, hits)
  {
    assert k == Worst(corpus, hits);
  }

  method FindWorst(corpus: seq<Entry>, hits: map<int, nat>) returns (k: nat)
    requires corpus != []
    ensures k == Worst(corpus, hits)
  {
    k := 0;
    var top := ComputeScore(corpus[0], hits, 0.0);
    for i := 1 to |corpus|
      invariant k < i && top == Score(corpus[k], hits, 0.0)
      invariant forall j :: 0 <= j < i ==> Score(corpus[j], hits, 0.0) <= top
      invariant forall j :: 0 <= j < k ==> Score(corpus[j], hits, 0.0) < top
    {
      var s := ComputeScore(corpus[i], hits, 0.0);
      if s > top { k, top := i, s; }
    }
    WorstUnique(corpus, hits, k);
  }

  function Without(corpus: seq<Entry>, k: nat): seq<Entry>
    requires k < |corpus|
  {
    corpus[..k] + corpus[k + 1..]
  }

  /** At most cap entries: the worst of one too many is dropped. */
  ghost function Capped(corpus: seq<Entry>, hits: map<int, nat>, cap: nat): seq<Entry> {
    if |corpus| > cap then Without(corpus, Worst(corpus, hits)) else corpus
  }

  // ------------------------------------------------------------ admission

  predicate Success(e: Entry) { e.res.ok && e.res.ntstatus == 0 }

  predicate HasNew(c: Campaign, e: Entry) { exists b :: b in e.blocks && b !in c.seen }

  /** Same coverage and same bytes as an entry of the corpus. */
  predicate AlreadyHave(c: Campaign, e: Entry) {
    exists i :: 0 <= i < |c.corpus| && c.corpus[i].blocks == e.blocks && c.corpus[i].buf == e.buf
  }

  predicate Admitted(c: Campaign, e: Entry, cap: nat) {
    !AlreadyHave(c, e) && (HasNew(c, e) || (Success(e) && |c.corpus| < cap))
  }

  predicate SeedAdmitted(c: Campaign, e: Entry) { HasNew(c, e) || c.corpus == [] }

  /** The main loop's admission of one executed child; hit counts are rebuilt afterwards. */
  ghost predicate Observed(c: Campaign, c': Campaign, e: Entry, cap: nat) {
    if Admitted(c, e, cap) then
      && c'.seen == c.seen + e.blocks
      && c'.corpus == Capped(c.corpus + [e], c.hits, cap)
      && CountsOf(c'.hits, c'.corpus)
      && c'.best == if Success(e) && (c.best.None? || |e.blocks| > |c.best.value.blocks|) then Some(e) else c.best
    else
      && c'.seen == c.seen && c'.corpus == c.corpus && c'.hits == c.hits
      && c'.best == if Success(e) && c.best.None? then Some(e) else c.best
  }

  /** A block of the entry is new. */
  ghost predicate Uncovers(c: Campaign, e: Entry) { e.blocks - c.seen != {} }

  /** Its bytes and coverage are those of an entry. */
  ghost predicate Holds(c: Campaign, e: Entry) { (e.buf, e.blocks) in Keys(c.corpus) }

  ghost function Keys(corpus: seq<Entry>): set<(Input, set<int>)> {
    set i | 0 <= i < |corpus| :: (corpus[i].buf, corpus[i].blocks)
  }

  lemma UncoversHolds(c: Campaign, e: Entry)
    ensures Uncovers(c, e) <==> HasNew(c, e)
    ensures Holds(c, e) <==> AlreadyHave(c, e)
  {
    if Uncovers(c, e) {
      var b := Pick(e.blocks - c.seen);
      assert b in e.blocks && b !in c.seen;
    }
    if HasNew(c, e) {
      var b :| b in e.blocks && b !in c.seen;
      assert b in e.blocks - c.seen;
    }
  }

  /** What the main loop does with an executed child: it enters the corpus if it is not there already and
      has a block nobody had, or succeeded while there was room; at the cap the first of the entries with
      the highest score leaves; the best entry is the first success, then the admitted success with more
      blocks. */
  lemma ObservedMeans(c: Campaign, c': Campaign, e: Entry, cap: nat)
    requires Observed(c, c', e, cap)
    ensures var fresher, had := Uncovers(c, e), Holds(c, e);
      var success := e.res.ok && e.res.ntstatus == 0;
      var enters := !had && (fresher || (success && |c.corpus| < cap));
      var all := c.corpus + [e];
      && c'.seen == (if enters then c.seen + e.blocks else c.seen)
      && (!enters ==> c'.corpus == c.corpus && c'.hits == c.hits)
      && (enters && |all| <= cap ==> c'.corpus == all)
      && (enters && |all| > cap ==>
            exists k :: 0 <= k < |all| && c'.corpus == all[..k] + all[k + 1..] && FirstHighest(all, c.hits, k))
      && (enters ==>
            forall b :: b in c'.hits ==> c'.hits[b] == |set i | 0 <= i < |c'.corpus| && b in c'.corpus[i].blocks|)
      && c'.best ==
         if success && (c.best.None? || (enters && |e.blocks| > |c.best.value.blocks|)) then Some(e) else c.best
  {
    hide Score, Covering, Worst;
    UncoversHolds(c, e);
    hide HasNew, AlreadyHave, Uncovers, Holds;
    forall b ensures Covering(c'.corpus, b) == |set i | 0 <= i < |c'.corpus| && b in c'.corpus[i].blocks| {
      CoveringIs(c'.corpus, b);
    }
    var all := c.corpus + [e];
    var k := Worst(all, c.hits);
    assert IsWorst(all, c.hits, k) by { WorstIs(all, c.hits); }
    assert FirstHighest(all, c.hits, k);
  }

  ghost predicate FirstHighest(corpus: seq<Entry>, hits: map<int, nat>, k: int)
    requires 0 <= k < |corpus|
  {
    && (forall j :: 0 <= j < |corpus| ==> Score(corpus[j], hits, 0.0) <= Score(corpus[k], hits, 0.0))
    && (forall j :: 0 <= j < k ==> Score(corpus[j], hits, 0.0) < Score(corpus[k], hits, 0.0))
  }

  lemma WorstIs(corpus: seq<Entry>, hits: map<int, nat>)
    requires corpus != []
    ensures IsWorst(corpus, hits, Worst(corpus, hits))
  {
  }

  // ------------------------------------------------------------ what every run keeps

  type Cover = Input -> set<int>

  /** Everything any of the inputs covers. */
  function Union(inputs: seq<Input>, cov: Cover): set<int> {
    if inputs == [] then {} else Union(inputs[..|inputs| - 1], cov) + cov(inputs[|inputs| - 1])
  }

  ghost predicate FromRun(e: Entry, run: seq<Input>, cov: Cover) { e.buf in run && e.blocks == cov(e.buf) }

  /** run: the inputs executed so far, when each input's coverage is a function of the input. */
  ghost predicate Inv(c: Campaign, run: seq<Input>, cov: Cover, cap: nat) {
    && c.seen == Union(run, cov)
    && |c.corpus| <= cap
    && (forall i :: 0 <= i < |c.corpus| ==> FromRun(c.corpus[i], run, cov))
    && (forall i, j :: 0 <= i < j < |c.corpus| ==> c.corpus[i].buf != c.corpus[j].buf)
    && (c.best.Some? ==> FromRun(c.best.value, run, cov) && c.best.value.res.ntstatus == 0)
  }

  lemma {:induction false} UnionCovers(run: seq<Input>, cov: Cover, x: Input)
    requires x in run
    ensures cov(x) <= Union(run, cov)
  {
    if x != run[|run| - 1] {
      assert x in run[..|run| - 1];
      UnionCovers(run[..|run| - 1], cov, x);
    }
  }

  lemma UnionNext(run: seq<Input>, cov: Cover, x: Input)
    ensures Union(run + [x], cov) == Union(run, cov) + cov(x)
  {
    assert (run + [x])[..|run|] == run;
  }

  lemma RunGrows(c: Campaign, run: seq<Input>, cov: Cover, cap: nat, x: Input)
    requires Inv(c, run, cov, cap)
    ensures forall i :: 0 <= i < |c.corpus| ==> FromRun(c.corpus[i], run + [x], cov)
    ensures c.best.Some? ==> FromRun(c.best.value, run + [x], cov)
  {
  }

  /** The duplicate test can never hold back an input with new coverage. */
  lemma NewIsNotHad(c: Campaign, run: seq<Input>, cov: Cover, cap: nat, e: Entry)
    requires Inv(c, run, cov, cap) && HasNew(c, e)
    ensures !AlreadyHave(c, e) && Admitted(c, e, cap)
    ensures e.blocks == cov(e.buf) ==> forall i :: 0 <= i < |c.corpus| ==> c.corpus[i].buf != e.buf
  {
    forall i | 0 <= i < |c.corpus|
      ensures c.corpus[i].blocks != e.blocks && (e.blocks == cov(e.buf) ==> c.corpus[i].buf != e.buf)
    {
      assert FromRun(c.corpus[i], run, cov);
      UnionCovers(run, cov, c.corpus[i].buf);
    }
  }

  lemma CappedKeeps(all: seq<Entry>, hits: map<int, nat>, cap: nat, run: seq<Input>, cov: Cover)
    requires |all| <= cap + 1 && cap >= 1 && all != []
    requires forall i :: 0 <= i < |all| ==> FromRun(all[i], run, cov)
    requires forall i, j :: 0 <= i < j < |all| ==> all[i].buf != all[j].buf
    ensures var kept := Capped(all, hits, cap);
      && 1 <= |kept| <= cap
      && (forall i :: 0 <= i < |kept| ==> FromRun(kept[i], run, cov))
      && (forall i, j :: 0 <= i < j < |kept| ==> kept[i].buf != kept[j].buf)
  {
    hide FromRun, Score;
    if |all| > cap {
      var k := Worst(all, hits);
      var kept := Without(all, k);
      assert forall i :: 0 <= i < |kept| ==> kept[i] == all[if i < k then i else i + 1];
    }
  }

  lemma NothingNew(c: Campaign, e: Entry)
    requires !HasNew(c, e)
    ensures c.seen + e.blocks == c.seen
  {
    assert forall b :: b in e.blocks ==> b in c.seen;
  }

  /** A step of the main loop keeps the invariant and a nonempty corpus. */
  lemma ObservedKeepsInv(c: Campaign, c': Campaign, run: seq<Input>, cov: Cover, cap: nat, e: Entry)
    requires Inv(c, run, cov, cap) && cap >= 1 && e.blocks == cov(e.buf) && Observed(c, c', e, cap)
    ensures Inv(c', run + [e.buf], cov, cap)
    ensures c.corpus != [] ==> c'.corpus != []
  {
    hide CountsOf, Union;
    UnionNext(run, cov, e.buf);
    RunGrows(c, run, cov, cap, e.buf);
    if Admitted(c, e, cap) {
      var all := c.corpus + [e];
      forall i | 0 <= i < |c.corpus| ensures c.corpus[i].buf != e.buf {
        assert FromRun(c.corpus[i], run, cov);
      }
      assert FromRun(e, run + [e.buf], cov);
      CappedKeeps(all, c.hits, cap, run + [e.buf], cov);
    } else {
      if HasNew(c, e) { NewIsNotHad(c, run, cov, cap, e); }
      NothingNew(c, e);
      assert e.buf in run + [e.buf];
    }
  }

  /** The seed phase's rule, for a corpus that still has room. */
  lemma SeedKeepsInv(c: Campaign, run: seq<Input>, cov: Cover, cap: nat, e: Entry)
    requires Inv(c, run, cov, cap) && |c.corpus| < cap && e.blocks == cov(e.buf)
    ensures var c' := if SeedAdmitted(c, e) then c.(corpus := c.corpus + [e], seen := c.seen + e.blocks) else c;
      Inv(c', run + [e.buf], cov, cap) && c'.corpus != []
  {
    UnionNext(run, cov, e.buf);
    RunGrows(c, run, cov, cap, e.buf);
    if SeedAdmitted(c, e) {
      if HasNew(c, e) { NewIsNotHad(c, run, cov, cap, e); }
      assert FromRun(e, run + [e.buf], cov);
    } else {
      NothingNew(c, e);
    }
  }

  /** Corpus and coverage after the seed phase has executed these: every seed that adds coverage is
      kept, and the first one anyway. */
  function AfterSeeds(es: seq<Entry>): Campaign {
    if es == [] then Campaign([], {}, map[], None)
    else
      var c, e := AfterSeeds(es[..|es| - 1]), es[|es| - 1];
      if SeedAdmitted(c, e) then c.(corpus := c.corpus + [e], seen := c.seen + e.blocks) else c
  }

  lemma OneMoreSeed(c: Campaign, es: seq<Entry>, e: Entry)
    requires c.(hits := map[]) == AfterSeeds(es)
    ensures var c' := if SeedAdmitted(c, e) then c.(corpus := c.corpus + [e], seen := c.seen + e.blocks) else c;
      c'.(hits := map[]) == AfterSeeds(es + [e])
    ensures Bufs(es + [e]) == Bufs(es) + [e.buf]
  {
    assert (es + [e])[..|es|] == es;
  }

  /** The first seed is kept, and after it exactly those with a block no seed before them has. */
  lemma {:induction false} SeedKeptIff(es: seq<Entry>, e: Entry)
    ensures AfterSeeds(es + [e]).corpus ==
      if es == [] || AddsBlock(es, e) then AfterSeeds(es).corpus + [e] else AfterSeeds(es).corpus
  {
    SeedsSeen(es);
    assert (es + [e])[..|es|] == es;
    var c := AfterSeeds(es);
    if HasNew(c, e) {
      var b :| b in e.blocks && b !in c.seen;
      assert NotIn(es, b);
    }
    if AddsBlock(es, e) {
      var b :| b in e.blocks && NotIn(es, b);
      assert b !in c.seen;
    }
    hide HasNew, AddsBlock;
  }

  ghost predicate NotIn(es: seq<Entry>, b: int) { forall j :: 0 <= j < |es| ==> b !in es[j].blocks }

  /** A block none of the earlier entries has. */
  ghost predicate AddsBlock(es: seq<Entry>, e: Entry) { exists b :: b in e.blocks && NotIn(es, b) }

  lemma {:induction false} SeedsSeen(es: seq<Entry>)
    ensures AfterSeeds(es).corpus == [] <==> es == []
    ensures forall b :: b in AfterSeeds(es).seen <==> exists j :: 0 <= j < |es| && b in es[j].blocks
  {
    if es != [] {
      var front, e := es[..|es| - 1], es[|es| - 1];
      SeedsSeen(front);
      assert forall j :: 0 <= j < |front| ==> es[j] == front[j];
      forall b ensures b in AfterSeeds(es).seen <==> exists j :: 0 <= j < |es| && b in es[j].blocks {
        if b in AfterSeeds(front).seen {
          var j :| 0 <= j < |front| && b in front[j].blocks;
          assert b in es[j].blocks;
        }
        assert b in e.blocks ==> b in es[|es| - 1].blocks;
      }
    }
  }

  /** After the first, every seed kept has added a block. */
  lemma {:induction false} SeedsNovel(es: seq<Entry>)
    ensures |AfterSeeds(es).corpus| <= |AfterSeeds(es).seen| + 1
  {
    if es != [] {
      var c, e := AfterSeeds(es[..|es| - 1]), es[|es| - 1];
      SeedsNovel(es[..|es| - 1]);
      if HasNew(c, e) {
        var b :| b in e.blocks && b !in c.seen;
        SubsetSmaller(c.seen + {b}, c.seen + e.blocks);
      } else {
        NothingNew(c, e);
      }
    }
  }

  function FirstSuccess(corpus: seq<Entry>): (r: Option<Entry>)
    ensures r.Some? ==> r.value in corpus && r.value.res.ntstatus == 0
    ensures r.None? ==> forall e :: e in corpus ==> e.res.ntstatus != 0
  {
    if corpus == [] then None
    else if corpus[0].res.ntstatus == 0 then Some(corpus[0])
    else FirstSuccess(corpus[1..])
  }

  lemma {:induction false} FirstSuccessIsFirst(corpus: seq<Entry>)
    requires FirstSuccess(corpus).Some?
    ensures exists k :: 0 <= k < |corpus| && FirstSuccess(corpus) == Some(corpus[k]) &&
                        forall j :: 0 <= j < k ==> corpus[j].res.ntstatus != 0
  {
    if corpus[0].res.ntstatus == 0 {
      assert FirstSuccess(corpus) == Some(corpus[0]);
    } else {
      FirstSuccessIsFirst(corpus[1..]);
      var k :| 0 <= k < |corpus[1..]| && FirstSuccess(corpus[1..]) == Some(corpus[1..][k]) &&
               forall j :: 0 <= j < k ==> corpus[1..][j].res.ntstatus != 0;
      assert forall j :: 1 <= j < k + 1 ==> corpus[j] == corpus[1..][j - 1];
      assert FirstSuccess(corpus) == Some(corpus[k + 1]);
    }
  }

  // ------------------------------------------------------------ novelty over whole runs

  /** The states of a main loop that executes these children. */
  ghost predicate MainRun(cs: seq<Campaign>, es: seq<Entry>, cap: nat) {
    |cs| == |es| + 1 && forall i :: 0 <= i < |es| ==> Observed(cs[i], cs[i + 1], es[i], cap)
  }

  /** Number of children that brought new coverage. */
  ghost function Novel(cs: seq<Campaign>, es: seq<Entry>): nat
    requires |cs| == |es| + 1
  {
    if es == [] then 0
    else Novel(cs[..|es|], es[..|es| - 1]) + if HasNew(cs[|es| - 1], es[|es| - 1]) then 1 else 0
  }

  /** The children that uncovered a block. */
  ghost function Finders(cs: seq<Campaign>, es: seq<Entry>): set<int>
    requires |cs| > |es|
  {
    set i | 0 <= i < |es| && Uncovers(cs[i], es[i])
  }

  lemma {:induction false} NovelIs(cs: seq<Campaign>, es: seq<Entry>)
    requires |cs| == |es| + 1
    ensures Novel(cs, es) == |Finders(cs, es)|
  {
    hide HasNew, Uncovers;
    if es == [] {
      assert Finders(cs, es) == {};
    } else {
      var last := |es| - 1;
      NovelIs(cs[..|es|], es[..last]);
      UncoversHolds(cs[last], es[last]);
      OneMoreFinder(cs, es);
    }
  }

  lemma OneMoreFinder(cs: seq<Campaign>, es: seq<Entry>)
    requires |cs| == |es| + 1 && es != []
    ensures var last := |es| - 1;
      |Finders(cs, es)| == |Finders(cs[..|es|], es[..last])| + if Uncovers(cs[last], es[last]) then 1 else 0
  {
    hide Uncovers;
    var last := |es| - 1;
    var front := Finders(cs[..|es|], es[..last]);
    assert Finders(cs, es) == if Uncovers(cs[last], es[last]) then front + {last} else front;
  }

  /** Every child with new coverage enters the corpus, and there are at most as many of them as
      blocks they add. */
  lemma {:induction false} NoveltyBounded(cs: seq<Campaign>, es: seq<Entry>, run: seq<Input>, cov: Cover, cap: nat)
    requires MainRun(cs, es, cap) && Inv(cs[0], run, cov, cap) && cap >= 1
    requires forall i :: 0 <= i < |es| ==> es[i].blocks == cov(es[i].buf)
    ensures Inv(cs[|es|], run + Bufs(es), cov, cap)
    ensures cs[0].seen <= cs[|es|].seen
    ensures Novel(cs, es) <= |cs[|es|].seen - cs[0].seen|
    decreases |es|
  {
    hide CountsOf, Capped, Observed, Inv, HasNew;
    if es == [] {
      assert run + Bufs(es) == run;
    } else {
      var n := |es| - 1;
      var cs', es', e := cs[..n + 1], es[..n], es[n];
      MainRunFront(cs, es, cap);
      NoveltyBounded(cs', es', run, cov, cap);
      assert cs'[n] == cs[n];
      ObservedKeepsInv(cs[n], cs[n + 1], run + Bufs(es'), cov, cap, e);
      assert run + Bufs(es') + [e.buf] == run + Bufs(es);
      SeenGrows(cs[n], cs[n + 1], run + Bufs(es'), cov, cap, e, cs[0].seen);
    }
  }

  lemma MainRunFront(cs: seq<Campaign>, es: seq<Entry>, cap: nat)
    requires MainRun(cs, es, cap) && es != []
    ensures MainRun(cs[..|es|], es[..|es| - 1], cap)
  {
    hide Observed;
    var cs', es' := cs[..|es|], es[..|es| - 1];
    forall i | 0 <= i < |es'| ensures Observed(cs'[i], cs'[i + 1], es'[i], cap) {
      assert cs'[i] == cs[i] && cs'[i + 1] == cs[i + 1] && es'[i] == es[i];
    }
  }

  lemma MainRunGrows(cs: seq<Campaign>, es: seq<Entry>, cap: nat, c: Campaign, e: Entry)
    requires MainRun(cs, es, cap) && Observed(cs[|es|], c, e, cap)
    ensures MainRun(cs + [c], es + [e], cap)
    ensures Bufs(es + [e]) == Bufs(es) + [e.buf]
  {
    hide Observed;
    assert (es + [e])[..|es|] == es;
    forall i | 0 <= i < |es| + 1 ensures Observed((cs + [c])[i], (cs + [c])[i + 1], (es + [e])[i], cap) {
      if i < |es| { assert Observed(cs[i], cs[i + 1], es[i], cap); }
    }
  }

  function Bufs(es: seq<Entry>): (bs: seq<Input>)
    ensures |bs| == |es|
  {
    if es == [] then [] else Bufs(es[..|es| - 1]) + [es[|es| - 1].buf]
  }

  lemma SeenGrows(c: Campaign, c': Campaign, run: seq<Input>, cov: Cover, cap: nat, e: Entry, from: set<int>)
    requires Inv(c, run, cov, cap) && Observed(c, c', e, cap) && from <= c.seen
    ensures c.seen <= c'.seen
    ensures |c'.seen - from| >= |c.seen - from| + if HasNew(c, e) then 1 else 0
  {
    hide CountsOf, Capped;
    if HasNew(c, e) {
      NewIsNotHad(c, run, cov, cap, e);
      var b :| b in e.blocks && b !in c.seen;
      SubsetSmaller(c.seen - from + {b}, c'.seen - from);
    } else {
      SubsetSmaller(c.seen - from, c'.seen - from);
    }
  }
}
