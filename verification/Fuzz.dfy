/** The campaign of packages/ntsim-analyzer/src/fuzz.mjs: seed phase, parent choice and main loop,
    each input executed from a snapshot that is restored afterwards. */
module Fuzz {
  import opened Common
  import opened Coverage
  import opened FuzzCorpus
  import opened Mutators
  import opened Snapshot

  /** What sending one input does to a kernel. */
  datatype Exec = Exec(after: Kernel, rips: seq<int>, res: Res)

  /** sendIrp on the emulated driver is a parameter. */
  type Driver = (Kernel, Input) -> Exec

  // ------------------------------------------------------------ choosing a parent

  /** Ranking of entries by increasing score; equal scores keep corpus order. */
  ghost predicate Ranked(order: seq<nat>, scores: seq<real>, n: nat) {
    && |order| == n <= |scores|
    && (forall i :: 0 <= i < n ==> order[i] < n)
    && (forall i, j :: 0 <= i < j < n ==> order[i] != order[j])
    && (forall i, j :: 0 <= i < j < n ==> scores[order[i]] <= scores[order[j]])
    && (forall i, j :: 0 <= i < j < n && scores[order[i]] == scores[order[j]] ==> order[i] < order[j])
    && (forall k: nat :: k < n ==> k in order)
  }

  method Rank(scores: seq<real>) returns (order: seq<nat>)
    ensures Ranked(order, scores, |scores|)
  {
    order := [];
    for n := 0 to |scores|
      invariant Ranked(order, scores, n)
    {
      var p := n;
      while p > 0 && scores[n] < scores[order[p - 1]]
        invariant 0 <= p <= n
        invariant forall i :: p <= i < n ==> scores[n] < scores[order[i]]
      {
        p := p - 1;
      }
      RankInsert(order, scores, n, p);
      order := InsertAt(order, n, p);
    }
  }

  function InsertAt(order: seq<nat>, n: nat, p: nat): (t: seq<nat>)
    requires p <= |order|
    ensures |t| == |order| + 1
    ensures forall i :: 0 <= i < |t| ==> t[i] == if i < p then order[i] else if i == p then n else order[i - 1]
  {
    order[..p] + [n] + order[p..]
  }

  lemma RankInsert(order: seq<nat>, scores: seq<real>, n: nat, p: nat)
    requires Ranked(order, scores, n) && n < |scores| && p <= n
    requires forall i :: p <= i < n ==> scores[n] < scores[order[i]]
    requires p > 0 ==> scores[order[p - 1]] <= scores[n]
    ensures Ranked(InsertAt(order, n, p), scores, n + 1)
  {
    var t := InsertAt(order, n, p);
    forall i: nat, j: nat | i < j < n + 1
      ensures t[i] < |scores| && t[j] < |scores| && InOrder(t[i], t[j], scores)
    {
      InsertedPair(order, scores, n, p, i, j);
    }
    InsertHasAll(order, n, p);
  }

  predicate InOrder(x: nat, y: nat, scores: seq<real>)
    requires x < |scores| && y < |scores|
  {
    x != y && scores[x] <= scores[y] && (scores[x] == scores[y] ==> x < y)
  }

  lemma {:induction false} InsertedPair(order: seq<nat>, scores: seq<real>, n: nat, p: nat, i: nat, j: nat)
    requires Ranked(order, scores, n) && n < |scores| && p <= n && i < j < n + 1
    requires forall i :: p <= i < n ==> scores[n] < scores[order[i]]
    requires p > 0 ==> scores[order[p - 1]] <= scores[n]
    ensures var t := InsertAt(order, n, p);
      t[i] < |scores| && t[j] < |scores| && InOrder(t[i], t[j], scores)
  {
    var t := InsertAt(order, n, p);
    assert t[i] == if i < p then order[i] else if i == p then n else order[i - 1];
    assert t[j] == if j < p then order[j] else if j == p then n else order[j - 1];
    if j == p {
      assert i < p - 1 ==> scores[order[i]] <= scores[order[p - 1]];
    } else if i != p {
      var i', j' := if i < p then i else i - 1, if j < p then j else j - 1;
      assert order[i'] != order[j'] && scores[order[i']] <= scores[order[j']];
    }
  }

  lemma InsertHasAll(order: seq<nat>, n: nat, p: nat)
    requires p <= |order| && forall k: nat :: k < n ==> k in order
    ensures forall k: nat :: k < n + 1 ==> k in InsertAt(order, n, p)
  {
    var t := InsertAt(order, n, p);
    forall k: nat | k < n + 1 ensures k in t {
      if k == n {
        assert t[p] == n;
      } else {
        assert k in order;
        var i :| 0 <= i < |order| && order[i] == k;
        assert t[if i < p then i else i + 1] == k;
      }
    }
  }

  function PoolSize(n: nat): nat { Max(1, Min(3, (n + 2) / 3)) }

  /** Entries scored strictly below k. */
  ghost function Rarer(scores: seq<real>, k: nat): set<int>
    requires k < |scores|
  {
    set j | 0 <= j < |scores| && scores[j] < scores[k]
  }

  lemma FewRarer(order: seq<nat>, scores: seq<real>, i: nat)
    requires Ranked(order, scores, |scores|) && i < |scores|
    ensures |Rarer(scores, order[i])| <= i
  {
    var ahead := set j | 0 <= j < i :: order[j] as int;
    AtMost(order, i, ahead);
    forall j | j in Rarer(scores, order[i]) ensures j in ahead {
      assert j as nat in order;
      var p :| 0 <= p < |order| && order[p] == j;
      assert p < i;
    }
    SubsetSmaller(Rarer(scores, order[i]), ahead);
  }

  lemma {:induction false} AtMost(order: seq<nat>, i: nat, s: set<int>)
    requires i <= |order| && forall x :: x in s ==> exists j :: 0 <= j < i && order[j] == x
    ensures |s| <= i
  {
    if i > 0 {
      AtMost(order, i - 1, s - {order[i - 1]});
      SubsetSmaller(s, s - {order[i - 1]} + {order[i - 1]});
    } else {
      assert forall x :: x !in s;
      assert s == {};
    }
  }

  /** The first n weights together. */
  function Total(weights: seq<real>, n: nat): real
    requires n <= |weights|
  {
    if n == 0 then 0.0 else Total(weights, n - 1) + weights[n - 1]
  }

  /** The draw stops at the first entry whose weights so far reach the random share of the total. */
  ghost predicate Drawn(weights: seq<real>, rnd: nat, at: nat) {
    && at < |weights|
    && var share := rnd as real / 4294967295.0 * Total(weights, |weights|);
       && (forall j :: 1 <= j <= at ==> Total(weights, j) < share)
       && (share <= Total(weights, at + 1) ||
           (at == 0 && forall j :: 1 <= j <= |weights| ==> Total(weights, j) < share))
  }

  /** Weights of the best ranked entries: 1/(score + 1). */
  function PoolWeights(order: seq<nat>, scores: seq<real>, pool: nat): seq<real>
    requires pool <= |order| && forall i :: 0 <= i < pool ==> order[i] < |scores| && scores[order[i]] >= 0.0
  {
    seq(pool, i requires 0 <= i < pool => 1.0 / (scores[order[i]] + 1.0))
  }

  ghost predicate ScoresOf(scores: seq<real>, corpus: seq<Entry>, hits: map<int, nat>) {
    && |scores| == |corpus|
    && (forall j :: 0 <= j < |corpus| ==> scores[j] == Score(corpus[j], hits, 1.0))
    && (forall j :: 0 <= j < |scores| ==> scores[j] >= 0.0)
  }

  /** p is a third of n rounded up, at most three. */
  predicate IsPoolSize(n: nat, p: nat) { 1 <= p <= 3 && 3 * (p - 1) < n && (p == 3 || n <= 3 * p) }

  lemma PoolSizeIs(n: nat)
    requires n > 0
    ensures IsPoolSize(n, PoolSize(n))
  {
  }

  /** Each pooled entry's weight times its score plus one is one. */
  ghost predicate InverseWeights(ws: seq<real>, order: seq<nat>, scores: seq<real>) {
    && |ws| <= |order|
    && forall i :: 0 <= i < |ws| ==> order[i] < |scores| && ws[i] * (scores[order[i]] + 1.0) == 1.0
  }

  /** The draw from up to three weights, case by case: the random number's share of their sum falls to
      the first, second or third, and to the first if there is too much of it. */
  predicate FallsTo(ws: seq<real>, rnd: nat, at: nat)
    requires 1 <= |ws| <= 3
  {
    var sum := ws[0] + (if |ws| > 1 then ws[1] else 0.0) + (if |ws| > 2 then ws[2] else 0.0);
    var share := rnd as real / 4294967295.0 * sum;
    at == if share <= ws[0] then 0
          else if |ws| > 1 && share <= ws[0] + ws[1] then 1
          else if |ws| > 2 && share <= ws[0] + ws[1] + ws[2] then 2
          else 0
  }

  /** How a parent comes about: the pool is the best ranked third by score, at most three entries, and the
      draw is by inverse score. */
  ghost predicate Picked(corpus: seq<Entry>, hits: map<int, nat>, rnd: nat, k: nat,
                         order: seq<nat>, scores: seq<real>, ws: seq<real>)
  {
    && ScoresOf(scores, corpus, hits) && Ranked(order, scores, |scores|)
    && IsPoolSize(|corpus|, |ws|) && InverseWeights(ws, order, scores)
    && exists at: nat :: FallsTo(ws, rnd, at) && at < |order| && order[at] == k
  }

  lemma WeightsAreInverse(order: seq<nat>, scores: seq<real>, pool: nat)
    requires pool <= |order| && forall i :: 0 <= i < pool ==> order[i] < |scores| && scores[order[i]] >= 0.0
    ensures InverseWeights(PoolWeights(order, scores, pool), order, scores)
  {
    forall i | 0 <= i < pool ensures PoolWeights(order, scores, pool)[i] * (scores[order[i]] + 1.0) == 1.0 {
      Reciprocal(scores[order[i]] + 1.0);
    }
  }

  lemma Reciprocal(s: real)
    requires s > 0.0
    ensures 1.0 / s * s == 1.0 && 1.0 / s > 0.0
  {
  }

  lemma DrawnFalls(ws: seq<real>, rnd: nat, at: nat)
    requires 1 <= |ws| <= 3 && Drawn(ws, rnd, at) && forall i :: 0 <= i < |ws| ==> ws[i] > 0.0
    ensures FallsTo(ws, rnd, at)
  {
    Totals(ws);
    var share := rnd as real / 4294967295.0 * Total(ws, |ws|);
    assert at >= 1 ==> Total(ws, 1) < share;
    assert at >= 2 ==> Total(ws, 2) < share;
    if at == 0 && share > Total(ws, 1) {
      assert |ws| >= 2 ==> Total(ws, 2) < share;
      assert |ws| >= 3 ==> Total(ws, 3) < share;
    }
  }

  lemma Totals(ws: seq<real>)
    ensures |ws| >= 1 ==> Total(ws, 1) == ws[0]
    ensures |ws| >= 2 ==> Total(ws, 2) == ws[0] + ws[1]
    ensures |ws| >= 3 ==> Total(ws, 3) == ws[0] + ws[1] + ws[2]
  {
    if |ws| >= 3 { assert Total(ws, 3) == Total(ws, 2) + ws[2]; }
  }

  /** Of two pooled entries the strictly rarer one has the strictly larger weight. */
  lemma RarerWeighsMore(order: seq<nat>, scores: seq<real>, ws: seq<real>, i: nat, j: nat)
    requires InverseWeights(ws, order, scores) && i < |ws| && j < |ws|
    requires forall k :: 0 <= k < |scores| ==> scores[k] >= 0.0
    ensures scores[order[i]] < scores[order[j]] <==> ws[i] > ws[j]
  {
    LessInverse(scores[order[i]] + 1.0, ws[i], scores[order[j]] + 1.0, ws[j]);
    LessInverse(scores[order[j]] + 1.0, ws[j], scores[order[i]] + 1.0, ws[i]);
  }

  lemma LessInverse(s: real, v: real, t: real, w: real)
    requires s > 0.0 && t > 0.0 && v * s == 1.0 && w * t == 1.0
    ensures s < t ==> v > w
    ensures s == t ==> v == w
  {
    assert w > 0.0;
    if s < t { assert v * s == w * s + w * (t - s) && w * (t - s) > 0.0; }
    if s == t { assert (v - w) * s == 0.0; }
  }

  /** Picks among the rarest third of the corpus, at most three entries, by inverse score: fewer entries
      are rarer than the one chosen than the pool holds. */
  method PickParent(corpus: seq<Entry>, hits: map<int, nat>, rnd: nat)
    returns (k: nat, ghost order: seq<nat>, ghost scores: seq<real>, ghost ws: seq<real>)
    requires corpus != []
    ensures k < |corpus| && Picked(corpus, hits, rnd, k, order, scores, ws)
    ensures |set j | 0 <= j < |corpus| && Score(corpus[j], hits, 1.0) < Score(corpus[k], hits, 1.0)| < |ws|
  {
    hide Score, FallsTo, Drawn, PoolSize;
    PoolSizeIs(|corpus|);
    var ss := AllScores(corpus, hits);
    var ranking := Rank(ss);
    scores, order := ss, ranking;
    var weights := PoolWeights(ranking, ss, PoolSize(|corpus|));
    ws := weights;
    WeightsAreInverse(ranking, ss, PoolSize(|corpus|));
    forall i | 0 <= i < |ws| ensures ws[i] > 0.0 { Reciprocal(ss[ranking[i]] + 1.0); }
    var at := Draw(weights, rnd);
    DrawnFalls(weights, rnd, at);
    k := ranking[at];
    FewRarer(order, scores, at);
    assert Rarer(scores, k) == set j | 0 <= j < |corpus| && Score(corpus[j], hits, 1.0) < Score(corpus[k], hits, 1.0);
  }

  method AllScores(corpus: seq<Entry>, hits: map<int, nat>) returns (scores: seq<real>)
    ensures ScoresOf(scores, corpus, hits)
  {
    scores := [];
    for i := 0 to |corpus|
      invariant |scores| == i && forall j :: 0 <= j < i ==> scores[j] == Score(corpus[j], hits, 1.0)
    {
      var s := ComputeScore(corpus[i], hits, 1.0);
      scores := scores + [s];
    }
    ScoresPositive(corpus, hits, scores);
  }

  method Draw(weights: seq<real>, rnd: nat) returns (at: nat)
    requires weights != []
    ensures Drawn(weights, rnd, at)
  {
    var total := 0.0;
    for i := 0 to |weights|
      invariant total == Total(weights, i)
    {
      total := total + weights[i];
    }
    var share := rnd as real / 4294967295.0 * total;
    var r := share;
    for i := 0 to |weights|
      invariant r == share - Total(weights, i)
      invariant forall j :: 1 <= j <= i ==> Total(weights, j) < share
    {
      r := r - weights[i];
      if r <= 0.0 { return i; }
    }
    at := 0;
  }

  lemma ScoresPositive(corpus: seq<Entry>, hits: map<int, nat>, scores: seq<real>)
    requires |scores| == |corpus| && forall j :: 0 <= j < |corpus| ==> scores[j] == Score(corpus[j], hits, 1.0)
    ensures forall j :: 0 <= j < |corpus| ==> scores[j] >= 0.0
  {
    forall j | 0 <= j < |corpus| ensures Score(corpus[j], hits, 1.0) >= 0.0 {
      Quotient(SumHits(corpus[j].blocks, hits), |corpus[j].blocks|);
    }
  }

  lemma Quotient(a: nat, b: nat)
    ensures b > 0 ==> a as real / b as real >= 0.0
  {
  }

  // ------------------------------------------------------------ the campaign

  predicate Stopped(k: Kernel) { k.bugcheck.Some? || k.crash.Some? }

  class Fuzzer {
    const send: Driver
    const kernel: KernelObject
    const tracker: Tracker
    const gen: Generator
    ghost const k0: Kernel
    var camp: Campaign
    ghost var run: seq<Input>

    /** Coverage of an input sent to the initial kernel. */
    ghost function Cov(): Cover {
      (buf: Input) => Elements(InRange(send(k0, buf).rips, tracker.lo, tracker.hi))
    }

    /** What an input sent to the initial kernel gives. */
    ghost function Outcome(buf: Input): Entry {
      var ex := send(k0, buf);
      Entry(buf, Cov()(buf), Pairs(InRange(ex.rips, tracker.lo, tracker.hi)), ex.res)
    }

    /** The kernel is in its initial state, and restoring a snapshot undoes every run. */
    ghost predicate Valid()
      reads this, kernel
    {
      kernel.state == k0 && WellFormed(k0) && forall buf :: Undoable(k0, send(k0, buf).after)
    }

    /** Coverage is every executed address inside the image. */
    lemma CoverIs(buf: Input, a: int)
      ensures a in Cov()(buf) <==> a in send(k0, buf).rips && tracker.lo <= a < tracker.hi
    {
      CoveredIff(send(k0, buf).rips, tracker.lo, tracker.hi, a);
    }

    lemma CovInImage()
      ensures forall buf, b :: b in Cov()(buf) ==> tracker.lo <= b < tracker.hi
    {
      forall buf, b | b in Cov()(buf) ensures tracker.lo <= b < tracker.hi {
        assert b in InRange(send(k0, buf).rips, tracker.lo, tracker.hi);
      }
    }

    constructor (send: Driver, kernel: Kernel, base: int, size: nat, seed: bv32)
      requires WellFormed(kernel) && forall buf :: Undoable(kernel, send(kernel, buf).after)
      ensures Valid() && fresh(tracker) && fresh(gen) && fresh(this.kernel) && k0 == kernel && this.send == send
      ensures tracker.lo == base && tracker.hi == base + size
      ensures camp == Campaign([], {}, map[], None) && run == []
    {
      this.send := send;
      k0, run := kernel, [];
      camp := Campaign([], {}, map[], None);
      this.kernel := new KernelObject(kernel);
      tracker := new Tracker(base, size);
      gen := new Generator(seed);
    }

    /** One input, executed from a snapshot: the kernel is back in its initial state afterwards, so
        the entry is a function of the input alone. */
    method RunInput(buf: Input) returns (e: Entry)
      requires Valid()
      modifies this`run, kernel, tracker
      ensures Valid() && run == old(run) + [buf] && e == Outcome(buf)
    {
      hide WellFormed, Undoable, Restore, Capture;
      var snap := Capture(kernel.state);
      var ex := send(kernel.state, buf);
      kernel.Run(ex.after);
      tracker.Record(ex.rips);
      e := Entry(buf, tracker.blocks, tracker.edges, ex.res);
      kernel.RestoreFrom(snap);
      tracker.Reset();
      run := run + [buf];
    }

    /** Entries hold exactly what executing their inputs gives. */
    ghost predicate Executed(es: seq<Entry>) {
      forall i :: 0 <= i < |es| ==> es[i] == Outcome(es[i].buf)
    }

    /** The state the main loop starts from when these seeds have been executed: the admission rule
        applied to each in turn, the first success as best, and hit counts that miss the last seed
        when a full corpus or the kernel ended the phase. */
    ghost predicate SeededBy(c: Campaign, fs: seq<Entry>, cap: nat) {
      && Executed(fs) && fs != []
      && c.(hits := map[], best := None) == AfterSeeds(fs) && c.best == FirstSuccess(c.corpus)
      && var counted := if |c.corpus| >= cap || Stopped(k0) then fs[..|fs| - 1] else fs;
         CountsOf(c.hits, AfterSeeds(counted).corpus)
    }

    lemma OutcomeIs(buf: Input)
      ensures Outcome(buf).buf == buf && Outcome(buf).blocks == Cov()(buf)
    {
    }

    lemma AllExecuted(es: seq<Entry>)
      requires Executed(es)
      ensures forall i :: 0 <= i < |es| ==> es[i].blocks == Cov()(es[i].buf)
    {
    }

    lemma NoneExecuted()
      ensures Executed([])
    {
    }

    lemma ExecutedMore(es: seq<Entry>, e: Entry)
      requires Executed(es) && e == Outcome(e.buf)
      ensures Executed(es + [e])
    {
      hide Outcome;
    }

    /** Executes one seed and keeps it if it adds coverage or is the first. */
    method TrySeed(seed: Input, cap: nat, ghost es: seq<Entry>) returns (ghost e: Entry)
      requires Valid() && Inv(camp, run, Cov(), cap) && |camp.corpus| < cap
      requires camp.(hits := map[]) == AfterSeeds(es)
      modifies this`run, this`camp, kernel, tracker
      ensures Valid() && Inv(camp, run, Cov(), cap) && run == old(run) + [seed] && e == Outcome(seed)
      ensures camp.corpus != [] && camp.best == old(camp).best && camp.hits == old(camp).hits
      ensures camp.(hits := map[]) == AfterSeeds(es + [e]) && Bufs(es + [e]) == Bufs(es) + [seed] && e.buf == seed
    {
      hide WellFormed, Undoable, Cov, Outcome, HasNew, Inv, AfterSeeds, Bufs;
      var x := RunInput(seed);
      e := x;
      OutcomeIs(seed);
      SeedKeepsInv(camp, old(run), Cov(), cap, x);
      OneMoreSeed(camp, es, x);
      if SeedAdmitted(camp, x) {
        camp := camp.(corpus := camp.corpus + [x], seen := camp.seen + x.blocks);
      }
    }

    /** Executes seeds until they, twice the cap, the room in the corpus or the kernel run out; es are
        the executions.  The best entry is the first successful one. */
    method SeedPhase(seeds: seq<Input>, cap: nat) returns (ghost es: seq<Entry>)
      requires Valid() && seeds != [] && cap >= 1
      requires camp == Campaign([], {}, map[], None) && run == []
      modifies this`run, this`camp, kernel, tracker
      ensures Valid() && Inv(camp, run, Cov(), cap) && camp.corpus != []
      ensures run == Bufs(es) <= seeds && SeededBy(camp, es, cap) && |es| <= Min(|seeds|, 2 * cap)
      ensures |es| == Min(|seeds|, 2 * cap) || |camp.corpus| == cap || Stopped(k0)
    {
      hide WellFormed, Undoable, Cov, Outcome, CountsOf, HasNew, Inv, AfterSeeds, Bufs, FirstSuccess, Executed;
      NoSeeds(Cov(), cap);
      NoneExecuted();
      ghost var counted: seq<Entry> := [];
      es := [];
      var i := 0;
      var limit := Min(|seeds|, 2 * cap);
      while i < limit
        invariant 0 <= i <= limit && run == seeds[..i] == Bufs(es) && Executed(es)
        invariant Valid() && Inv(camp, run, Cov(), cap) && |camp.corpus| < cap && camp.best == None
        invariant camp.(hits := map[]) == AfterSeeds(es)
        invariant i > 0 ==> camp.corpus != [] && !Stopped(k0)
        invariant counted == es && CountsOf(camp.hits, AfterSeeds(counted).corpus)
      {
        ghost var e := TrySeed(seeds[i], cap, es);
        ExecutedMore(es, e);
        assert seeds[..i + 1] == seeds[..i] + [seeds[i]];
        es := es + [e];
        i := i + 1;
        if |camp.corpus| >= cap || Stopped(kernel.state) { break; }
        var hits := BuildHitCounts(camp.corpus);
        HitsKeepInv(camp, hits, run, Cov(), cap);
        camp := camp.(hits := hits);
        counted := es;
      }
      assert counted == if |camp.corpus| >= cap || Stopped(k0) then es[..|es| - 1] else es;
      BestKeepsInv(camp, run, Cov(), cap);
      FindBest();
    }

    /** The first successful entry of the corpus. */
    method FindBest()
      modifies this`camp
      ensures camp == old(camp).(best := FirstSuccess(old(camp).corpus))
    {
      camp := camp.(best := None);
      var k := 0;
      while k < |camp.corpus|
        invariant k <= |camp.corpus| && camp == old(camp).(best := None)
        invariant FirstSuccess(camp.corpus) == FirstSuccess(camp.corpus[k..])
      {
        if camp.corpus[k].res.ntstatus == 0 {
          camp := camp.(best := Some(camp.corpus[k]));
          return;
        }
        k := k + 1;
      }
    }

    /** The main loop's treatment of one executed child. */
    method Observe(e: Entry, cap: nat, ghost ran: seq<Input>)
      requires run == ran + [e.buf] && e.blocks == Cov()(e.buf) && cap >= 1
      requires Inv(camp, ran, Cov(), cap)
      modifies this`camp
      ensures Observed(old(camp), camp, e, cap) && Inv(camp, run, Cov(), cap)
      ensures old(camp).corpus != [] ==> camp.corpus != []
    {
      hide Cov, CountsOf, Inv, Worst, AlreadyHave, HasNew;
      ghost var c := camp;
      if Admitted(camp, e, cap) {
        var corpus := camp.corpus + [e];
        if |corpus| > cap {
          var k := FindWorst(corpus, camp.hits);
          corpus := Without(corpus, k);
        }
        var hits := BuildHitCounts(corpus);
        var better := camp.best.None? || |e.blocks| > |camp.best.value.blocks|;
        var best := if Success(e) && better then Some(e) else camp.best;
        camp := Campaign(corpus, camp.seen + e.blocks, hits, best);
      } else if Success(e) && camp.best.None? {
        camp := camp.(best := Some(e));
      }
      ObservedKeepsInv(c, camp, ran, Cov(), cap, e);
    }

    /** One iteration of the main loop: a mutant of a corpus entry, executed and observed. */
    method Iterate(cap: nat) returns (ghost e: Entry)
      requires Valid() && Inv(camp, run, Cov(), cap) && camp.corpus != [] && cap >= 1
      modifies this`run, this`camp, kernel, tracker, gen
      ensures Valid() && Inv(camp, run, Cov(), cap) && camp.corpus != []
      ensures Bred(old(camp), Xorshift(old(gen.state)) as nat, e.buf)
      ensures run == old(run) + [e.buf] && e == Outcome(e.buf) && Observed(old(camp), camp, e, cap)
    {
      hide WellFormed, Undoable, Cov, Outcome, Observed, Inv, SingleEdit, Stacked;
      hide Picked, Xorshift;
      var k := 0;
      if |camp.corpus| > 1 {
        var rnd := gen.Next();
        var parent, order, scores, ws := PickParent(camp.corpus, camp.hits, rnd);
        k := parent;
        ChosenIs(camp, rnd, k, order, scores, ws);
      }
      var child := gen.MutateSingle(camp.corpus[k].buf, camp.corpus);
      assert Chosen(camp, Xorshift(old(gen.state)) as nat, k);
      var x := RunInput(child);
      OutcomeIs(child);
      e := x;
      Observe(x, cap, old(run));
    }

    /** A whole campaign: the kernel ends as it began, globalSeen is everything any executed input
        covers, the corpus has between 1 and cap distinct inputs, every one with exactly its own
        coverage, and a kernel that has not crashed runs every iteration.  The main loop's states cs
        begin with the result of the seed phase and follow the admission rule child by child; the seeds
        kept and the children es that brought new coverage number at most one more than the image
        has addresses. */
    method RunCampaign(seeds: seq<Input>, ghost inputLen: nat, iterations: nat, cap: nat)
      returns (done: nat, ghost cs: seq<Campaign>, ghost es: seq<Entry>)
      requires Valid() && Sized(seeds, inputLen) && seeds != [] && cap >= 1 && tracker.lo <= tracker.hi
      requires camp == Campaign([], {}, map[], None) && run == []
      modifies this, kernel, tracker, gen
      ensures Valid() && Sized(run, inputLen)
      ensures Inv(camp, run, Cov(), cap) && camp.corpus != []
      ensures done == if k0.bugcheck.Some? || k0.crash.Some? then 0 else iterations
      ensures done < |run| <= done + Min(|seeds|, 2 * cap)
      ensures |es| == done && MainRun(cs, es, cap) && cs[done] == camp && Executed(es)
      ensures run == run[..|run| - done] + Bufs(es) && run[..|run| - done] <= seeds
      ensures Inv(cs[0], run[..|run| - done], Cov(), cap)
      ensures exists fs :: SeededBy(cs[0], fs, cap) && Bufs(fs) == run[..|run| - done]
      ensures |run| - done == Min(|seeds|, 2 * cap) || |cs[0].corpus| == cap || Stopped(k0)
      ensures |cs[0].corpus| + Novel(cs, es) <= tracker.hi - tracker.lo + 1
    {
      hide WellFormed, Undoable, Cov, Observed, Inv, Capture, Restore, MainRun, Bred, Sized;
      hide AfterSeeds, Novel, Bufs, Executed, FirstSuccess, CountsOf, Outcome;
      var snap0 := Capture(kernel.state);
      ghost var fs := SeedPhase(seeds, cap);
      done, cs, es := 0, [camp], [];
      ghost var seeded, camp0 := run, camp;
      Begins(camp, cap, seeds, run, inputLen);
      NoneExecuted();
      var iter := 0;
      while iter < iterations
        invariant 0 <= iter <= iterations && done == iter && (iter > 0 ==> !Stopped(k0))
        invariant Valid() && Inv(camp, run, Cov(), cap) && camp.corpus != [] && Sized(run, inputLen)
        invariant |es| == done && |cs| == done + 1 && MainRun(cs, es, cap) && cs[done] == camp && Executed(es)
        invariant SeededBy(cs[0], fs, cap) && |cs[0].corpus| == |camp0.corpus|
        invariant Inv(cs[0], seeded, Cov(), cap) && run == seeded + Bufs(es)
      {
        if Stopped(kernel.state) { break; }
        done := iter + 1;
        ghost var c, ran, rnd := camp, run, Xorshift(gen.state) as nat;
        ghost var e := Iterate(cap);
        MutantSized(c, ran, Cov(), cap, inputLen, rnd, e.buf);
        MainRunGrows(cs, es, cap, camp, e);
        ExecutedMore(es, e);
        assert seeded + Bufs(es) + [e.buf] == seeded + Bufs(es + [e]);
        cs, es := cs + [camp], es + [e];
        iter := iter + 1;
      }
      kernel.RestoreFrom(snap0);
      SelfUndoable(k0);
      assert run[..|run| - done] == seeded;
      CovInImage();
      AllExecuted(es);
      AdmissionsBounded(cs, es, fs, seeded, Cov(), cap, tracker.lo, tracker.hi);
    }
  }

  /** Every input is a seed's length, or between 1 and 256 bytes. */
  ghost predicate Sized(run: seq<Input>, inputLen: nat) {
    forall x :: x in run ==> |x| == inputLen || 1 <= |x| <= LONGEST
  }

  /** Entry k is the parent picked when this is the next random number: the only entry, or the
      weighted draw from the ranking by rarity. */
  ghost predicate Chosen(c: Campaign, rnd: nat, k: nat) {
    && k < |c.corpus|
    && (|c.corpus| == 1 || exists order, scores, ws :: Picked(c.corpus, c.hits, rnd, k, order, scores, ws))
  }

  lemma ChosenIs(c: Campaign, rnd: nat, k: nat, order: seq<nat>, scores: seq<real>, ws: seq<real>)
    requires k < |c.corpus| && Picked(c.corpus, c.hits, rnd, k, order, scores, ws)
    ensures Chosen(c, rnd, k)
  {
    hide Picked;
  }

  /** The input is one edit, or a stack of edits, of the parent picked. */
  ghost predicate Bred(c: Campaign, rnd: nat, buf: Input) {
    exists k: nat :: Chosen(c, rnd, k) &&
                     (SingleEdit(c.corpus[k].buf, c.corpus, buf) || Stacked(c.corpus[k].buf, c.corpus, buf))
  }

  lemma MutantSized(c: Campaign, run: seq<Input>, cov: Cover, cap: nat, inputLen: nat, rnd: nat, buf: Input)
    requires Inv(c, run, cov, cap) && Bred(c, rnd, buf) && Sized(run, inputLen)
    ensures Sized(run + [buf], inputLen)
  {
    hide Inv, SingleEdit, Stacked;
    var k: nat :| Chosen(c, rnd, k) &&
      (SingleEdit(c.corpus[k].buf, c.corpus, buf) || Stacked(c.corpus[k].buf, c.corpus, buf));
    CorpusFromRun(c, run, cov, cap, k);
    MutantLength(c.corpus[k].buf, c.corpus, buf);
  }

  lemma Begins(c: Campaign, cap: nat, seeds: seq<Input>, run: seq<Input>, inputLen: nat)
    requires run <= seeds && Sized(seeds, inputLen)
    ensures MainRun([c], [], cap) && Sized(run, inputLen) && run + Bufs([]) == run
  {
    forall x | x in run ensures x in seeds {
      var i :| 0 <= i < |run| && run[i] == x;
      assert seeds[i] == x;
    }
  }

  lemma HitsKeepInv(c: Campaign, hits: map<int, nat>, run: seq<Input>, cov: Cover, cap: nat)
    requires Inv(c, run, cov, cap)
    ensures Inv(c.(hits := hits), run, cov, cap)
  {
  }

  lemma BestKeepsInv(c: Campaign, run: seq<Input>, cov: Cover, cap: nat)
    requires Inv(c, run, cov, cap)
    ensures Inv(c.(best := FirstSuccess(c.corpus)), run, cov, cap)
  {
    var b := FirstSuccess(c.corpus);
    if b.Some? {
      var i :| 0 <= i < |c.corpus| && c.corpus[i] == b.value;
      assert FromRun(c.corpus[i], run, cov);
    }
  }

  lemma NoSeeds(cov: Cover, cap: nat)
    ensures Inv(Campaign([], {}, map[], None), [], cov, cap)
    ensures AfterSeeds([]) == Campaign([], {}, map[], None) && Bufs([]) == []
    ensures CountsOf(map[], AfterSeeds([]).corpus)
  {
  }

  lemma CorpusFromRun(c: Campaign, run: seq<Input>, cov: Cover, cap: nat, k: nat)
    requires Inv(c, run, cov, cap) && k < |c.corpus|
    ensures c.corpus[k].buf in run
  {
    assert FromRun(c.corpus[k], run, cov);
  }

  lemma SelfUndoable(k: Kernel)
    ensures Undoable(k, k)
  {
  }

  /** Kept seeds and children with new coverage together are at most one more than the image has addresses. */
  lemma AdmissionsBounded(cs: seq<Campaign>, es: seq<Entry>, fs: seq<Entry>, seeded: seq<Input>,
                          cov: Cover, cap: nat, lo: int, hi: int)
    requires MainRun(cs, es, cap) && Inv(cs[0], seeded, cov, cap) && cap >= 1
    requires forall i :: 0 <= i < |es| ==> es[i].blocks == cov(es[i].buf)
    requires cs[0].(hits := map[], best := None) == AfterSeeds(fs)
    requires lo <= hi && forall buf, b :: b in cov(buf) ==> lo <= b < hi
    ensures |cs[0].corpus| + Novel(cs, es) <= hi - lo + 1
  {
    hide Inv, Observed, Novel, AfterSeeds;
    NoveltyBounded(cs, es, seeded, cov, cap);
    SeenInImage(cs[|es|], seeded + Bufs(es), cov, cap, lo, hi);
    SeedsNovel(fs);
    assert cs[|es|].seen == cs[0].seen + (cs[|es|].seen - cs[0].seen);
  }

  lemma SeenInImage(c: Campaign, run: seq<Input>, cov: Cover, cap: nat, lo: int, hi: int)
    requires Inv(c, run, cov, cap) && lo <= hi && forall buf, b :: b in cov(buf) ==> lo <= b < hi
    ensures |c.seen| <= hi - lo
  {
    UnionInImage(run, cov, lo, hi);
    AtMostImageSize(Union(run, cov), lo, hi - lo);
  }

  lemma {:induction false} UnionInImage(run: seq<Input>, cov: Cover, lo: int, hi: int)
    requires forall buf, b :: b in cov(buf) ==> lo <= b < hi
    ensures forall b :: b in Union(run, cov) ==> lo <= b < hi
  {
    if run != [] { UnionInImage(run[..|run| - 1], cov, lo, hi); }
  }
}
