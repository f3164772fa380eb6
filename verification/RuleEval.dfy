/** Evaluation and masked search of packages/triage/src/rules.mjs. */
module RuleEval {
  import opened Common
  import opened RuleGrammar

  // ------------------------------------------------------------ conditions

  /** matched: ids of the strings found; total: number of strings of the rule. */
  predicate Eval(t: Ast, matched: set<string>, total: nat, size: nat) {
    match t
    case Or(l, r) => Eval(l, matched, total, size) || Eval(r, matched, total, size)
    case And(l, r) => Eval(l, matched, total, size) && Eval(r, matched, total, size)
    case Not(c) => !Eval(c, matched, total, size)
    case Str(id) => id in matched
    case All => total > 0 && |matched| == total
    case Count(n) => |matched| >= Min(n, total)
    case Filesize(op, v) =>
      if op == ">" then size > v
      else if op == "<" then size < v
      else if op == ">=" then size >= v
      else if op == "<=" then size <= v
      else op == "==" && size == v
  }

  predicate NegationFree(t: Ast) {
    match t
    case Or(l, r) => NegationFree(l) && NegationFree(r)
    case And(l, r) => NegationFree(l) && NegationFree(r)
    case Not(_) => false
    case _ => true
  }

  /** Without negation, finding more strings never makes a rule stop matching. */
  lemma {:induction false} Monotone(t: Ast, m: set<string>, m': set<string>, total: nat, size: nat)
    requires NegationFree(t) && m <= m' && |m'| <= total && Eval(t, m, total, size)
    ensures Eval(t, m', total, size)
  {
    SubsetSmaller(m, m');
    match t
    case Or(l, r) =>
      if Eval(l, m, total, size) {
        Monotone(l, m, m', total, size);
      } else {
        Monotone(r, m, m', total, size);
      }
    case And(l, r) => Monotone(l, m, m', total, size); Monotone(r, m, m', total, size);
    case _ =>
  }

  /** The same condition, or its negation, with every negation pushed inwards: through and, or and not by
      their duals, through a size comparison by the opposite one. */
  function Pushed(t: Ast, negate: bool): (u: Ast)
    ensures PushedOnly(u)
  {
    match t
    case Or(l, r) => if negate then And(Pushed(l, true), Pushed(r, true)) else Or(Pushed(l, false), Pushed(r, false))
    case And(l, r) => if negate then Or(Pushed(l, true), Pushed(r, true)) else And(Pushed(l, false), Pushed(r, false))
    case Not(c) => Pushed(c, !negate)
    case Filesize(op, v) =>
      if !negate then t
      else if op == ">" then Filesize("<=", v)
      else if op == "<=" then Filesize(">", v)
      else if op == "<" then Filesize(">=", v)
      else if op == ">=" then Filesize("<", v)
      else if op == "==" then Or(Filesize("<", v), Filesize(">", v))
      else Not(t)
    case _ => if negate then Not(t) else t
  }

  /** Negations stand before strings, counts and unknown comparisons only. */
  predicate PushedOnly(t: Ast) {
    match t
    case Or(l, r) => PushedOnly(l) && PushedOnly(r)
    case And(l, r) => PushedOnly(l) && PushedOnly(r)
    case Not(c) => c.Str? || c.All? || c.Count? || (c.Filesize? && c.op !in {">", "<", ">=", "<=", "=="})
    case _ => true
  }

  /** Pushing negations inwards keeps what the condition says. */
  lemma {:induction false} PushedMeans(t: Ast, negate: bool, m: set<string>, total: nat, size: nat)
    ensures Eval(Pushed(t, negate), m, total, size) == (Eval(t, m, total, size) != negate)
  {
    match t
    case Or(l, r) => PushedMeans(l, negate, m, total, size); PushedMeans(r, negate, m, total, size);
    case And(l, r) => PushedMeans(l, negate, m, total, size); PushedMeans(r, negate, m, total, size);
    case Not(c) => PushedMeans(c, !negate, m, total, size);
    case _ =>
  }

  /** And is below both sides and or above both; a side decides either when it can. */
  lemma AndOrBounds(l: Ast, r: Ast, m: set<string>, total: nat, size: nat)
    ensures Eval(And(l, r), m, total, size) ==> Eval(l, m, total, size) && Eval(r, m, total, size)
    ensures Eval(l, m, total, size) || Eval(r, m, total, size) ==> Eval(Or(l, r), m, total, size)
    ensures Eval(And(l, l), m, total, size) == Eval(Or(l, l), m, total, size) == Eval(l, m, total, size)
  {
  }

  /** Of less, equal and greater exactly one holds, the other comparisons join two of them, and a larger
      file is greater. */
  lemma SizeComparisons(m: set<string>, total: nat, size: nat, v: nat, d: nat)
    ensures var less, same, more := Eval(Filesize("<", v), m, total, size), Eval(Filesize("==", v), m, total, size),
                                    Eval(Filesize(">", v), m, total, size);
      && (less || same || more) && !(less && same) && !(same && more) && !(less && more)
      && Eval(Filesize("<=", v), m, total, size) == (less || same)
      && Eval(Filesize(">=", v), m, total, size) == (same || more)
    ensures Eval(Filesize(">", v), m, total, v + 1 + d) && Eval(Filesize("<", v + 1 + d), m, total, v)
    ensures Eval(Filesize("==", v), m, total, v)
  {
  }

  // ------------------------------------------------------------ "of them" over a rule's strings

  datatype Matcher = Matcher(id: string, hit: bool)

  /** The ids scanRules collects. */
  function HitIds(ms: seq<Matcher>): set<string> {
    if ms == [] then {}
    else HitIds(ms[..|ms| - 1]) + if ms[|ms| - 1].hit then {ms[|ms| - 1].id} else {}
  }

  ghost predicate AllHit(ms: seq<Matcher>) { forall i :: 0 <= i < |ms| ==> ms[i].hit }

  ghost predicate DistinctIds(ms: seq<Matcher>) { forall i, j :: 0 <= i < j < |ms| ==> ms[i].id != ms[j].id }

  lemma {:induction false} HitIdsAre(ms: seq<Matcher>)
    ensures forall id :: id in HitIds(ms) <==> exists i :: 0 <= i < |ms| && ms[i] == Matcher(id, true)
  {
    if ms != [] {
      var front, x := ms[..|ms| - 1], ms[|ms| - 1];
      HitIdsAre(front);
      forall id ensures id in HitIds(ms) <==> exists i :: 0 <= i < |ms| && ms[i] == Matcher(id, true) {
        if i :| 0 <= i < |ms| && ms[i] == Matcher(id, true) {
          assert i < |front| ==> front[i] == Matcher(id, true);
        }
        if id in HitIds(ms) && id in HitIds(front) {
          var i :| 0 <= i < |front| && front[i] == Matcher(id, true);
          assert ms[i] == Matcher(id, true);
        } else if id in HitIds(ms) {
          assert ms[|ms| - 1] == Matcher(id, true);
        }
      }
    }
  }

  lemma {:induction false} HitIdsSize(ms: seq<Matcher>)
    ensures |HitIds(ms)| <= |ms|
    ensures |HitIds(ms)| == |ms| <==> AllHit(ms) && DistinctIds(ms)
  {
    if ms != [] {
      var front, x := ms[..|ms| - 1], ms[|ms| - 1];
      HitIdsSize(front);
      OneMore(ms);
      if !x.hit || x.id in HitIds(front) {
        assert HitIds(ms) == HitIds(front);
      } else {
        assert |HitIds(front) + {x.id}| == |HitIds(front)| + 1;
      }
    }
  }

  lemma OneMore(ms: seq<Matcher>)
    requires ms != []
    ensures var front, x := ms[..|ms| - 1], ms[|ms| - 1];
      && (AllHit(ms) <==> AllHit(front) && x.hit)
      && (AllHit(ms) ==> (DistinctIds(ms) <==> DistinctIds(front) && x.id !in HitIds(front)))
  {
    var front, x := ms[..|ms| - 1], ms[|ms| - 1];
    HitIdsAre(front);
    assert forall i :: 0 <= i < |front| ==> front[i] == ms[i];
    if AllHit(ms) {
      if x.id in HitIds(front) {
        var i :| 0 <= i < |front| && front[i] == Matcher(x.id, true);
        assert ms[i].id == ms[|ms| - 1].id;
      } else {
        forall i | 0 <= i < |front| ensures ms[i].id != x.id {
          assert front[i] == Matcher(front[i].id, true);
        }
      }
    }
  }

  /** A string's name holds exactly when a string with that id is found. */
  lemma StringIff(ms: seq<Matcher>, id: string, size: nat)
    ensures Eval(Str(id), HitIds(ms), |ms|, size) <==> exists i :: 0 <= i < |ms| && ms[i].id == id && ms[i].hit
  {
    HitIdsAre(ms);
    if i :| 0 <= i < |ms| && ms[i].id == id && ms[i].hit { assert ms[i] == Matcher(id, true); }
  }

  lemma {:induction false} SubsetOfSize(s: set<string>, n: nat) returns (t: set<string>)
    requires n <= |s|
    ensures t <= s && |t| == n
    decreases |s|
  {
    if n == |s| {
      t := s;
    } else {
      var x :| x in s;
      t := SubsetOfSize(s - {x}, n);
    }
  }

  /** "n of them" holds exactly when n different ids are found, or as many as there are strings. */
  lemma CountIff(ms: seq<Matcher>, n: nat, size: nat)
    ensures Eval(Count(n), HitIds(ms), |ms|, size) <==>
            exists ids: set<string> :: |ids| == (if n <= |ms| then n else |ms|) && FoundAll(ms, ids)
  {
    HitIdsAre(ms);
    var want := if n <= |ms| then n else |ms|;
    if Eval(Count(n), HitIds(ms), |ms|, size) {
      var ids := SubsetOfSize(HitIds(ms), want);
      assert FoundAll(ms, ids);
    }
    if ids: set<string> :| |ids| == want && FoundAll(ms, ids) {
      assert ids <= HitIds(ms);
      SubsetSmaller(ids, HitIds(ms));
    }
  }

  ghost predicate FoundAll(ms: seq<Matcher>, ids: set<string>) {
    forall id :: id in ids ==> exists i :: 0 <= i < |ms| && ms[i] == Matcher(id, true)
  }

  /** "all of them" holds exactly when there are strings, every one is found and their ids are
      pairwise distinct: a repeated id makes the condition unsatisfiable. */
  lemma AllOfThemIff(ms: seq<Matcher>, size: nat)
    ensures Eval(All, HitIds(ms), |ms|, size) <==> ms != [] && AllHit(ms) && DistinctIds(ms)
  {
    HitIdsSize(ms);
  }

  /** The smallest failing case: two strings with one id, both found. */
  lemma RepeatedIdNeverAll(size: nat)
    ensures var ms := [Matcher("$a", true), Matcher("$a", true)];
      AllHit(ms) && !Eval(All, HitIds(ms), |ms|, size)
  {
    var ms := [Matcher("$a", true), Matcher("$a", true)];
    AllOfThemIff(ms, size);
    assert ms[0].id == ms[1].id;
  }

  /** "any of them" holds exactly when some string is found, or the rule has none. */
  lemma AnyOfThemIff(ms: seq<Matcher>, size: nat)
    ensures Eval(Count(1), HitIds(ms), |ms|, size) <==> ms == [] || exists i :: 0 <= i < |ms| && ms[i].hit
  {
    HitIdsSize(ms);
    HitIdsAre(ms);
    if i :| 0 <= i < |ms| && ms[i].hit {
      assert ms[i] == Matcher(ms[i].id, true);
      assert ms[i].id in HitIds(ms);
    }
    if HitIds(ms) != {} {
      var id :| id in HitIds(ms);
    }
  }

  /** In a scan, monotonicity needs no side condition. */
  lemma ScanMonotone(t: Ast, ms: seq<Matcher>, ms': seq<Matcher>, size: nat)
    requires NegationFree(t) && |ms| == |ms'|
    requires forall i :: 0 <= i < |ms| ==> ms[i].id == ms'[i].id && (ms[i].hit ==> ms'[i].hit)
    requires Eval(t, HitIds(ms), |ms|, size)
    ensures Eval(t, HitIds(ms'), |ms'|, size)
  {
    HitIdsAre(ms);
    HitIdsAre(ms');
    forall id | id in HitIds(ms) ensures id in HitIds(ms') {
      var i :| 0 <= i < |ms| && ms[i] == Matcher(id, true);
      assert ms'[i] == Matcher(id, true);
    }
    HitIdsSize(ms');
    Monotone(t, HitIds(ms), HitIds(ms'), |ms|, size);
  }

  // ------------------------------------------------------------ hex patterns

  const MAX_MATCHES: nat := 64

  function HexValue(c: char): (v: Option<bv8>)
    ensures v.Some? ==> v.value < 16
    ensures v.Some? <==> '0' <= c <= '9' || 'a' <= c <= 'f' || 'A' <= c <= 'F'
    ensures '0' <= c <= '9' ==> v.value as int == c as int - '0' as int
    ensures 'a' <= c <= 'f' ==> v.value as int == c as int - 'a' as int + 10
    ensures 'A' <= c <= 'F' ==> v.value as int == c as int - 'A' as int + 10
  {
    match c
    case '0' => Some(0) case '1' => Some(1) case '2' => Some(2) case '3' => Some(3)
    case '4' => Some(4) case '5' => Some(5) case '6' => Some(6) case '7' => Some(7)
    case '8' => Some(8) case '9' => Some(9)
    case 'a' => Some(10) case 'b' => Some(11) case 'c' => Some(12) case 'd' => Some(13)
    case 'e' => Some(14) case 'f' => Some(15)
    case 'A' => Some(10) case 'B' => Some(11) case 'C' => Some(12) case 'D' => Some(13)
    case 'E' => Some(14) case 'F' => Some(15)
    case _ => None
  }

  predicate Nibble(c: char) { c == '?' || HexValue(c).Some? }

  datatype Masked = Masked(value: bv8, mask: bv8)

  /** One whitespace-separated token of a hex pattern; None is the "bad hex token" error. */
  function HexToken(t: string): Option<Masked> {
    if t == "??" || t == "?" then Some(Masked(0, 0))
    else if |t| == 2 && Nibble(t[0]) && Nibble(t[1]) then
      var hi := if t[0] == '?' then 0 else HexValue(t[0]).value;
      var lo := if t[1] == '?' then 0 else HexValue(t[1]).value;
      Some(Masked((hi << 4) | lo, (if t[0] == '?' then 0 else 0xF0) | (if t[1] == '?' then 0 else 0x0F)))
    else None
  }

  predicate Agrees(b: bv8, x: Masked) { b & x.mask == x.value & x.mask }

  lemma BothNibbles(b: bv8, hi: bv8, lo: bv8)
    requires hi < 16 && lo < 16
    ensures Agrees(b, Masked((hi << 4) | lo, 0xF0 | 0x0F)) <==> hi == b >> 4 && lo == b & 0x0F
  {
  }

  lemma HighNibble(b: bv8, hi: bv8)
    requires hi < 16
    ensures Agrees(b, Masked((hi << 4) | 0, 0xF0 | 0)) <==> hi == b >> 4
  {
  }

  lemma LowNibble(b: bv8, lo: bv8)
    requires lo < 16
    ensures Agrees(b, Masked((0 << 4) | lo, 0 | 0x0F)) <==> lo == b & 0x0F
  {
  }

  lemma NoNibble(b: bv8)
    ensures Agrees(b, Masked(0, 0))
  {
  }

  predicate NibbleMatches(c: char, v: bv8) { c == '?' || HexValue(c) == Some(v) }

  /** A token matches a byte exactly when each nibble it spells out is the byte's nibble; a single
      question mark matches everything. */
  lemma TokenMeaning(t: string, b: bv8)
    requires HexToken(t).Some?
    ensures Agrees(b, HexToken(t).value) <==>
            t == "?" || (NibbleMatches(t[0], b >> 4) && NibbleMatches(t[1], b & 0x0F))
  {
    hide Agrees, HexValue;
    if t == "?" || t == "??" {
      NoNibble(b);
    } else if t[0] == '?' {
      LowNibble(b, HexValue(t[1]).value);
    } else if t[1] == '?' {
      HighNibble(b, HexValue(t[0]).value);
    } else {
      BothNibbles(b, HexValue(t[0]).value, HexValue(t[1]).value);
    }
  }

  // ------------------------------------------------------------ searching

  predicate MatchAt(hay: seq<bv8>, needle: seq<Masked>, i: nat) {
    i + |needle| <= |hay| && forall j :: 0 <= j < |needle| ==> Agrees(hay[i + j], needle[j])
  }

  /** Every matching offset below k, in increasing order. */
  function AllHits(hay: seq<bv8>, needle: seq<Masked>, k: nat): (hits: seq<nat>)
    ensures forall i: nat :: i in hits <==> i < k && MatchAt(hay, needle, i)
    ensures forall a, b :: 0 <= a < b < |hits| ==> hits[a] < hits[b]
  {
    if k == 0 then []
    else
      var front := AllHits(hay, needle, k - 1);
      assert forall a :: 0 <= a < |front| ==> front[a] in front;
      if MatchAt(hay, needle, k - 1) then front + [k - 1] else front
  }

  /** The inner loop: stops at the first byte that disagrees. */
  method MatchesAt(hay: seq<bv8>, needle: seq<Masked>, i: nat) returns (ok: bool)
    requires i + |needle| <= |hay|
    ensures ok == MatchAt(hay, needle, i)
  {
    hide Agrees;
    for j := 0 to |needle|
      invariant forall l :: 0 <= l < j ==> Agrees(hay[i + l], needle[l])
    {
      if !Agrees(hay[i + j], needle[j]) { return false; }
    }
    ok := true;
  }

  /** The search reports exactly the first 64 matching offsets, and nothing for an empty pattern. */
  method FindBytes(hay: seq<bv8>, needle: seq<Masked>) returns (hits: seq<nat>)
    ensures hits == if needle == [] then [] else Prefix(AllHits(hay, needle, |hay|), MAX_MATCHES)
  {
    hide Agrees, MatchAt, AllHits;
    hits := [];
    NoHitsYet(hay, needle);
    var n := |needle|;
    if n == 0 || n > |hay| {
      if n > |hay| { NoHits(hay, needle, 0, |hay|); }
      return;
    }
    var i := 0;
    while i + n <= |hay|
      invariant 0 <= i <= |hay| - n + 1
      invariant hits == AllHits(hay, needle, i) && |hits| < MAX_MATCHES
    {
      var found := MatchesAt(hay, needle, i);
      NextHit(hay, needle, i);
      if found {
        hits := hits + [i];
        if |hits| >= MAX_MATCHES {
          HitsGrow(hay, needle, i + 1, |hay|);
          return;
        }
      }
      i := i + 1;
    }
    NoHits(hay, needle, i, |hay|);
  }

  /** What the first 64 of the matching offsets are. */
  lemma FirstHits(hay: seq<bv8>, needle: seq<Masked>)
    requires needle != []
    ensures var hits := Prefix(AllHits(hay, needle, |hay|), MAX_MATCHES);
      && |hits| <= 64 && (forall a, b :: 0 <= a < b < |hits| ==> hits[a] < hits[b])
      && (forall i :: i in hits ==> MatchAt(hay, needle, i))
      && forall i: nat :: i !in hits && MatchAt(hay, needle, i) ==> |hits| == 64 && hits[63] < i
  {
    hide Agrees;
    var all := AllHits(hay, needle, |hay|);
    var hits := Prefix(all, MAX_MATCHES);
    forall i | i in hits ensures i in all {
      var a :| 0 <= a < |hits| && hits[a] == i;
      assert all[a] == i;
    }
    forall a | 0 <= a < |hits| ensures all[a] in hits {
      assert hits[a] == all[a];
    }
    forall i: nat | i !in hits && MatchAt(hay, needle, i) ensures |hits| == 64 && hits[63] < i {
      assert i in all;
      var a :| 0 <= a < |all| && all[a] == i;
    }
  }

  lemma NoHitsYet(hay: seq<bv8>, needle: seq<Masked>)
    ensures AllHits(hay, needle, 0) == []
  {
  }

  lemma NextHit(hay: seq<bv8>, needle: seq<Masked>, k: nat)
    ensures AllHits(hay, needle, k + 1) == AllHits(hay, needle, k) + if MatchAt(hay, needle, k) then [k] else []
  {
    hide MatchAt;
  }

  lemma {:induction false} HitsGrow(hay: seq<bv8>, needle: seq<Masked>, k: nat, k': nat)
    requires k <= k'
    ensures AllHits(hay, needle, k) <= AllHits(hay, needle, k')
  {
    if k < k' { HitsGrow(hay, needle, k, k' - 1); }
  }

  lemma {:induction false} NoHits(hay: seq<bv8>, needle: seq<Masked>, k: nat, k': nat)
    requires k <= k' && k + |needle| > |hay|
    ensures AllHits(hay, needle, k) == AllHits(hay, needle, k')
  {
    if k < k' { NoHits(hay, needle, k, k' - 1); }
  }
}
