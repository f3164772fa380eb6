/** parseCondition of packages/triage/src/rules.mjs, from the token sequence on. */
module RuleParser {
  import opened Common
  import opened RuleGrammar

  datatype Error =
    | UnexpectedEnd | UnexpectedToken(at: nat) | ExpectedClose(at: nat)
    | ExpectedOperator(at: nat) | ExpectedNumber(at: nat) | Trailing(at: nat)

  /** A tree and the position behind it. */
  type Parsed = Result<(Ast, nat), Error>

  predicate Next(ts: seq<Token>, pos: nat, t: Token) { pos < |ts| && ts[pos] == t }

  // ------------------------------------------------------------ what the parser computes

  ghost function ParseOr(ts: seq<Token>, pos: nat): (r: Parsed)
    requires pos <= |ts|
    ensures r.Ok? ==> pos < r.value.1 <= |ts|
    decreases |ts| - pos, 5
  {
    var l := ParseAnd(ts, pos);
    if l.Err? then l else OrTail(ts, l.value.0, l.value.1)
  }

  ghost function OrTail(ts: seq<Token>, left: Ast, pos: nat): (r: Parsed)
    requires pos <= |ts|
    ensures r.Ok? ==> pos <= r.value.1 <= |ts|
    decreases |ts| - pos, 4
  {
    if !Next(ts, pos, TOr) then Ok((left, pos))
    else
      var a := ParseAnd(ts, pos + 1);
      if a.Err? then a else OrTail(ts, Or(left, a.value.0), a.value.1)
  }

  ghost function ParseAnd(ts: seq<Token>, pos: nat): (r: Parsed)
    requires pos <= |ts|
    ensures r.Ok? ==> pos < r.value.1 <= |ts|
    decreases |ts| - pos, 3
  {
    var l := ParseNot(ts, pos);
    if l.Err? then l else AndTail(ts, l.value.0, l.value.1)
  }

  ghost function AndTail(ts: seq<Token>, left: Ast, pos: nat): (r: Parsed)
    requires pos <= |ts|
    ensures r.Ok? ==> pos <= r.value.1 <= |ts|
    decreases |ts| - pos, 2
  {
    if !Next(ts, pos, TAnd) then Ok((left, pos))
    else
      var n := ParseNot(ts, pos + 1);
      if n.Err? then n else AndTail(ts, And(left, n.value.0), n.value.1)
  }

  ghost function ParseNot(ts: seq<Token>, pos: nat): (r: Parsed)
    requires pos <= |ts|
    ensures r.Ok? ==> pos < r.value.1 <= |ts|
    decreases |ts| - pos, 1
  {
    if Next(ts, pos, TNot) then
      var c := ParseNot(ts, pos + 1);
      if c.Err? then c else Ok((Not(c.value.0), c.value.1))
    else ParsePrimary(ts, pos)
  }

  ghost function ParsePrimary(ts: seq<Token>, pos: nat): (r: Parsed)
    requires pos <= |ts|
    ensures r.Ok? ==> pos < r.value.1 <= |ts|
    decreases |ts| - pos, 0
  {
    if pos == |ts| then Err(UnexpectedEnd)
    else match ts[pos]
      case LPar =>
        var e := ParseOr(ts, pos + 1);
        if e.Err? then e
        else if Next(ts, e.value.1, RPar) then Ok((e.value.0, e.value.1 + 1))
        else Err(ExpectedClose(e.value.1))
      case TStr(id) => Ok((Str(id), pos + 1))
      case TCount(n) => Ok((Count(n), pos + 1))
      case TAny => Ok((Count(1), pos + 1))
      case TAll => Ok((All, pos + 1))
      case TFilesize =>
        if pos + 1 >= |ts| || !ts[pos + 1].TOp? then Err(ExpectedOperator(pos + 1))
        else if pos + 2 >= |ts| || !ts[pos + 2].TNum? then Err(ExpectedNumber(pos + 2))
        else Ok((Filesize(ts[pos + 1].op, ts[pos + 2].value), pos + 3))
      case _ => Err(UnexpectedToken(pos))
  }

  ghost function Parse(ts: seq<Token>): Result<Ast, Error> {
    var r := ParseOr(ts, 0);
    if r.Err? then Err(r.error)
    else if r.value.1 != |ts| then Err(Trailing(r.value.1))
    else Ok(r.value.0)
  }

  // ------------------------------------------------------------ every derivation is parsed

  /** The tokens xs stand at pos. */
  ghost predicate Seg(ts: seq<Token>, pos: nat, xs: seq<Token>) {
    pos + |xs| <= |ts| && ts[pos..pos + |xs|] == xs
  }

  lemma SegConcat(ts: seq<Token>, pos: nat, xs: seq<Token>, ys: seq<Token>)
    ensures Seg(ts, pos, xs + ys) <==> Seg(ts, pos, xs) && Seg(ts, pos + |xs|, ys)
  {
    var n := pos + |xs| + |ys|;
    if n <= |ts| {
      var s := ts[pos..n];
      assert s == ts[pos..pos + |xs|] + ts[pos + |xs|..n];
      if s == xs + ys {
        assert s[..|xs|] == xs && s[|xs|..] == ys;
      }
    }
  }

  lemma SegOne(ts: seq<Token>, pos: nat, t: Token)
    ensures Seg(ts, pos, [t]) <==> Next(ts, pos, t)
  {
    if pos < |ts| { assert ts[pos..pos + 1] == [ts[pos]]; }
  }

  lemma SegThree(ts: seq<Token>, pos: nat)
    requires pos + 3 <= |ts|
    ensures Seg(ts, pos, [ts[pos], ts[pos + 1], ts[pos + 2]])
  {
    assert ts[pos..pos + 3] == [ts[pos], ts[pos + 1], ts[pos + 2]];
  }

  lemma {:induction false} PrimParsed(ts: seq<Token>, pos: nat, d: PrimD)
    requires Seg(ts, pos, PrimYield(d))
    ensures ParsePrimary(ts, pos) == Ok((PrimTree(d), pos + |PrimYield(d)|))
    decreases d
  {
    match d
    case PSize(op, v) =>
      assert ts[pos..pos + 3][0] == ts[pos] && ts[pos..pos + 3][1] == ts[pos + 1] && ts[pos..pos + 3][2] == ts[pos + 2];
    case Paren(e) =>
      var ys := OrYield(e);
      SegConcat(ts, pos, [LPar], ys + [RPar]);
      SegOne(ts, pos, LPar);
      SegConcat(ts, pos + 1, ys, [RPar]);
      SegOne(ts, pos + 1 + |ys|, RPar);
      OrParsed(ts, pos + 1, e);
    case _ =>
      SegOne(ts, pos, PrimYield(d)[0]);
  }

  lemma {:induction false} NotParsed(ts: seq<Token>, pos: nat, d: NotD)
    requires Seg(ts, pos, NotYield(d))
    ensures ParseNot(ts, pos) == Ok((NotTree(d), pos + |NotYield(d)|))
    decreases d
  {
    match d
    case Negate(n) =>
      SegConcat(ts, pos, [TNot], NotYield(n));
      SegOne(ts, pos, TNot);
      NotParsed(ts, pos + 1, n);
    case Prim(p) =>
      PrimParsed(ts, pos, p);
      PrimStart(p);
      assert ts[pos] == ts[pos..pos + |PrimYield(p)|][0];
  }

  lemma PrimStart(p: PrimD)
    ensures PrimYield(p)[0] != TNot
  {
  }

  lemma {:induction false} AndPrefix(ts: seq<Token>, pos: nat, d: AndD)
    requires Seg(ts, pos, AndYield(d))
    ensures ParseAnd(ts, pos) == AndTail(ts, AndTree(d), pos + |AndYield(d)|)
    decreases d, 0
  {
    hide NotYield, NotTree, Seg;
    match d
    case OneNot(n) => NotParsed(ts, pos, n);
    case AndMore(front, n) =>
      var ys := AndYield(front);
      SegConcat(ts, pos, ys, [TAnd] + NotYield(n));
      SegConcat(ts, pos + |ys|, [TAnd], NotYield(n));
      SegOne(ts, pos + |ys|, TAnd);
      var p := pos + |ys|;
      AndPrefix(ts, pos, front);
      NotParsed(ts, p + 1, n);
      assert AndTail(ts, AndTree(front), p) == AndTail(ts, AndTree(d), p + 1 + |NotYield(n)|);
  }

  lemma {:induction false} AndParsed(ts: seq<Token>, pos: nat, d: AndD)
    requires Seg(ts, pos, AndYield(d)) && !Next(ts, pos + |AndYield(d)|, TAnd)
    ensures ParseAnd(ts, pos) == Ok((AndTree(d), pos + |AndYield(d)|))
    decreases d, 1
  {
    AndPrefix(ts, pos, d);
  }

  lemma {:induction false} OrPrefix(ts: seq<Token>, pos: nat, d: OrD)
    requires Seg(ts, pos, OrYield(d)) && !Next(ts, pos + |OrYield(d)|, TAnd)
    ensures ParseOr(ts, pos) == OrTail(ts, OrTree(d), pos + |OrYield(d)|)
    decreases d, 0
  {
    hide AndYield, AndTree, AndTail, Seg;
    match d
    case OneAnd(a) => AndParsed(ts, pos, a);
    case OrMore(front, a) =>
      var ys := OrYield(front);
      SegConcat(ts, pos, ys, [TOr] + AndYield(a));
      SegConcat(ts, pos + |ys|, [TOr], AndYield(a));
      SegOne(ts, pos + |ys|, TOr);
      var p := pos + |ys|;
      OrPrefix(ts, pos, front);
      AndParsed(ts, p + 1, a);
      assert OrTail(ts, OrTree(front), p) == OrTail(ts, OrTree(d), p + 1 + |AndYield(a)|);
  }

  lemma {:induction false} OrParsed(ts: seq<Token>, pos: nat, d: OrD)
    requires Seg(ts, pos, OrYield(d))
    requires !Next(ts, pos + |OrYield(d)|, TAnd) && !Next(ts, pos + |OrYield(d)|, TOr)
    ensures ParseOr(ts, pos) == Ok((OrTree(d), pos + |OrYield(d)|))
    decreases d, 1
  {
    OrPrefix(ts, pos, d);
  }

  // ------------------------------------------------------------ everything parsed has a derivation

  lemma {:induction false} OrSound(ts: seq<Token>, pos: nat) returns (d: OrD)
    requires pos <= |ts| && ParseOr(ts, pos).Ok?
    ensures Seg(ts, pos, OrYield(d)) && ParseOr(ts, pos).value == (OrTree(d), pos + |OrYield(d)|)
    decreases |ts| - pos, 5
  {
    hide AndYield, AndTree;
    var a := AndSound(ts, pos);
    d := OneAnd(a);
    d := OrTailSound(ts, pos, d);
  }

  lemma {:induction false} OrTailSound(ts: seq<Token>, pos: nat, front: OrD) returns (d: OrD)
    requires Seg(ts, pos, OrYield(front))
    requires OrTail(ts, OrTree(front), pos + |OrYield(front)|).Ok?
    ensures Seg(ts, pos, OrYield(d))
    ensures OrTail(ts, OrTree(front), pos + |OrYield(front)|).value == (OrTree(d), pos + |OrYield(d)|)
    decreases |ts| - pos - |OrYield(front)|, 4
  {
    hide ParseAnd, AndYield, AndTree, Seg;
    d := front;
    var p := pos + |OrYield(front)|;
    if Next(ts, p, TOr) {
      var a := AndSound(ts, p + 1);
      SegOne(ts, p, TOr);
      SegConcat(ts, p, [TOr], AndYield(a));
      SegConcat(ts, pos, OrYield(front), [TOr] + AndYield(a));
      d := OrTailSound(ts, pos, OrMore(front, a));
    }
  }

  lemma {:induction false} AndSound(ts: seq<Token>, pos: nat) returns (d: AndD)
    requires pos <= |ts| && ParseAnd(ts, pos).Ok?
    ensures Seg(ts, pos, AndYield(d)) && ParseAnd(ts, pos).value == (AndTree(d), pos + |AndYield(d)|)
    decreases |ts| - pos, 3
  {
    hide NotYield, NotTree;
    var n := NotSound(ts, pos);
    d := OneNot(n);
    d := AndTailSound(ts, pos, d);
  }

  lemma {:induction false} AndTailSound(ts: seq<Token>, pos: nat, front: AndD) returns (d: AndD)
    requires Seg(ts, pos, AndYield(front))
    requires AndTail(ts, AndTree(front), pos + |AndYield(front)|).Ok?
    ensures Seg(ts, pos, AndYield(d))
    ensures AndTail(ts, AndTree(front), pos + |AndYield(front)|).value == (AndTree(d), pos + |AndYield(d)|)
    decreases |ts| - pos - |AndYield(front)|, 2
  {
    hide ParseNot, NotYield, NotTree, Seg;
    d := front;
    var p := pos + |AndYield(front)|;
    if Next(ts, p, TAnd) {
      var n := NotSound(ts, p + 1);
      SegOne(ts, p, TAnd);
      SegConcat(ts, p, [TAnd], NotYield(n));
      SegConcat(ts, pos, AndYield(front), [TAnd] + NotYield(n));
      d := AndTailSound(ts, pos, AndMore(front, n));
    }
  }

  lemma {:induction false} NotSound(ts: seq<Token>, pos: nat) returns (d: NotD)
    requires pos <= |ts| && ParseNot(ts, pos).Ok?
    ensures Seg(ts, pos, NotYield(d)) && ParseNot(ts, pos).value == (NotTree(d), pos + |NotYield(d)|)
    decreases |ts| - pos, 1
  {
    if Next(ts, pos, TNot) {
      var n := NotSound(ts, pos + 1);
      d := Negate(n);
      SegOne(ts, pos, TNot);
      SegConcat(ts, pos, [TNot], NotYield(n));
    } else {
      var p := PrimSound(ts, pos);
      d := Prim(p);
    }
  }

  lemma {:induction false} PrimSound(ts: seq<Token>, pos: nat) returns (d: PrimD)
    requires pos <= |ts| && ParsePrimary(ts, pos).Ok?
    ensures Seg(ts, pos, PrimYield(d)) && ParsePrimary(ts, pos).value == (PrimTree(d), pos + |PrimYield(d)|)
    decreases |ts| - pos, 0
  {
    hide Seg;
    SegOne(ts, pos, ts[pos]);
    match ts[pos]
    case LPar =>
      var e := OrSound(ts, pos + 1);
      d := Paren(e);
      var ys := OrYield(e);
      SegOne(ts, pos + 1 + |ys|, RPar);
      SegConcat(ts, pos + 1, ys, [RPar]);
      SegConcat(ts, pos, [LPar], ys + [RPar]);
    case TStr(id) => d := PStr(id);
    case TCount(n) => d := PCount(n);
    case TAny => d := PAny;
    case TAll => d := PAll;
    case TFilesize =>
      d := PSize(ts[pos + 1].op, ts[pos + 2].value);
      SegThree(ts, pos);
    case _ => d := PAll;
  }

  // ------------------------------------------------------------ main results

  ghost predicate Derives(ts: seq<Token>, d: OrD, t: Ast) { OrYield(d) == ts && OrTree(d) == t }

  /** The parser accepts exactly the token sequences the grammar derives, with exactly the
      derivation's tree: or binds loosest, then and, then not, and both operators associate to
      the left. */
  lemma ParseIffDerived(ts: seq<Token>, t: Ast)
    ensures Parse(ts) == Ok(t) <==> exists d :: Derives(ts, d, t)
  {
    if Parse(ts) == Ok(t) {
      var d := OrSound(ts, 0);
      assert ts[0..|ts|] == ts;
      assert Derives(ts, d, t);
    }
    if d :| Derives(ts, d, t) {
      assert ts[0..|ts|] == ts;
      OrParsed(ts, 0, d);
    }
  }

  /** The grammar is unambiguous up to parentheses. */
  lemma Unambiguous(ts: seq<Token>, d: OrD, d': OrD)
    requires OrYield(d) == ts == OrYield(d')
    ensures OrTree(d) == OrTree(d')
  {
    assert Derives(ts, d, OrTree(d)) && Derives(ts, d', OrTree(d'));
    ParseIffDerived(ts, OrTree(d));
    ParseIffDerived(ts, OrTree(d'));
  }

  /** Printing any tree with only the parentheses it needs and parsing it gives the tree back. */
  lemma PrintParse(t: Ast)
    ensures Parse(Print(t)) == Ok(t)
  {
    assert Derives(Print(t), PrintOr(t), t);
    ParseIffDerived(Print(t), t);
  }

  /** Or binds loosest, not tightest, and both operators associate to the left, whatever the operands. */
  lemma Binding(a: PrimD, b: PrimD, c: PrimD)
    ensures var x, y, z := PrimYield(a), PrimYield(b), PrimYield(c);
      var s, t, u := PrimTree(a), PrimTree(b), PrimTree(c);
      && Parse(x + ([TOr] + (y + ([TAnd] + z)))) == Ok(Or(s, And(t, u)))
      && Parse(x + ([TAnd] + (y + ([TOr] + z)))) == Ok(Or(And(s, t), u))
      && Parse(x + ([TOr] + (y + ([TOr] + z)))) == Ok(Or(Or(s, t), u))
      && Parse(x + ([TAnd] + (y + ([TAnd] + z)))) == Ok(And(And(s, t), u))
      && Parse([TNot] + (x + ([TAnd] + y))) == Ok(And(Not(s), t))
  {
    hide PrimYield, PrimTree, Parse;
    var x, y, z := PrimYield(a), PrimYield(b), PrimYield(c);
    var p, q, w := OneNot(Prim(a)), OneNot(Prim(b)), OneNot(Prim(c));
    Single(a);
    Single(b);
    Single(c);
    Ored(OneAnd(p), AndMore(q, Prim(c)));
    Anded(q, Prim(c));
    Ored(OneAnd(AndMore(p, Prim(b))), w);
    Anded(p, Prim(b));
    Ored(OrMore(OneAnd(p), q), w);
    Ored(OneAnd(p), q);
    Alone(AndMore(p, Prim(b)));
    Anded(AndMore(p, Prim(b)), Prim(c));
    Alone(AndMore(AndMore(p, Prim(b)), Prim(c)));
    Derived(OneAnd(AndMore(AndMore(p, Prim(b)), Prim(c))));
    Anded(OneNot(Negate(Prim(a))), Prim(b));
    Alone(AndMore(OneNot(Negate(Prim(a))), Prim(b)));
    Derived(OneAnd(AndMore(OneNot(Negate(Prim(a))), Prim(b))));
    Negated(a);
    hide OrYield, AndYield, NotYield, OrTree, AndTree, NotTree;
    assert (x + ([TAnd] + y)) + ([TOr] + z) == x + ([TAnd] + (y + ([TOr] + z)));
    assert (x + ([TOr] + y)) + ([TOr] + z) == x + ([TOr] + (y + ([TOr] + z)));
    assert (x + ([TAnd] + y)) + ([TAnd] + z) == x + ([TAnd] + (y + ([TAnd] + z)));
    assert ([TNot] + x) + ([TAnd] + y) == [TNot] + (x + ([TAnd] + y));
  }

  lemma Single(p: PrimD)
    ensures NotYield(Prim(p)) == PrimYield(p) && NotTree(Prim(p)) == PrimTree(p)
    ensures AndYield(OneNot(Prim(p))) == PrimYield(p) && AndTree(OneNot(Prim(p))) == PrimTree(p)
    ensures OrYield(OneAnd(OneNot(Prim(p)))) == PrimYield(p) && OrTree(OneAnd(OneNot(Prim(p)))) == PrimTree(p)
  {
    Alone(OneNot(Prim(p)));
  }

  lemma Negated(p: PrimD)
    ensures AndYield(OneNot(Negate(Prim(p)))) == [TNot] + PrimYield(p)
    ensures AndTree(OneNot(Negate(Prim(p)))) == Not(PrimTree(p))
  {
    Single(p);
  }

  lemma Alone(a: AndD)
    ensures OrYield(OneAnd(a)) == AndYield(a) && OrTree(OneAnd(a)) == AndTree(a)
  {
  }

  lemma Anded(f: AndD, n: NotD)
    ensures AndYield(AndMore(f, n)) == AndYield(f) + ([TAnd] + NotYield(n))
    ensures AndTree(AndMore(f, n)) == And(AndTree(f), NotTree(n))
  {
  }

  lemma Ored(f: OrD, a: AndD)
    ensures Parse(OrYield(f) + ([TOr] + AndYield(a))) == Ok(Or(OrTree(f), AndTree(a)))
    ensures OrYield(OrMore(f, a)) == OrYield(f) + ([TOr] + AndYield(a))
    ensures OrTree(OrMore(f, a)) == Or(OrTree(f), AndTree(a))
  {
    hide Parse;
    Derived(OrMore(f, a));
  }

  lemma Derived(d: OrD)
    ensures Parse(OrYield(d)) == Ok(OrTree(d))
  {
    assert Derives(OrYield(d), d, OrTree(d));
    ParseIffDerived(OrYield(d), OrTree(d));
  }

  /** The primaries, and parentheses around any derived condition. */
  lemma Primaries(id: string, n: nat, op: string, d: OrD)
    ensures Parse([TStr(id)]) == Ok(Str(id)) && Parse([TCount(n)]) == Ok(Count(n)) && Parse([TAny]) == Ok(Count(1))
    ensures Parse([TAll]) == Ok(All) && Parse([TFilesize, TOp(op), TNum(n)]) == Ok(Filesize(op, n))
    ensures Parse([LPar] + (OrYield(d) + [RPar])) == Ok(OrTree(d))
  {
    hide Parse;
    Lone(PStr(id));
    Lone(PCount(n));
    Lone(PAny);
    Lone(PAll);
    Lone(PSize(op, n));
    Lone(Paren(d));
  }

  lemma Lone(p: PrimD)
    ensures Parse(PrimYield(p)) == Ok(PrimTree(p))
  {
    hide Parse;
    Single(p);
    Derived(OneAnd(OneNot(Prim(p))));
  }

  // ------------------------------------------------------------ the recursive-descent parser

  class Parser {
    const tokens: seq<Token>
    var pos: nat

    constructor (tokens: seq<Token>)
      ensures this.tokens == tokens && pos == 0
    {
      this.tokens, pos := tokens, 0;
    }

    /** How a method's outcome and the cursor relate to the function. */
    ghost predicate Outcome(r: Result<Ast, Error>, want: Parsed)
      reads this
    {
      match want
      case Ok(v) => r == Ok(v.0) && pos == v.1
      case Err(e) => r == Err(e)
    }

    method OrExpr() returns (r: Result<Ast, Error>)
      requires pos <= |tokens|
      modifies this
      ensures Outcome(r, ParseOr(tokens, old(pos)))
      decreases |tokens| - pos, 3
    {
      r := AndExpr();
      if r.Err? { return; }
      while pos < |tokens| && tokens[pos] == TOr
        invariant r.Ok? && old(pos) < pos <= |tokens|
        invariant ParseOr(tokens, old(pos)) == OrTail(tokens, r.value, pos)
        decreases |tokens| - pos
      {
        var left := r.value;
        pos := pos + 1;
        r := AndExpr();
        if r.Err? { return; }
        r := Ok(Or(left, r.value));
      }
    }

    method AndExpr() returns (r: Result<Ast, Error>)
      requires pos <= |tokens|
      modifies this
      ensures Outcome(r, ParseAnd(tokens, old(pos)))
      decreases |tokens| - pos, 2
    {
      r := NotExpr();
      if r.Err? { return; }
      while pos < |tokens| && tokens[pos] == TAnd
        invariant r.Ok? && old(pos) < pos <= |tokens|
        invariant ParseAnd(tokens, old(pos)) == AndTail(tokens, r.value, pos)
        decreases |tokens| - pos
      {
        var left := r.value;
        pos := pos + 1;
        r := NotExpr();
        if r.Err? { return; }
        r := Ok(And(left, r.value));
      }
    }

    method NotExpr() returns (r: Result<Ast, Error>)
      requires pos <= |tokens|
      modifies this
      ensures Outcome(r, ParseNot(tokens, old(pos)))
      decreases |tokens| - pos, 1
    {
      if pos < |tokens| && tokens[pos] == TNot {
        pos := pos + 1;
        r := NotExpr();
        if r.Ok? { r := Ok(Not(r.value)); }
      } else {
        r := Primary();
      }
    }

    method Primary() returns (r: Result<Ast, Error>)
      requires pos <= |tokens|
      modifies this
      ensures Outcome(r, ParsePrimary(tokens, old(pos)))
      decreases |tokens| - pos, 0
    {
      if pos == |tokens| { return Err(UnexpectedEnd); }
      var at := pos;
      pos := pos + 1;
      match tokens[at] {
        case LPar =>
          r := OrExpr();
          if r.Err? { return; }
          if pos == |tokens| || tokens[pos] != RPar { return Err(ExpectedClose(pos)); }
          pos := pos + 1;
        case TStr(id) => r := Ok(Str(id));
        case TCount(n) => r := Ok(Count(n));
        case TAny => r := Ok(Count(1));
        case TAll => r := Ok(All);
        case TFilesize =>
          if pos == |tokens| || !tokens[pos].TOp? { return Err(ExpectedOperator(pos)); }
          var op := tokens[pos].op;
          pos := pos + 1;
          if pos == |tokens| || !tokens[pos].TNum? { return Err(ExpectedNumber(pos)); }
          r := Ok(Filesize(op, tokens[pos].value));
          pos := pos + 1;
        case _ => r := Err(UnexpectedToken(at));
      }
    }

    method Condition() returns (r: Result<Ast, Error>)
      requires pos == 0
      modifies this
      ensures r == Parse(tokens)
    {
      r := OrExpr();
      if r.Ok? && pos != |tokens| { r := Err(Trailing(pos)); }
    }
  }
}
