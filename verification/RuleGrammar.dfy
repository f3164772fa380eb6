/** The condition language of packages/triage/src/rules.mjs: tokens, syntax trees, and the
    grammar the parser is meant to accept, written as derivation trees. */
module RuleGrammar {

  datatype Token =
    | TStr(id: string) | TCount(n: nat) | TAny | TAll
    | TFilesize | TOp(op: string) | TNum(value: nat)
    | LPar | RPar | TAnd | TOr | TNot

  datatype Ast =
    | Or(left: Ast, right: Ast)
    | And(left: Ast, right: Ast)
    | Not(child: Ast)
    | Str(id: string)
    | Count(n: nat)
    | All
    | Filesize(op: string, value: nat)

  /** or-expression, and-expression, not-expression, primary. */
  datatype OrD = OneAnd(a: AndD) | OrMore(front: OrD, a: AndD)
  datatype AndD = OneNot(n: NotD) | AndMore(front: AndD, n: NotD)
  datatype NotD = Negate(d: NotD) | Prim(p: PrimD)
  datatype PrimD =
    | PStr(id: string) | PCount(n: nat) | PAny | PAll
    | PSize(op: string, value: nat) | Paren(d: OrD)

  // ------------------------------------------------------------ the tokens of a derivation

  function OrYield(d: OrD): (ts: seq<Token>)
    ensures ts != []
  {
    match d
    case OneAnd(a) => AndYield(a)
    case OrMore(front, a) => OrYield(front) + ([TOr] + AndYield(a))
  }

  function AndYield(d: AndD): (ts: seq<Token>)
    ensures ts != []
  {
    match d
    case OneNot(n) => NotYield(n)
    case AndMore(front, n) => AndYield(front) + ([TAnd] + NotYield(n))
  }

  function NotYield(d: NotD): (ts: seq<Token>)
    ensures ts != []
  {
    match d
    case Negate(n) => [TNot] + NotYield(n)
    case Prim(p) => PrimYield(p)
  }

  function PrimYield(d: PrimD): (ts: seq<Token>)
    ensures ts != []
  {
    match d
    case PStr(id) => [TStr(id)]
    case PCount(n) => [TCount(n)]
    case PAny => [TAny]
    case PAll => [TAll]
    case PSize(op, v) => [TFilesize, TOp(op), TNum(v)]
    case Paren(e) => [LPar] + (OrYield(e) + [RPar])
  }

  // ------------------------------------------------------------ the tree of a derivation

  function OrTree(d: OrD): Ast {
    match d
    case OneAnd(a) => AndTree(a)
    case OrMore(front, a) => Or(OrTree(front), AndTree(a))
  }

  function AndTree(d: AndD): Ast {
    match d
    case OneNot(n) => NotTree(n)
    case AndMore(front, n) => And(AndTree(front), NotTree(n))
  }

  function NotTree(d: NotD): Ast {
    match d
    case Negate(n) => Not(NotTree(n))
    case Prim(p) => PrimTree(p)
  }

  function PrimTree(d: PrimD): Ast {
    match d
    case PStr(id) => Str(id)
    case PCount(n) => Count(n)
    case PAny => Count(1)
    case PAll => All
    case PSize(op, v) => Filesize(op, v)
    case Paren(e) => OrTree(e)
  }

  // ------------------------------------------------------------ printing with needed parentheses

  /** Levels: 1 or, 2 and, 3 not, 4 primary.  Each adds parentheses only where its operand
      binds more loosely. */
  function PrintOr(t: Ast): (d: OrD)
    ensures OrTree(d) == t
    decreases t, if t.Or? then 0 else if t.And? then 1 else 3
  {
    match t
    case Or(l, r) => OrMore(PrintOr(l), PrintAnd(r))
    case _ => OneAnd(PrintAnd(t))
  }

  function PrintAnd(t: Ast): (d: AndD)
    ensures AndTree(d) == t
    decreases t, if t.Or? then 3 else if t.And? then 0 else 2
  {
    match t
    case And(l, r) => AndMore(PrintAnd(l), PrintNot(r))
    case _ => OneNot(PrintNot(t))
  }

  function PrintNot(t: Ast): (d: NotD)
    ensures NotTree(d) == t
    decreases t, if t.Or? then 2 else if t.And? then 3 else 1
  {
    match t
    case Not(c) => Negate(PrintNot(c))
    case _ => Prim(PrintPrim(t))
  }

  function PrintPrim(t: Ast): (d: PrimD)
    requires !t.Not?
    ensures PrimTree(d) == t
    decreases t, if t.Or? then 1 else if t.And? then 2 else 0
  {
    match t
    case Str(id) => PStr(id)
    case Count(n) => PCount(n)
    case All => PAll
    case Filesize(op, v) => PSize(op, v)
    case Or(_, _) => Paren(PrintOr(t))
    case And(_, _) => Paren(PrintOr(t))
  }

  function Print(t: Ast): seq<Token> { OrYield(PrintOr(t)) }
}
