/** Expressions of the assembler: tokens, trees, and the grammar with its three levels of
    left-associative operators. */
module AsmSyntax {
  import opened Wrappers

  datatype Op = Add | Sub | And | Or | Xor | Mul | Div | Mod | Shl | Sar

  function Level(op: Op): (l: nat)
    ensures 1 <= l <= 3
  {
    match op
    case Add => 1 case Sub => 1
    case And => 2 case Or => 2 case Xor => 2
    case _ => 3
  }

  /** What follows the digits of a number. */
  datatype Suffix = Plain | Backward | Forward | Garbage

  datatype Tok = TNum(n: nat, suffix: Suffix) | TChar(c: int) | TIdent(id: nat) | TOp(op: Op) | TTilde | TOpen | TClose | TOther

  datatype Expr =
    | Num(n: nat)
    | Chr(c: int)
    | Label(id: nat)
    | Local(n: nat, backward: bool)
    | Pos(e: Expr)
    | Neg(e: Expr)
    | Not(e: Expr)
    | Bin(op: Op, a: Expr, b: Expr)

  type Parsed = Option<(Expr, seq<Tok>)>

  predicate Shorter(r: Parsed, ts: seq<Tok>) { r.Some? ==> |r.value.1| < |ts| }

  function ParseUnary(ts: seq<Tok>): (r: Parsed)
    ensures Shorter(r, ts)
    decreases |ts|, 0, 0
  {
    if ts == [] then None else
    var rest := ts[1..];
    match ts[0]
    case TNum(n, Plain) => Some((Num(n), rest))
    case TNum(n, Backward) => Some((Local(n, true), rest))
    case TNum(n, Forward) => Some((Local(n, false), rest))
    case TNum(n, Garbage) => None
    case TChar(c) => Some((Chr(c), rest))
    case TIdent(id) => Some((Label(id), rest))
    case TOp(Add) => var r := ParseUnary(rest); if r.None? then None else Some((Pos(r.value.0), r.value.1))
    case TOp(Sub) => var r := ParseUnary(rest); if r.None? then None else Some((Neg(r.value.0), r.value.1))
    case TTilde => var r := ParseUnary(rest); if r.None? then None else Some((Not(r.value.0), r.value.1))
    case TOpen =>
      var r := Parse(1, rest);
      if r.None? || r.value.1 == [] || r.value.1[0] != TClose then None else Some((r.value.0, r.value.1[1..]))
    case _ => None
  }

  /** Level 4 is the unary one. */
  function Parse(level: nat, ts: seq<Tok>): (r: Parsed)
    requires 1 <= level <= 4
    ensures Shorter(r, ts)
    decreases |ts|, 5 - level, 1
  {
    if level == 4 then ParseUnary(ts) else
    var a := Parse(level + 1, ts);
    if a.None? then None else Loop(level, a.value.0, a.value.1)
  }

  predicate Goes(level: nat, ts: seq<Tok>) { ts != [] && ts[0].TOp? && Level(ts[0].op) == level }

  /** The operators of one level that follow `acc`. */
  function Loop(level: nat, acc: Expr, ts: seq<Tok>): (r: Parsed)
    requires 1 <= level <= 3
    ensures r.Some? ==> |r.value.1| <= |ts|
    decreases |ts|, 5 - level, 0
  {
    if !Goes(level, ts) then Some((acc, ts)) else
    var b := Parse(level + 1, ts[1..]);
    if b.None? then None else Loop(level, Bin(ts[0].op, acc, b.value.0), b.value.1)
  }

  // ----- printing, with no more parentheses than needed -----

  function Print(e: Expr, level: nat): seq<Tok>
    requires 1 <= level <= 4
  {
    match e
    case Num(n) => [TNum(n, Plain)]
    case Chr(c) => [TChar(c)]
    case Label(id) => [TIdent(id)]
    case Local(n, back) => [TNum(n, if back then Backward else Forward)]
    case Pos(e1) => [TOp(Add)] + Print(e1, 4)
    case Neg(e1) => [TOp(Sub)] + Print(e1, 4)
    case Not(e1) => [TTilde] + Print(e1, 4)
    case Bin(op, a, b) =>
      var s := Print(a, Level(op)) + [TOp(op)] + Print(b, Level(op) + 1);
      if level <= Level(op) then s else [TOpen] + s + [TClose]
  }

  /** No operator of `level` or tighter comes next. */
  predicate Stops(level: nat, ts: seq<Tok>) { ts == [] || !ts[0].TOp? || Level(ts[0].op) < level }

  function Rank(e: Expr, level: nat): nat
    requires 1 <= level <= 4
  {
    2 * (4 - level) + if e.Bin? && level > Level(e.op) then 20 else 0
  }

  /** Reading a printed tree gives the tree back, whatever follows it. */
  lemma {:induction false} ParsePrint(e: Expr, level: nat, rest: seq<Tok>)
    requires 1 <= level <= 4 && Stops(level, rest)
    ensures Parse(level, Print(e, level) + rest) == Some((e, rest))
    decreases e, Rank(e, level) + 1
  {
    if level < 4 {
      ParseSpine(e, level, rest);
    } else {
      UnaryPrint(e, rest);
    }
  }

  lemma {:induction false} UnaryPrint(e: Expr, rest: seq<Tok>)
    ensures ParseUnary(Print(e, 4) + rest) == Some((e, rest))
    decreases e, Rank(e, 4)
  {
    var ts := Print(e, 4) + rest;
    match e
    case Pos(e1) => Prefixed(TOp(Add), Print(e1, 4), rest); UnaryPrint(e1, rest);
    case Neg(e1) => Prefixed(TOp(Sub), Print(e1, 4), rest); UnaryPrint(e1, rest);
    case Not(e1) => Prefixed(TTilde, Print(e1, 4), rest); UnaryPrint(e1, rest);
    case Bin(op, a, b) =>
      var close := [TClose] + rest;
      Prefixed(TOpen, Print(e, 1) + [TClose], rest);
      assert Print(e, 1) + [TClose] + rest == Print(e, 1) + close;
      assert [TOpen] + Print(e, 1) + [TClose] == [TOpen] + (Print(e, 1) + [TClose]);
      ParseSpine(e, 1, close);
      assert close[1..] == rest;
    case _ =>
      assert ts[1..] == rest;
  }

  lemma Prefixed(t: Tok, s: seq<Tok>, rest: seq<Tok>)
    ensures var ts := [t] + s + rest; ts[0] == t && ts[1..] == s + rest
  {
    assert [t] + s + rest == [t] + (s + rest);
  }

  /** A printed tree is read up to the operators of its own level. */
  lemma {:induction false} ParseSpine(e: Expr, level: nat, rest: seq<Tok>)
    requires 1 <= level <= 3 && Stops(level + 1, rest)
    ensures Parse(level, Print(e, level) + rest) == Loop(level, e, rest)
    decreases e, Rank(e, level)
  {
    if e.Bin? && Level(e.op) == level {
      var op, b := e.op, Print(e.b, level + 1);
      var more := [TOp(op)] + (b + rest);
      assert Print(e, level) + rest == Print(e.a, level) + more;
      ParseSpine(e.a, level, more);
      assert more[1..] == b + rest;
      ParsePrint(e.b, level + 1, rest);
    } else {
      assert Print(e, level) == Print(e, level + 1);
      ParsePrint(e, level + 1, rest);
    }
  }

  /** The grammar reads every expression that can be written. */
  lemma RoundTrip(e: Expr)
    ensures Parse(1, Print(e, 1)) == Some((e, []))
  {
    assert Print(e, 1) + [] == Print(e, 1);
    ParsePrint(e, 1, []);
  }
}
