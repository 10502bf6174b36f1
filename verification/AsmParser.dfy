/** The assembler's recursive-descent evaluator: it reads, names and computes in one pass what
    `AsmSyntax` parses and `AsmExpr` resolves and evaluates. */
module AsmParser {
  import opened Wrappers
  import opened Words
  import opened AsmSyntax
  import opened AsmExpr

  /** The value of the expression at the start of `ts`, what follows it, and the labels. */
  function Read(level: nat, ts: seq<Tok>, ls: Labels): (r: Option<(Value, seq<Tok>, Labels)>)
    requires 1 <= level <= 4 && LabelsOk(ls)
    ensures r.Some? ==> LabelsOk(r.value.2) && Settled(r.value.0, r.value.2.syms) && |r.value.1| < |ts|
  {
    var p := Parse(level, ts);
    if p.None? then None else
    var v := Worked(p.value.0, ls);
    if v.None? then None else Some((v.value.0, p.value.1, v.value.1))
  }

  /** A tree resolved and evaluated. */
  function Worked(e: Expr, ls: Labels): (r: Option<(Value, Labels)>)
    requires LabelsOk(ls)
    ensures r.Some? ==> LabelsOk(r.value.1) && Settled(r.value.0, r.value.1.syms)
  {
    var r := Resolve(e, ls);
    if r.Bad? then None else
    ResolveWithin(e, ls);
    var v := Eval(r.t, r.ls.syms);
    if v.None? then None else Some((v.value, r.ls))
  }

  /** An operator works when its operands do and their values combine. */
  lemma WorkedBin(op: Op, a: Expr, b: Expr, ls: Labels)
    requires LabelsOk(ls)
    ensures Worked(a, ls).None? ==> Worked(Bin(op, a, b), ls).None?
    ensures Worked(a, ls).Some? ==>
              var (x, ls1) := Worked(a, ls).value;
              if Worked(b, ls1).None? then Worked(Bin(op, a, b), ls).None?
              else
                var (y, ls2) := Worked(b, ls1).value;
                && Settled(x, ls2.syms)
                && var z := Combine(op, x, y, ls2.syms);
                Worked(Bin(op, a, b), ls) == if z.None? then None else Some((z.value, ls2))
  {
    hide Resolve, Combine;
    ResolveBin(op, a, b, ls);
    var r := Resolve(a, ls);
    if r.Good? {
      ResolveWithin(a, ls);
      if Resolve(b, r.ls).Good? {
        ResolveWithin(b, r.ls);
        ResolveWithin(Bin(op, a, b), ls);
        EvalMore(r.t, r.ls.syms, Resolve(b, r.ls).ls.syms);
        if Worked(a, ls).Some? { Known(Worked(a, ls).value.0, r.ls, b); }
      }
    }
  }

  lemma ResolveBin(op: Op, a: Expr, b: Expr, ls: Labels)
    requires LabelsOk(ls)
    ensures var x := Resolve(a, ls);
            Resolve(Bin(op, a, b), ls) ==
            if x.Bad? then Bad else
            var y := Resolve(b, x.ls);
            if y.Bad? then Bad else Good(Node(op, x.t, y.t), y.ls)
  {
  }

  /** A symbol known before the second operand is known after it. */
  lemma Known(x: Value, ls: Labels, b: Expr)
    requires LabelsOk(ls) && Settled(x, ls.syms)
    ensures Worked(b, ls).Some? ==> Settled(x, Worked(b, ls).value.1.syms)
  {
    hide Resolve, Eval;
    if Resolve(b, ls).Good? { ResolveWithin(b, ls); }
  }

  /** A chain of operators on an operand that does not work does not work. */
  lemma {:induction false} LoopFails(level: nat, acc: Expr, ts: seq<Tok>, ls: Labels)
    requires 1 <= level <= 3 && LabelsOk(ls) && Worked(acc, ls).None?
    ensures Loop(level, acc, ts).Some? ==> Worked(Loop(level, acc, ts).value.0, ls).None?
    decreases |ts|
  {
    hide Worked, Parse;
    if Goes(level, ts) {
      var b := Parse(level + 1, ts[1..]);
      if b.Some? {
        WorkedBin(ts[0].op, acc, b.value.0, ls);
        LoopFails(level, Bin(ts[0].op, acc, b.value.0), b.value.1, ls);
      }
    }
  }

  /** In the middle of a level: `acc` has been read and has the value `pe`. */
  ghost predicate Reading(level: nat, ts0: seq<Tok>, ls0: Labels, acc: Expr, ts: seq<Tok>, ls: Labels, pe: Value)
    requires 1 <= level <= 3 && LabelsOk(ls0)
  {
    Parse(level, ts0) == Loop(level, acc, ts) && Worked(acc, ls0) == Some((pe, ls)) && |ts| < |ts0|
  }

  lemma ReadStart(level: nat, ts: seq<Tok>, ls: Labels) returns (acc: Expr)
    requires 1 <= level <= 3 && LabelsOk(ls)
    ensures var r := Read(level + 1, ts, ls);
            if r.None? then Read(level, ts, ls).None? else Reading(level, ts, ls, acc, r.value.1, r.value.2, r.value.0)
  {
    hide Worked, Loop, Parse;
    ParseDown(level, ts);
    var p := Parse(level + 1, ts);
    acc := Num(0);
    if p.Some? {
      acc := p.value.0;
      if Worked(acc, ls).None? { LoopFails(level, acc, p.value.1, ls); }
    }
  }

  lemma ParseDown(level: nat, ts: seq<Tok>)
    requires 1 <= level <= 3
    ensures var a := Parse(level + 1, ts); Parse(level, ts) == if a.None? then None else Loop(level, a.value.0, a.value.1)
  {
  }

  lemma ReadStop(level: nat, ts0: seq<Tok>, ls0: Labels, acc: Expr, ts: seq<Tok>, ls: Labels, pe: Value)
    requires 1 <= level <= 3 && LabelsOk(ls0) && Reading(level, ts0, ls0, acc, ts, ls, pe) && !Goes(level, ts)
    ensures Read(level, ts0, ls0) == Some((pe, ts, ls))
  {
    hide Worked, Parse;
  }

  /** One more operator and operand. */
  lemma ReadMore(level: nat, ts0: seq<Tok>, ls0: Labels, acc: Expr, ts: seq<Tok>, ls: Labels, pe: Value) returns (acc': Expr)
    requires 1 <= level <= 3 && LabelsOk(ls0) && Reading(level, ts0, ls0, acc, ts, ls, pe) && Goes(level, ts)
    ensures LabelsOk(ls)
    ensures var r := Read(level + 1, ts[1..], ls);
            if r.None? then Read(level, ts0, ls0).None?
            else
              var (e2, ts', ls') := r.value;
              && Settled(pe, ls'.syms)
              && var z := Combine(ts[0].op, pe, e2, ls'.syms);
              if z.None? then Read(level, ts0, ls0).None? else Reading(level, ts0, ls0, acc', ts', ls', z.value)
  {
    hide Worked, Parse, Combine;
    acc' := acc;
    var b := Parse(level + 1, ts[1..]);
    if b.Some? {
      acc' := Bin(ts[0].op, acc, b.value.0);
      WorkedBin(ts[0].op, acc, b.value.0, ls0);
      Known(pe, ls, b.value.0);
      if Worked(acc', ls0).None? { LoopFails(level, acc', b.value.1, ls0); }
    }
  }

  lemma NothingToRead(ts: seq<Tok>, ls: Labels)
    requires LabelsOk(ls) && (ts == [] || ts[0].TClose? || ts[0].TOther?)
    ensures Read(4, ts, ls).None?
  {
    ParseFour(ts);
  }

  lemma ParseFour(ts: seq<Tok>)
    ensures Parse(4, ts) == ParseUnary(ts)
  {
  }

  /** Numbers, characters and identifiers. */
  lemma ReadAtom(ts: seq<Tok>, ls: Labels)
    requires LabelsOk(ls) && ts != []
    ensures ts[0].TNum? && ts[0].suffix == Plain ==> Whole(ts, ls, Num(ts[0].n))
    ensures ts[0].TNum? && ts[0].suffix == Backward ==> Whole(ts, ls, Local(ts[0].n, true))
    ensures ts[0].TNum? && ts[0].suffix == Forward ==> Whole(ts, ls, Local(ts[0].n, false))
    ensures ts[0].TNum? && ts[0].suffix == Garbage ==> Read(4, ts, ls).None?
    ensures ts[0].TNum? && ts[0].suffix == Backward && Behind(ls, ts[0].n).None? ==> Read(4, ts, ls).None?
    ensures ts[0].TChar? ==> Read(4, ts, ls) == Some((Value(Clip(ts[0].c), None), ts[1..], ls))
    ensures ts[0].TIdent? ==> Whole(ts, ls, Label(ts[0].id))
  {
    hide Parse;
    ParseFour(ts);
  }

  /** The first token is the whole operand `e`. */
  ghost predicate Whole(ts: seq<Tok>, ls: Labels, e: Expr)
    requires LabelsOk(ls) && ts != []
  {
    var v := Worked(e, ls);
    Read(4, ts, ls) == if v.None? then None else Some((v.value.0, ts[1..], v.value.1))
  }

  /** Unary operators and parentheses. */
  lemma ReadPrefix(ts: seq<Tok>, ls: Labels)
    requires LabelsOk(ls) && ts != []
    ensures var r := Read(4, ts[1..], ls);
            && (ts[0] == TOp(Add) ==> Read(4, ts, ls) == r)
            && (ts[0] == TOp(Sub) ==> Read(4, ts, ls) == Flipped(r, false))
            && (ts[0] == TTilde ==> Read(4, ts, ls) == Flipped(r, true))
            && (ts[0].TOp? && ts[0].op != Add && ts[0].op != Sub ==> Read(4, ts, ls).None?)
    ensures ts[0] == TOpen ==>
              var r := Read(1, ts[1..], ls);
              Read(4, ts, ls) ==
              if r.None? || r.value.1 == [] || r.value.1[0] != TClose then None
              else Some((r.value.0, r.value.1[1..], r.value.2))
  {
    hide Parse;
    ParseFour(ts);
    ParseFour(ts[1..]);
  }

  /** The negation or complement of a value without a symbol. */
  function Flipped(r: Option<(Value, seq<Tok>, Labels)>, not: bool): Option<(Value, seq<Tok>, Labels)> {
    if r.None? || r.value.0.sym.Some? then None
    else Some((Value(Clip(if not then 0 - r.value.0.v - 1 else 0 - r.value.0.v), None), r.value.1, r.value.2))
  }

  lemma BehindLocal(ls: Labels, n: nat)
    requires LabelsOk(ls) && Behind(ls, n).Some?
    ensures Behind(ls, n).value < |ls.syms|
  {
  }

  class Assembler {
    var ts: seq<Tok>
    var ls: Labels

    constructor (ts: seq<Tok>, ls: Labels)
      requires LabelsOk(ls)
      ensures this.ts == ts && this.ls == ls
    {
      this.ts, this.ls := ts, ls;
    }

    /** `asm_expr_unary`. */
    method AsmExprUnary() returns (ok: bool, pe: Value)
      requires LabelsOk(ls)
      modifies this
      ensures var r := Read(4, old(ts), old(ls)); (ok <==> r.Some?) && (ok ==> r.value == (pe, ts, ls))
      decreases |ts|, 0
    {
      hide Loop, Combine, Read;
      ok, pe := false, Value(0, None);
      if ts == [] || ts[0].TClose? || ts[0].TOther? {
        NothingToRead(ts, ls);
        return;
      }
      ghost var ts0 := ts;
      var tok := ts[0];
      ReadAtom(ts, ls);
      ReadPrefix(ts, ls);
      if tok.TNum? {
        ok, pe := Number(tok.n, tok.suffix);
        if ok { ts := ts[1..]; }
      } else if tok.TChar? {
        pe := Value(tok.c % AsmExpr.W, None);
        ts := ts[1..];
        ok := true;
      } else if tok.TIdent? {
        pe := Identifier(tok.id);
        ts := ts[1..];
        ok := true;
      } else if tok == TOp(Add) {
        ts := ts[1..];
        ok, pe := AsmExprUnary();
      } else if tok == TOp(Sub) || tok == TTilde {
        ts := ts[1..];
        ok, pe := AsmExprUnary();
        if !ok { return; }
        if pe.sym.Some? { return false, pe; }
        pe := pe.(v := (if tok == TTilde then 0 - pe.v - 1 else 0 - pe.v) % AsmExpr.W);
      } else if tok == TOpen {
        ts := ts[1..];
        ok, pe := AsmExpression();
        if !ok { return; }
        if ts == [] || ts[0] != TClose { return false, pe; }
        ts := ts[1..];
      }
    }

    /** A number or a numbered label. */
    method Number(n: nat, suffix: Suffix) returns (ok: bool, pe: Value)
      requires LabelsOk(ls)
      modifies `ls
      ensures ok <==> suffix != Garbage && (suffix == Backward ==> Behind(old(ls), n).Some?)
      ensures ok ==> Some((pe, ls)) == Worked(if suffix == Plain then Num(n) else Local(n, suffix == Backward), old(ls))
    {
      ok, pe := true, Value(0, None);
      if suffix == Plain {
        pe := Value(n % AsmExpr.W, None);
      } else if suffix == Backward {
        var s := Behind(ls, n);
        if s.None? { return false, pe; }
        BehindLocal(ls, n);
        pe := Value(0, s);
      } else if suffix == Forward {
        var s := Find(ls, Numbered(n));
        if s.None? || ls.syms[s.value].r != 0 {
          s := Some(|ls.syms|);
          ls := Push(ls, Numbered(n), Sym(0, 0));
        }
        pe := Value(0, s);
      } else {
        ok := false;
      }
    }

    method Identifier(id: nat) returns (pe: Value)
      requires LabelsOk(ls)
      modifies `ls
      ensures Some((pe, ls)) == Worked(Label(id), old(ls))
    {
      var s := Find(ls, Ident(id));
      if s.None? {
        s := Some(|ls.syms|);
        ls := Push(ls, Ident(id), Sym(0, 0));
      }
      if ls.syms[s.value].r == SHN_ABS {
        pe := Value(ls.syms[s.value].value % AsmExpr.W, None);
      } else {
        pe := Value(0, s);
      }
    }

    /** `asm_expr_prod`. */
    method AsmExprProd() returns (ok: bool, pe: Value)
      requires LabelsOk(ls)
      modifies this
      ensures var r := Read(3, old(ts), old(ls)); (ok <==> r.Some?) && (ok ==> r.value == (pe, ts, ls))
      decreases |ts|, 1
    {
      hide Read, Reading, LabelsOk, Bitwise, Words.Shl, Shr;
      ghost var ts0, ls0 := ts, ls;
      ghost var acc := ReadStart(3, ts, ls);
      ok, pe := AsmExprUnary();
      if !ok { return; }
      while ts != [] && ts[0].TOp? && ts[0].op in {Mul, Div, Mod, Shl, Sar}
        invariant Reading(3, ts0, ls0, acc, ts, ls, pe)
        decreases |ts|
      {
        SeeReading(3, ts0, ls0, acc, ts, ls, pe);
        ghost var acc' := ReadMore(3, ts0, ls0, acc, ts, ls, pe);
        var op := ts[0].op;
        ts := ts[1..];
        var got, e2 := AsmExprUnary();
        if !got { return false, pe; }
        acc := acc';
        if pe.sym.Some? || e2.sym.Some? { return false, pe; }
        if op == Mul {
          pe := pe.(v := pe.v * e2.v % AsmExpr.W);
        } else if op == Div {
          if e2.v == 0 { return false, pe; }
          pe := pe.(v := pe.v / e2.v);
        } else if op == Mod {
          if e2.v == 0 { return false, pe; }
          pe := pe.(v := pe.v % e2.v);
        } else if op == Op.Shl {
          pe := pe.(v := Words.Shl(pe.v, e2.v % 32, 32));
        } else {
          pe := pe.(v := Shr(pe.v, e2.v % 32));
        }
      }
      ReadStop(3, ts0, ls0, acc, ts, ls, pe);
    }

    /** `asm_expr_logic`. */
    method AsmExprLogic() returns (ok: bool, pe: Value)
      requires LabelsOk(ls)
      modifies this
      ensures var r := Read(2, old(ts), old(ls)); (ok <==> r.Some?) && (ok ==> r.value == (pe, ts, ls))
      decreases |ts|, 2
    {
      hide Read, Reading, LabelsOk, Bitwise, Words.Shl, Shr;
      ghost var ts0, ls0 := ts, ls;
      ghost var acc := ReadStart(2, ts, ls);
      ok, pe := AsmExprProd();
      if !ok { return; }
      while ts != [] && ts[0].TOp? && ts[0].op in {Op.And, Op.Or, Op.Xor}
        invariant Reading(2, ts0, ls0, acc, ts, ls, pe)
        decreases |ts|
      {
        SeeReading(2, ts0, ls0, acc, ts, ls, pe);
        ghost var acc' := ReadMore(2, ts0, ls0, acc, ts, ls, pe);
        var op := ts[0].op;
        ts := ts[1..];
        var got, e2 := AsmExprProd();
        if !got { return false, pe; }
        acc := acc';
        if pe.sym.Some? || e2.sym.Some? { return false, pe; }
        pe := Logic(op, pe, e2, ls.syms);
      }
      ReadStop(2, ts0, ls0, acc, ts, ls, pe);
    }

    /** The operators of `asm_expr_logic`. */
    static method Logic(op: Op, x: Value, y: Value, ghost syms: seq<Sym>) returns (z: Value)
      requires x.v < AsmExpr.W && y.v < AsmExpr.W && x.sym.None? && y.sym.None? && op in {Op.And, Op.Or, Op.Xor}
      ensures Combine(op, x, y, syms) == Some(z)
    {
      if op == Op.And {
        z := x.(v := Bitwise(BitOp.And, x.v, y.v, 32));
      } else if op == Op.Or {
        z := x.(v := Bitwise(BitOp.Or, x.v, y.v, 32));
      } else {
        z := x.(v := Bitwise(BitOp.Xor, x.v, y.v, 32));
      }
    }

    /** `asm_expr`, which is `asm_expr_sum`. */
    method AsmExpression() returns (ok: bool, pe: Value)
      requires LabelsOk(ls)
      modifies this
      ensures var r := Read(1, old(ts), old(ls)); (ok <==> r.Some?) && (ok ==> r.value == (pe, ts, ls))
      decreases |ts|, 3
    {
      hide Read, Reading, LabelsOk, Bitwise, Words.Shl, Shr;
      ghost var ts0, ls0 := ts, ls;
      ghost var acc := ReadStart(1, ts, ls);
      ok, pe := AsmExprLogic();
      if !ok { return; }
      while ts != [] && ts[0].TOp? && ts[0].op in {Add, Sub}
        invariant Reading(1, ts0, ls0, acc, ts, ls, pe)
        decreases |ts|
      {
        SeeReading(1, ts0, ls0, acc, ts, ls, pe);
        ghost var acc' := ReadMore(1, ts0, ls0, acc, ts, ls, pe);
        var op := ts[0].op;
        ts := ts[1..];
        var got, e2 := AsmExprLogic();
        if !got { return false, pe; }
        acc := acc';
        if op == Add {
          if pe.sym.Some? && e2.sym.Some? { return false, pe; }
          pe := pe.(v := (pe.v + e2.v) % AsmExpr.W);
          if pe.sym.None? { pe := pe.(sym := e2.sym); }
        } else if e2.sym.None? {
          pe := pe.(v := (pe.v - e2.v) % AsmExpr.W);
        } else if pe.sym.Some? {
          var s, t := ls.syms[pe.sym.value], ls.syms[e2.sym.value];
          if pe.sym == e2.sym {
            pe := Value((pe.v - e2.v) % AsmExpr.W, None);
          } else if s.r == t.r && s.r != 0 {
            pe := Value((pe.v - e2.v + (s.value - t.value)) % AsmExpr.W, None);
          } else {
            return false, pe;
          }
        } else {
          return false, pe;
        }
      }
      ReadStop(1, ts0, ls0, acc, ts, ls, pe);
    }
  }

  /** `asm_new_label1`. */
  method NewLabel(asm: Assembler, v: Name, isLocal: bool, sh: nat, value: int) returns (ok: bool)
    requires LabelsOk(asm.ls)
    modifies asm`ls
    ensures ok <==> Define(old(asm.ls), v, isLocal, sh, value).Some?
    ensures ok ==> asm.ls == Define(old(asm.ls), v, isLocal, sh, value).value
  {
    var s := Find(asm.ls, v);
    if s.Some? {
      if asm.ls.syms[s.value].r != 0 {
        if !isLocal { return false; }
        s := Some(|asm.ls.syms|);
        asm.ls := Push(asm.ls, v, Sym(sh, value));
      }
    } else {
      s := Some(|asm.ls.syms|);
      asm.ls := Push(asm.ls, v, Sym(sh, value));
    }
    asm.ls := asm.ls.(syms := asm.ls.syms[s.value := Sym(sh, value)]);
    ok := true;
  }

  lemma SeeReading(level: nat, ts0: seq<Tok>, ls0: Labels, acc: Expr, ts: seq<Tok>, ls: Labels, pe: Value)
    requires 1 <= level <= 3 && LabelsOk(ls0) && Reading(level, ts0, ls0, acc, ts, ls, pe)
    ensures LabelsOk(ls) && Settled(pe, ls.syms) && |ts| < |ts0|
  {
  }
}
