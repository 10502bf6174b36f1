/** The two-pass code of `Control` preserves meaning: running it takes the machine through
    the same history as the source statement, to the address the outcome calls for. */
module Simulation {
  import opened Wrappers
  import opened JumpCode
  import opened Control

  /** The addresses the open lists of a piece of code are patched to. */
  datatype Env = Env(pending: int, over: int, brk: int, cnt: int, ret: int, nxt: int)

  function Dest(l: Label, env: Env): int {
    match l
    case To(a) => a
    case Pending => env.pending
    case Over => env.over
    case Brk => env.brk
    case Cnt => env.cnt
    case Ret => env.ret
    case Nxt => env.nxt
  }

  function Set(env: Env, l: Label, a: int): Env {
    match l
    case To(_) => env
    case Pending => env.(pending := a)
    case Over => env.(over := a)
    case Brk => env.(brk := a)
    case Cnt => env.(cnt := a)
    case Ret => env.(ret := a)
    case Nxt => env.(nxt := a)
  }

  /** The cell that stands at address `t`; displacements count from the next instruction. */
  function Concrete(c: SCell, t: int, env: Env): Cell {
    match c
    case Raw(cell) => cell
    case Ref(l) => Slot(Dest(l, env) - t - 4)
  }

  ghost predicate Fits(code: seq<Cell>, p: int, cells: Symbolic, env: Env) {
    && 0 <= p
    && p + |cells| <= |code|
    && forall i :: 0 <= i < |cells| ==> code[p + i] == Concrete(cells[i], p + i, env)
  }

  lemma FitsConcat(code: seq<Cell>, p: int, a: Symbolic, b: Symbolic, env: Env)
    requires Fits(code, p, a + b, env)
    ensures Fits(code, p, a, env)
    ensures Fits(code, p + |a|, b, env)
  {
    forall i | 0 <= i < |a| ensures code[p + i] == Concrete(a[i], p + i, env) {
      assert (a + b)[i] == a[i];
    }
    forall i | 0 <= i < |b| ensures code[p + |a| + i] == Concrete(b[i], p + |a| + i, env) {
      assert (a + b)[|a| + i] == b[i];
      assert code[p + (|a| + i)] == Concrete((a + b)[|a| + i], p + (|a| + i), env);
    }
  }

  lemma FitsBind(code: seq<Cell>, p: int, cells: Symbolic, l: Label, a: int, env: Env)
    requires !l.To?
    requires Fits(code, p, Bind(cells, l, a), env)
    ensures Fits(code, p, cells, Set(env, l, a))
  {
    forall i | 0 <= i < |cells| ensures code[p + i] == Concrete(cells[i], p + i, Set(env, l, a)) {
      assert code[p + i] == Concrete(Bind(cells, l, a)[i], p + i, env);
    }
  }

  // ----- single instructions -----

  lemma StepJmp(code: seq<Cell>, o: Oracle, l: Label, env: Env, s: State)
    requires Fits(code, s.pc, JmpTo(l), env)
    ensures Steps(code, o, s, 1) == s.(pc := Dest(l, env))
  {
    assert JmpTo(l)[0] == Raw(Jmp) && JmpTo(l)[1] == Ref(l);
    assert code[s.pc + 0] == Jmp && code[s.pc + 1] == Concrete(Ref(l), s.pc + 1, env);
    assert Steps(code, o, s, 1) == Steps(code, o, Step(code, o, s), 0);
  }

  lemma StepJcc(code: seq<Cell>, o: Oracle, op: CompareOp, l: Label, env: Env, s: State)
    requires Fits(code, s.pc, JccTo(op, l), env)
    ensures Steps(code, o, s, 1) == s.(pc := if Cond(op, s.flags) then Dest(l, env) else s.pc + 6)
  {
    assert JccTo(op, l)[0] == Raw(Jcc(op)) && JccTo(op, l)[2] == Ref(l);
    assert code[s.pc + 0] == Jcc(op) && code[s.pc + 2] == Concrete(Ref(l), s.pc + 2, env);
    assert Steps(code, o, s, 1) == Steps(code, o, Step(code, o, s), 0);
  }

  lemma StepShort(code: seq<Cell>, o: Oracle, d: int, env: Env, s: State)
    requires Byte(d) == d && Fits(code, s.pc, [Raw(JmpShort), Raw(Disp8(d))], env)
    ensures Steps(code, o, s, 1) == s.(pc := s.pc + 2 + d)
  {
    var cells := [Raw(JmpShort), Raw(Disp8(d))];
    assert cells[0] == Raw(JmpShort) && cells[1] == Raw(Disp8(d));
    assert code[s.pc + 0] == JmpShort && code[s.pc + 1] == Disp8(d);
    assert Steps(code, o, s, 1) == Steps(code, o, Step(code, o, s), 0);
  }

  /** The short forms are taken exactly where a byte holds the number. */
  lemma ShortExactly(d: int)
    ensures Short(d) <==> Byte(d) == d
  {
  }

  lemma StepBack(code: seq<Cell>, o: Oracle, a: int, env: Env, s: State)
    requires Fits(code, s.pc, JmpBack(a, s.pc), env)
    ensures Steps(code, o, s, 1) == s.(pc := a)
  {
    var d := a - s.pc - 2;
    ShortExactly(d);
    if Short(d) {
      StepShort(code, o, d, env, s);
    } else {
      StepJmp(code, o, To(a), env, s);
    }
  }

  /** Any instruction whose first cell alone says what it does. */
  lemma StepPlain(code: seq<Cell>, o: Oracle, c: Cell, cells: Symbolic, env: Env, s: State)
    requires |cells| > 0 && cells[0] == Raw(c)
    requires Fits(code, s.pc, cells, env)
    ensures 0 <= s.pc < |code| && code[s.pc] == c
    ensures Steps(code, o, s, 1) == Step(code, o, s)
  {
    assert code[s.pc + 0] == c;
    assert Steps(code, o, s, 1) == Steps(code, o, Step(code, o, s), 0);
  }

  lemma StepMov(code: seq<Cell>, o: Oracle, c: int, env: Env, s: State)
    requires Fits(code, s.pc, MovImm(c), env)
    ensures Steps(code, o, s, 1) == s.(pc := s.pc + 5, acc := c)
  {
    StepPlain(code, o, Mov(c), MovImm(c), env, s);
  }

  // ----- expressions -----

  /** The machine is in the state that `at` describes for the value `x`, after code that
      ends at `q` and whose list is patched to `list`. */
  ghost predicate Holds(at: Place, x: int, s: State, q: int, list: int) {
    match at
    case InConst(c) => s.pc == q && x == c
    case InFlags(op) => s.pc == q && x == Bit(Cond(op, s.flags))
    case InReg => s.pc == q && s.acc == x
    case JmpTrue => (x == 0 || x == 1) && s.pc == if x == 1 then list else q
    case JmpFalse => (x == 0 || x == 1) && s.pc == if x == 0 then list else q
  }

  predicate Jumped(at: Place, x: int) {
    (at.JmpTrue? && x == 1) || (at.JmpFalse? && x == 0)
  }

  /** Where the list of a tested operand leads. */
  function OperandEnv(at: Place, inv: bool, q: int, env: Env): Env {
    if (at.JmpTrue? || at.JmpFalse?) && at.JmpFalse? != inv then env.(pending := q + 5) else env
  }

  lemma FitsOperand(code: seq<Cell>, cells: Symbolic, at: Place, inv: bool, p: int, env: Env)
    requires Fits(code, p, TestOf(cells, at, inv, p), env)
    ensures Fits(code, p, cells, OperandEnv(at, inv, p + |cells|, env))
  {
    match at
    case InConst(c) =>
      if (c != 0) != inv { FitsConcat(code, p, cells, JmpTo(Pending), env); }
    case InFlags(op) => FitsConcat(code, p, cells, JccTo(FlipIf(op, inv), Pending), env);
    case InReg =>
      FitsConcat(code, p, cells + [Raw(Test), Raw(Fill)], JccTo(FlipIf(TOK_NE, inv), Pending), env);
      FitsConcat(code, p, cells, [Raw(Test), Raw(Fill)], env);
    case _ =>
      if at.JmpFalse? != inv {
        FitsConcat(code, p, Bind(cells, Pending, p + |cells| + 5), JmpTo(Pending), env);
        FitsBind(code, p, cells, Pending, p + |cells| + 5, env);
      }
  }

  /** The test part alone: it reaches the list exactly when the truth differs from `inv`. */
  lemma RunTestOf(code: seq<Cell>, o: Oracle, cells: Symbolic, at: Place, inv: bool, p: int, env: Env, x: int, s: State)
    returns (k: nat, t: State)
    requires Fits(code, p, TestOf(cells, at, inv, p), env)
    requires Holds(at, x, s, p + |cells|, OperandEnv(at, inv, p + |cells|, env).pending)
    ensures Steps(code, o, s, k) == t && t.history == s.history
    ensures t.pc == if (x != 0) != inv then env.pending else p + |TestOf(cells, at, inv, p)|
    ensures (x != 0) != inv ==> k > 0 || Jumped(at, x)
  {
    match at
    case InConst(c) =>
      if (c != 0) != inv {
        FitsConcat(code, p, cells, JmpTo(Pending), env);
        StepJmp(code, o, Pending, env, s);
        k, t := 1, Steps(code, o, s, 1);
      } else {
        k, t := 0, s;
      }
    case InFlags(op) =>
      FitsConcat(code, p, cells, JccTo(FlipIf(op, inv), Pending), env);
      StepJcc(code, o, FlipIf(op, inv), Pending, env, s);
      k, t := 1, Steps(code, o, s, 1);
    case InReg =>
      var test := [Raw(Test), Raw(Fill)];
      FitsConcat(code, p, cells + test, JccTo(FlipIf(TOK_NE, inv), Pending), env);
      FitsConcat(code, p, cells, test, env);
      StepPlain(code, o, Test, test, env, s);
      var m := Steps(code, o, s, 1);
      StepJcc(code, o, FlipIf(TOK_NE, inv), Pending, env, m);
      StepsCompose(code, o, s, 1, 1);
      k, t := 2, Steps(code, o, s, 2);
    case _ =>
      if at.JmpFalse? == inv {
        k, t := 0, s;
      } else {
        FitsConcat(code, p, Bind(cells, Pending, p + |cells| + 5), JmpTo(Pending), env);
        if s.pc == p + |cells| && !Jumped(at, x) {
          StepJmp(code, o, Pending, env, s);
          k, t := 1, Steps(code, o, s, 1);
        } else {
          k, t := 0, s;
        }
      }
  }

  /** Short-circuit code is correct: it evaluates the atoms the language asks for, in
      order, and leaves the value where its place says. */
  lemma {:induction false} RunExpr(code: seq<Cell>, o: Oracle, e: Expr, p: int, env: Env, s: State)
    returns (k: nat, t: State)
    requires Fits(code, p, Code(e, p).0, env) && s.pc == p
    ensures Steps(code, o, s, k) == t && t.history == Value(e, o, s.history).1
    ensures Holds(Code(e, p).1, Value(e, o, s.history).0, t, p + |Code(e, p).0|, env.pending)
    ensures Jumped(Code(e, p).1, Value(e, o, s.history).0) ==> k > 0 && |Code(e, p).0| > 0
    decreases e, 0
  {
    match e
    case Operand(id, extra) =>
      StepPlain(code, o, Atom(id, extra), Code(e, p).0, env, s);
      k, t := 1, Step(code, o, s);
    case Relation(op, id, extra) =>
      StepPlain(code, o, Cell.Compare(id, extra), Code(e, p).0, env, s);
      k, t := 1, Step(code, o, s);
    case Const(c) =>
      k, t := 0, s;
    case Not(e1) =>
      var (cells, at) := Code(e1, p);
      if at.InConst? || at.InFlags? {
        k, t := RunExpr(code, o, e1, p, env, s);
      } else {
        k, t := RunTest(code, o, e1, true, p, env, s);
      }
    case Land(es) =>
      k, t := RunChain(code, o, es, true, p, env, s);
    case Lor(es) =>
      k, t := RunChain(code, o, es, false, p, env, s);
  }

  lemma {:induction false} RunTest(code: seq<Cell>, o: Oracle, e: Expr, inv: bool, p: int, env: Env, s: State)
    returns (k: nat, t: State)
    requires Fits(code, p, TestCode(e, inv, p), env) && s.pc == p
    ensures Steps(code, o, s, k) == t && t.history == Value(e, o, s.history).1
    ensures var taken := (Value(e, o, s.history).0 != 0) != inv;
            && t.pc == (if taken then env.pending else p + |TestCode(e, inv, p)|)
            && (taken ==> k > 0 && |TestCode(e, inv, p)| > 0)
    decreases e, 1
  {
    var (cells, at) := Code(e, p);
    var x := Value(e, o, s.history).0;
    FitsOperand(code, cells, at, inv, p, env);
    var j, m := RunExpr(code, o, e, p, OperandEnv(at, inv, p + |cells|, env), s);
    var i;
    i, t := RunTestOf(code, o, cells, at, inv, p, env, x, m);
    StepsCompose(code, o, s, j, i);
    k := j + i;
  }

  lemma {:induction false} RunChain(code: seq<Cell>, o: Oracle, es: Exprs, inv: bool, p: int, env: Env, s: State)
    returns (k: nat, t: State)
    requires Fits(code, p, ChainCode(es, inv, p), env) && s.pc == p
    ensures Steps(code, o, s, k) == t && t.history == ValueChain(es, inv, o, s.history).1
    ensures var taken := ValueChain(es, inv, o, s.history).0;
            && t.pc == (if taken then env.pending else p + |ChainCode(es, inv, p)|)
            && (taken ==> k > 0 && |ChainCode(es, inv, p)| > 0)
    decreases es, 0
  {
    match es
    case Nil =>
      k, t := 0, s;
    case Cons(e, rest) =>
      var first := TestCode(e, inv, p);
      FitsConcat(code, p, first, ChainCode(rest, inv, p + |first|), env);
      k, t := RunTest(code, o, e, inv, p, env, s);
      if (Value(e, o, s.history).0 != 0) == inv {
        var i, u := RunChain(code, o, rest, inv, p + |first|, env, t);
        StepsCompose(code, o, s, k, i);
        k, t := k + i, u;
      }
  }

  /** Loading a value that is the consequence of a jump yields its 0 or 1. */
  lemma RunReg(code: seq<Cell>, o: Oracle, e: Expr, p: int, env: Env, s: State)
    returns (k: nat, t: State)
    requires Fits(code, p, RegCode(e, p), env) && s.pc == p
    ensures Steps(code, o, s, k) == t && t.history == Value(e, o, s.history).1
    ensures t.pc == p + |RegCode(e, p)| && t.acc == Value(e, o, s.history).0
  {
    var (cells, at) := Code(e, p);
    var q := p + |cells|;
    match at
    case InReg =>
      k, t := RunExpr(code, o, e, p, env, s);
    case InConst(c) =>
      FitsConcat(code, p, cells, MovImm(c), env);
      var j, m := RunExpr(code, o, e, p, env, s);
      StepPlain(code, o, Mov(c), MovImm(c), env, m);
      StepsCompose(code, o, s, j, 1);
      k, t := j + 1, Step(code, o, m);
    case InFlags(op) =>
      var setcc := [Raw(SetCond(op))];
      FitsConcat(code, p, cells + MovImm(0) + setcc, Fills(2), env);
      FitsConcat(code, p, cells + MovImm(0), setcc, env);
      FitsConcat(code, p, cells, MovImm(0), env);
      var j, m := RunExpr(code, o, e, p, env, s);
      StepPlain(code, o, Mov(0), MovImm(0), env, m);
      StepsCompose(code, o, s, j, 1);
      var n := Step(code, o, m);
      StepPlain(code, o, SetCond(op), setcc, env, n);
      StepsCompose(code, o, s, j + 1, 1);
      k, t := j + 2, Step(code, o, n);
    case _ =>
      k, t := RunRegJump(code, o, e, p, env, s);
  }

  lemma RunRegJump(code: seq<Cell>, o: Oracle, e: Expr, p: int, env: Env, s: State)
    returns (k: nat, t: State)
    requires Fits(code, p, RegCode(e, p), env) && s.pc == p
    requires Code(e, p).1.JmpTrue? || Code(e, p).1.JmpFalse?
    ensures Steps(code, o, s, k) == t && t.history == Value(e, o, s.history).1
    ensures t.pc == p + |RegCode(e, p)| && t.acc == Value(e, o, s.history).0
  {
    hide Fits, Bind, Steps, Step, Value;
    var (cells, at) := Code(e, p);
    var q := p + |cells|;
    var a, b := MovImm(Bit(at.JmpFalse?)), MovImm(Bit(at.JmpTrue?));
    var hop := [Raw(JmpShort), Raw(Disp8(5))];
    FitsConcat(code, p, Bind(cells, Pending, q + 7), a + hop + b, env);
    FitsConcat(code, q, a + hop, b, env);
    FitsConcat(code, q, a, hop, env);
    FitsBind(code, p, cells, Pending, q + 7, env);
    var j, m := RunExpr(code, o, e, p, env.(pending := q + 7), s);
    if Jumped(at, Value(e, o, s.history).0) {
      StepMov(code, o, Bit(at.JmpTrue?), env, m);
      StepsCompose(code, o, s, j, 1);
      k, t := j + 1, Steps(code, o, m, 1);
    } else {
      StepMov(code, o, Bit(at.JmpFalse?), env, m);
      StepsCompose(code, o, s, j, 1);
      var n := Steps(code, o, m, 1);
      StepShort(code, o, 5, env, n);
      StepsCompose(code, o, s, j + 1, 1);
      k, t := j + 2, Steps(code, o, n, 1);
    }
  }

  lemma RunPop(code: seq<Cell>, o: Oracle, e: Expr, p: int, env: Env, s: State)
    returns (k: nat, t: State)
    requires Fits(code, p, PopCode(e, p), env) && s.pc == p
    ensures Steps(code, o, s, k) == t && t.history == Value(e, o, s.history).1
    ensures t.pc == p + |PopCode(e, p)|
  {
    var q := p + |Code(e, p).0|;
    FitsBind(code, p, Code(e, p).0, Pending, q, env);
    k, t := RunExpr(code, o, e, p, env.(pending := q), s);
  }

  lemma RunOptPop(code: seq<Cell>, o: Oracle, e: Option<Expr>, p: int, env: Env, s: State)
    returns (k: nat, t: State)
    requires Fits(code, p, OptPop(e, p), env) && s.pc == p
    ensures Steps(code, o, s, k) == t && t.history == Opt(e, o, s.history)
    ensures t.pc == p + |OptPop(e, p)|
  {
    if e.None? {
      k, t := 0, s;
    } else {
      k, t := RunPop(code, o, e.value, p, env, s);
    }
  }

  // ----- statements -----

  function LinkEnv(env: Env, s: Stmt, p: int): Env {
    if HasCase(s) then env.(nxt := FirstCase(s, p)) else env
  }

  lemma FitsLink(code: seq<Cell>, p: int, cells: Symbolic, s: Stmt, q: int, env: Env)
    requires Fits(code, p, Link(cells, s, q), env)
    ensures Fits(code, p, cells, LinkEnv(env, s, q))
  {
    if HasCase(s) {
      FitsBind(code, p, cells, Nxt, FirstCase(s, q), env);
    }
  }

  ghost predicate Entered(s: Stmt, m: Mode, p: int, st: State)
    requires Hit(s, m)
  {
    match m
    case Run => st.pc == p
    case ToCase(v) => HasCase(s) && st.pc == FirstCase(s, p) && st.acc == v
    case ToDefault => st.pc == DefaultAt(s, p)
  }

  /** Code at `p` that ends at `q` has been left as the outcome demands. */
  ghost predicate Arrives(r: Outcome, t: State, p: int, q: int, env: Env) {
    match r
    case Normal => t.pc == q
    case Broke => t.pc == env.brk
    case Continued => t.pc == env.cnt
    case Returned(x) => t.pc == env.ret && (x.Some? ==> t.acc == x.value)
    case OutOfFuel => p <= t.pc < q
  }

  lemma {:induction false} MatchIsCase(s: Stmt, v: int)
    requires HasMatch(s, v)
    ensures HasCase(s)
    decreases s
  {
    match s
    case Seq(a, b) => if HasMatch(a, v) { MatchIsCase(a, v); } else { MatchIsCase(b, v); }
    case If(_, a) => MatchIsCase(a, v);
    case IfElse(_, a, b) => if HasMatch(a, v) { MatchIsCase(a, v); } else { MatchIsCase(b, v); }
    case While(_, a) => MatchIsCase(a, v);
    case For(_, _, _, a) => MatchIsCase(a, v);
    case DoWhile(a, _) => MatchIsCase(a, v);
    case Case(_, _, a) =>
    case Default(a) => MatchIsCase(a, v);
  }

  /** The two parts of a sequence, an `if` or an `if` with `else`, each with the targets
      its own lists are patched to. */
  lemma FitsSeq(code: seq<Cell>, a: Stmt, b: Stmt, p: int, env: Env)
    requires Fits(code, p, Emit(Seq(a, b), p), env)
    ensures var q := p + |Emit(a, p)|;
            Fits(code, p, Emit(a, p), LinkEnv(env, b, q)) && Fits(code, q, Emit(b, q), env)
  {
    hide Fits, Emit;
    var q := p + |Emit(a, p)|;
    EmitSeq(a, b, p);
    FitsConcat(code, p, Link(Emit(a, p), b, q), Emit(b, q), env);
    FitsLink(code, p, Emit(a, p), b, q, env);
  }

  lemma FitsIf(code: seq<Cell>, e: Expr, a: Stmt, p: int, env: Env)
    requires Fits(code, p, Emit(If(e, a), p), env)
    ensures var q := p + |TestCode(e, true, p)|;
            && Fits(code, q, Emit(a, q), env)
            && Fits(code, p, TestCode(e, true, p), env.(pending := q + |Emit(a, q)|))
  {
    hide Fits, Emit, TestCode, Bind;
    var test := TestCode(e, true, p);
    var q := p + |test|;
    EmitIf(e, a, p);
    FitsConcat(code, p, Bind(test, Pending, q + |Emit(a, q)|), Emit(a, q), env);
    FitsBind(code, p, test, Pending, q + |Emit(a, q)|, env);
  }

  lemma FitsFour(code: seq<Cell>, p: int, test: Symbolic, x: int, a: Symbolic, jump: Symbolic, b: Symbolic, env: Env)
    requires Fits(code, p, Bind(test, Pending, x) + (a + (jump + b)), env)
    ensures Fits(code, p, test, env.(pending := x))
    ensures Fits(code, p + |test|, a, env)
    ensures Fits(code, p + |test| + |a|, jump, env)
    ensures Fits(code, p + |test| + |a| + |jump|, b, env)
  {
    hide Fits, Bind;
    FitsConcat(code, p, Bind(test, Pending, x), a + (jump + b), env);
    FitsBind(code, p, test, Pending, x, env);
    FitsConcat(code, p + |test|, a, jump + b, env);
    FitsConcat(code, p + |test| + |a|, jump, b, env);
  }

  lemma FitsIfElse(code: seq<Cell>, e: Expr, a: Stmt, b: Stmt, p: int, env: Env)
    requires Fits(code, p, Emit(IfElse(e, a, b), p), env)
    ensures var q := p + |TestCode(e, true, p)|; var j := q + |Emit(a, q)|;
            && Fits(code, p, TestCode(e, true, p), env.(pending := j + 5))
            && Fits(code, q, Emit(a, q), LinkEnv(env, b, j + 5))
            && Fits(code, j, JmpTo(To(j + 5 + |Emit(b, j + 5)|)), env)
            && Fits(code, j + 5, Emit(b, j + 5), env)
  {
    hide Fits, Emit, TestCode, Bind;
    var s := IfElse(e, a, b);
    var test := TestCode(e, true, p);
    EmitIfElse(e, a, b, p);
    var q, j := Sub1(s, p), Sub2(s, p);
    FitsFour(code, p, test, j, Link(Emit(a, q), b, j), JmpTo(To(j + |Emit(b, j)|)), Emit(b, j), env);
    FitsLink(code, q, Emit(a, q), b, j, env);
  }

  /** The environment of a loop body. */
  function BodyEnv(env: Env, end: int, again: int): Env { env.(brk := end, cnt := again) }

  lemma FitsBody(code: seq<Cell>, p: int, body: Symbolic, end: int, again: int, env: Env)
    requires Fits(code, p, Bind(Bind(body, Brk, end), Cnt, again), env)
    ensures Fits(code, p, body, BodyEnv(env, end, again))
  {
    hide Fits, Bind;
    FitsBind(code, p, Bind(body, Brk, end), Cnt, again, env);
    FitsBind(code, p, body, Brk, end, Set(env, Cnt, again));
  }

  /** The address after a loop whose test is at `d`. */
  function LoopEnd(test: Option<Expr>, incr: Option<Expr>, a: Stmt, d: int): int {
    d + |LoopCode(test, incr, a, d)|
  }

  lemma FitsLoop(code: seq<Cell>, test: Option<Expr>, incr: Option<Expr>, a: Stmt, d: int, env: Env)
    requires Fits(code, d, LoopCode(test, incr, a, d), env)
    ensures var q := BodyAt(test, incr, d);
            var body := Emit(a, q);
            var again := AgainAt(test, incr, d);
            var back := JmpBack(again, q + |body|);
            && LoopEnd(test, incr, a, d) == q + |body| + |back|
            && Fits(code, d, OptTest(test, d), env.(pending := LoopEnd(test, incr, a, d)))
            && Fits(code, StepAt(test, d), StepCode(incr, d, StepAt(test, d)), env)
            && Fits(code, q, body, BodyEnv(env, LoopEnd(test, incr, a, d), again))
            && Fits(code, q + |body|, back, env)
  {
    hide Fits, Bind, Emit, JmpBack, StepCode, TestCode;
    var q := BodyAt(test, incr, d);
    var body := Emit(a, q);
    var again := AgainAt(test, incr, d);
    var back := JmpBack(again, q + |body|);
    var end := q + |body| + |back|;
    var tied := Bind(Bind(body, Brk, end), Cnt, again);
    FitsFour(code, d, OptTest(test, d), end, StepCode(incr, d, StepAt(test, d)), tied, back, env);
    FitsBody(code, q, body, end, again, env);
  }

  lemma FitsDo(code: seq<Cell>, a: Stmt, e: Expr, p: int, env: Env)
    requires Fits(code, p, Emit(DoWhile(a, e), p), env)
    ensures var c := p + |Emit(a, p)|; var test := TestCode(e, false, c);
            && Fits(code, p, Emit(a, p), BodyEnv(env, c + |test|, c))
            && Fits(code, c, test, env.(pending := p))
  {
    hide Fits, Bind, Emit, TestCode;
    EmitDo(a, e, p);
    var body := Emit(a, p);
    var c := p + |body|;
    var test := TestCode(e, false, c);
    FitsConcat(code, p, Bind(Bind(body, Brk, c + |test|), Cnt, c), Bind(test, Pending, p), env);
    FitsBody(code, p, body, c + |test|, c, env);
    FitsBind(code, c, test, Pending, p, env);
  }

  lemma FitsCase(code: seq<Cell>, lo: int, hi: int, a: Stmt, p: int, env: Env)
    requires Fits(code, p, Emit(Case(lo, hi, a), p), env)
    ensures var q := p + 5 + |CaseTest(lo, hi)|;
            && Fits(code, p, JmpTo(To(q)), env)
            && Fits(code, p + 5, CaseTest(lo, hi), LinkEnv(env, a, q))
            && Fits(code, q, Emit(a, q), env)
  {
    hide Fits, Bind, Emit, CaseTest;
    EmitCase(lo, hi, a, p);
    var q := p + 5 + |CaseTest(lo, hi)|;
    FitsConcat(code, p, JmpTo(To(q)), Link(CaseTest(lo, hi), a, q) + Emit(a, q), env);
    FitsConcat(code, p + 5, Link(CaseTest(lo, hi), a, q), Emit(a, q), env);
    FitsLink(code, p + 5, CaseTest(lo, hi), a, q, env);
  }

  lemma FitsSwitch(code: seq<Cell>, e: Expr, a: Stmt, p: int, env: Env)
    requires Fits(code, p, Emit(Switch(e, a), p), env)
    ensures var r := p + |RegCode(e, p)|; var q := r + 5;
            && Fits(code, p, RegCode(e, p), env)
            && Fits(code, r, JmpTo(To(Entry(a, q))), env)
            && Fits(code, q, Emit(a, q), env.(nxt := Otherwise(a, q), brk := q + |Emit(a, q)|))
  {
    hide Fits, Bind, Emit, Entry, Otherwise, RegCode;
    EmitSwitch(e, a, p);
    var r := p + |RegCode(e, p)|;
    var q := r + 5;
    var jump, body := JmpTo(To(Entry(a, q))), Emit(a, q);
    var tied := Bind(Bind(body, Nxt, Otherwise(a, q)), Brk, q + |body|);
    FitsConcat(code, p, RegCode(e, p), jump + tied, env);
    FitsConcat(code, r, jump, tied, env);
    FitsBind(code, q, Bind(body, Nxt, Otherwise(a, q)), Brk, q + |body|, env);
    FitsBind(code, q, body, Nxt, Otherwise(a, q), Set(env, Brk, q + |body|));
  }

  lemma FitsCaseTest(code: seq<Cell>, lo: int, hi: int, p: int, env: Env)
    requires Fits(code, p, CaseTest(lo, hi), env)
    ensures var q := p + |CompareImm(lo)|; var r := q + 6;
            && Fits(code, p, CompareImm(lo), env)
            && Fits(code, q, JccTo(Flip(if lo == hi then TOK_EQ else TOK_GE), Nxt), env)
            && (lo != hi ==> Fits(code, r, CompareImm(hi), env))
            && (lo != hi ==> Fits(code, r + |CompareImm(hi)|, JccTo(Flip(TOK_LE), Nxt), env))
    ensures |CaseTest(lo, hi)| == |CompareImm(lo)| + 6 + if lo == hi then 0 else |CompareImm(hi)| + 6
  {
    hide Fits, JccTo, CompareImm;
    var a, b := CompareImm(lo), JccTo(Flip(if lo == hi then TOK_EQ else TOK_GE), Nxt);
    var c, d := CompareImm(hi), JccTo(Flip(TOK_LE), Nxt);
    if lo != hi {
      FitsConcat(code, p, a + b, c + d, env);
      FitsConcat(code, p + |a + b|, c, d, env);
    }
    FitsConcat(code, p, a, b, env);
  }

  lemma CaseConds(x: int, lo: int, hi: int)
    ensures Cond(Flip(TOK_EQ), (x, lo)) <==> x != lo
    ensures Cond(Flip(TOK_GE), (x, lo)) <==> x < lo
    ensures Cond(Flip(TOK_LE), (x, hi)) <==> x > hi
  {
  }

  /** One case test: through to the labelled statement or on to the next test. */
  lemma RunCaseTest(code: seq<Cell>, o: Oracle, lo: int, hi: int, env: Env, s: State) returns (k: nat, t: State)
    requires Fits(code, s.pc, CaseTest(lo, hi), env)
    ensures Steps(code, o, s, k) == t && t.history == s.history && t.acc == s.acc
    ensures t.pc == if lo <= s.acc <= hi then s.pc + |CaseTest(lo, hi)| else env.nxt
  {
    hide Fits, Steps, CompareImm, JccTo, CaseTest, Cond;
    FitsCaseTest(code, lo, hi, s.pc, env);
    CaseConds(s.acc, lo, hi);
    k, t := RunCompare(code, o, lo, Flip(if lo == hi then TOK_EQ else TOK_GE), env, s);
    if lo != hi && s.acc >= lo {
      var j, u := RunCompare(code, o, hi, Flip(TOK_LE), env, t);
      StepsCompose(code, o, s, k, j);
      k, t := k + j, u;
    }
  }

  lemma RunCompare(code: seq<Cell>, o: Oracle, c: int, op: CompareOp, env: Env, s: State) returns (k: nat, t: State)
    requires Fits(code, s.pc, CompareImm(c), env)
    requires Fits(code, s.pc + |CompareImm(c)|, JccTo(op, Nxt), env)
    ensures Steps(code, o, s, k) == t && t.history == s.history && t.acc == s.acc
    ensures t.pc == if Cond(op, (s.acc, c)) then env.nxt else s.pc + |CompareImm(c)| + 6
  {
    var extra := if Short(c) then 2 else 5;
    ShortExactly(c);
    StepPlain(code, o, CompareTo(c, extra), CompareImm(c), env, s);
    var m := Step(code, o, s);
    StepJcc(code, o, op, Nxt, env, m);
    StepsCompose(code, o, s, 1, 1);
    k, t := 2, Steps(code, o, m, 1);
  }

  /** Statements whose labels are those of one sub-statement. */
  predicate Wraps(s: Stmt) {
    s.If? || s.While? || s.For? || s.DoWhile? || s.Default?
  }

  function Inside(s: Stmt): (a: Stmt)
    requires Wraps(s)
    ensures a < s
  {
    match s
    case If(_, a) => a
    case While(_, a) => a
    case For(_, _, _, a) => a
    case DoWhile(a, _) => a
    case Default(a) => a
  }

  function InsideEnv(s: Stmt, p: int, env: Env): Env
    requires Wraps(s)
  {
    match s
    case While(e, a) => BodyEnv(env, LoopEnd(Some(e), None, a, p), p)
    case For(i, c, n, a) =>
      var d := p + |OptPop(i, p)|;
      BodyEnv(env, LoopEnd(c, n, a, d), AgainAt(c, n, d))
    case DoWhile(a, e) =>
      var c := p + |Emit(a, p)|;
      BodyEnv(env, c + |TestCode(e, false, c)|, c)
    case _ => env
  }

  lemma FitsInside(code: seq<Cell>, s: Stmt, p: int, env: Env)
    requires Wraps(s) && Fits(code, p, Emit(s, p), env)
    ensures Fits(code, Sub1(s, p), Emit(Inside(s), Sub1(s, p)), InsideEnv(s, p, env))
  {
    hide Fits, Bind, LoopCode, Emit;
    EmitLoop(s, p);
    match s
    case If(e, a) => FitsIf(code, e, a, p, env);
    case While(e, a) => FitsLoop(code, Some(e), None, a, p, env);
    case For(i, c, n, a) =>
      FitsConcat(code, p, OptPop(i, p), LoopCode(c, n, a, p + |OptPop(i, p)|), env);
      FitsLoop(code, c, n, a, p + |OptPop(i, p)|, env);
    case DoWhile(a, e) => FitsDo(code, a, e, p, env);
    case Default(a) =>
  }

  /** Statements made of two, one after the other in the text. */
  predicate Pairs(s: Stmt) { s.Seq? || s.IfElse? }

  function Left(s: Stmt): (a: Stmt)
    requires Pairs(s)
    ensures a < s
  {
    if s.Seq? then s.first else s.thn
  }

  function Right(s: Stmt): (b: Stmt)
    requires Pairs(s)
    ensures b < s
  {
    if s.Seq? then s.second else s.els
  }

  lemma FitsPair(code: seq<Cell>, s: Stmt, p: int, env: Env)
    requires Pairs(s) && Fits(code, p, Emit(s, p), env)
    ensures Fits(code, Sub1(s, p), Emit(Left(s), Sub1(s, p)), LinkEnv(env, Right(s), Sub2(s, p)))
    ensures Fits(code, Sub2(s, p), Emit(Right(s), Sub2(s, p)), env)
  {
    hide Fits, Bind, LoopCode, Emit;
    assert s.Seq? ==> Sub2(s, p) == p + |Emit(s.first, p)| by { if s.Seq? { EmitSeq(s.first, s.second, p); } }
    match s
    case Seq(a, b) => FitsSeq(code, a, b, p, env);
    case IfElse(e, a, b) => FitsIfElse(code, e, a, b, p, env);
  }

  lemma LabelsInside(s: Stmt, p: int)
    requires Wraps(s)
    ensures HasCase(s) == HasCase(Inside(s))
    ensures forall v :: HasMatch(s, v) == HasMatch(Inside(s), v)
    ensures HasCase(s) ==> FirstCase(s, p) == FirstCase(Inside(s), Sub1(s, p))
    ensures !s.Default? ==> HasDefault(s) == HasDefault(Inside(s))
    ensures !s.Default? && HasDefault(s) ==> DefaultAt(s, p) == DefaultAt(Inside(s), Sub1(s, p))
  {
  }

  lemma LabelsPair(s: Stmt, p: int)
    requires Pairs(s)
    ensures HasCase(s) == (HasCase(Left(s)) || HasCase(Right(s)))
    ensures forall v :: HasMatch(s, v) == (HasMatch(Left(s), v) || HasMatch(Right(s), v))
    ensures HasCase(s) ==>
              && (HasCase(Left(s)) ==> FirstCase(s, p) == FirstCase(Left(s), Sub1(s, p)))
              && (!HasCase(Left(s)) ==> FirstCase(s, p) == FirstCase(Right(s), Sub2(s, p)))
    ensures HasDefault(s) == (HasDefault(Left(s)) || HasDefault(Right(s)))
    ensures HasDefault(s) ==>
              && (HasDefault(Left(s)) ==> DefaultAt(s, p) == DefaultAt(Left(s), Sub1(s, p)))
              && (!HasDefault(Left(s)) ==> DefaultAt(s, p) == DefaultAt(Right(s), Sub2(s, p)))
  {
  }

  /** A value no case of `s` matches falls through every test of `s`. */
  lemma {:induction false} SkipCases(code: seq<Cell>, o: Oracle, s: Stmt, p: int, env: Env, st: State)
    returns (k: nat, t: State)
    requires Fits(code, p, Emit(s, p), env)
    requires HasCase(s) && !HasMatch(s, st.acc) && st.pc == FirstCase(s, p)
    ensures Steps(code, o, st, k) == t && t.history == st.history && t.acc == st.acc
    ensures t.pc == env.nxt
    decreases s
  {
    hide Fits, Bind, LoopCode, Emit;
    if Wraps(s) {
      FitsInside(code, s, p, env);
      LabelsInside(s, p);
      k, t := SkipCases(code, o, Inside(s), Sub1(s, p), InsideEnv(s, p, env), st);
    } else if Pairs(s) {
      FitsPair(code, s, p, env);
      LabelsPair(s, p);
      k, t := 0, st;
      if HasCase(Left(s)) {
        k, t := SkipCases(code, o, Left(s), Sub1(s, p), LinkEnv(env, Right(s), Sub2(s, p)), st);
      }
      if HasCase(Right(s)) {
        var j, u := SkipCases(code, o, Right(s), Sub2(s, p), env, t);
        StepsCompose(code, o, st, k, j);
        k, t := k + j, u;
      }
    } else {
      var Case(lo, hi, a) := s;
      FitsCase(code, lo, hi, a, p, env);
      k, t := RunCaseTest(code, o, lo, hi, LinkEnv(env, a, Sub1(s, p)), st);
      if HasCase(a) {
        var j, u := SkipCases(code, o, a, Sub1(s, p), env, t);
        StepsCompose(code, o, st, k, j);
        k, t := k + j, u;
      }
    }
  }

  /** From `st`, `k` steps lead to `t`, which is where the source outcome `r` belongs;
      a loop that goes round `fuel` times costs the machine as many steps. */
  ghost predicate Simulates(code: seq<Cell>, o: Oracle, st: State, k: nat, t: State, r: (Outcome, History), p: int, q: int, env: Env, fuel: nat) {
    && Steps(code, o, st, k) == t
    && t.history == r.1
    && Arrives(r.0, t, p, q, env)
    && (r.0.OutOfFuel? ==> k >= fuel)
    && (r.0.Continued? ==> k > 0)
  }

  /** Statements simulate: for every way into a statement, every oracle and every fuel. */
  lemma {:induction false} RunStmt(code: seq<Cell>, o: Oracle, s: Stmt, m: Mode, p: int, env: Env, st: State, fuel: nat)
    returns (k: nat, t: State)
    requires Hit(s, m) && Fits(code, p, Emit(s, p), env) && Entered(s, m, p, st)
    ensures Simulates(code, o, st, k, t, Exec(s, m, o, st.history, fuel), p, p + |Emit(s, p)|, env, fuel)
    decreases fuel, s, 2
  {
    hide Fits, Emit, Exec, Entered, Simulates;
    match s
    case Seq(_, _) => k, t := RunSeq(code, o, s, m, p, env, st, fuel);
    case If(_, _) => k, t := RunIf(code, o, s, m, p, env, st, fuel);
    case IfElse(_, _, _) => k, t := RunIfElse(code, o, s, m, p, env, st, fuel);
    case While(_, _) => k, t := RunWhile(code, o, s, m, p, env, st, fuel);
    case For(_, _, _, _) => k, t := RunFor(code, o, s, m, p, env, st, fuel);
    case DoWhile(_, _) => k, t := RunDoWhile(code, o, s, m, p, env, st, fuel);
    case Switch(_, _) => k, t := RunSwitch(code, o, s, m, p, env, st, fuel);
    case Case(_, _, _) => k, t := RunCase(code, o, s, m, p, env, st, fuel);
    case Default(_) => k, t := RunDefault(code, o, s, m, p, env, st, fuel);
    case _ => k, t := RunLeaf(code, o, s, m, p, env, st, fuel);
  }

  predicate IsLeaf(s: Stmt) { s.Skip? || s.Eval? || s.Break? || s.Continue? || s.Return? }

  lemma RunLeaf(code: seq<Cell>, o: Oracle, s: Stmt, m: Mode, p: int, env: Env, st: State, fuel: nat)
    returns (k: nat, t: State)
    requires IsLeaf(s) && Hit(s, m) && Fits(code, p, Emit(s, p), env) && Entered(s, m, p, st)
    ensures Simulates(code, o, st, k, t, Exec(s, m, o, st.history, fuel), p, p + |Emit(s, p)|, env, fuel)
  {
    hide Fits, Emit, PopCode, JmpTo, OptReg;
    EmitLeaf(s, p);
    match s
    case Skip =>
      k, t := 0, st;
    case Eval(e) =>
      k, t := RunPop(code, o, e, p, env, st);
    case Break =>
      StepJmp(code, o, Brk, env, st);
      k, t := 1, Steps(code, o, st, 1);
    case Continue =>
      StepJmp(code, o, Cnt, env, st);
      k, t := 1, Steps(code, o, st, 1);
    case Return(e) =>
      k, t := RunReturn(code, o, e, p, env, st);
  }

  lemma {:induction false} RunWhile(code: seq<Cell>, o: Oracle, s: Stmt, m: Mode, p: int, env: Env, st: State, fuel: nat)
    returns (k: nat, t: State)
    requires s.While? && Hit(s, m) && Fits(code, p, Emit(s, p), env) && Entered(s, m, p, st)
    ensures Simulates(code, o, st, k, t, Exec(s, m, o, st.history, fuel), p, p + |Emit(s, p)|, env, fuel)
    decreases fuel, s, 1
  {
    hide Fits, Emit, LoopCode, Simulates;
    EmitLoop(s, p);
    LabelsInside(s, p);
    k, t := RunLoop(code, o, Some(s.cond), None, s.body, m, p, env, st, fuel);
  }

  lemma {:induction false} RunDoWhile(code: seq<Cell>, o: Oracle, s: Stmt, m: Mode, p: int, env: Env, st: State, fuel: nat)
    returns (k: nat, t: State)
    requires s.DoWhile? && Hit(s, m) && Fits(code, p, Emit(s, p), env) && Entered(s, m, p, st)
    ensures Simulates(code, o, st, k, t, Exec(s, m, o, st.history, fuel), p, p + |Emit(s, p)|, env, fuel)
    decreases fuel, s, 1
  {
    hide Fits, Emit, Simulates;
    LabelsInside(s, p);
    k, t := RunDo(code, o, s.body, s.cond, m, p, env, st, fuel);
  }

  lemma {:induction false} RunDefault(code: seq<Cell>, o: Oracle, s: Stmt, m: Mode, p: int, env: Env, st: State, fuel: nat)
    returns (k: nat, t: State)
    requires s.Default? && Hit(s, m) && Fits(code, p, Emit(s, p), env) && Entered(s, m, p, st)
    ensures Simulates(code, o, st, k, t, Exec(s, m, o, st.history, fuel), p, p + |Emit(s, p)|, env, fuel)
    decreases fuel, s, 1
  {
    hide Fits, Emit, Simulates;
    EmitLoop(s, p);
    LabelsInside(s, p);
    k, t := RunStmt(code, o, s.body, if m.ToDefault? then Run else m, p, env, st, fuel);
  }

  lemma RunReturn(code: seq<Cell>, o: Oracle, e: Option<Expr>, p: int, env: Env, st: State)
    returns (k: nat, t: State)
    requires Fits(code, p, OptReg(e, p) + JmpTo(Ret), env) && st.pc == p
    ensures Steps(code, o, st, k) == t && t.pc == env.ret && t.history == Opt(e, o, st.history)
    ensures e.Some? ==> t.acc == Value(e.value, o, st.history).0
  {
    hide Fits, Steps;
    FitsConcat(code, p, OptReg(e, p), JmpTo(Ret), env);
    k, t := 0, st;
    StepsCompose(code, o, st, 0, 0);
    if e.Some? {
      k, t := RunReg(code, o, e.value, p, env, st);
    } else {
      NoSteps(code, o, st);
    }
    StepJmp(code, o, Ret, env, t);
    StepsCompose(code, o, st, k, 1);
    k, t := k + 1, Steps(code, o, t, 1);
  }

  lemma NoSteps(code: seq<Cell>, o: Oracle, st: State)
    ensures Steps(code, o, st, 0) == st
  {
  }

  lemma ExecSeq(a: Stmt, b: Stmt, m: Mode, o: Oracle, h: History, fuel: nat)
    requires Hit(Seq(a, b), m)
    ensures Exec(Seq(a, b), m, o, h, fuel) ==
            if Hit(a, m) then
              var r := Exec(a, m, o, h, fuel);
              if r.0.Normal? then Exec(b, Run, o, r.1, fuel) else r
            else Exec(b, m, o, h, fuel)
  {
  }

  lemma {:induction false} RunSeq(code: seq<Cell>, o: Oracle, s: Stmt, m: Mode, p: int, env: Env, st: State, fuel: nat)
    returns (k: nat, t: State)
    requires s.Seq? && Hit(s, m) && Fits(code, p, Emit(s, p), env) && Entered(s, m, p, st)
    ensures Simulates(code, o, st, k, t, Exec(s, m, o, st.history, fuel), p, p + |Emit(s, p)|, env, fuel)
    decreases fuel, s, 1
  {
    hide Fits, Emit, Steps, Exec;
    var Seq(a, b) := s;
    ExecSeq(a, b, m, o, st.history, fuel);
    var q := Sub2(s, p);
    FitsPair(code, s, p, env);
    LabelsPair(s, p);
    EmitSeq(a, b, p);
    if Hit(a, m) {
      if m.ToCase? { MatchIsCase(a, m.v); }
      k, t := RunStmt(code, o, a, m, p, LinkEnv(env, b, q), st, fuel);
      if Exec(a, m, o, st.history, fuel).0.Normal? {
        var j, u := RunStmt(code, o, b, Run, q, env, t, fuel);
        StepsCompose(code, o, st, k, j);
        k, t := k + j, u;
      }
    } else {
      var j, u := PastLeft(code, o, a, b, m, p, q, env, st);
      k, t := RunStmt(code, o, b, m, q, env, u, fuel);
      StepsCompose(code, o, st, j, k);
      k := j + k;
    }
  }

  /** A jump to a label of `b` that enters through the case tests of the preceding `a`. */
  lemma PastLeft(code: seq<Cell>, o: Oracle, a: Stmt, b: Stmt, m: Mode, p: int, q: int, env: Env, st: State)
    returns (k: nat, t: State)
    requires !m.Run? && !Hit(a, m) && Hit(b, m)
    requires Fits(code, p, Emit(a, p), LinkEnv(env, b, q))
    requires m.ToCase? ==> st.acc == m.v
    requires m.ToCase? ==> st.pc == if HasCase(a) then FirstCase(a, p) else if HasCase(b) then FirstCase(b, q) else 0
    requires m.ToDefault? ==> st.pc == DefaultAt(b, q)
    ensures Steps(code, o, st, k) == t && t.history == st.history && Entered(b, m, q, t)
  {
    k, t := 0, st;
    if m.ToCase? {
      MatchIsCase(b, m.v);
      if HasCase(a) {
        k, t := SkipCases(code, o, a, p, LinkEnv(env, b, q), st);
      }
    }
  }

  lemma {:induction false} RunIf(code: seq<Cell>, o: Oracle, s: Stmt, m: Mode, p: int, env: Env, st: State, fuel: nat)
    returns (k: nat, t: State)
    requires s.If? && Hit(s, m) && Fits(code, p, Emit(s, p), env) && Entered(s, m, p, st)
    ensures Simulates(code, o, st, k, t, Exec(s, m, o, st.history, fuel), p, p + |Emit(s, p)|, env, fuel)
    decreases fuel, s, 1
  {
    hide Fits, Emit, Steps, TestCode;
    var If(e, a) := s;
    FitsIf(code, e, a, p, env);
    LabelsInside(s, p);
    EmitIf(e, a, p);
    var q := Sub1(s, p);
    if m.Run? {
      k, t := RunTest(code, o, e, true, p, env.(pending := q + |Emit(a, q)|), st);
      if Value(e, o, st.history).0 != 0 {
        var j, u := RunStmt(code, o, a, Run, q, env, t, fuel);
        StepsCompose(code, o, st, k, j);
        k, t := k + j, u;
      }
    } else {
      k, t := RunStmt(code, o, a, m, q, env, st, fuel);
    }
  }

  lemma {:induction false} RunIfElse(code: seq<Cell>, o: Oracle, s: Stmt, m: Mode, p: int, env: Env, st: State, fuel: nat)
    returns (k: nat, t: State)
    requires s.IfElse? && Hit(s, m) && Fits(code, p, Emit(s, p), env) && Entered(s, m, p, st)
    ensures Simulates(code, o, st, k, t, Exec(s, m, o, st.history, fuel), p, p + |Emit(s, p)|, env, fuel)
    decreases fuel, s, 1
  {
    hide Fits, Emit, Steps, TestCode;
    var IfElse(e, a, b) := s;
    FitsIfElse(code, e, a, b, p, env);
    LabelsPair(s, p);
    EmitIfElse(e, a, b, p);
    var q, r := Sub1(s, p), Sub2(s, p);
    if m.Run? {
      k, t := RunTest(code, o, e, true, p, env.(pending := r), st);
      var j, u;
      if Value(e, o, st.history).0 != 0 {
        j, u := RunThen(code, o, s, Run, p, env, t, fuel);
      } else {
        j, u := RunStmt(code, o, b, Run, r, env, t, fuel);
      }
      StepsCompose(code, o, st, k, j);
      k, t := k + j, u;
    } else if Hit(a, m) {
      if m.ToCase? { MatchIsCase(a, m.v); }
      k, t := RunThen(code, o, s, m, p, env, st, fuel);
    } else {
      var j, u := PastLeft(code, o, a, b, m, q, r, env, st);
      k, t := RunStmt(code, o, b, m, r, env, u, fuel);
      StepsCompose(code, o, st, j, k);
      k := j + k;
    }
  }

  /** The first branch of an `if` with `else`, and the jump over the second. */
  lemma {:induction false} RunThen(code: seq<Cell>, o: Oracle, s: Stmt, m: Mode, p: int, env: Env, st: State, fuel: nat)
    returns (k: nat, t: State)
    requires s.IfElse? && Fits(code, p, Emit(s, p), env)
    requires Hit(s.thn, m) && Entered(s.thn, m, Sub1(s, p), st)
    ensures Simulates(code, o, st, k, t, Exec(s.thn, m, o, st.history, fuel), p, p + |Emit(s, p)|, env, fuel)
    decreases fuel, s, 0
  {
    hide Fits, Emit, Steps, TestCode;
    var IfElse(e, a, b) := s;
    FitsIfElse(code, e, a, b, p, env);
    EmitIfElse(e, a, b, p);
    var q, r := Sub1(s, p), Sub2(s, p);
    k, t := RunStmt(code, o, a, m, q, LinkEnv(env, b, r), st, fuel);
    if Exec(a, m, o, st.history, fuel).0.Normal? {
      StepJmp(code, o, To(r + |Emit(b, r)|), env, t);
      StepsCompose(code, o, st, k, 1);
      k, t := k + 1, Steps(code, o, t, 1);
    }
  }

  lemma {:induction false} RunFor(code: seq<Cell>, o: Oracle, s: Stmt, m: Mode, p: int, env: Env, st: State, fuel: nat)
    returns (k: nat, t: State)
    requires s.For? && Hit(s, m) && Fits(code, p, Emit(s, p), env) && Entered(s, m, p, st)
    ensures Simulates(code, o, st, k, t, Exec(s, m, o, st.history, fuel), p, p + |Emit(s, p)|, env, fuel)
    decreases fuel, s, 1
  {
    hide Fits, Emit, Steps, LoopCode;
    var For(i, c, n, a) := s;
    var d := p + |OptPop(i, p)|;
    EmitLoop(s, p);
    LabelsInside(s, p);
    FitsConcat(code, p, OptPop(i, p), LoopCode(c, n, a, d), env);
    k, t := 0, st;
    NoSteps(code, o, st);
    if m.Run? {
      k, t := RunOptPop(code, o, i, p, env, st);
    }
    var j, u := RunLoop(code, o, c, n, a, m, d, env, t, fuel);
    StepsCompose(code, o, st, k, j);
    k, t := k + j, u;
  }

  lemma LoopLength(c: Option<Expr>, n: Option<Expr>, a: Stmt, d: int)
    ensures var q := BodyAt(c, n, d);
            && d <= StepAt(c, d) <= q < LoopEnd(c, n, a, d)
            && LoopEnd(c, n, a, d) == q + |Emit(a, q)| + |JmpBack(AgainAt(c, n, d), q + |Emit(a, q)|)|
  {
    hide Emit, Bind;
  }

  /** A `while` or `for` whose test is at `d`, entered at the test or at a label in its body. */
  lemma {:induction false} RunLoop(code: seq<Cell>, o: Oracle, c: Option<Expr>, n: Option<Expr>, a: Stmt, m: Mode, d: int, env: Env, st: State, fuel: nat)
    returns (k: nat, t: State)
    requires Hit(a, m) && Fits(code, d, LoopCode(c, n, a, d), env)
    requires if m.Run? then st.pc == d else Entered(a, m, BodyAt(c, n, d), st)
    ensures Simulates(code, o, st, k, t, Loop(c, n, a, m, o, st.history, fuel), d, LoopEnd(c, n, a, d), env, fuel)
    decreases fuel, a, 4
  {
    hide Fits, Emit, Steps, LoopCode, LoopEnd, TestCode, BodyAt, AgainAt, StepAt, Round, Exec, Value, JmpBack, StepCode;
    FitsLoop(code, c, n, a, d, env);
    k, t := LoopTest(code, o, c, n, a, m, d, env, st);
    if !m.Run? || c.None? || Value(c.value, o, st.history).0 != 0 {
      var j, u := RunRound(code, o, c, n, a, m, d, env, t, fuel);
      StepsCompose(code, o, st, k, j);
      k, t := k + j, u;
    }
  }

  lemma {:induction false} RunRound(code: seq<Cell>, o: Oracle, c: Option<Expr>, n: Option<Expr>, a: Stmt, m: Mode, d: int, env: Env, st: State, fuel: nat)
    returns (k: nat, t: State)
    requires Hit(a, m) && Fits(code, d, LoopCode(c, n, a, d), env) && Entered(a, m, BodyAt(c, n, d), st)
    ensures Simulates(code, o, st, k, t, Round(c, n, a, m, o, st.history, fuel), d, LoopEnd(c, n, a, d), env, fuel)
    decreases fuel, a, 3
  {
    hide Fits, Emit, Steps, LoopCode, LoopEnd, TestCode, BodyAt, AgainAt, StepAt, Entered, Exec, Loop;
    FitsLoop(code, c, n, a, d, env);
    LoopLength(c, n, a, d);
    var end, again := LoopEnd(c, n, a, d), AgainAt(c, n, d);
    var r := Exec(a, m, o, st.history, fuel);
    k, t := RunStmt(code, o, a, m, BodyAt(c, n, d), BodyEnv(env, end, again), st, fuel);
    if r.0.Normal? || r.0.Continued? {
      var i, v := LoopBack(code, o, c, n, a, d, r.0.Normal?, env, t);
      StepsCompose(code, o, st, k, i);
      k, t := k + i, v;
      if fuel > 0 {
        var l, w := RunLoop(code, o, c, n, a, Run, d, env, t, fuel - 1);
        StepsCompose(code, o, st, k, l);
        k, t := k + l, w;
      }
    }
  }

  lemma LoopTest(code: seq<Cell>, o: Oracle, c: Option<Expr>, n: Option<Expr>, a: Stmt, m: Mode, d: int, env: Env, st: State)
    returns (k: nat, t: State)
    requires Hit(a, m) && Fits(code, d, OptTest(c, d), env.(pending := LoopEnd(c, n, a, d)))
    requires Fits(code, StepAt(c, d), StepCode(n, d, StepAt(c, d)), env)
    requires if m.Run? then st.pc == d else Entered(a, m, BodyAt(c, n, d), st)
    ensures Steps(code, o, st, k) == t
    ensures !m.Run? ==> t == st
    ensures m.Run? ==> t.history == Opt(c, o, st.history)
    ensures m.Run? && c.Some? && Value(c.value, o, st.history).0 == 0 ==> t.pc == LoopEnd(c, n, a, d)
    ensures m.Run? && (c.None? || Value(c.value, o, st.history).0 != 0) ==> t.pc == BodyAt(c, n, d)
  {
    hide Fits, Emit, Steps, LoopCode, LoopEnd, TestCode;
    k, t := 0, st;
    NoSteps(code, o, st);
    if m.Run? {
      if c.Some? {
        k, t := RunTest(code, o, c.value, true, d, env.(pending := LoopEnd(c, n, a, d)), st);
      }
      if n.Some? && (c.None? || Value(c.value, o, st.history).0 != 0) {
        FitsStep(code, n.value, d, StepAt(c, d), env);
        StepJmp(code, o, To(BodyAt(c, n, d)), env, t);
        StepsCompose(code, o, st, k, 1);
        k, t := k + 1, Steps(code, o, t, 1);
      }
    }
  }

  lemma FitsStep(code: seq<Cell>, e: Expr, d: int, p: int, env: Env)
    requires Fits(code, p, StepCode(Some(e), d, p), env)
    ensures var c := PopCode(e, p + 5); var r := p + 5 + |c|;
            && Fits(code, p, JmpTo(To(p + |StepCode(Some(e), d, p)|)), env)
            && Fits(code, p + 5, c, env) && Fits(code, r, JmpBack(d, r), env)
            && |StepCode(Some(e), d, p)| == 5 + |c| + |JmpBack(d, r)|
  {
    hide Fits, PopCode;
    var c := PopCode(e, p + 5);
    var r := p + 5 + |c|;
    var back := JmpBack(d, r);
    FitsConcat(code, p, JmpTo(To(r + |back|)) + c, back, env);
    FitsConcat(code, p, JmpTo(To(r + |back|)), c, env);
  }

  /** From the end of the body, or a `continue`, round to the test. */
  lemma LoopBack(code: seq<Cell>, o: Oracle, c: Option<Expr>, n: Option<Expr>, a: Stmt, d: int, normal: bool, env: Env, st: State)
    returns (k: nat, t: State)
    requires Fits(code, d, LoopCode(c, n, a, d), env)
    requires var q := BodyAt(c, n, d); st.pc == if normal then q + |Emit(a, q)| else AgainAt(c, n, d)
    ensures Steps(code, o, st, k) == t && t.history == Opt(n, o, st.history)
    ensures t.pc == d && (normal ==> k > 0)
  {
    hide Fits, Emit, Steps, LoopCode, LoopEnd, PopCode;
    FitsLoop(code, c, n, a, d, env);
    k, t := 0, st;
    NoSteps(code, o, st);
    if normal {
      StepBack(code, o, AgainAt(c, n, d), env, st);
      k, t := 1, Steps(code, o, st, 1);
    }
    if n.Some? {
      var p := StepAt(c, d);
      FitsStep(code, n.value, d, p, env);
      var j, u := RunPop(code, o, n.value, p + 5, env, t);
      StepsCompose(code, o, st, k, j);
      StepBack(code, o, d, env, u);
      StepsCompose(code, o, st, k + j, 1);
      k, t := k + j + 1, Steps(code, o, u, 1);
    }
  }

  lemma {:induction false} RunDo(code: seq<Cell>, o: Oracle, a: Stmt, e: Expr, m: Mode, p: int, env: Env, st: State, fuel: nat)
    returns (k: nat, t: State)
    requires Hit(a, m) && Fits(code, p, Emit(DoWhile(a, e), p), env) && Entered(a, m, p, st)
    ensures Simulates(code, o, st, k, t, DoLoop(a, e, m, o, st.history, fuel), p, p + |Emit(DoWhile(a, e), p)|, env, fuel)
    decreases fuel, a, 3
  {
    hide Fits, Emit, Steps, TestCode;
    var c := p + |Emit(a, p)|;
    var end := c + |TestCode(e, false, c)|;
    FitsDo(code, a, e, p, env);
    EmitDo(a, e, p);
    var r := Exec(a, m, o, st.history, fuel);
    k, t := RunStmt(code, o, a, m, p, BodyEnv(env, end, c), st, fuel);
    if r.0.Normal? || r.0.Continued? {
      var j, u := RunTest(code, o, e, false, c, env.(pending := p), t);
      StepsCompose(code, o, st, k, j);
      k, t := k + j, u;
      if Value(e, o, r.1).0 != 0 && fuel > 0 {
        var l, w := RunDo(code, o, a, e, Run, p, env, t, fuel - 1);
        StepsCompose(code, o, st, k, l);
        k, t := k + l, w;
      }
    }
  }

  /** A switch reaches the first matching case, else the default, else its end. */
  lemma {:induction false} RunSwitch(code: seq<Cell>, o: Oracle, s: Stmt, m: Mode, p: int, env: Env, st: State, fuel: nat)
    returns (k: nat, t: State)
    requires s.Switch? && Hit(s, m) && Fits(code, p, Emit(s, p), env) && Entered(s, m, p, st)
    ensures Simulates(code, o, st, k, t, Exec(s, m, o, st.history, fuel), p, p + |Emit(s, p)|, env, fuel)
    decreases fuel, s, 1
  {
    hide Fits, Emit, Steps, RegCode;
    var Switch(e, a) := s;
    var q := Sub1(s, p);
    FitsSwitch(code, e, a, p, env);
    EmitSwitch(e, a, p);
    var inner := env.(nxt := Otherwise(a, q), brk := q + |Emit(a, q)|);
    k, t := RunReg(code, o, e, p, env, st);
    var x := t.acc;
    StepJmp(code, o, To(Entry(a, q)), env, t);
    StepsCompose(code, o, st, k, 1);
    k, t := k + 1, Steps(code, o, t, 1);
    if HasMatch(a, x) {
      MatchIsCase(a, x);
      var j, u := RunStmt(code, o, a, ToCase(x), q, inner, t, fuel);
      StepsCompose(code, o, st, k, j);
      k, t := k + j, u;
    } else {
      if HasCase(a) {
        var j, u := SkipCases(code, o, a, q, inner, t);
        StepsCompose(code, o, st, k, j);
        k, t := k + j, u;
      }
      if HasDefault(a) {
        var j, u := RunStmt(code, o, a, ToDefault, q, inner, t, fuel);
        StepsCompose(code, o, st, k, j);
        k, t := k + j, u;
      }
    }
  }

  lemma {:induction false} RunCase(code: seq<Cell>, o: Oracle, s: Stmt, m: Mode, p: int, env: Env, st: State, fuel: nat)
    returns (k: nat, t: State)
    requires s.Case? && Hit(s, m) && Fits(code, p, Emit(s, p), env) && Entered(s, m, p, st)
    ensures Simulates(code, o, st, k, t, Exec(s, m, o, st.history, fuel), p, p + |Emit(s, p)|, env, fuel)
    decreases fuel, s, 1
  {
    hide Fits, Emit, Steps, CaseTest;
    var Case(lo, hi, a) := s;
    var q := Sub1(s, p);
    FitsCase(code, lo, hi, a, p, env);
    EmitCase(lo, hi, a, p);
    k, t := 0, st;
    NoSteps(code, o, st);
    if m.Run? {
      StepJmp(code, o, To(q), env, st);
      k, t := 1, Steps(code, o, st, 1);
    } else if m.ToCase? {
      k, t := RunCaseTest(code, o, lo, hi, LinkEnv(env, a, q), st);
      if !(lo <= m.v <= hi) { MatchIsCase(a, m.v); }
    }
    var m' := if m.ToCase? && lo <= m.v <= hi then Run else m;
    var j, u := RunStmt(code, o, a, m', q, env, t, fuel);
    StepsCompose(code, o, st, k, j);
    k, t := k + j, u;
  }
}
