/** Control statements and conditions of the C subset: their meaning, and the code a
    two-pass compiler that knows every address would emit for them. */
module Control {
  import opened Wrappers
  import opened JumpCode

  // ----- abstract syntax -----

  datatype Expr =
    | Operand(id: nat, extra: nat)
    | Relation(op: CompareOp, id: nat, extra: nat)
    | Const(c: int)
    | Not(e: Expr)
    | Land(conjuncts: Exprs)
    | Lor(disjuncts: Exprs)

  datatype Exprs = Nil | Cons(head: Expr, tail: Exprs)

  datatype Stmt =
    | Skip
    | Eval(e: Expr)
    | Seq(first: Stmt, second: Stmt)
    | If(cond: Expr, thn: Stmt)
    | IfElse(cond: Expr, thn: Stmt, els: Stmt)
    | While(cond: Expr, body: Stmt)
    | For(init: Option<Expr>, test: Option<Expr>, incr: Option<Expr>, body: Stmt)
    | DoWhile(body: Stmt, cond: Expr)
    | Switch(scrutinee: Expr, body: Stmt)
    | Case(lo: int, hi: int, body: Stmt)
    | Default(body: Stmt)
    | Break
    | Continue
    | Return(result: Option<Expr>)

  // ----- meaning -----

  type History = seq<nat>

  function Bit(b: bool): int { if b then 1 else 0 }

  /** The value of an expression and the history once its atoms have been evaluated. */
  function Value(e: Expr, o: Oracle, h: History): (int, History) {
    match e
    case Operand(id, _) => (o(h + [id]).0, h + [id])
    case Relation(op, id, _) => (Bit(Cond(op, o(h + [id]))), h + [id])
    case Const(c) => (c, h)
    case Not(e1) => var (x, h1) := Value(e1, o, h); (Bit(x == 0), h1)
    case Land(es) => var (stopped, h1) := ValueChain(es, true, o, h); (Bit(!stopped), h1)
    case Lor(es) => var (stopped, h1) := ValueChain(es, false, o, h); (Bit(stopped), h1)
  }

  /** Evaluate left to right up to the first operand whose truth differs from `inv`. */
  function ValueChain(es: Exprs, inv: bool, o: Oracle, h: History): (bool, History) {
    match es
    case Nil => (false, h)
    case Cons(e, rest) =>
      var (x, h1) := Value(e, o, h);
      if (x != 0) != inv then (true, h1) else ValueChain(rest, inv, o, h1)
  }

  /** How a statement is entered: at its start, or by a jump to one of its labels. */
  datatype Mode = Run | ToCase(v: int) | ToDefault

  datatype Outcome = Normal | Broke | Continued | Returned(value: Option<int>) | OutOfFuel

  predicate HasCase(s: Stmt) {
    match s
    case Seq(a, b) => HasCase(a) || HasCase(b)
    case If(_, a) => HasCase(a)
    case IfElse(_, a, b) => HasCase(a) || HasCase(b)
    case While(_, a) => HasCase(a)
    case For(_, _, _, a) => HasCase(a)
    case DoWhile(a, _) => HasCase(a)
    case Case(_, _, _) => true
    case Default(a) => HasCase(a)
    case _ => false
  }

  predicate HasMatch(s: Stmt, v: int) {
    match s
    case Seq(a, b) => HasMatch(a, v) || HasMatch(b, v)
    case If(_, a) => HasMatch(a, v)
    case IfElse(_, a, b) => HasMatch(a, v) || HasMatch(b, v)
    case While(_, a) => HasMatch(a, v)
    case For(_, _, _, a) => HasMatch(a, v)
    case DoWhile(a, _) => HasMatch(a, v)
    case Case(lo, hi, a) => lo <= v <= hi || HasMatch(a, v)
    case Default(a) => HasMatch(a, v)
    case _ => false
  }

  predicate HasDefault(s: Stmt) {
    match s
    case Seq(a, b) => HasDefault(a) || HasDefault(b)
    case If(_, a) => HasDefault(a)
    case IfElse(_, a, b) => HasDefault(a) || HasDefault(b)
    case While(_, a) => HasDefault(a)
    case For(_, _, _, a) => HasDefault(a)
    case DoWhile(a, _) => HasDefault(a)
    case Case(_, _, a) => HasDefault(a)
    case Default(_) => true
    case _ => false
  }

  predicate Hit(s: Stmt, m: Mode) {
    match m
    case Run => true
    case ToCase(v) => HasMatch(s, v)
    case ToDefault => HasDefault(s)
  }

  function Opt(e: Option<Expr>, o: Oracle, h: History): History {
    if e.None? then h else Value(e.value, o, h).1
  }

  /** Big-step execution; `fuel` bounds the number of times a loop may go round. */
  function Exec(s: Stmt, m: Mode, o: Oracle, h: History, fuel: nat): (Outcome, History)
    requires Hit(s, m)
    decreases fuel, s, 0
  {
    match s
    case Skip => (Normal, h)
    case Eval(e) => (Normal, Value(e, o, h).1)
    case Seq(a, b) =>
      if Hit(a, m) then
        var r := Exec(a, m, o, h, fuel);
        if r.0.Normal? then Exec(b, Run, o, r.1, fuel) else r
      else Exec(b, m, o, h, fuel)
    case If(e, a) =>
      if m.Run? then
        var (x, h1) := Value(e, o, h);
        if x != 0 then Exec(a, Run, o, h1, fuel) else (Normal, h1)
      else Exec(a, m, o, h, fuel)
    case IfElse(e, a, b) =>
      if m.Run? then
        var (x, h1) := Value(e, o, h);
        if x != 0 then Exec(a, Run, o, h1, fuel) else Exec(b, Run, o, h1, fuel)
      else if Hit(a, m) then Exec(a, m, o, h, fuel)
      else Exec(b, m, o, h, fuel)
    case While(e, a) => Loop(Some(e), None, a, m, o, h, fuel)
    case For(i, t, n, a) => Loop(t, n, a, m, o, if m.Run? then Opt(i, o, h) else h, fuel)
    case DoWhile(a, e) => DoLoop(a, e, m, o, h, fuel)
    case Switch(e, a) =>
      var (x, h1) := Value(e, o, h);
      if HasMatch(a, x) then Leave(Exec(a, ToCase(x), o, h1, fuel))
      else if HasDefault(a) then Leave(Exec(a, ToDefault, o, h1, fuel))
      else (Normal, h1)
    case Case(lo, hi, a) =>
      Exec(a, if m.ToCase? && lo <= m.v <= hi then Run else m, o, h, fuel)
    case Default(a) => Exec(a, if m.ToDefault? then Run else m, o, h, fuel)
    case Break => (Broke, h)
    case Continue => (Continued, h)
    case Return(e) =>
      if e.None? then (Returned(None), h)
      else var (x, h1) := Value(e.value, o, h); (Returned(Some(x)), h1)
  }

  /** A `break` ends at the statement that encloses it. */
  function Leave(r: (Outcome, History)): (Outcome, History) {
    if r.0.Broke? then (Normal, r.1) else r
  }

  function Loop(test: Option<Expr>, incr: Option<Expr>, body: Stmt, m: Mode, o: Oracle, h: History, fuel: nat)
    : (Outcome, History)
    requires Hit(body, m)
    decreases fuel, body, 2
  {
    if m.Run? && test.Some? then
      var (x, h1) := Value(test.value, o, h);
      if x == 0 then (Normal, h1) else Round(test, incr, body, m, o, h1, fuel)
    else Round(test, incr, body, m, o, h, fuel)
  }

  /** The body, then round to the test. */
  function Round(test: Option<Expr>, incr: Option<Expr>, body: Stmt, m: Mode, o: Oracle, h: History, fuel: nat)
    : (Outcome, History)
    requires Hit(body, m)
    decreases fuel, body, 1
  {
    var r := Exec(body, m, o, h, fuel);
    if r.0.Normal? || r.0.Continued? then
      if fuel == 0 then (OutOfFuel, Opt(incr, o, r.1))
      else Loop(test, incr, body, Run, o, Opt(incr, o, r.1), fuel - 1)
    else Leave(r)
  }

  function DoLoop(body: Stmt, cond: Expr, m: Mode, o: Oracle, h: History, fuel: nat): (Outcome, History)
    requires Hit(body, m)
    decreases fuel, body, 1
  {
    var r := Exec(body, m, o, h, fuel);
    if r.0.Normal? || r.0.Continued? then
      var (x, h1) := Value(cond, o, r.1);
      if x == 0 then (Normal, h1)
      else if fuel == 0 then (OutOfFuel, h1)
      else DoLoop(body, cond, Run, o, h1, fuel - 1)
    else Leave(r)
  }

  // ----- symbolic code -----

  /** Where a displacement leads: a known address, or a list still to be patched. `Pending`
      is the list of a value that is the consequence of a jump, `Over` a jump over code
      that is being emitted, `Nxt` the failed case tests of the enclosing switch. */
  datatype Label = To(a: int) | Pending | Over | Brk | Cnt | Ret | Nxt

  datatype SCell = Raw(c: Cell) | Ref(l: Label)

  type Symbolic = seq<SCell>

  /** Every displacement of list `l` now leads to `a`. */
  function Bind(cells: Symbolic, l: Label, a: int): (r: Symbolic)
    ensures |r| == |cells|
  {
    seq(|cells|, i requires 0 <= i < |cells| => if cells[i] == Ref(l) then Ref(To(a)) else cells[i])
  }

  function Fills(n: nat): Symbolic { seq(n, _ => Raw(Fill)) }

  function Disp32(l: Label): (r: Symbolic)
    ensures |r| == 4
  {
    [Ref(l)] + Fills(3)
  }

  function JmpTo(l: Label): (r: Symbolic)
    ensures |r| == 5
  {
    [Raw(Jmp)] + Disp32(l)
  }

  function JccTo(op: CompareOp, l: Label): (r: Symbolic)
    ensures |r| == 6
  {
    [Raw(Jcc(op)), Raw(Fill)] + Disp32(l)
  }

  predicate Short(d: int) { -128 <= d < 128 }

  /** A jump emitted at address `at` to the already emitted address `a`. */
  function JmpBack(a: int, at: int): (r: Symbolic)
    ensures |r| > 0
  {
    if Short(a - at - 2) then [Raw(JmpShort), Raw(Disp8(a - at - 2))] else JmpTo(To(a))
  }

  function MovImm(c: int): (r: Symbolic)
    ensures |r| == 5
  {
    [Raw(Mov(c))] + Fills(4)
  }

  function CompareImm(c: int): (r: Symbolic)
    ensures |r| > 0
  {
    var extra := if Short(c) then 2 else 5;
    [Raw(CompareTo(c, extra))] + Fills(extra)
  }

  /** Where the value of an expression is once its code has run. */
  datatype Place = InConst(c: int) | InFlags(op: CompareOp) | InReg | JmpTrue | JmpFalse

  /** The code of an expression emitted at `p`; a value that is the consequence of a jump
      leaves its list as `Pending`. */
  function Code(e: Expr, p: int): (Symbolic, Place)
    decreases e, 0
  {
    match e
    case Operand(id, extra) => ([Raw(Atom(id, extra))] + Fills(extra), InReg)
    case Relation(op, id, extra) => ([Raw(Cell.Compare(id, extra))] + Fills(extra), InFlags(op))
    case Const(c) => ([], InConst(c))
    case Not(e1) =>
      var (cells, at) := Code(e1, p);
      (match at
       case InConst(c) => (cells, InConst(Bit(c == 0)))
       case InFlags(op) => (cells, InFlags(Flip(op)))
       case _ => (TestOf(cells, at, true, p), JmpTrue))
    case Land(es) => (ChainCode(es, true, p), JmpFalse)
    case Lor(es) => (ChainCode(es, false, p), JmpTrue)
  }

  /** Code that jumps to `Pending` when the truth of the value differs from `inv`. */
  function TestOf(cells: Symbolic, at: Place, inv: bool, p: int): Symbolic {
    match at
    case InConst(c) => if (c != 0) != inv then cells + JmpTo(Pending) else cells
    case InFlags(op) => cells + JccTo(FlipIf(op, inv), Pending)
    case InReg => cells + [Raw(Test), Raw(Fill)] + JccTo(FlipIf(TOK_NE, inv), Pending)
    case _ =>
      if at.JmpFalse? == inv then cells
      else Bind(cells, Pending, p + |cells| + 5) + JmpTo(Pending)
  }

  function TestCode(e: Expr, inv: bool, p: int): Symbolic
    decreases e, 1
  {
    TestOf(Code(e, p).0, Code(e, p).1, inv, p)
  }

  function ChainCode(es: Exprs, inv: bool, p: int): Symbolic
    decreases es, 0
  {
    match es
    case Nil => []
    case Cons(e, rest) =>
      var first := TestCode(e, inv, p);
      first + ChainCode(rest, inv, p + |first|)
  }

  /** Code that brings the value into the register. */
  function RegOf(cells: Symbolic, at: Place, p: int): Symbolic {
    match at
    case InReg => cells
    case InConst(c) => cells + MovImm(c)
    case InFlags(op) => cells + MovImm(0) + [Raw(SetCond(op))] + Fills(2)
    case _ =>
      Bind(cells, Pending, p + |cells| + 7)
      + (MovImm(Bit(at.JmpFalse?)) + [Raw(JmpShort), Raw(Disp8(5))] + MovImm(Bit(at.JmpTrue?)))
  }

  function RegCode(e: Expr, p: int): Symbolic { RegOf(Code(e, p).0, Code(e, p).1, p) }

  /** Code that throws the value away. */
  function PopCode(e: Expr, p: int): Symbolic {
    Bind(Code(e, p).0, Pending, p + |Code(e, p).0|)
  }

  function OptPop(e: Option<Expr>, p: int): Symbolic { if e.None? then [] else PopCode(e.value, p) }
  function OptTest(e: Option<Expr>, p: int): Symbolic { if e.None? then [] else TestCode(e.value, true, p) }
  function OptReg(e: Option<Expr>, p: int): Symbolic { if e.None? then [] else RegCode(e.value, p) }

  /** The increment of a `for` whose test is at `d`, emitted at `p`: skipped on the way
      down, then a jump back to the test. */
  function StepCode(incr: Option<Expr>, d: int, p: int): Symbolic {
    if incr.None? then [] else
    var c := PopCode(incr.value, p + 5);
    var back := JmpBack(d, p + 5 + |c|);
    JmpTo(To(p + 5 + |c| + |back|)) + c + back
  }

  /** The address of the increment of a loop whose test is at `d`, and of its body. */
  function StepAt(test: Option<Expr>, d: int): int { d + |OptTest(test, d)| }

  function BodyAt(test: Option<Expr>, incr: Option<Expr>, d: int): int {
    StepAt(test, d) + |StepCode(incr, d, StepAt(test, d))|
  }

  /** Where `continue` and the end of the body lead. */
  function AgainAt(test: Option<Expr>, incr: Option<Expr>, d: int): int {
    if incr.None? then d else StepAt(test, d) + 5
  }

  function CaseTest(lo: int, hi: int): Symbolic {
    if lo == hi then CompareImm(lo) + JccTo(Flip(TOK_EQ), Nxt)
    else CompareImm(lo) + JccTo(Flip(TOK_GE), Nxt) + (CompareImm(hi) + JccTo(Flip(TOK_LE), Nxt))
  }

  /** The address of the first sub-statement of `s` when `s` is emitted at `p`. */
  function Sub1(s: Stmt, p: int): int {
    match s
    case If(e, _) => p + |TestCode(e, true, p)|
    case IfElse(e, _, _) => p + |TestCode(e, true, p)|
    case While(e, _) => BodyAt(Some(e), None, p)
    case For(i, t, n, _) => BodyAt(t, n, p + |OptPop(i, p)|)
    case Switch(e, _) => p + |RegCode(e, p)| + 5
    case Case(lo, hi, _) => p + 5 + |CaseTest(lo, hi)|
    case _ => p
  }

  /** The address of the second sub-statement. */
  function Sub2(s: Stmt, p: int): int
    decreases s, 0
  {
    match s
    case Seq(a, _) => p + |Emit(a, p)|
    case IfElse(_, a, _) => Sub1(s, p) + |Emit(a, Sub1(s, p))| + 5
    case _ => p
  }

  /** The address of the textually first case test in `s`. */
  function FirstCase(s: Stmt, p: int): int
    requires HasCase(s)
    decreases s, 2
  {
    match s
    case Seq(a, b) => if HasCase(a) then FirstCase(a, p) else FirstCase(b, Sub2(s, p))
    case IfElse(_, a, b) => if HasCase(a) then FirstCase(a, Sub1(s, p)) else FirstCase(b, Sub2(s, p))
    case If(_, a) => FirstCase(a, Sub1(s, p))
    case While(_, a) => FirstCase(a, Sub1(s, p))
    case For(_, _, _, a) => FirstCase(a, Sub1(s, p))
    case DoWhile(a, _) => FirstCase(a, p)
    case Default(a) => FirstCase(a, p)
    case Case(_, _, _) => p + 5
  }

  function DefaultAt(s: Stmt, p: int): int
    requires HasDefault(s)
    decreases s, 2
  {
    match s
    case Seq(a, b) => if HasDefault(a) then DefaultAt(a, p) else DefaultAt(b, Sub2(s, p))
    case IfElse(_, a, b) => if HasDefault(a) then DefaultAt(a, Sub1(s, p)) else DefaultAt(b, Sub2(s, p))
    case If(_, a) => DefaultAt(a, Sub1(s, p))
    case While(_, a) => DefaultAt(a, Sub1(s, p))
    case For(_, _, _, a) => DefaultAt(a, Sub1(s, p))
    case DoWhile(a, _) => DefaultAt(a, p)
    case Case(_, _, a) => DefaultAt(a, Sub1(s, p))
    case Default(_) => p
  }

  /** A case test that fails goes on to the next one in the text. */
  function Link(cells: Symbolic, s: Stmt, p: int): (r: Symbolic)
    ensures |r| == |cells|
    decreases s, 3
  {
    if HasCase(s) then Bind(cells, Nxt, FirstCase(s, p)) else cells
  }

  /** The code of a statement emitted at `p`. */
  function Emit(s: Stmt, p: int): Symbolic
    decreases s, 4
  {
    match s
    case Skip => []
    case Eval(e) => PopCode(e, p)
    case Seq(a, b) => Link(Emit(a, p), b, Sub2(s, p)) + Emit(b, Sub2(s, p))
    case If(e, a) =>
      var body := Emit(a, Sub1(s, p));
      Bind(TestCode(e, true, p), Pending, Sub1(s, p) + |body|) + body
    case IfElse(e, a, b) =>
      var q := Sub2(s, p);
      var other := Emit(b, q);
      Bind(TestCode(e, true, p), Pending, q)
      + (Link(Emit(a, Sub1(s, p)), b, q) + (JmpTo(To(q + |other|)) + other))
    case While(e, a) => LoopCode(Some(e), None, a, p)
    case For(i, t, n, a) => OptPop(i, p) + LoopCode(t, n, a, p + |OptPop(i, p)|)
    case DoWhile(a, e) =>
      var body := Emit(a, p);
      var c := p + |body|;
      var test := TestCode(e, false, c);
      Bind(Bind(body, Brk, c + |test|), Cnt, c) + Bind(test, Pending, p)
    case Switch(e, a) =>
      var q := Sub1(s, p);
      var body := Emit(a, q);
      RegCode(e, p) + (JmpTo(To(Entry(a, q))) + Bind(Bind(body, Nxt, Otherwise(a, q)), Brk, q + |body|))
    case Case(lo, hi, a) =>
      var q := Sub1(s, p);
      JmpTo(To(q)) + (Link(CaseTest(lo, hi), a, q) + Emit(a, q))
    case Default(a) => Emit(a, p)
    case Break => JmpTo(Brk)
    case Continue => JmpTo(Cnt)
    case Return(e) => OptReg(e, p) + JmpTo(Ret)
  }

  /** Where a switch body emitted at `p` goes when no case matches. */
  function Otherwise(s: Stmt, p: int): int
    decreases s, 5
  {
    if HasDefault(s) then DefaultAt(s, p) else p + |Emit(s, p)|
  }

  function Entry(s: Stmt, p: int): int
    decreases s, 6
  {
    if HasCase(s) then FirstCase(s, p) else Otherwise(s, p)
  }

  /** A loop whose test is at `d`. */
  function LoopCode(test: Option<Expr>, incr: Option<Expr>, a: Stmt, d: int): Symbolic
    decreases a, 5
  {
    var q := BodyAt(test, incr, d);
    var body := Emit(a, q);
    var again := AgainAt(test, incr, d);
    var back := JmpBack(again, q + |body|);
    var end := q + |body| + |back|;
    Bind(OptTest(test, d), Pending, end)
    + (StepCode(incr, d, StepAt(test, d)) + (Bind(Bind(body, Brk, end), Cnt, again) + back))
  }

  // The equations of `Emit`, one statement form at a time.

  lemma EmitLeaf(s: Stmt, p: int)
    ensures s.Skip? ==> Emit(s, p) == []
    ensures s.Eval? ==> Emit(s, p) == PopCode(s.e, p)
    ensures s.Break? ==> Emit(s, p) == JmpTo(Brk)
    ensures s.Continue? ==> Emit(s, p) == JmpTo(Cnt)
    ensures s.Return? ==> Emit(s, p) == OptReg(s.result, p) + JmpTo(Ret)
  {
    hide Bind, TestCode, Link, PopCode, RegCode, LoopCode, Otherwise, Entry, OptReg, OptPop, CaseTest;
  }

  lemma EmitIf(e: Expr, a: Stmt, p: int)
    ensures var q := p + |TestCode(e, true, p)|;
            && Sub1(If(e, a), p) == q
            && Emit(If(e, a), p) == Bind(TestCode(e, true, p), Pending, q + |Emit(a, q)|) + Emit(a, q)
  {
    hide Bind, TestCode, Link, PopCode, RegCode, LoopCode, Otherwise, Entry, OptReg, OptPop, CaseTest;
  }

  lemma EmitIfElse(e: Expr, a: Stmt, b: Stmt, p: int)
    ensures var s := IfElse(e, a, b); var test := TestCode(e, true, p);
            var q := p + |test|; var r := q + |Emit(a, q)| + 5;
            && Sub1(s, p) == q && Sub2(s, p) == r
            && Emit(s, p) == Bind(test, Pending, r) + (Link(Emit(a, q), b, r) + (JmpTo(To(r + |Emit(b, r)|)) + Emit(b, r)))
  {
    hide Bind, TestCode, Link, PopCode, RegCode, LoopCode, Otherwise, Entry, OptReg, OptPop, CaseTest;
  }

  lemma EmitDo(a: Stmt, e: Expr, p: int)
    ensures var body := Emit(a, p); var c := p + |body|; var test := TestCode(e, false, c);
            Emit(DoWhile(a, e), p) == Bind(Bind(body, Brk, c + |test|), Cnt, c) + Bind(test, Pending, p)
  {
    hide Bind, TestCode, Link, PopCode, RegCode, LoopCode, Otherwise, Entry, OptReg, OptPop, CaseTest;
  }

  lemma EmitSwitch(e: Expr, a: Stmt, p: int)
    ensures var q := p + |RegCode(e, p)| + 5; var body := Emit(a, q);
            && Sub1(Switch(e, a), p) == q
            && Emit(Switch(e, a), p) ==
               RegCode(e, p) + (JmpTo(To(Entry(a, q))) + Bind(Bind(body, Nxt, Otherwise(a, q)), Brk, q + |body|))
  {
    hide Bind, TestCode, Link, PopCode, RegCode, LoopCode, Otherwise, Entry, OptReg, OptPop, CaseTest;
  }

  lemma EmitCase(lo: int, hi: int, a: Stmt, p: int)
    ensures var q := p + 5 + |CaseTest(lo, hi)|; var s := Case(lo, hi, a);
            && Sub1(s, p) == q
            && Emit(s, p) == JmpTo(To(q)) + (Link(CaseTest(lo, hi), a, q) + Emit(a, q))
            && FirstCase(s, p) == p + 5
            && (HasDefault(a) ==> DefaultAt(s, p) == DefaultAt(a, q))
  {
    hide Bind, TestCode, Link, PopCode, RegCode, LoopCode, Otherwise, Entry, OptReg, OptPop, CaseTest;
  }

  lemma EmitSeq(a: Stmt, b: Stmt, p: int)
    ensures var q := p + |Emit(a, p)|;
            && Sub2(Seq(a, b), p) == q
            && Emit(Seq(a, b), p) == Link(Emit(a, p), b, q) + Emit(b, q)
  {
    hide Bind, TestCode, PopCode, RegCode, LoopCode, Otherwise, Entry, OptReg, OptPop, CaseTest;
  }

  lemma EmitLoop(s: Stmt, p: int)
    ensures s.While? ==> Emit(s, p) == LoopCode(Some(s.cond), None, s.body, p)
    ensures s.For? ==>
              Emit(s, p) == OptPop(s.init, p) + LoopCode(s.test, s.incr, s.body, p + |OptPop(s.init, p)|)
    ensures s.Default? ==> Emit(s, p) == Emit(s.body, p)
  {
    hide Bind, LoopCode;
  }

  // ----- what the parser accepts -----

  /** `block` accepts `s` where `break`, `continue` and labels of a switch are allowed as
      `b`, `c` and `w` say, and a default has been `seen` in the enclosing switch or not. */
  predicate Accepted(s: Stmt, b: bool, c: bool, w: bool, seen: bool) {
    match s
    case Skip => true
    case Eval(_) => true
    case Return(_) => true
    case Break => b
    case Continue => c
    case Seq(x, y) => Accepted(x, b, c, w, seen) && Accepted(y, b, c, w, seen || HasDefault(x))
    case If(_, x) => Accepted(x, b, c, w, seen)
    case IfElse(_, x, y) => Accepted(x, b, c, w, seen) && Accepted(y, b, c, w, seen || HasDefault(x))
    case While(_, x) => Accepted(x, true, true, w, seen)
    case For(_, _, _, x) => Accepted(x, true, true, w, seen)
    case DoWhile(x, _) => Accepted(x, true, true, w, seen)
    case Switch(_, x) => Accepted(x, true, c, true, false)
    case Case(_, _, x) => w && Accepted(x, b, c, w, seen)
    case Default(x) => w && !seen && Accepted(x, b, c, w, true)
  }

  lemma {:induction false} LabelsNeedSwitch(s: Stmt, b: bool, c: bool, seen: bool)
    requires Accepted(s, b, c, false, seen)
    ensures !HasCase(s) && !HasDefault(s)
    decreases s
  {
    match s
    case Seq(x, y) => LabelsNeedSwitch(x, b, c, seen); LabelsNeedSwitch(y, b, c, seen || HasDefault(x));
    case If(_, x) => LabelsNeedSwitch(x, b, c, seen);
    case IfElse(_, x, y) => LabelsNeedSwitch(x, b, c, seen); LabelsNeedSwitch(y, b, c, seen || HasDefault(x));
    case While(_, x) => LabelsNeedSwitch(x, true, true, seen);
    case For(_, _, _, x) => LabelsNeedSwitch(x, true, true, seen);
    case DoWhile(x, _) => LabelsNeedSwitch(x, true, true, seen);
    case _ =>
  }

  /** A switch has at most one default. */
  lemma {:induction false} OneDefault(s: Stmt, b: bool, c: bool, w: bool)
    requires Accepted(s, b, c, w, true)
    ensures !HasDefault(s)
    decreases s
  {
    match s
    case Seq(x, y) => OneDefault(x, b, c, w); OneDefault(y, b, c, w);
    case If(_, x) => OneDefault(x, b, c, w);
    case IfElse(_, x, y) => OneDefault(x, b, c, w); OneDefault(y, b, c, w);
    case While(_, x) => OneDefault(x, true, true, w);
    case For(_, _, _, x) => OneDefault(x, true, true, w);
    case DoWhile(x, _) => OneDefault(x, true, true, w);
    case Case(_, _, x) => OneDefault(x, b, c, w);
    case _ =>
  }

  lemma {:induction false} DefaultAbove(s: Stmt, p: int)
    requires HasDefault(s)
    ensures DefaultAt(s, p) >= p
    decreases s
  {
    hide Emit, LoopCode, TestCode, RegCode, CaseTest, StepCode, OptTest, OptPop;
    match s
    case Seq(x, y) => if HasDefault(x) { DefaultAbove(x, p); } else { DefaultAbove(y, Sub2(s, p)); }
    case IfElse(_, x, y) =>
      if HasDefault(x) { DefaultAbove(x, Sub1(s, p)); } else { DefaultAbove(y, Sub2(s, p)); }
    case If(_, x) => DefaultAbove(x, Sub1(s, p));
    case While(_, x) => DefaultAbove(x, Sub1(s, p));
    case For(_, _, _, x) => DefaultAbove(x, Sub1(s, p));
    case DoWhile(x, _) => DefaultAbove(x, p);
    case Case(_, _, x) => DefaultAbove(x, Sub1(s, p));
    case Default(_) =>
  }
}
