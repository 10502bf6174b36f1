/** Values of assembler expressions: a 32-bit constant and at most one symbol, whose sum is
    the expression's value wherever the sections end up. */
module AsmExpr {
  import opened Wrappers
  import opened Arith
  import opened Words
  import opened AsmSyntax

  const W := 0x1_0000_0000
  const SHN_ABS := 0xfff1

  /** A label: `r` is its section, 0 while it is undefined, and `value` where in it. */
  datatype Sym = Sym(r: nat, value: int)

  /** Identifiers and numbered local labels are separate names. */
  datatype Name = Ident(id: nat) | Numbered(n: nat)

  /** All labels, and for every name those that bear it, newest last. */
  datatype Labels = Labels(syms: seq<Sym>, chains: map<Name, seq<nat>>)

  function ChainOf(ls: Labels, v: Name): seq<nat> { if v in ls.chains then ls.chains[v] else [] }

  ghost predicate LabelsOk(ls: Labels) { forall v :: v in ls.chains ==> Below(ls.chains[v], |ls.syms|) }

  predicate Below(c: seq<nat>, n: nat) { forall i :: 0 <= i < |c| ==> c[i] < n }

  /** `label_find`: the newest label of that name. */
  function Find(ls: Labels, v: Name): (r: Option<nat>)
    ensures LabelsOk(ls) && r.Some? ==> r.value < |ls.syms|
  {
    var c := ChainOf(ls, v);
    if c == [] then None else Some(c[|c| - 1])
  }

  /** `label_push`: a new label, undefined. */
  function Push(ls: Labels, v: Name, s: Sym): (r: Labels)
    requires LabelsOk(ls)
    ensures LabelsOk(r) && r.syms == ls.syms + [s] && Find(r, v) == Some(|ls.syms|)
  {
    var c := ChainOf(ls, v) + [|ls.syms|];
    assert Below(c, |ls.syms| + 1);
    assert forall w :: w in ls.chains ==> Below(ls.chains[w], |ls.syms| + 1);
    Labels(ls.syms + [s], ls.chains[v := c])
  }

  // ----- what the names mean -----

  datatype Tree =
    | Const(c: int)
    | Ref(s: nat)    // an identifier
    | Mark(s: nat)   // a numbered label
    | UMinus(t: Tree)
    | UNot(t: Tree)
    | Node(op: Op, a: Tree, b: Tree)

  datatype Resolved = Bad | Good(t: Tree, ls: Labels)

  ghost predicate Extends(a: Labels, b: Labels) { LabelsOk(b) && a.syms <= b.syms }

  function LookUp(ls: Labels, v: Name): (nat, Labels)
    requires LabelsOk(ls)
  {
    var s := Find(ls, v);
    if s.Some? then (s.value, ls) else (|ls.syms|, Push(ls, v, Sym(0, 0)))
  }

  /** The last defined label of that number. */
  function Behind(ls: Labels, n: nat): Option<nat>
    requires LabelsOk(ls)
  {
    var c := ChainOf(ls, Numbered(n));
    var k: int := if c != [] && ls.syms[c[|c| - 1]].r == 0 then |c| - 2 else |c| - 1;
    if k >= 0 then Some(c[k]) else None
  }

  /** The next label of that number: one already waiting to be defined, or a new one. */
  function Ahead(ls: Labels, n: nat): (nat, Labels)
    requires LabelsOk(ls)
  {
    var s := Find(ls, Numbered(n));
    if s.Some? && ls.syms[s.value].r == 0 then (s.value, ls) else (|ls.syms|, Push(ls, Numbered(n), Sym(0, 0)))
  }

  function Resolve(e: Expr, ls: Labels): (r: Resolved)
    requires LabelsOk(ls)
    ensures r.Good? ==> LabelsOk(r.ls)
  {
    match e
    case Num(n) => Good(Const(n), ls)
    case Chr(c) => Good(Const(c), ls)
    case Label(id) => var (s, ls1) := LookUp(ls, Ident(id)); Good(Ref(s), ls1)
    case Local(n, true) => (match Behind(ls, n) case None => Bad case Some(s) => Good(Mark(s), ls))
    case Local(n, false) => var (s, ls1) := Ahead(ls, n); Good(Mark(s), ls1)
    case Pos(e1) => Resolve(e1, ls)
    case Neg(e1) => var r := Resolve(e1, ls); if r.Bad? then Bad else Good(UMinus(r.t), r.ls)
    case Not(e1) => var r := Resolve(e1, ls); if r.Bad? then Bad else Good(UNot(r.t), r.ls)
    case Bin(op, a, b) =>
      var x := Resolve(a, ls);
      if x.Bad? then Bad else
      var y := Resolve(b, x.ls);
      if y.Bad? then Bad else Good(Node(op, x.t, y.t), y.ls)
  }

  predicate Within(t: Tree, n: nat) {
    match t
    case Const(_) => true
    case Ref(s) => s < n
    case Mark(s) => s < n
    case UMinus(t1) => Within(t1, n)
    case UNot(t1) => Within(t1, n)
    case Node(_, a, b) => Within(a, n) && Within(b, n)
  }

  lemma {:induction false} WithinMore(t: Tree, n: nat, m: nat)
    requires Within(t, n) && n <= m
    ensures Within(t, m)
    decreases t
  {
    match t
    case UMinus(t1) => WithinMore(t1, n, m);
    case UNot(t1) => WithinMore(t1, n, m);
    case Node(_, a, b) => WithinMore(a, n, m); WithinMore(b, n, m);
    case _ =>
  }

  lemma {:induction false} ResolveWithin(e: Expr, ls: Labels)
    requires LabelsOk(ls) && Resolve(e, ls).Good?
    ensures var r := Resolve(e, ls); ls.syms <= r.ls.syms && Within(r.t, |r.ls.syms|)
    decreases e
  {
    match e
    case Pos(e1) => ResolveWithin(e1, ls);
    case Neg(e1) => ResolveWithin(e1, ls);
    case Not(e1) => ResolveWithin(e1, ls);
    case Bin(_, a, b) =>
      ResolveWithin(a, ls);
      var x := Resolve(a, ls);
      ResolveWithin(b, x.ls);
      WithinMore(x.t, |x.ls.syms|, |Resolve(b, x.ls).ls.syms|);
    case _ =>
  }

  // ----- what the assembler computes -----

  datatype Value = Value(v: nat, sym: Option<nat>)

  function Clip(x: int): (r: nat)
    ensures r < W
  {
    x % W
  }

  function Arithmetic(op: Op, x: nat, y: nat): (r: Option<nat>)
    requires x < W && y < W
    ensures r.Some? ==> r.value < W
  {
    Pow2Values();
    match op
    case Add => Some(Clip(x + y))
    case Sub => Some(Clip(x - y))
    case And => Some(Bitwise(BitOp.And, x, y, 32))
    case Or => Some(Bitwise(BitOp.Or, x, y, 32))
    case Xor => Some(Bitwise(BitOp.Xor, x, y, 32))
    case Mul => Some(Clip(x * y))
    case Div => if y == 0 then None else DivLess(x, y); Some(x / y)
    case Mod => if y == 0 then None else Some(x % y)
    case Shl => Some(Words.Shl(x, y % 32, 32))
    case Sar => Some(Shr(x, y % 32))
  }

  function OfSymbol(s: nat, syms: seq<Sym>): (r: Value)
    requires s < |syms|
    ensures r.v < W
  {
    if syms[s].r == SHN_ABS then Value(Clip(syms[s].value), None) else Value(0, Some(s))
  }

  /** Two operands and an operator, as far as one symbol can express the result. */
  function Combine(op: Op, x: Value, y: Value, syms: seq<Sym>): (r: Option<Value>)
    requires x.v < W && y.v < W
    requires (x.sym.Some? ==> x.sym.value < |syms|) && (y.sym.Some? ==> y.sym.value < |syms|)
    ensures r.Some? ==> r.value.v < W && (r.value.sym.Some? ==> r.value.sym.value < |syms|)
  {
    if op == Add then
      if x.sym.Some? && y.sym.Some? then None
      else Some(Value(Clip(x.v + y.v), if x.sym.None? then y.sym else x.sym))
    else if op == Sub then
      if y.sym.None? then Some(Value(Clip(x.v - y.v), x.sym))
      else if x.sym.None? then None
      else
        var s, t := syms[x.sym.value], syms[y.sym.value];
        if x.sym == y.sym then Some(Value(Clip(x.v - y.v), None))
        else if s.r == t.r && s.r != 0 then Some(Value(Clip(x.v - y.v + (s.value - t.value)), None))
        else None
    else if x.sym.Some? || y.sym.Some? then None
    else match Arithmetic(op, x.v, y.v) case None => None case Some(v) => Some(Value(v, None))
  }

  function Eval(t: Tree, syms: seq<Sym>): (r: Option<Value>)
    requires Within(t, |syms|)
    ensures r.Some? ==> r.value.v < W && (r.value.sym.Some? ==> r.value.sym.value < |syms|)
  {
    match t
    case Const(c) => Some(Value(Clip(c), None))
    case Ref(s) => Some(OfSymbol(s, syms))
    case Mark(s) => Some(Value(0, Some(s)))
    case UMinus(t1) =>
      var x := Eval(t1, syms);
      if x.None? || x.value.sym.Some? then None else Some(Value(Clip(0 - x.value.v), None))
    case UNot(t1) =>
      var x := Eval(t1, syms);
      if x.None? || x.value.sym.Some? then None else Some(Value(Clip(0 - x.value.v - 1), None))
    case Node(op, a, b) =>
      var x := Eval(a, syms);
      var y := Eval(b, syms);
      if x.None? || y.None? then None else Combine(op, x.value, y.value, syms)
  }

  /** More labels change nothing. */
  lemma {:induction false} EvalMore(t: Tree, a: seq<Sym>, b: seq<Sym>)
    requires Within(t, |a|) && a <= b
    ensures Within(t, |b|) && Eval(t, b) == Eval(t, a)
    decreases t
  {
    hide Clip, Combine;
    WithinMore(t, |a|, |b|);
    match t
    case UMinus(t1) => EvalMore(t1, a, b);
    case UNot(t1) => EvalMore(t1, a, b);
    case Node(op, x, y) =>
      EvalMore(x, a, b);
      EvalMore(y, a, b);
      if Eval(x, a).Some? && Eval(y, a).Some? { CombineMore(op, Eval(x, a).value, Eval(y, a).value, a, b); }
    case _ =>
  }

  lemma CombineMore(op: Op, x: Value, y: Value, a: seq<Sym>, b: seq<Sym>)
    requires Settled(x, a) && Settled(y, a) && a <= b
    ensures Combine(op, x, y, a) == Combine(op, x, y, b)
  {
    hide Clip, Arithmetic;
  }

  // ----- what the expression is worth once everything is placed -----

  /** Where sections start, and where labels defined elsewhere are. */
  datatype Placement = Placement(section: nat -> int, elsewhere: nat -> int)

  function Address(s: nat, syms: seq<Sym>, pl: Placement): int
    requires s < |syms|
  {
    if syms[s].r == 0 then pl.elsewhere(s)
    else if syms[s].r == SHN_ABS then syms[s].value
    else pl.section(syms[s].r) + syms[s].value
  }

  /** 32-bit unsigned arithmetic on addresses; `None` where the language gives no value. */
  function Worth(t: Tree, syms: seq<Sym>, pl: Placement): (r: Option<nat>)
    requires Within(t, |syms|)
    ensures r.Some? ==> r.value < W
  {
    match t
    case Const(c) => Some(Clip(c))
    case Ref(s) => Some(Clip(Address(s, syms, pl)))
    case Mark(s) => Some(Clip(Address(s, syms, pl)))
    case UMinus(t1) => var x := Worth(t1, syms, pl); if x.None? then None else Some(Clip(0 - x.value))
    case UNot(t1) => var x := Worth(t1, syms, pl); if x.None? then None else Some(W - 1 - x.value)
    case Node(op, a, b) =>
      var x := Worth(a, syms, pl);
      var y := Worth(b, syms, pl);
      if x.None? || y.None? || ((op == Shl || op == Sar) && y.value >= 32) then None else Arithmetic(op, x.value, y.value)
  }

  function Placed(x: Value, syms: seq<Sym>, pl: Placement): int
    requires x.sym.Some? ==> x.sym.value < |syms|
  {
    x.v + if x.sym.Some? then Address(x.sym.value, syms, pl) else 0
  }

  lemma ClipAdd(u: int, v: int)
    ensures Clip(Clip(u) + v) == Clip(u + v) && Clip(u + Clip(v)) == Clip(u + v)
    ensures Clip(Clip(u) - v) == Clip(u - v) && Clip(u - Clip(v)) == Clip(u - v)
  {
    var k, m := u / W, v / W;
    assert u == Clip(u) + k * W && v == Clip(v) + m * W;
    ModAdd(Clip(u) + v, k, W);
    ModAdd(u + Clip(v), m, W);
    ModAdd(Clip(u) - v, k, W);
    ModAdd(u - Clip(v), -m, W);
  }

  lemma ClipSmall(u: int)
    requires 0 <= u < W
    ensures Clip(u) == u
  {
  }

  predicate Settled(x: Value, syms: seq<Sym>) { x.v < W && (x.sym.Some? ==> x.sym.value < |syms|) }

  lemma SumPlaced(x: Value, y: Value, syms: seq<Sym>, pl: Placement)
    requires Settled(x, syms) && Settled(y, syms) && Combine(Add, x, y, syms).Some?
    ensures Clip(Placed(Combine(Add, x, y, syms).value, syms, pl)) ==
            Clip(Clip(Placed(x, syms, pl)) + Clip(Placed(y, syms, pl)))
  {
    hide Clip;
    var u, v := Placed(x, syms, pl), Placed(y, syms, pl);
    ClipAdd(u, v);
    ClipAdd(Clip(u), v);
    ClipAdd(x.v + y.v, u + v - x.v - y.v);
  }

  lemma DifferencePlaced(x: Value, y: Value, syms: seq<Sym>, pl: Placement)
    requires Settled(x, syms) && Settled(y, syms) && Combine(Sub, x, y, syms).Some?
    ensures Clip(Placed(Combine(Sub, x, y, syms).value, syms, pl)) ==
            Clip(Clip(Placed(x, syms, pl)) - Clip(Placed(y, syms, pl)))
  {
    hide Clip;
    var u, v := Placed(x, syms, pl), Placed(y, syms, pl);
    ClipAdd(u, v);
    ClipAdd(Clip(u), v);
    ClipAdd(x.v - y.v, u - v - (x.v - y.v));
    ClipAdd(u - v, 0);
  }

  /** An operator applied to two accepted operands gives the operator applied to their values. */
  lemma CombinePlaced(op: Op, x: Value, y: Value, syms: seq<Sym>, pl: Placement)
    requires Settled(x, syms) && Settled(y, syms) && Combine(op, x, y, syms).Some?
    ensures Some(Clip(Placed(Combine(op, x, y, syms).value, syms, pl))) ==
            Arithmetic(op, Clip(Placed(x, syms, pl)), Clip(Placed(y, syms, pl)))
  {
    hide Clip, Bitwise, Words.Shl, Shr;
    if op == Add {
      SumPlaced(x, y, syms, pl);
    } else if op == Sub {
      DifferencePlaced(x, y, syms, pl);
    } else {
      ClipSmall(x.v);
      ClipSmall(y.v);
      ClipSmall(Combine(op, x, y, syms).value.v);
    }
  }

  /** Every shift is by less than the word size. */
  predicate ShiftsSmall(t: Tree, syms: seq<Sym>)
    requires Within(t, |syms|)
  {
    match t
    case Const(_) => true
    case Ref(_) => true
    case Mark(_) => true
    case UMinus(t1) => ShiftsSmall(t1, syms)
    case UNot(t1) => ShiftsSmall(t1, syms)
    case Node(op, a, b) =>
      && ShiftsSmall(a, syms) && ShiftsSmall(b, syms)
      && ((op == Shl || op == Sar) && Eval(b, syms).Some? ==> Eval(b, syms).value.v < 32)
  }

  /** Whatever expression is accepted, and wherever things are placed, its constant and
      symbol add up to its value. */
  lemma {:induction false} PlacementIndependent(t: Tree, syms: seq<Sym>, pl: Placement)
    requires Within(t, |syms|) && Eval(t, syms).Some? && ShiftsSmall(t, syms)
    ensures Worth(t, syms, pl) == Some(Clip(Placed(Eval(t, syms).value, syms, pl)))
    decreases t
  {
    hide Clip, Combine, Arithmetic;
    match t
    case Const(c) => ClipAdd(c, 0);
    case Ref(s) => PlacedRef(s, syms, pl);
    case Mark(s) =>
    case UMinus(t1) =>
      PlacementIndependent(t1, syms, pl);
      ClipAdd(0, Eval(t1, syms).value.v);
      ClipAdd(0 - Eval(t1, syms).value.v, 0);
    case UNot(t1) =>
      PlacementIndependent(t1, syms, pl);
      Complement(Eval(t1, syms).value.v);
    case Node(op, a, b) =>
      PlacementIndependent(a, syms, pl);
      PlacementIndependent(b, syms, pl);
      var x, y := Eval(a, syms).value, Eval(b, syms).value;
      CombinePlaced(op, x, y, syms, pl);
      if op == Shl || op == Sar { CountAlone(op, x, y, syms); ClipSmall(y.v); }
  }

  lemma PlacedRef(s: nat, syms: seq<Sym>, pl: Placement)
    requires s < |syms|
    ensures Clip(Address(s, syms, pl)) == Clip(Placed(OfSymbol(s, syms), syms, pl))
  {
    ClipAdd(syms[s].value, 0);
  }

  lemma Complement(v: nat)
    requires v < W
    ensures Clip(Clip(0 - v - 1)) == W - 1 - Clip(v)
  {
  }

  lemma CountAlone(op: Op, x: Value, y: Value, syms: seq<Sym>)
    requires Settled(x, syms) && Settled(y, syms) && Combine(op, x, y, syms).Some? && op != Add && op != Sub
    ensures y.sym.None?
  {
  }

  // ----- defining labels -----

  /** `asm_new_label1`; `None` is "already defined". */
  function Define(ls: Labels, v: Name, isLocal: bool, sh: nat, value: int): (r: Option<Labels>)
    requires LabelsOk(ls)
    ensures r.Some? ==> LabelsOk(r.value)
  {
    var s := Find(ls, v);
    if s.Some? && ls.syms[s.value].r != 0 then
      if !isLocal then None else Some(Push(ls, v, Sym(sh, value)))
    else if s.Some? then Some(ls.(syms := ls.syms[s.value := Sym(sh, value)]))
    else Some(Push(ls, v, Sym(sh, value)))
  }

  /** A definition fails exactly on a second global one; otherwise it binds the name, and no
      label that was defined changes. */
  lemma DefineBinds(ls: Labels, v: Name, isLocal: bool, sh: nat, value: int)
    requires LabelsOk(ls)
    ensures var r := Define(ls, v, isLocal, sh, value);
            && (r.None? <==> !isLocal && Find(ls, v).Some? && ls.syms[Find(ls, v).value].r != 0)
            && (r.Some? ==>
                  && Find(r.value, v).Some? && r.value.syms[Find(r.value, v).value] == Sym(sh, value)
                  && |ls.syms| <= |r.value.syms|
                  && (forall i :: 0 <= i < |ls.syms| && ls.syms[i].r != 0 ==> r.value.syms[i] == ls.syms[i])
                  && (forall w :: w != v ==> Find(r.value, w) == Find(ls, w)))
  {
  }

  /** A reference forward is to the very label that is defined next, which is then the one
      that references backward find. */
  lemma ForwardMeetsNext(ls: Labels, n: nat, sh: nat, value: int)
    requires LabelsOk(ls) && sh != 0
    ensures var (s, ls1) := Ahead(ls, n);
            var r := Define(ls1, Numbered(n), true, sh, value);
            && r.Some? && s < |r.value.syms| && r.value.syms[s] == Sym(sh, value)
            && Behind(r.value, n) == Some(s)
            && Ahead(ls1, n) == (s, ls1)
  {
  }
}
