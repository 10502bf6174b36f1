/** What the assembler's grammar, operators and labels come to: how operators group, what
    they compute, which differences are refused, and which label a reference is to. */
module AsmLaws {
  import opened Wrappers
  import opened Arith
  import opened Words
  import opened AsmSyntax
  import opened AsmExpr
  import ConstFold
  import Operators

  // ----- grouping -----

  predicate Product(op: Op) { op in {Mul, Div, Mod, Shl, Sar} }

  predicate Sum(op: Op) { op in {Add, Sub} }

  /** `q` takes the operand between `p` and `q`. */
  predicate Tighter(q: Op, p: Op) { (Product(q) && !Product(p)) || (!Sum(q) && Sum(p)) }

  function Operand(e: Expr): seq<Tok> { Print(e, 4) }

  lemma Flat(e: Expr, level: nat)
    requires 1 <= level <= 4 && !e.Bin?
    ensures Print(e, level) == Operand(e)
  {
  }

  lemma Binary(op: Op, a: Expr, b: Expr, level: nat)
    requires 1 <= level <= Level(op)
    ensures Print(Bin(op, a, b), level) == Print(a, Level(op)) + [TOp(op)] + Print(b, Level(op) + 1)
  {
  }

  lemma Levels(p: Op, q: Op)
    ensures Tighter(q, p) <==> Level(q) > Level(p)
  {
  }

  lemma Appended(a: seq<Tok>, s: seq<Tok>, b: seq<Tok>, t: seq<Tok>, c: seq<Tok>)
    ensures a + s + (b + t + c) == a + s + b + t + c
  {
  }

  /** Products and shifts bind tightest, then the bitwise operators, then sums; operators
      that bind alike group to the left. */
  lemma Grouping(a: Expr, p: Op, b: Expr, q: Op, c: Expr)
    requires !a.Bin? && !b.Bin? && !c.Bin?
    ensures Parse(1, Operand(a) + [TOp(p)] + Operand(b) + [TOp(q)] + Operand(c)) ==
            Some((if Tighter(q, p) then Bin(p, a, Bin(q, b, c)) else Bin(q, Bin(p, a, b), c), []))
  {
    hide Print, Parse, Operand, Level, Tighter;
    Levels(p, q);
    Flat(a, Level(p));
    Flat(c, Level(q) + 1);
    if Tighter(q, p) {
      Flat(b, Level(q));
      Binary(q, b, c, Level(p) + 1);
      Binary(p, a, Bin(q, b, c), 1);
      Appended(Operand(a), [TOp(p)], Operand(b), [TOp(q)], Operand(c));
      RoundTrip(Bin(p, a, Bin(q, b, c)));
    } else {
      Flat(b, Level(p) + 1);
      Binary(p, a, b, Level(q));
      Binary(q, Bin(p, a, b), c, 1);
      RoundTrip(Bin(q, Bin(p, a, b), c));
    }
  }

  // ----- operators -----

  /** The operator of unsigned 32-bit integers. */
  function Unsigned(op: Op): ConstFold.Op {
    match op
    case Add => ConstFold.Op.Add
    case Sub => ConstFold.Op.Sub
    case And => ConstFold.Op.And
    case Or => ConstFold.Op.Or
    case Xor => ConstFold.Op.Xor
    case Mul => ConstFold.Op.Mul
    case Div => ConstFold.Op.UDiv
    case Mod => ConstFold.Op.UMod
    case Shl => ConstFold.Op.Shl
    case Sar => ConstFold.Op.Shr
  }

  lemma ArithmeticIs(op: Op, x: nat, y: nat)
    requires x < W && y < W && W == Pow2(32) && ((op == Shl || op == Sar) ==> y < 32)
    ensures Arithmetic(op, x, y) ==
            if (op == Div || op == Mod) && y == 0 then None else Some(ConstFold.Machine(Unsigned(op), x, y, 32))
  {
    hide Pow2, Bitwise, Signed, Words.Shl, Shr;
    if y < 32 { ModSmall(y, 32); }
  }

  /** An operator computes what C's does on unsigned integers, and nothing where that has no
      value. */
  lemma ArithmeticMeans(op: Op, x: nat, y: nat, r: nat)
    requires x < Pow2(32) && y < Pow2(32) && r < Pow2(32) && ((op == Shl || op == Sar) ==> y < 32)
    ensures Pow2(32) == W && (Arithmetic(op, x, y) == Some(r) <==> Operators.Means(Unsigned(op), x, y, r, 32))
  {
    hide Pow2, Operators.Means, Arithmetic, ConstFold.Machine;
    Pow2Values();
    ArithmeticIs(op, x, y);
    if (op == Div || op == Mod) && y == 0 {
      Operators.NoValue(Unsigned(op), x, y, r, 32);
    } else {
      Operators.MachineMeans(Unsigned(op), x, y, r, 32);
    }
  }

  // ----- differences -----

  /** `r` is worth the sum or difference wherever things are placed. */
  ghost predicate Expresses(r: Value, op: Op, x: Value, y: Value, syms: seq<Sym>)
    requires Settled(r, syms) && Settled(x, syms) && Settled(y, syms)
  {
    forall pl: Placement :: Clip(Placed(r, syms, pl)) == Clip(Joined(op, Placed(x, syms, pl), Placed(y, syms, pl)))
  }

  function Joined(op: Op, u: int, v: int): int { if op == Add then u + v else u - v }

  ghost predicate Expressible(op: Op, x: Value, y: Value, syms: seq<Sym>)
    requires Settled(x, syms) && Settled(y, syms)
  {
    exists r: Value :: Settled(r, syms) && Expresses(r, op, x, y, syms)
  }

  predicate Relocatable(x: Value, syms: seq<Sym>)
    requires Settled(x, syms)
  {
    x.sym.Some? ==> syms[x.sym.value].r != SHN_ABS
  }

  function Nowhere(): Placement { Placement(_ => 0, _ => 0) }

  /** Everything at 0 but what moves along with the label `s`, which is at 1. */
  function Moved(s: nat, syms: seq<Sym>): Placement
    requires s < |syms|
  {
    if syms[s].r == 0 then Placement(_ => 0, k => if k == s then 1 else 0)
    else Placement(k => if k == syms[s].r then 1 else 0, _ => 0)
  }

  predicate Together(s: nat, u: nat, syms: seq<Sym>)
    requires s < |syms| && u < |syms|
  {
    s == u || (syms[s].r == syms[u].r && syms[s].r != 0)
  }

  function Drift(x: Value, s: nat, syms: seq<Sym>): int
    requires s < |syms| && Settled(x, syms)
  {
    if x.sym.Some? && syms[x.sym.value].r != SHN_ABS && Together(s, x.sym.value, syms) then 1 else 0
  }

  lemma Drifts(x: Value, s: nat, syms: seq<Sym>)
    requires s < |syms| && Settled(x, syms) && syms[s].r != SHN_ABS
    ensures Placed(x, syms, Moved(s, syms)) == Placed(x, syms, Nowhere()) + Drift(x, s, syms)
  {
  }

  lemma SameDrift(a: int, b: int, d: int, e: int)
    requires Clip(a) == Clip(b) && Clip(a + d) == Clip(b + e) && -4 < d - e < 4
    ensures d == e
  {
  }

  /** What expresses a sum or difference moves as it does. */
  lemma DriftsAlike(r: Value, op: Op, x: Value, y: Value, s: nat, syms: seq<Sym>)
    requires s < |syms| && Settled(r, syms) && Settled(x, syms) && Settled(y, syms) && syms[s].r != SHN_ABS
    requires Expresses(r, op, x, y, syms)
    ensures Drift(r, s, syms) == Joined(op, Drift(x, s, syms), Drift(y, s, syms))
  {
    hide Clip, Placed, Drift, Moved;
    Drifts(r, s, syms);
    Drifts(x, s, syms);
    Drifts(y, s, syms);
    DriftBound(r, s, syms);
    DriftBound(x, s, syms);
    DriftBound(y, s, syms);
    var u, v := Placed(x, syms, Nowhere()), Placed(y, syms, Nowhere());
    var d, e := Drift(r, s, syms), Joined(op, Drift(x, s, syms), Drift(y, s, syms));
    assert Joined(op, Placed(x, syms, Moved(s, syms)), Placed(y, syms, Moved(s, syms))) == Joined(op, u, v) + e;
    SameDrift(Placed(r, syms, Nowhere()), Joined(op, u, v), d, e);
  }

  lemma DriftBound(x: Value, s: nat, syms: seq<Sym>)
    requires s < |syms| && Settled(x, syms)
    ensures 0 <= Drift(x, s, syms) <= 1
  {
  }

  /** A sum or difference is refused exactly if no constant and symbol are worth it wherever
      things are placed. */
  lemma RefusedExactly(op: Op, x: Value, y: Value, syms: seq<Sym>)
    requires Sum(op) && Settled(x, syms) && Settled(y, syms) && Relocatable(x, syms) && Relocatable(y, syms)
    ensures Combine(op, x, y, syms).None? <==> !Expressible(op, x, y, syms)
  {
    hide Clip, Placed;
    var r := Combine(op, x, y, syms);
    if r.Some? {
      forall pl: Placement ensures Clip(Placed(r.value, syms, pl)) == Clip(Joined(op, Placed(x, syms, pl), Placed(y, syms, pl))) {
        SumsPlaced(op, x, y, syms, pl);
      }
      assert Expresses(r.value, op, x, y, syms);
    } else if Expressible(op, x, y, syms) {
      var e: Value :| Settled(e, syms) && Expresses(e, op, x, y, syms);
      DriftsAlike(e, op, x, y, y.sym.value, syms);
      if x.sym.Some? { DriftsAlike(e, op, x, y, x.sym.value, syms); }
    }
  }

  lemma SumsPlaced(op: Op, x: Value, y: Value, syms: seq<Sym>, pl: Placement)
    requires Sum(op) && Settled(x, syms) && Settled(y, syms) && Combine(op, x, y, syms).Some?
    ensures Clip(Placed(Combine(op, x, y, syms).value, syms, pl)) == Clip(Joined(op, Placed(x, syms, pl), Placed(y, syms, pl)))
  {
    hide Clip, Placed, Combine;
    var u, v := Placed(x, syms, pl), Placed(y, syms, pl);
    if op == Add { SumPlaced(x, y, syms, pl); } else { DifferencePlaced(x, y, syms, pl); }
    ClipAdd(u, v);
    ClipAdd(Clip(u), v);
  }

  ghost predicate Movable(s: nat, syms: seq<Sym>)
    requires s < |syms|
  {
    exists pl: Placement, pl': Placement :: Address(s, syms, pl) != Address(s, syms, pl')
  }

  /** A label is replaced by its value exactly if that does not depend on the placement. */
  lemma ConstantExactly(s: nat, syms: seq<Sym>)
    requires s < |syms|
    ensures OfSymbol(s, syms).sym.None? <==> !Movable(s, syms)
  {
    if syms[s].r != SHN_ABS {
      assert Address(s, syms, Moved(s, syms)) != Address(s, syms, Nowhere());
    }
  }

  // ----- which label a reference is to -----

  /** What happens to labels: one is defined (again, if it is numbered), an identifier is
      mentioned, or a number is, forward. */
  datatype Event = Defines(v: Name, sh: nat, value: int) | Mentions(id: nat) | Forward(n: nat)

  predicate EventOk(e: Event) { e.Defines? ==> e.sh != 0 }

  function Step(ls: Labels, e: Event): (r: Option<Labels>)
    requires LabelsOk(ls)
    ensures r.Some? ==> LabelsOk(r.value)
  {
    match e
    case Defines(v, sh, value) => Define(ls, v, v.Numbered?, sh, value)
    case Mentions(id) => Some(LookUp(ls, Ident(id)).1)
    case Forward(n) => Some(Ahead(ls, n).1)
  }

  function Run(ls: Labels, es: seq<Event>): (r: Option<Labels>)
    requires LabelsOk(ls)
    ensures r.Some? ==> LabelsOk(r.value)
    decreases |es|
  {
    if es == [] then Some(ls) else
    var r := Run(ls, es[..|es| - 1]);
    if r.None? then None else Step(r.value, es[|es| - 1])
  }

  /** The label that the last definition of the number gives. */
  function LastDefined(es: seq<Event>, n: nat): Option<Sym>
    decreases |es|
  {
    if es == [] then None else
    var e := es[|es| - 1];
    if e.Defines? && e.v == Numbered(n) then Some(Sym(e.sh, e.value)) else LastDefined(es[..|es| - 1], n)
  }

  const NO_LABELS := Labels([], map[])

  predicate Apart(c: seq<nat>, d: seq<nat>) { forall i, j :: 0 <= i < |c| && 0 <= j < |d| ==> c[i] != d[j] }

  /** All labels of a name are defined, but perhaps the newest. */
  predicate Settling(c: seq<nat>, syms: seq<Sym>)
    requires Below(c, |syms|)
  {
    forall i :: 0 <= i < |c| - 1 ==> syms[c[i]].r != 0
  }

  /** Different names have different labels, and an identifier only one. */
  ghost predicate Orderly(ls: Labels)
    requires LabelsOk(ls)
  {
    && (forall v, w :: v in ls.chains && w in ls.chains && v != w ==> Apart(ls.chains[v], ls.chains[w]))
    && (forall v :: v in ls.chains ==> Settling(ls.chains[v], ls.syms) && (v.Ident? ==> |ls.chains[v]| <= 1))
  }

  lemma OrderlyPush(ls: Labels, v: Name, s: Sym)
    requires LabelsOk(ls) && Orderly(ls)
    requires Find(ls, v).Some? ==> v.Numbered? && ls.syms[Find(ls, v).value].r != 0
    ensures Orderly(Push(ls, v, s))
  {
    hide Push, Apart, Settling, Below, Find;
    var r := Push(ls, v, s);
    PushChains(ls, v, s);
    forall w, u | w in r.chains && u in r.chains && w != u ensures Apart(r.chains[w], r.chains[u]) {
      if w == v { ApartMore(ls, v, u); } else if u == v { ApartMore(ls, v, w); }
    }
    forall w | w in r.chains ensures Settling(r.chains[w], r.syms) && (w.Ident? ==> |r.chains[w]| <= 1) {
      SettlingPush(ls, v, s, w);
    }
  }

  lemma PushChains(ls: Labels, v: Name, s: Sym)
    requires LabelsOk(ls)
    ensures var r := Push(ls, v, s);
            && r.syms == ls.syms + [s]
            && v in r.chains && r.chains[v] == ChainOf(ls, v) + [|ls.syms|]
            && (forall w :: w in r.chains && w != v ==> w in ls.chains && r.chains[w] == ls.chains[w])
            && (forall w :: w in ls.chains ==> w in r.chains)
  {
  }

  lemma SettlingPush(ls: Labels, v: Name, s: Sym, w: Name)
    requires LabelsOk(ls) && Orderly(ls) && w in Push(ls, v, s).chains
    requires Find(ls, v).Some? ==> v.Numbered? && ls.syms[Find(ls, v).value].r != 0
    ensures Settling(Push(ls, v, s).chains[w], Push(ls, v, s).syms) && (w.Ident? ==> |Push(ls, v, s).chains[w]| <= 1)
  {
    hide Push, Orderly, LabelsOk, Apart;
    PushChains(ls, v, s);
    if w in ls.chains { ChainSettles(ls, w); }
  }

  lemma ChainSettles(ls: Labels, w: Name)
    requires LabelsOk(ls) && Orderly(ls) && w in ls.chains
    ensures Below(ls.chains[w], |ls.syms|) && Settling(ls.chains[w], ls.syms) && (w.Ident? ==> |ls.chains[w]| <= 1)
  {
  }

  lemma ApartMore(ls: Labels, v: Name, w: Name)
    requires LabelsOk(ls) && Orderly(ls) && v != w && w in ls.chains
    ensures Apart(ChainOf(ls, v) + [|ls.syms|], ls.chains[w]) && Apart(ls.chains[w], ChainOf(ls, v) + [|ls.syms|])
  {
    assert Below(ls.chains[w], |ls.syms|);
    if v in ls.chains { assert Apart(ls.chains[v], ls.chains[w]); }
  }

  lemma OrderlyStep(ls: Labels, e: Event)
    requires LabelsOk(ls) && Orderly(ls) && EventOk(e) && Step(ls, e).Some?
    ensures Orderly(Step(ls, e).value)
  {
    hide Orderly, Push;
    match e
    case Defines(v, sh, value) =>
      var s := Find(ls, v);
      if s.Some? && ls.syms[s.value].r == 0 {
        OrderlySet(ls, s.value, Sym(sh, value));
      } else {
        OrderlyPush(ls, v, Sym(sh, value));
      }
    case Mentions(id) => if Find(ls, Ident(id)).None? { OrderlyPush(ls, Ident(id), Sym(0, 0)); }
    case Forward(n) =>
      var s := Find(ls, Numbered(n));
      if s.None? || ls.syms[s.value].r != 0 { OrderlyPush(ls, Numbered(n), Sym(0, 0)); }
  }

  lemma OrderlySet(ls: Labels, k: nat, s: Sym)
    requires LabelsOk(ls) && Orderly(ls) && k < |ls.syms| && s.r != 0
    ensures LabelsOk(ls.(syms := ls.syms[k := s])) && Orderly(ls.(syms := ls.syms[k := s]))
  {
    forall v | v in ls.chains ensures Settling(ls.chains[v], ls.syms[k := s]) {
      assert Settling(ls.chains[v], ls.syms);
    }
  }

  /** A reference backward is to the label `last`. */
  predicate Meets(ls: Labels, n: nat, last: Option<Sym>)
    requires LabelsOk(ls)
  {
    match Behind(ls, n)
    case None => last == None
    case Some(s) => s < |ls.syms| && ls.syms[s].r != 0 && last == Some(ls.syms[s])
  }

  lemma MeetsStep(ls: Labels, e: Event, n: nat, last: Option<Sym>)
    requires LabelsOk(ls) && Orderly(ls) && EventOk(e) && Step(ls, e).Some? && Meets(ls, n, last)
    ensures Meets(Step(ls, e).value, n, if e.Defines? && e.v == Numbered(n) then Some(Sym(e.sh, e.value)) else last)
  {
    hide Orderly, Meets, Push;
    var m := Numbered(n);
    match e
    case Defines(v, sh, value) =>
      var s := Find(ls, v);
      if s.Some? && ls.syms[s.value].r == 0 {
        if v != m { OtherLabel(ls, v, m); }
        MeetsSet(ls, s.value, Sym(sh, value), n, last);
      } else {
        MeetsPush(ls, v, Sym(sh, value), n, last);
      }
    case Mentions(id) => if Find(ls, Ident(id)).None? { MeetsPush(ls, Ident(id), Sym(0, 0), n, last); }
    case Forward(k) =>
      var s := Find(ls, Numbered(k));
      if s.None? || ls.syms[s.value].r != 0 { MeetsPush(ls, Numbered(k), Sym(0, 0), n, last); }
  }

  lemma MeetsPush(ls: Labels, v: Name, s: Sym, n: nat, last: Option<Sym>)
    requires LabelsOk(ls) && Meets(ls, n, last)
    requires Find(ls, v).Some? ==> ls.syms[Find(ls, v).value].r != 0
    ensures Meets(Push(ls, v, s), n, if v == Numbered(n) && s.r != 0 then Some(s) else last)
  {
    hide Push;
    PushChains(ls, v, s);
    var m := Numbered(n);
    if m in ls.chains { assert Below(ls.chains[m], |ls.syms|); }
  }

  lemma MeetsSet(ls: Labels, k: nat, s: Sym, n: nat, last: Option<Sym>)
    requires LabelsOk(ls) && Meets(ls, n, last) && k < |ls.syms| && ls.syms[k].r == 0 && s.r != 0
    requires Find(ls, Numbered(n)) == Some(k) || Misses(ChainOf(ls, Numbered(n)), k)
    ensures var r := ls.(syms := ls.syms[k := s]);
            LabelsOk(r) && Meets(r, n, if Find(ls, Numbered(n)) == Some(k) then Some(s) else last)
  {
    var m := Numbered(n);
    if m in ls.chains { assert Below(ls.chains[m], |ls.syms|); }
    assert forall w :: w in ls.chains ==> Below(ls.chains[w], |ls.syms|);
  }

  predicate Misses(c: seq<nat>, k: nat) { forall i :: 0 <= i < |c| ==> c[i] != k }

  lemma OtherLabel(ls: Labels, v: Name, w: Name)
    requires LabelsOk(ls) && Orderly(ls) && v != w && Find(ls, v).Some?
    ensures Misses(ChainOf(ls, w), Find(ls, v).value)
  {
    if w in ls.chains { assert Apart(ls.chains[v], ls.chains[w]); }
  }

  /** A reference backward is to the label of that number defined last, and is refused
      exactly if there is none. */
  lemma {:induction false} BackwardMeetsLast(es: seq<Event>, n: nat)
    requires LabelsOk(NO_LABELS) && (forall i :: 0 <= i < |es| ==> EventOk(es[i])) && Run(NO_LABELS, es).Some?
    ensures Orderly(Run(NO_LABELS, es).value) && Meets(Run(NO_LABELS, es).value, n, LastDefined(es, n))
    decreases |es|
  {
    hide Meets, Orderly, Step;
    if es == [] {
      Nothing(n);
    } else {
      var before := es[..|es| - 1];
      BackwardMeetsLast(before, n);
      var ls := Run(NO_LABELS, before).value;
      OrderlyStep(ls, es[|es| - 1]);
      MeetsStep(ls, es[|es| - 1], n, LastDefined(before, n));
    }
  }

  lemma Nothing(n: nat)
    requires LabelsOk(NO_LABELS)
    ensures Orderly(NO_LABELS) && Meets(NO_LABELS, n, None)
  {
  }

  /** All mentions of an identifier, whatever comes between, are of one label. */
  lemma {:induction false} SameLabel(ls: Labels, id: nat, es: seq<Event>)
    requires LabelsOk(ls) && Orderly(ls) && Run(LookUp(ls, Ident(id)).1, es).Some?
    requires forall i :: 0 <= i < |es| ==> EventOk(es[i])
    ensures var after := Run(LookUp(ls, Ident(id)).1, es).value;
            Orderly(after) && LookUp(after, Ident(id)) == (LookUp(ls, Ident(id)).0, after)
    decreases |es|
  {
    hide Orderly, Step;
    var first := LookUp(ls, Ident(id)).1;
    if es == [] {
      assert Step(ls, Mentions(id)).value == first by { Mentioned(ls, id); }
      OrderlyStep(ls, Mentions(id));
    } else {
      var before := es[..|es| - 1];
      SameLabel(ls, id, before);
      var now := Run(first, before).value;
      OrderlyStep(now, es[|es| - 1]);
      StaysBound(now, id, es[|es| - 1]);
    }
  }

  lemma Mentioned(ls: Labels, id: nat)
    requires LabelsOk(ls)
    ensures Step(ls, Mentions(id)) == Some(LookUp(ls, Ident(id)).1)
  {
  }

  lemma StaysBound(ls: Labels, id: nat, e: Event)
    requires LabelsOk(ls) && EventOk(e) && Step(ls, e).Some? && Find(ls, Ident(id)).Some?
    ensures Find(Step(ls, e).value, Ident(id)) == Find(ls, Ident(id))
  {
  }
}
