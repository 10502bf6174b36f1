/** The one-pass generator: it emits code at the end of a growing buffer and patches jump
    lists as addresses become known. Every method is proved to leave exactly the code that
    `Control` defines with all addresses at hand. */
module OnePass {
  import opened Wrappers
  import opened JumpCode
  import opened Control
  import opened Positions
  import opened Patching
  import opened Regions

  /** A value-stack entry; jumps carry the head of their list. */
  datatype Val = AConst(c: int) | AFlags(op: CompareOp) | AReg | AJump(t: int) | AJumpInv(t: int)

  /** What `v` is when its code is `cells` at `p`. */
  ghost predicate IsVal(code: seq<Cell>, v: Val, at: Place, cells: Symbolic, p: int) {
    match at
    case InConst(c) => v == AConst(c) && Lacks(cells, Pending)
    case InFlags(op) => v == AFlags(op) && Lacks(cells, Pending)
    case InReg => v == AReg && Lacks(cells, Pending)
    case JmpTrue => v.AJump? && Linked(code, v.t, Spots(cells, p, Pending))
    case JmpFalse => v.AJumpInv? && Linked(code, v.t, Spots(cells, p, Pending))
  }

  /** Between `code0` and `code`, `cells` have been appended and nothing else changed. */
  ghost predicate Appended(code0: seq<Cell>, code: seq<Cell>, cells: Symbolic) {
    && |code| == |code0| + |cells|
    && code[..|code0|] == code0
    && Matches(code, |code0|, cells)
  }

  lemma AppendedSeq(code0: seq<Cell>, code1: seq<Cell>, a: Symbolic, code2: seq<Cell>, b: Symbolic)
    requires Appended(code0, code1, a) && Appended(code1, code2, b)
    ensures Appended(code0, code2, a + b)
  {
    RegionGrow(code0, code1, a, code2, b);
  }

  /** Patching list `l` of freshly appended code. */
  lemma AppendedBind(code0: seq<Cell>, code: seq<Cell>, cells: Symbolic, l: Label, a: int)
    requires Appended(code0, code, cells)
    ensures Appended(code0, Patched(code, Spots(cells, |code0|, l), a), Bind(cells, l, a))
  {
    PatchRegion(code0, code, cells, l, a);
  }

  lemma AppendedKeeps(code0: seq<Cell>, code: seq<Cell>, cells: Symbolic, t: int, ts: seq<int>)
    requires Appended(code0, code, cells) && Linked(code0, t, ts)
    ensures Linked(code, t, ts) && forall x :: x in ts ==> 0 < x < |code0|
  {
    LinkedBelow(code0, t, ts);
    forall x | x in ts ensures code[x] == code0[x] { assert code[..|code0|][x] == code0[x]; }
    LinkedFrame(code0, code, t, ts);
  }

  /** The list heads `block` is handed and hands back, and the address of the default. */
  datatype Syms = Syms(b: Option<int>, c: Option<int>, k: Option<int>, d: int)

  ghost function HeadsOf(y: Syms, r: int): Heads { Heads(y.b, y.c, y.k, Some(r)) }

  ghost function First(s: Stmt, p: int): Option<int> {
    if HasCase(s) then Some(FirstCase(s, p)) else None
  }

  lemma LinkIsTie(cells: Symbolic, s: Stmt, p: int)
    ensures Link(cells, s, p) == Tie(cells, First(s, p))
  {
  }

  /** Compiling `s` from `code0` with `y` and the lists `ls` has ended in `code` with `z`. */
  ghost predicate Done(s: Stmt, code0: seq<Cell>, code: seq<Cell>, y: Syms, z: Syms, r: int, ls: Lists) {
    && Part(code0, code, Emit(s, |code0|), First(s, |code0|), HeadsOf(z, r), ls)
    && (z.b.Some? <==> y.b.Some?) && (z.c.Some? <==> y.c.Some?) && (z.k.Some? <==> y.k.Some?)
    && z.d == (if HasDefault(s) then DefaultAt(s, |code0|) else y.d)
  }

  lemma PartBounds(code0: seq<Cell>, code: seq<Cell>, cells: Symbolic, first: Option<int>, h: Heads, ls: Lists)
    requires Part(code0, code, cells, first, h, ls)
    ensures 0 < |code| && Held(code, h, Now(ls, cells, |code0|, first))
  {
  }

  lemma AppendedPart(code0: seq<Cell>, code: seq<Cell>, cells: Symbolic, first: Option<int>, h: Heads, ls: Lists, code': seq<Cell>, x: Symbolic)
    requires Part(code0, code, cells, first, h, ls) && Appended(code, code', x) && Plain(x)
    ensures Part(code0, code', cells + x, first, h, ls)
  {
    PartAppend(code0, code, cells, first, h, ls, code', x);
  }

  /** A list that waits in the region is still there after more code that is not on it. */
  lemma WaitingGrows(code0: seq<Cell>, code: seq<Cell>, cells: Symbolic, code': seq<Cell>, x: Symbolic, l: Label, t: int)
    requires |code| == |code0| + |cells| && Appended(code, code', x) && Lacks(x, l)
    requires Linked(code, t, Spots(cells, |code0|, l))
    ensures Linked(code', t, Spots(cells + x, |code0|, l))
  {
    hide Linked;
    SpotsConcat(cells, x, |code0|, l);
    SpotsNone(x, |code0| + |cells|, l);
    assert [] + Spots(cells, |code0|, l) == Spots(cells, |code0|, l);
    AppendedKeeps(code, code', x, t, Spots(cells, |code0|, l));
  }

  /** Patching one waiting list leaves the other. */
  lemma WaitingBind(code0: seq<Cell>, code: seq<Cell>, cells: Symbolic, l: Label, a: int, l': Label, t: int)
    requires |code| == |code0| + |cells| && !l.To? && !l'.To? && l != l'
    requires Linked(code, t, Spots(cells, |code0|, l'))
    ensures Linked(Patched(code, Spots(cells, |code0|, l), a), t, Spots(Bind(cells, l, a), |code0|, l'))
  {
    hide Linked, Bind, Spots;
    var ss, ts := Spots(cells, |code0|, l), Spots(cells, |code0|, l');
    SpotsBind(cells, l, a, |code0|, l');
    SpotsApart(cells, |code0|, l, l');
    forall x | x in ts && 0 <= x < |code| ensures Patched(code, ss, a)[x] == code[x] {
      assert x !in ss;
    }
    LinkedFrame(code, Patched(code, ss, a), t, ts);
  }

  // ----- rearranging bound code -----

  lemma OnlyLacks(x: Symbolic, b: bool, c: bool, w: bool)
    requires Only(x, b, c, w)
    ensures Lacks(x, Pending) && Lacks(x, Over)
    ensures !b ==> Lacks(x, Brk)
    ensures !c ==> Lacks(x, Cnt)
    ensures !w ==> Lacks(x, Nxt)
  {
  }

  lemma ValuedLacks(x: Symbolic)
    requires Valued(x)
    ensures Plain(x) && Lacks(x, Over) && Lacks(x, Brk) && Lacks(x, Cnt) && Lacks(x, Nxt)
  {
  }

  lemma KnownPlain(x: Symbolic)
    requires Known(x)
    ensures Valued(x) && Plain(x) && Lacks(x, Pending)
  {
  }

  lemma IfShape(test: Symbolic, f: Option<int>, body: Symbolic, a: int)
    requires Valued(test) && Lacks(body, Pending)
    ensures Bind(Tie(test, f) + body, Pending, a) == Bind(test, Pending, a) + body
  {
    ValuedLacks(test);
    if f.Some? { BindNone(test, Nxt, f.value); }
    BindConcat(test, body, Pending, a);
    BindNone(body, Pending, a);
  }

  /** The five pieces of an `if` with `else`, bound in the order the generator binds them. */
  lemma IfElseShape(test: Symbolic, fa: Option<int>, x: Symbolic, q: int, fb: Option<int>, y: Symbolic, end: int)
    requires Valued(test) && Lacks(x, Pending) && Lacks(x, Over) && Lacks(y, Pending) && Lacks(y, Over)
    ensures Bind(Tie(Bind(Tie(test, fa) + x + JmpTo(Over), Pending, q), fb) + y, Over, end) ==
            Bind(test, Pending, q) + (Tie(x, fb) + (JmpTo(To(end)) + y))
  {
    var jump := JmpTo(Over);
    assert Lacks(jump, Pending) && Lacks(jump, Nxt);
    IfShape(test, fa, x, q);
    BindConcat(Tie(test, fa) + x, jump, Pending, q);
    BindNone(jump, Pending, q);
    var t := Bind(test, Pending, q);
    ValuedBind(test, q);
    KnownPlain(t);
    ValuedLacks(t);
    if fb.Some? {
      BindConcat(t + x, jump, Nxt, fb.value);
      BindConcat(t, x, Nxt, fb.value);
      BindNone(t, Nxt, fb.value);
      BindNone(jump, Nxt, fb.value);
    }
    var x' := Tie(x, fb);
    assert Lacks(x', Over);
    BindConcat(t + x' + jump, y, Over, end);
    BindConcat(t + x', jump, Over, end);
    BindConcat(t, x', Over, end);
    BindNone(t, Over, end);
    BindNone(x', Over, end);
    BindNone(y, Over, end);
    assert Bind(jump, Over, end) == JmpTo(To(end));
    var j := JmpTo(To(end));
    assert t + x' + j + y == t + (x' + (j + y));
  }

  lemma LoopShape(test: Symbolic, step: Symbolic, f: Option<int>, body: Symbolic, back: Symbolic, end: int, again: int)
    requires Valued(test) && Known(step) && Known(back)
    ensures Bind(Bind(Tie(AsBreak(test) + step, f) + body + back, Brk, end), Cnt, again) ==
            Bind(test, Pending, end) + (step + (Bind(Bind(body, Brk, end), Cnt, again) + back))
  {
    hide Known, Valued;
    var t := AsBreak(test);
    assert Lacks(t, Nxt) && Lacks(t, Cnt) && Bind(t, Brk, end) == Bind(test, Pending, end) by { AsBreakBound(test, end); }
    KnownAll(step);
    KnownAll(back);
    if f.Some? {
      BindConcat(t, step, Nxt, f.value);
      BindNone(t, Nxt, f.value);
      BindNone(step, Nxt, f.value);
    }
    assert Tie(t + step, f) == t + step;
    var t' := Bind(test, Pending, end);
    ValuedBind(test, end);
    KnownAll(t');
    BindConcat(t + step + body, back, Brk, end);
    BindConcat(t + step, body, Brk, end);
    BindConcat(t, step, Brk, end);
    BindNone(step, Brk, end);
    BindNone(back, Brk, end);
    var b1 := Bind(body, Brk, end);
    BindConcat(t' + step + b1, back, Cnt, again);
    BindConcat(t' + step, b1, Cnt, again);
    BindConcat(t', step, Cnt, again);
    BindNone(t', Cnt, again);
    BindNone(step, Cnt, again);
    BindNone(back, Cnt, again);
    var b2 := Bind(b1, Cnt, again);
    assert t' + step + b2 + back == t' + (step + (b2 + back));
  }

  lemma AsBreakBound(test: Symbolic, end: int)
    requires Valued(test)
    ensures Lacks(AsBreak(test), Nxt) && Lacks(AsBreak(test), Cnt)
    ensures Bind(AsBreak(test), Brk, end) == Bind(test, Pending, end)
  {
  }

  lemma KnownAll(x: Symbolic)
    requires Known(x)
    ensures Plain(x) && Lacks(x, Pending) && Lacks(x, Over) && Lacks(x, Brk) && Lacks(x, Cnt) && Lacks(x, Nxt)
  {
  }

  lemma DoShape(f: Option<int>, body: Symbolic, test: Symbolic, c: int, p: int, end: int)
    requires Valued(test) && Lacks(body, Pending)
    ensures Bind(Bind(Bind(Tie([], f) + body, Cnt, c) + test, Pending, p), Brk, end) ==
            Bind(Bind(body, Brk, end), Cnt, c) + Bind(test, Pending, p)
  {
    assert Tie([], f) + body == body;
    var b := Bind(body, Cnt, c);
    BindConcat(b, test, Pending, p);
    BindNone(b, Pending, p);
    ValuedBind(test, p);
    KnownAll(Bind(test, Pending, p));
    BindConcat(b, Bind(test, Pending, p), Brk, end);
    BindNone(Bind(test, Pending, p), Brk, end);
    assert Bind(b, Brk, end) == Bind(Bind(body, Brk, end), Cnt, c);
  }

  lemma SwitchShape(reg: Symbolic, f: Option<int>, body: Symbolic, other: int, end: int)
    requires Known(reg)
    ensures Bind(Bind(Tie(reg + JmpTo(Nxt), f) + body, Nxt, other), Brk, end) ==
            reg + (JmpTo(To(if f.Some? then f.value else other)) + Bind(Bind(body, Nxt, other), Brk, end))
  {
    KnownAll(reg);
    var jump, a := JmpTo(Nxt), if f.Some? then f.value else other;
    BindConcat(reg, jump, Nxt, a);
    BindNone(reg, Nxt, a);
    var known := JmpTo(To(a));
    assert Bind(jump, Nxt, a) == known;
    var head := Tie(reg + jump, f);
    BindConcat(head, body, Nxt, other);
    assert Lacks(known, Nxt) && Lacks(known, Brk);
    LacksConcat(reg, known, Nxt);
    LacksConcat(reg, known, Brk);
    if f.Some? { BindNone(reg + known, Nxt, other); }
    assert Bind(head, Nxt, other) == reg + known;
    BindConcat(reg + known, Bind(body, Nxt, other), Brk, end);
    BindNone(reg + known, Brk, end);
    var tied := Bind(Bind(body, Nxt, other), Brk, end);
    assert reg + known + tied == reg + (known + tied);
  }

  lemma LacksConcat(a: Symbolic, b: Symbolic, l: Label)
    requires Lacks(a, l) && Lacks(b, l)
    ensures Lacks(a + b, l)
  {
  }

  lemma CaseShape(test: Symbolic, q: int, f: Option<int>, body: Symbolic)
    requires Lacks(test, Over)
    ensures Tie(Bind(JmpTo(Over) + test, Over, q), f) + body == JmpTo(To(q)) + (Tie(test, f) + body)
  {
    BindConcat(JmpTo(Over), test, Over, q);
    BindNone(test, Over, q);
    var known := JmpTo(To(q));
    assert Bind(JmpTo(Over), Over, q) == known;
    if f.Some? {
      assert Lacks(known, Nxt);
      BindConcat(known, test, Nxt, f.value);
      BindNone(known, Nxt, f.value);
    }
    assert known + Tie(test, f) + body == known + (Tie(test, f) + body);
  }

  class CodeGen {
    var code: seq<Cell>
    var rsym: int

    constructor (prolog: seq<Cell>)
      ensures code == prolog && rsym == 0
    {
      code, rsym := prolog, 0;
    }

    /** An opcode followed by a 32-bit field that holds `t`; returns where the field is. */
    method Psym(op: seq<Cell>, t: int, ghost shape: Symbolic, ghost l: Label, ghost ts: seq<int>) returns (s: int)
      requires !l.To? && 0 < |code| + |op| && Linked(code, t, ts)
      requires |shape| == |op| && forall i :: 0 <= i < |op| ==> shape[i] == Raw(op[i])
      modifies `code
      ensures Appended(old(code), code, shape + Disp32(l))
      ensures s == |old(code)| + |op| && code[s] == Slot(t)
      ensures Linked(code, s, [s] + ts)
    {
      s := |code| + |op|;
      code := code + (op + [Slot(t), Fill, Fill, Fill]);
      PsymShape(old(code), code, op, t, shape, l);
      AppendedKeeps(old(code), code, shape + Disp32(l), t, ts);
      LinkedBelow(old(code), t, ts);
      if ts != [] { assert ts[0] in ts; }
      assert ([s] + ts)[1..] == ts;
    }

    static lemma PsymShape(code0: seq<Cell>, code: seq<Cell>, op: seq<Cell>, t: int, shape: Symbolic, l: Label)
      requires !l.To? && code == code0 + (op + [Slot(t), Fill, Fill, Fill])
      requires |shape| == |op| && forall i :: 0 <= i < |op| ==> shape[i] == Raw(op[i])
      ensures Appended(code0, code, shape + Disp32(l))
    {
      var x, p := shape + Disp32(l), |code0|;
      forall i | 0 <= i < |x| ensures CellMatches(code[p + i], x[i], p + i) {
        if i >= |op| {
          assert x[i] == Disp32(l)[i - |op|];
        }
      }
      assert code[..p] == code0;
    }

    /** Appends cells that hold no displacement. */
    method G(cells: seq<Cell>, ghost shape: Symbolic)
      requires |shape| == |cells| && forall i :: 0 <= i < |cells| ==> shape[i] == Raw(cells[i])
      modifies `code
      ensures Appended(old(code), code, shape)
    {
      code := code + cells;
      assert code[..|old(code)|] == old(code);
    }

    method Gjmp(t: int, ghost l: Label, ghost ts: seq<int>) returns (s: int)
      requires !l.To? && Linked(code, t, ts)
      modifies `code
      ensures Appended(old(code), code, JmpTo(l))
      ensures s == |old(code)| + 1 && code[s] == Slot(t) && Linked(code, s, [s] + ts)
    {
      s := Psym([Jmp], t, [Raw(Jmp)], l, ts);
    }

    method Gjcc(op: CompareOp, t: int, ghost l: Label, ghost ts: seq<int>) returns (s: int)
      requires !l.To? && Linked(code, t, ts)
      modifies `code
      ensures Appended(old(code), code, JccTo(op, l))
      ensures s == |old(code)| + 2 && code[s] == Slot(t) && Linked(code, s, [s] + ts)
    {
      s := Psym([Jcc(op), Fill], t, [Raw(Jcc(op)), Raw(Fill)], l, ts);
    }

    method GjmpAddr(a: int)
      modifies `code
      ensures Appended(old(code), code, JmpBack(a, |old(code)|))
    {
      var r := a - |code| - 2;
      if -128 <= r < 128 {
        G([JmpShort, Disp8(r)], [Raw(JmpShort), Raw(Disp8(r))]);
      } else {
        code := code + [Jmp, Slot(a - |code| - 5), Fill, Fill, Fill];
        KnownShape(old(code), code, a);
      }
    }

    static lemma KnownShape(code0: seq<Cell>, code: seq<Cell>, a: int)
      requires code == code0 + [Jmp, Slot(a - |code0| - 5), Fill, Fill, Fill]
      ensures Appended(code0, code, JmpTo(To(a)))
    {
      var x, p := JmpTo(To(a)), |code0|;
      assert x == [Raw(Jmp), Ref(To(a)), Raw(Fill), Raw(Fill), Raw(Fill)];
      forall i | 0 <= i < |x| ensures CellMatches(code[p + i], x[i], p + i) { }
      assert code[..p] == code0;
    }

    /** Walks a list and makes every slot on it lead to `a`. */
    method GsymAddr(t: int, a: int, ghost ss: seq<int>)
      requires Linked(code, t, ss)
      modifies `code
      ensures code == Patched(old(code), ss, a)
    {
      var x := t;
      ghost var done: nat := 0;
      LinkedBelow(code, t, ss);
      while x != 0
        invariant done <= |ss| && Linked(old(code), x, ss[done..])
        invariant |code| == |old(code)| && 0 <= x
        invariant forall i :: 0 <= i < |code| ==>
                    code[i] == if i in ss[..done] then Slot(a - i - 4) else old(code)[i]
        invariant forall i :: i in ss[..done] ==> i > x
        decreases |ss| - done
      {
        LinkedBelow(old(code), x, ss[done..]);
        assert ss[done..][1..] == ss[done + 1..] && ss[done] == x;
        assert ss[..done + 1] == ss[..done] + [x];
        LinkedBelow(old(code), old(code)[x].v, ss[done + 1..]);
        LinkedNat(old(code), old(code)[x].v, ss[done + 1..]);
        var n := code[x].v;
        code := code[x := Slot(a - x - 4)];
        x := n;
        done := done + 1;
      }
      assert ss[..done] == ss;
    }

    static lemma LinkedNat(code: seq<Cell>, t: int, ss: seq<int>)
      requires Linked(code, t, ss)
      ensures 0 <= t
    {
    }

    method Gsym(t: int, ghost ss: seq<int>)
      requires Linked(code, t, ss)
      modifies `code
      ensures code == Patched(old(code), ss, |old(code)|)
    {
      GsymAddr(t, |code|, ss);
    }

    /** Jumps to list `t` when the truth of `v`, whose code is `cells`, differs from `inv`. */
    method Gtst(v: Val, inv: bool, t: int, ghost cells: Symbolic, ghost at: Place, ghost code0: seq<Cell>, ghost ts: seq<int>)
      returns (r: int)
      requires 0 < |code0| && Appended(code0, code, cells) && IsVal(code, v, at, cells, |code0|)
      requires Linked(code0, t, ts)
      modifies `code
      ensures Appended(code0, code, TestOf(cells, at, inv, |code0|))
      ensures Linked(code, r, Spots(TestOf(cells, at, inv, |code0|), |code0|, Pending) + ts)
    {
      hide Linked, Spots, Matches, Bind, Patched;
      ghost var p := |code0|;
      r := t;
      AppendedKeeps(code0, code, cells, t, ts);
      match v
      case AFlags(op) =>
        r := Gjcc(FlipIf(op, inv), t, Pending, ts);
        AppendedTest(code0, old(code), cells, code, [Raw(Jcc(FlipIf(op, inv))), Raw(Fill)], r, ts);
      case AJump(h) =>
        r := GtstJump(h, !inv, t, cells, code0, ts);
      case AJumpInv(h) =>
        r := GtstJump(h, inv, t, cells, code0, ts);
      case AConst(c) =>
        if (c != 0) != inv {
          r := Gjmp(t, Pending, ts);
          AppendedTest(code0, old(code), cells, code, [Raw(Jmp)], r, ts);
        } else {
          SpotsNone(cells, p, Pending);
          assert [] + ts == ts;
        }
      case AReg =>
        G([Test, Fill], [Raw(Test), Raw(Fill)]);
        AppendedSeq(code0, old(code), cells, code, [Raw(Test), Raw(Fill)]);
        AppendedKeeps(code0, code, cells + [Raw(Test), Raw(Fill)], t, ts);
        ghost var mid := code;
        r := Gjcc(FlipIf(TOK_NE, inv), t, Pending, ts);
        AppendedTest(code0, mid, cells + [Raw(Test), Raw(Fill)], code, [Raw(Jcc(FlipIf(TOK_NE, inv))), Raw(Fill)], r, ts);
    }

    /** A value that is the consequence of a jump: its list is merged when it jumps on the
        outcome asked for, and lands here when it jumps on the other. */
    method GtstJump(h: int, same: bool, t: int, ghost cells: Symbolic, ghost code0: seq<Cell>, ghost ts: seq<int>) returns (r: int)
      requires 0 < |code0| && Appended(code0, code, cells)
      requires Linked(code, h, Spots(cells, |code0|, Pending))
      requires Linked(code, t, ts) && forall x :: x in ts ==> x < |code0|
      modifies `code
      ensures var out := if same then cells else Bind(cells, Pending, |old(code)| + 5) + JmpTo(Pending);
              Appended(code0, code, out) && Linked(code, r, Spots(out, |code0|, Pending) + ts)
    {
      hide Linked, Spots, Matches, Bind, Patched;
      if same {
        r := Merge(h, t, cells, code0, ts);
      } else {
        r := Gjmp(t, Pending, ts);
        Opposite(code0, old(code), cells, code, h, r, ts);
        Gsym(h, Spots(cells, |code0|, Pending));
      }
    }

    static lemma AppendedTest(code0: seq<Cell>, code1: seq<Cell>, cells: Symbolic, code2: seq<Cell>, op: Symbolic, r: int, ts: seq<int>)
      requires Appended(code0, code1, cells) && Appended(code1, code2, op + Disp32(Pending)) && Lacks(cells, Pending)
      requires forall i :: 0 <= i < |op| ==> op[i].Raw?
      requires r == |code1| + |op| && Linked(code2, r, [r] + ts)
      ensures Appended(code0, code2, cells + (op + Disp32(Pending)))
      ensures Linked(code2, r, Spots(cells + (op + Disp32(Pending)), |code0|, Pending) + ts)
    {
      hide Linked, Spots;
      var p, x := |code0|, op + Disp32(Pending);
      AppendedSeq(code0, code1, cells, code2, x);
      SpotsConcat(cells, x, p, Pending);
      SpotsNone(cells, p, Pending);
      JumpSpots(op, Pending, |code1|, Pending);
      assert Spots(cells + x, p, Pending) == [r];
    }

    /** The operand's list lands after the jump to `t`. */
    static lemma Opposite(code0: seq<Cell>, code1: seq<Cell>, cells: Symbolic, code2: seq<Cell>, h: int, r: int, ts: seq<int>)
      requires Appended(code0, code1, cells) && Appended(code1, code2, JmpTo(Pending))
      requires Linked(code1, h, Spots(cells, |code0|, Pending))
      requires r == |code1| + 1 && Linked(code2, r, [r] + ts) && forall x :: x in ts ==> x < |code0|
      ensures var ss := Spots(cells, |code0|, Pending); var end := Patched(code2, ss, |code2|);
              var done := Bind(cells, Pending, |code2|) + JmpTo(Pending);
              && Linked(code2, h, ss)
              && Appended(code0, end, done)
              && Linked(end, r, Spots(done, |code0|, Pending) + ts)
    {
      hide Linked, Spots, Matches;
      var p, q, ss, a := |code0|, |code1|, Spots(cells, |code0|, Pending), |code2|;
      var end := Patched(code2, ss, a);
      AppendedKeeps(code1, code2, JmpTo(Pending), h, ss);
      SpotsIn(cells, p, Pending);
      AppendedBind(code0, code1, cells, Pending, a);
      assert end[..q] == Patched(code1, ss, a) by {
        forall i | 0 <= i < q ensures end[i] == Patched(code1, ss, a)[i] { assert code2[..q][i] == code1[i]; }
      }
      MatchesFrame(code2, end, q, JmpTo(Pending));
      AppendedSeq(code0, Patched(code1, ss, a), Bind(cells, Pending, a), end, JmpTo(Pending));
      var done := Bind(cells, Pending, a) + JmpTo(Pending);
      SpotsConcat(Bind(cells, Pending, a), JmpTo(Pending), p, Pending);
      SpotsBind(cells, Pending, a, p, Pending);
      JumpSpots([Raw(Jmp)], Pending, q, Pending);
      assert Spots(done, p, Pending) == [r];
      LinkedFrame(code2, end, r, [r] + ts);
    }

    /** Hangs the list `t` below the operand's own list. */
    method Merge(h: int, t: int, ghost cells: Symbolic, ghost code0: seq<Cell>, ghost ts: seq<int>) returns (r: int)
      requires 0 < |code0| && Appended(code0, code, cells)
      requires Linked(code, h, Spots(cells, |code0|, Pending))
      requires Linked(code, t, ts) && forall x :: x in ts ==> x < |code0|
      modifies `code
      ensures Appended(code0, code, cells)
      ensures Linked(code, r, Spots(cells, |code0|, Pending) + ts)
    {
      ghost var ss := Spots(cells, |code0|, Pending);
      SpotsIn(cells, |code0|, Pending);
      if h == 0 {
        LinkedZero(code, ss);
        assert [] + ts == ts;
        return t;
      }
      var x := h;
      ghost var i: nat := 0;
      while code[x].v != 0
        invariant code == old(code)
        invariant i < |ss| && ss[i] == x && Linked(code, x, ss[i..])
        decreases |ss| - i
      {
        assert ss[i..][1..] == ss[i + 1..];
        LinkedZeroOnly(code, code[x].v, ss[i + 1..]);
        x := code[x].v;
        i := i + 1;
      }
      assert ss[i..][1..] == ss[i + 1..];
      LinkedZero(code, ss[i + 1..]);
      assert x == ss[|ss| - 1] && x in ss;
      LinkedAppend(code, h, ss, t, ts);
      MergeFrame(code0, code, cells, x, t);
      code := code[x := Slot(t)];
      r := h;
    }

    static lemma LinkedZero(code: seq<Cell>, ss: seq<int>)
      requires Linked(code, 0, ss)
      ensures ss == []
    {
    }

    static lemma LinkedZeroOnly(code: seq<Cell>, t: int, ss: seq<int>)
      requires Linked(code, t, ss) && t != 0
      ensures |ss| > 0 && ss[0] == t
    {
    }

    static lemma MergeFrame(code0: seq<Cell>, code: seq<Cell>, cells: Symbolic, x: int, t: int)
      requires Appended(code0, code, cells)
      requires |code0| <= x < |code| && cells[x - |code0|] == Ref(Pending)
      ensures Appended(code0, code[x := Slot(t)], cells)
    {
      var code', p := code[x := Slot(t)], |code0|;
      forall i | 0 <= i < |cells| ensures CellMatches(code'[p + i], cells[i], p + i) {
        assert CellMatches(code[p + i], cells[i], p + i);
      }
      assert code'[..p] == code[..p];
    }

    method Gexpr(e: Expr) returns (v: Val)
      requires 0 < |code|
      modifies `code
      ensures Appended(old(code), code, Code(e, |old(code)|).0)
      ensures IsVal(code, v, Code(e, |old(code)|).1, Code(e, |old(code)|).0, |old(code)|)
      decreases e, 0
    {
      ghost var p := |code|;
      ghost var code0 := code;
      match e
      case Operand(id, extra) =>
        EmitAtom(Atom(id, extra), extra);
        v := AReg;
      case Relation(op, id, extra) =>
        EmitAtom(Cell.Compare(id, extra), extra);
        v := AFlags(op);
      case Const(c) =>
        v := AConst(c);
      case Not(e1) =>
        v := Gexpr(e1);
        match v {
          case AConst(c) => v := AConst(if c == 0 then 1 else 0);
          case AFlags(op) => v := AFlags(Flip(op));
          case _ =>
            assert Linked(code0, 0, []);
            var t := Gtst(v, true, 0, Code(e1, p).0, Code(e1, p).1, code0, []);
            assert Spots(Code(e, p).0, p, Pending) + [] == Spots(Code(e, p).0, p, Pending);
            v := AJump(t);
        }
      case Land(es) =>
        var t := GexprChain(es, true);
        v := AJumpInv(t);
      case Lor(es) =>
        var t := GexprChain(es, false);
        v := AJump(t);
    }

    method EmitAtom(c: Cell, extra: nat)
      modifies `code
      ensures Appended(old(code), code, [Raw(c)] + Fills(extra))
      ensures Lacks([Raw(c)] + Fills(extra), Pending)
    {
      G([c] + seq(extra, _ => Fill), [Raw(c)] + Fills(extra));
    }

    /** `e1 && e2 && ...` tests every operand with the same `inv`, threading one list. */
    method GexprChain(es: Exprs, inv: bool) returns (t: int)
      requires 0 < |code|
      modifies `code
      ensures Appended(old(code), code, ChainCode(es, inv, |old(code)|))
      ensures Linked(code, t, Spots(ChainCode(es, inv, |old(code)|), |old(code)|, Pending))
      decreases es, 0
    {
      hide Linked, Spots, ChainCode, TestOf, Code, Matches;
      t := 0;
      ghost var p := |code|;
      ghost var done: Symbolic := [];
      ChainStart(code);
      var rest := es;
      while rest.Cons?
        invariant Appended(old(code), code, done)
        invariant done + ChainCode(rest, inv, |code|) == ChainCode(es, inv, p)
        invariant Linked(code, t, Spots(done, p, Pending))
        invariant rest == es || rest < es
        decreases rest
      {
        ghost var mid := code;
        ghost var q := |code|;
        var v := Gexpr(rest.head);
        t := Gtst(v, inv, t, Code(rest.head, q).0, Code(rest.head, q).1, mid, Spots(done, p, Pending));
        ghost var x := TestCode(rest.head, inv, q);
        AppendedSeq(old(code), mid, done, code, x);
        SpotsConcat(done, x, p, Pending);
        ChainStep(done, rest, inv, q);
        done := done + x;
        rest := rest.tail;
      }
      ChainEnd(done, rest, inv, |code|);
    }

    static lemma ChainStart(code: seq<Cell>)
      ensures Linked(code, 0, Spots([], |code|, Pending)) && Appended(code, code, [])
    {
    }

    static lemma ChainStep(done: Symbolic, es: Exprs, inv: bool, q: int)
      requires es.Cons?
      ensures var x := TestCode(es.head, inv, q);
              done + ChainCode(es, inv, q) == (done + x) + ChainCode(es.tail, inv, q + |x|)
    {
    }

    static lemma ChainEnd(done: Symbolic, es: Exprs, inv: bool, q: int)
      requires es.Nil?
      ensures done + ChainCode(es, inv, q) == done
    {
    }

    method GexprTest(e: Expr, inv: bool) returns (t: int)
      requires 0 < |code|
      modifies `code
      ensures Appended(old(code), code, TestCode(e, inv, |old(code)|))
      ensures Linked(code, t, Spots(TestCode(e, inv, |old(code)|), |old(code)|, Pending))
    {
      ghost var p := |code|;
      var v := Gexpr(e);
      assert Linked(old(code), 0, []);
      t := Gtst(v, inv, 0, Code(e, p).0, Code(e, p).1, old(code), []);
      assert Spots(TestCode(e, inv, p), p, Pending) + [] == Spots(TestCode(e, inv, p), p, Pending);
    }

    /** Evaluates an expression and throws its value away. */
    method GexprPop(e: Expr)
      requires 0 < |code|
      modifies `code
      ensures Appended(old(code), code, PopCode(e, |old(code)|))
    {
      ghost var p := |code|;
      var v := Gexpr(e);
      ghost var cells := Code(e, p).0;
      AppendedBind(old(code), code, cells, Pending, |code|);
      match v
      case AJump(h) => Gsym(h, Spots(cells, p, Pending));
      case AJumpInv(h) => Gsym(h, Spots(cells, p, Pending));
      case _ =>
        BindNone(cells, Pending, |code|);
    }

    /** Evaluates an expression into the register. */
    method GexprReg(e: Expr)
      requires 0 < |code|
      modifies `code
      ensures Appended(old(code), code, RegCode(e, |old(code)|))
    {
      ghost var p := |code|;
      var v := Gexpr(e);
      ghost var cells := Code(e, p).0;
      ghost var mid := code;
      match v
      case AReg =>
      case AConst(c) =>
        EmitMov(c);
        AppendedSeq(old(code), mid, cells, code, MovImm(c));
      case AFlags(op) =>
        EmitMov(0);
        AppendedSeq(old(code), mid, cells, code, MovImm(0));
        mid := code;
        G([SetCond(op)], [Raw(SetCond(op))]);
        AppendedSeq(old(code), mid, cells + MovImm(0), code, [Raw(SetCond(op))]);
        mid := code;
        G([Fill, Fill], Fills(2));
        AppendedSeq(old(code), mid, cells + MovImm(0) + [Raw(SetCond(op))], code, Fills(2));
      case AJump(h) =>
        LoadJump(h, 0, e, old(code));
      case AJumpInv(h) =>
        LoadJump(h, 1, e, old(code));
    }

    method EmitMov(c: int)
      modifies `code
      ensures Appended(old(code), code, MovImm(c))
    {
      G([Mov(c), Fill, Fill, Fill, Fill], MovImm(c));
    }

    /** The VT_JMP and VT_JMPI cases of `load`; `t` is the parity of the jump. */
    method LoadJump(h: int, t: int, ghost e: Expr, ghost code0: seq<Cell>)
      requires 0 < |code0|
      requires var (cells, at) := Code(e, |code0|);
               && Appended(code0, code, cells)
               && (at.JmpTrue? || at.JmpFalse?) && t == Bit(at.JmpFalse?)
               && Linked(code, h, Spots(cells, |code0|, Pending))
      modifies `code
      ensures Appended(code0, code, RegCode(e, |code0|))
    {
      hide Linked, Spots, Matches, Patched, Code;
      ghost var p, q := |code0|, |code|;
      ghost var (cells, at) := Code(e, p);
      ghost var code1 := code;
      ghost var hop := [Raw(JmpShort), Raw(Disp8(5))];
      EmitMov(t);
      ghost var code2 := code;
      G([JmpShort, Disp8(5)], hop);
      AppendedSeq(code1, code2, MovImm(t), code, hop);
      ghost var ss := Spots(cells, p, Pending);
      ghost var code3 := code;
      AppendedKeeps(code1, code3, MovImm(t) + hop, h, ss);
      Gsym(h, ss);
      ghost var x := MovImm(t) + hop;
      BindHead(code0, code1, cells, code3, x, |code3|);
      ghost var code4 := code;
      EmitMov(1 - t);
      AppendedSeq(code0, code4, Bind(cells, Pending, q + 7) + x, code, MovImm(1 - t));
      assert Bind(cells, Pending, q + 7) + x + MovImm(1 - t) == Bind(cells, Pending, q + 7) + (x + MovImm(1 - t));
    }

    /** Patching a list of the first of two pieces leaves the second as it is. */
    static lemma BindHead(code0: seq<Cell>, code1: seq<Cell>, a: Symbolic, code2: seq<Cell>, b: Symbolic, x: int)
      requires Appended(code0, code1, a) && Appended(code1, code2, b)
      ensures Appended(code0, Patched(code2, Spots(a, |code0|, Pending), x), Bind(a, Pending, x) + b)
    {
      hide Spots, Matches;
      var p, q, ss := |code0|, |code1|, Spots(a, |code0|, Pending);
      var end := Patched(code2, ss, x);
      SpotsIn(a, p, Pending);
      AppendedBind(code0, code1, a, Pending, x);
      assert end[..q] == Patched(code1, ss, x) by {
        forall i | 0 <= i < q ensures end[i] == Patched(code1, ss, x)[i] { assert code2[..q][i] == code1[i]; }
      }
      MatchesFrame(code2, end, q, b);
      AppendedSeq(code0, Patched(code1, ss, x), Bind(a, Pending, x), end, b);
    }

    /** `block`: compiles a statement. It fails where the C code reports an error, and
        otherwise leaves the code of `s`, extends the caller's lists and resolves the
        pending case tests to the first one in `s`. */
    method Block(s: Stmt, y: Syms, ghost ls: Lists) returns (ok: bool, z: Syms)
      requires 0 < |code| && Held(code, HeadsOf(y, rsym), ls)
      modifies this
      ensures ok == Accepted(s, y.b.Some?, y.c.Some?, y.k.Some?, y.d != 0)
      ensures ok ==> Done(s, old(code), code, y, z, rsym, ls)
      decreases s, 1
    {
      hide Held, Done, Emit, Accepted;
      match s
      case Seq(_, _) => ok, z := BlockSeq(s, y, ls);
      case If(_, _) => ok, z := BlockIf(s, y, ls);
      case IfElse(_, _, _) => ok, z := BlockIfElse(s, y, ls);
      case While(e, a) => ok, z := BlockWhile(s, y, ls);
      case For(_, _, _, _) => ok, z := BlockFor(s, y, ls);
      case DoWhile(_, _) => ok, z := BlockDo(s, y, ls);
      case Switch(_, _) => ok, z := BlockSwitch(s, y, ls);
      case Case(_, _, _) => ok, z := BlockCase(s, y, ls);
      case Default(_) => ok, z := BlockDefault(s, y, ls);
      case _ => ok, z := BlockLeaf(s, y, ls);
    }

    method BlockLeaf(s: Stmt, y: Syms, ghost ls: Lists) returns (ok: bool, z: Syms)
      requires s.Skip? || s.Eval? || s.Break? || s.Continue? || s.Return?
      requires 0 < |code| && Held(code, HeadsOf(y, rsym), ls)
      modifies this
      ensures ok == Accepted(s, y.b.Some?, y.c.Some?, y.k.Some?, y.d != 0)
      ensures ok ==> Done(s, old(code), code, y, z, rsym, ls)
    {
      hide Held, Emit, Part, Linked;
      ghost var h := HeadsOf(y, rsym);
      PartStart(code, h, ls);
      EmitLeaf(s, |code|);
      ok, z := true, y;
      match s
      case Skip =>
      case Eval(e) =>
        GexprPop(e);
        ghost var x := PopCode(e, |old(code)|);
        assert Plain(x) by { PopKnown(e, |old(code)|); KnownPlain(x); }
        AppendedPart(old(code), old(code), [], None, h, ls, code, x);
        assert [] + x == x;
      case Break =>
        if y.b.None? { return false, y; }
        var t := JumpOff(y.b.value, Brk, old(code), [], h, ls);
        z := y.(b := Some(t));
      case Continue =>
        if y.c.None? { return false, y; }
        var t := JumpOff(y.c.value, Cnt, old(code), [], h, ls);
        z := y.(c := Some(t));
      case Return(e) =>
        if e.Some? { GexprReg(e.value); }
        ghost var x := OptReg(e, |old(code)|);
        ReturnKnown(old(code), code, e);
        AppendedPart(old(code), old(code), [], None, h, ls, code, x);
        assert [] + x == x;
        rsym := JumpOff(rsym, Ret, old(code), x, h, ls);
    }

    /** `*list = gjmp(*list)`. */
    method JumpOff(t: int, l: Label, ghost code0: seq<Cell>, ghost x: Symbolic, ghost h: Heads, ghost ls: Lists) returns (s: int)
      requires IsList(l) && h.Of(l) == Some(t) && Part(code0, code, x, None, h, ls)
      modifies `code
      ensures Part(code0, code, x + JmpTo(l), None, h.With(l, Some(s)), ls)
      ensures x == [] ==> x + JmpTo(l) == JmpTo(l)
    {
      hide Held, Linked;
      ghost var now := Now(ls, x, |code0|, None);
      HeldLists(code, h, now);
      s := Gjmp(t, l, now.Of(l));
      PartJump(code0, old(code), x, None, h, ls, code, [Raw(Jmp)], l);
    }

    static lemma ReturnKnown(code0: seq<Cell>, code: seq<Cell>, e: Option<Expr>)
      requires if e.Some? then Appended(code0, code, RegCode(e.value, |code0|)) else code == code0
      ensures Appended(code0, code, OptReg(e, |code0|)) && Plain(OptReg(e, |code0|))
    {
      hide RegCode;
      if e.Some? {
        NoJumpNoList(e.value, |code0|);
        RegKnown([], e.value, |code0|);
        KnownPlain(RegCode(e.value, |code0|));
      }
    }

    static lemma HeldLists(code: seq<Cell>, h: Heads, ls: Lists)
      requires Held(code, h, ls)
      ensures h.b.Some? ==> Linked(code, h.b.value, ls.b)
      ensures h.c.Some? ==> Linked(code, h.c.value, ls.c)
      ensures h.k.Some? ==> Linked(code, h.k.value, ls.k)
      ensures h.r.Some? ==> Linked(code, h.r.value, ls.r)
    {
    }

    /** Compiles a sub-statement at the end of a region that may have a list waiting. */
    method Sub(s: Stmt, y: Syms, ghost code0: seq<Cell>, ghost cells: Symbolic, ghost f1: Option<int>, ghost ls: Lists, ghost l: Label, ghost t: Option<int>)
      returns (ok: bool, z: Syms)
      requires Part(code0, code, cells, f1, HeadsOf(y, rsym), ls)
      requires forall x :: ls.Has(x) ==> x < |code0|
      requires (l == Pending || l == Over) && (t.Some? ==> Linked(code, t.value, Spots(cells, |code0|, l)))
      modifies this
      ensures ok == Accepted(s, y.b.Some?, y.c.Some?, y.k.Some?, y.d != 0)
      ensures ok ==> var q := |old(code)|; var f := First(s, q); var out := Tie(cells, f) + Emit(s, q);
                && Part(code0, code, out, Or(f1, f), HeadsOf(z, rsym), ls)
                && (t.Some? ==> Linked(code, t.value, Spots(out, |code0|, l)))
      ensures ok ==> var q := |old(code)|;
                && q == |code0| + |cells| && 0 < q && |code| == q + |Emit(s, q)|
                && Only(Emit(s, q), y.b.Some?, y.c.Some?, y.k.Some?)
                && (z.b.Some? <==> y.b.Some?) && (z.c.Some? <==> y.c.Some?) && (z.k.Some? <==> y.k.Some?)
                && z.d == (if HasDefault(s) then DefaultAt(s, q) else y.d)
      decreases s, 2
    {
      hide Held, Emit, Linked, Spots, Matches, Only, Lacks;
      ghost var code1, h1, q := code, HeadsOf(y, rsym), |code|;
      ghost var mid := Now(ls, cells, |code0|, f1);
      ok, z := Block(s, y, mid);
      if !ok { return; }
      ghost var f, body := First(s, q), Emit(s, q);
      EmitOnly(s, q, y.b.Some?, y.c.Some?, y.k.Some?, y.d != 0);
      OnlyLacks(body, y.b.Some?, y.c.Some?, y.k.Some?);
      PartSeq(code0, code1, cells, f1, h1, ls, code, body, f, HeadsOf(z, rsym));
      if t.Some? { WaitingKept(code0, code1, cells, f1, ls, code, body, f, l, t.value); }
    }

    /** The test of an `if` or of a loop, with the list it leaves by when it fails. */
    method TestPart(e: Expr, ghost h: Heads, ghost ls: Lists) returns (a: int)
      requires 0 < |code| && Held(code, h, ls)
      modifies `code
      ensures Part(old(code), code, TestCode(e, true, |old(code)|), None, h, ls)
      ensures Linked(code, a, Spots(TestCode(e, true, |old(code)|), |old(code)|, Pending))
      ensures Valued(TestCode(e, true, |old(code)|))
    {
      hide Held, Part, Linked, Spots, Matches, TestCode, Valued, Plain;
      a := GexprTest(e, true);
      ghost var x := TestCode(e, true, |old(code)|);
      TestValued(e, true, |old(code)|);
      ValuedLacks(x);
      PartStart(old(code), h, ls);
      AppendedPart(old(code), old(code), [], None, h, ls, code, x);
      assert [] + x == x;
    }

    /** `gsym` on a list that waits for a value or for the end of a skipped stretch. */
    method Bring(t: int, a: int, ghost code0: seq<Cell>, ghost cells: Symbolic, ghost f: Option<int>, ghost h: Heads, ghost ls: Lists, ghost l: Label)
      requires (l == Pending || l == Over) && Part(code0, code, cells, f, h, ls)
      requires Linked(code, t, Spots(cells, |code0|, l)) && forall x :: ls.Has(x) ==> x < |code0|
      modifies `code
      ensures code == Patched(old(code), Spots(cells, |code0|, l), a)
      ensures Part(code0, code, Bind(cells, l, a), f, h, ls)
    {
      GsymAddr(t, a, Spots(cells, |code0|, l));
      PartBind(code0, old(code), cells, f, h, ls, l, a);
    }

    /** `gsym` on a list of the loop or switch that is being left. */
    method Close(t: int, a: int, ghost code0: seq<Cell>, ghost cells: Symbolic, ghost f: Option<int>, ghost h: Heads, ghost ls: Lists, ghost l: Label)
      requires IsList(l) && l != Ret && ls.Of(l) == [] && h.Of(l) == Some(t)
      requires Part(code0, code, cells, f, h, ls) && forall x :: ls.Has(x) ==> x < |code0|
      modifies `code
      ensures code == Patched(old(code), Spots(cells, |code0|, l), a)
      ensures Part(code0, code, Bind(cells, l, a), f, h.With(l, None), ls)
    {
      hide Held, Linked, Spots, Matches, Bind;
      ghost var now := Now(ls, cells, |code0|, f);
      HeldLists(code, h, now);
      assert now.Of(l) == Spots(cells, |code0|, l);
      GsymAddr(t, a, Spots(cells, |code0|, l));
      PartClose(code0, old(code), cells, f, h, ls, l, a);
    }

    static lemma LabelsPairAt(s: Stmt, p: int)
      requires s.Seq? || s.IfElse?
      ensures var a := if s.Seq? then s.first else s.thn; var b := if s.Seq? then s.second else s.els;
              && First(s, p) == Or(First(a, Sub1(s, p)), First(b, Sub2(s, p)))
              && (HasDefault(s) <==> HasDefault(a) || HasDefault(b))
              && (HasDefault(a) ==> DefaultAt(s, p) == DefaultAt(a, Sub1(s, p)))
              && (!HasDefault(a) && HasDefault(b) ==> DefaultAt(s, p) == DefaultAt(b, Sub2(s, p)))
    {
    }

    static lemma LabelsInsideAt(s: Stmt, p: int)
      requires s.If? || s.While? || s.For? || s.DoWhile? || s.Default?
      ensures var a := if s.If? then s.thn else s.body;
              && First(s, p) == First(a, Sub1(s, p))
              && (!s.Default? ==> (HasDefault(s) <==> HasDefault(a)))
              && (!s.Default? && HasDefault(a) ==> DefaultAt(s, p) == DefaultAt(a, Sub1(s, p)))
    {
    }

    method BlockSeq(s: Stmt, y: Syms, ghost ls: Lists) returns (ok: bool, z: Syms)
      requires s.Seq?
      requires 0 < |code| && Held(code, HeadsOf(y, rsym), ls)
      modifies this
      ensures ok == Accepted(s, y.b.Some?, y.c.Some?, y.k.Some?, y.d != 0)
      ensures ok ==> Done(s, old(code), code, y, z, rsym, ls)
      decreases s, 0
    {
      hide Held, Emit, Part, Linked, Spots, Bind, Matches, Plain, Lacks, TestCode, Only, Known, Valued, LoopCode, RegCode, CaseTest;
      ghost var code0, p, h := code, |code|, HeadsOf(y, rsym);
      HeldBound(code, h, ls);
      PartStart(code, h, ls);
      ok, z := Sub(s.first, y, code0, [], None, ls, Pending, None);
      if !ok { return; }
      ghost var x, f1, q := Emit(s.first, p), First(s.first, p), |code|;
      assert Tie([], f1) + x == x;
      if HasDefault(s.first) { DefaultAbove(s.first, p); }
      ok, z := Sub(s.second, z, code0, x, f1, ls, Pending, None);
      if !ok { return; }
      EmitSeq(s.first, s.second, p);
      LinkIsTie(x, s.second, q);
      LabelsPairAt(s, p);
      if HasDefault(s.first) { OneDefault(s.second, y.b.Some?, y.c.Some?, y.k.Some?); }
    }

    method BlockIf(s: Stmt, y: Syms, ghost ls: Lists) returns (ok: bool, z: Syms)
      requires s.If?
      requires 0 < |code| && Held(code, HeadsOf(y, rsym), ls)
      modifies this
      ensures ok == Accepted(s, y.b.Some?, y.c.Some?, y.k.Some?, y.d != 0)
      ensures ok ==> Done(s, old(code), code, y, z, rsym, ls)
      decreases s, 0
    {
      hide Held, Emit, Part, Linked, Spots, Bind, Matches, Plain, Lacks, TestCode, Only, Known, Valued, LoopCode, RegCode, CaseTest;
      ghost var code0, p, h := code, |code|, HeadsOf(y, rsym);
      HeldBound(code, h, ls);
      var a := TestPart(s.cond, h, ls);
      ghost var test, q := TestCode(s.cond, true, p), |code|;
      ok, z := Sub(s.thn, y, code0, test, None, ls, Pending, Some(a));
      if !ok { return; }
      ghost var f, body := First(s.thn, q), Emit(s.thn, q);
      ghost var end := |code|;
      Bring(a, |code|, code0, Tie(test, f) + body, f, HeadsOf(z, rsym), ls, Pending);
      OnlyLacks(body, y.b.Some?, y.c.Some?, y.k.Some?);
      IfShape(test, f, body, end);
      EmitIf(s.cond, s.thn, p);
      LabelsInsideAt(s, p);
    }

    method BlockIfElse(s: Stmt, y: Syms, ghost ls: Lists) returns (ok: bool, z: Syms)
      requires s.IfElse?
      requires 0 < |code| && Held(code, HeadsOf(y, rsym), ls)
      modifies this
      ensures ok == Accepted(s, y.b.Some?, y.c.Some?, y.k.Some?, y.d != 0)
      ensures ok ==> Done(s, old(code), code, y, z, rsym, ls)
      decreases s, 0
    {
      hide Held, Emit, Part, Linked, Spots, Bind, Matches, Plain, Lacks, TestCode, Only, Known, Valued, LoopCode, RegCode, CaseTest;
      ghost var code0, p, h := code, |code|, HeadsOf(y, rsym);
      HeldBound(code, h, ls);
      var d;
      ok, z, d := Branch(s.cond, s.thn, y, ls);
      if !ok { return; }
      ghost var test, q := TestCode(s.cond, true, p), p + |TestCode(s.cond, true, p)|;
      ghost var fa, x, r := First(s.thn, q), Emit(s.thn, q), |code|;
      ghost var head := Bind(Tie(test, fa) + x + JmpTo(Over), Pending, r);
      if HasDefault(s.thn) { DefaultAbove(s.thn, q); }
      ok, z := Sub(s.els, z, code0, head, fa, ls, Over, Some(d));
      if !ok { return; }
      ghost var fb, o, end := First(s.els, r), Emit(s.els, r), |code|;
      Bring(d, |code|, code0, Tie(head, fb) + o, Or(fa, fb), HeadsOf(z, rsym), ls, Over);
      IfElseEmit(s, p, y, test, x, o, end);
      LabelsPairAt(s, p);
      if HasDefault(s.thn) { OneDefault(s.els, y.b.Some?, y.c.Some?, y.k.Some?); }
    }

    /** The test and first branch of an `if` with `else`, and the jump over the second. */
    method Branch(e: Expr, s: Stmt, y: Syms, ghost ls: Lists) returns (ok: bool, z: Syms, d: int)
      requires 0 < |code| && Held(code, HeadsOf(y, rsym), ls)
      modifies this
      ensures ok == Accepted(s, y.b.Some?, y.c.Some?, y.k.Some?, y.d != 0)
      ensures ok ==> var p := |old(code)|; var test := TestCode(e, true, p); var q := p + |test|; var x := Emit(s, q);
                var head := Bind(Tie(test, First(s, q)) + x + JmpTo(Over), Pending, |code|);
                && |code| == q + |x| + 5 && Valued(test)
                && Part(old(code), code, head, First(s, q), HeadsOf(z, rsym), ls)
                && Linked(code, d, Spots(head, p, Over))
                && Only(x, y.b.Some?, y.c.Some?, y.k.Some?)
                && (z.b.Some? <==> y.b.Some?) && (z.c.Some? <==> y.c.Some?) && (z.k.Some? <==> y.k.Some?)
                && z.d == (if HasDefault(s) then DefaultAt(s, q) else y.d)
      decreases s, 3
    {
      hide Held, Emit, Part, Linked, Spots, Bind, Matches, Plain, Lacks, TestCode, Only, Known, Valued, Accepted;
      ghost var code0, p, h := code, |code|, HeadsOf(y, rsym);
      HeldBound(code, h, ls);
      d := 0;
      var a := TestPart(e, h, ls);
      ghost var test, q := TestCode(e, true, p), |code|;
      ok, z := Sub(s, y, code0, test, None, ls, Pending, Some(a));
      if !ok { return; }
      ghost var fa, x := First(s, q), Emit(s, q);
      OnlyLacks(x, y.b.Some?, y.c.Some?, y.k.Some?);
      d := ElseJump(a, code0, test, fa, x, HeadsOf(z, rsym), ls);
    }

    static lemma IfElseEmit(s: Stmt, p: int, y: Syms, test: Symbolic, x: Symbolic, o: Symbolic, end: int)
      requires s.IfElse? && test == TestCode(s.cond, true, p) && Valued(test)
      requires var q := p + |test|; x == Emit(s.thn, q) && o == Emit(s.els, q + |x| + 5) && end == q + |x| + 5 + |o|
      requires Only(x, y.b.Some?, y.c.Some?, y.k.Some?) && Only(o, y.b.Some?, y.c.Some?, y.k.Some?)
      ensures var q := p + |test|; var r := q + |x| + 5;
              var head := Bind(Tie(test, First(s.thn, q)) + x + JmpTo(Over), Pending, r);
              && Sub1(s, p) == q && Sub2(s, p) == r
              && Emit(s, p) == Bind(Tie(head, First(s.els, r)) + o, Over, end)
    {
      hide Emit, Only, Valued, Bind, TestCode, Lacks;
      var q := p + |test|;
      var r := q + |x| + 5;
      OnlyLacks(x, y.b.Some?, y.c.Some?, y.k.Some?);
      OnlyLacks(o, y.b.Some?, y.c.Some?, y.k.Some?);
      IfElseShape(test, First(s.thn, q), x, r, First(s.els, r), o, end);
      EmitIfElse(s.cond, s.thn, s.els, p);
      LinkIsTie(x, s.els, r);
    }

    /** The jump over the `else` branch, after which a failed test lands. */
    method ElseJump(a: int, ghost code0: seq<Cell>, ghost test: Symbolic, ghost fa: Option<int>, ghost x: Symbolic, ghost h: Heads, ghost ls: Lists)
      returns (d: int)
      requires Valued(test) && Lacks(x, Over)
      requires Part(code0, code, Tie(test, fa) + x, fa, h, ls) && forall z :: ls.Has(z) ==> z < |code0|
      requires Linked(code, a, Spots(Tie(test, fa) + x, |code0|, Pending))
      modifies `code
      ensures var head := Bind(Tie(test, fa) + x + JmpTo(Over), Pending, |old(code)| + 5);
              && |code| == |old(code)| + 5 && Part(code0, code, head, fa, h, ls)
              && Linked(code, d, Spots(head, |code0|, Over))
    {
      hide Held, Linked, Spots, Bind, Matches, Plain, Lacks, Known, Valued;
      ghost var cells, jump := Tie(test, fa) + x, JmpTo(Over);
      assert Plain(jump) && Lacks(jump, Pending) && Lacks(cells, Over) by { OverJump(); TieLacks(test, fa, x); }
      LinkedNil(code);
      d := Gjmp(0, Over, []);
      ghost var code2 := code;
      AppendedPart(code0, old(code), cells, fa, h, ls, code2, jump);
      WaitingGrows(code0, old(code), cells, code2, jump, Pending, a);
      SpotsConcat(cells, jump, |code0|, Over);
      SpotsNone(cells, |code0|, Over);
      JumpSpots([Raw(Jmp)], Over, |old(code)|, Over);
      assert Spots(cells + jump, |code0|, Over) == [d] + [];
      Bring(a, |code|, code0, cells + jump, fa, h, ls, Pending);
      WaitingBind(code0, code2, cells + jump, Pending, |code2|, Over, d);
    }

    static lemma OverJump()
      ensures Plain(JmpTo(Over)) && Lacks(JmpTo(Over), Pending)
    {
    }

    static lemma TieLacks(test: Symbolic, f: Option<int>, x: Symbolic)
      requires Valued(test) && Lacks(x, Over)
      ensures Lacks(Tie(test, f) + x, Over)
    {
    }

    method BlockWhile(s: Stmt, y: Syms, ghost ls: Lists) returns (ok: bool, z: Syms)
      requires s.While?
      requires 0 < |code| && Held(code, HeadsOf(y, rsym), ls)
      modifies this
      ensures ok == Accepted(s, y.b.Some?, y.c.Some?, y.k.Some?, y.d != 0)
      ensures ok ==> Done(s, old(code), code, y, z, rsym, ls)
      decreases s, 0
    {
      hide Held, Emit, Part, Linked, Spots, Bind, Matches, Plain, Lacks, TestCode, Only, Known, Valued, LoopCode, RegCode, CaseTest;
      ghost var code0, p, h := code, |code|, HeadsOf(y, rsym);
      HeldBound(code, h, ls);
      ok, z := BlockLoop(Some(s.cond), None, s.body, y, ls);
      if !ok { return; }
      EmitLoop(s, p);
      LabelsInsideAt(s, p);
    }

    method BlockFor(s: Stmt, y: Syms, ghost ls: Lists) returns (ok: bool, z: Syms)
      requires s.For?
      requires 0 < |code| && Held(code, HeadsOf(y, rsym), ls)
      modifies this
      ensures ok == Accepted(s, y.b.Some?, y.c.Some?, y.k.Some?, y.d != 0)
      ensures ok ==> Done(s, old(code), code, y, z, rsym, ls)
      decreases s, 0
    {
      hide Held, Emit, Part, Linked, Spots, Bind, Matches, Plain, Lacks, TestCode, Only, Known, Valued, LoopCode, RegCode, CaseTest;
      ghost var code0, p, h := code, |code|, HeadsOf(y, rsym);
      HeldBound(code, h, ls);
      PartStart(code, h, ls);
      if s.init.Some? { GexprPop(s.init.value); }
      ghost var code1, x, d := code, OptPop(s.init, p), |code|;
      InitKnown(code0, code1, s.init);
      KnownPlain(x);
      AppendedPart(code0, code0, [], None, h, ls, code1, x);
      assert [] + x == x;
      PartBounds(code0, code1, x, None, h, ls);
      ok, z := BlockLoop(s.test, s.incr, s.body, y, Now(ls, x, p, None));
      if !ok { return; }
      ghost var loop, f := LoopCode(s.test, s.incr, s.body, d), First(s.body, BodyAt(s.test, s.incr, d));
      PartSeq(code0, code1, x, None, h, ls, code, loop, f, HeadsOf(z, rsym));
      assert Tie(x, f) == x by { TieKnown(x, f); }
      EmitLoop(s, p);
      LabelsInsideAt(s, p);
    }

    static lemma TieKnown(x: Symbolic, f: Option<int>)
      requires Known(x)
      ensures Tie(x, f) == x
    {
      if f.Some? { BindNone(x, Nxt, f.value); }
    }

    static lemma InitKnown(code0: seq<Cell>, code: seq<Cell>, e: Option<Expr>)
      requires if e.Some? then Appended(code0, code, PopCode(e.value, |code0|)) else code == code0
      ensures Appended(code0, code, OptPop(e, |code0|)) && Known(OptPop(e, |code0|))
    {
      hide PopCode;
      if e.Some? { PopKnown(e.value, |code0|); }
    }

    /** A `while` or `for` from its test on. */
    method BlockLoop(c: Option<Expr>, n: Option<Expr>, body: Stmt, y: Syms, ghost ls: Lists) returns (ok: bool, z: Syms)
      requires 0 < |code| && Held(code, HeadsOf(y, rsym), ls)
      modifies this
      ensures ok == Accepted(body, true, true, y.k.Some?, y.d != 0)
      ensures ok ==> var d := |old(code)|; var q := BodyAt(c, n, d);
                && Part(old(code), code, LoopCode(c, n, body, d), First(body, q), HeadsOf(z, rsym), ls)
                && (z.b.Some? <==> y.b.Some?) && (z.c.Some? <==> y.c.Some?) && (z.k.Some? <==> y.k.Some?)
                && z.d == (if HasDefault(body) then DefaultAt(body, q) else y.d)
      decreases body, 3
    {
      hide Held, Emit, Part, Linked, Spots, Bind, Matches, Plain, Lacks, TestCode, Only, Known, Valued, StepCode, AsBreak, JmpBack;
      hide Accepted, DefaultAt, FirstCase, Code, Patched;
      ghost var code0, h, ls' := code, HeadsOf(y, rsym), LoopLists(ls);
      var d := |code|;
      HeldBound(code, h, ls);
      EnterLoop(code, h, ls);
      InnerHas(ls);
      var a := LoopTest(c, h, ls);
      var c1 := d;
      if n.Some? { c1 := |code| + 5; }
      ghost var code1, test, st := code, OptTest(c, d), |code|;
      if n.Some? { LoopStep(n.value, d); }
      ghost var step, q := StepCode(n, d, st), |code|;
      StepKnown(n, d, st);
      KnownPlain(step);
      ghost var head, h1 := AsBreak(test) + step, LoopHeads(h).(b := Some(a));
      assert Appended(code1, code, step) by { NoStep(code1, n, d); }
      AppendedPart(code0, code1, AsBreak(test), None, h1, ls', code, step);
      ok, z := Sub(body, Syms(Some(a), Some(0), y.k, y.d), code0, head, None, ls', Pending, None);
      if !ok { return; }
      ghost var f, b, code3 := First(body, q), Emit(body, q), code;
      ghost var back := JmpBack(c1, |code|);
      GjmpAddr(c1);
      ghost var end, h3 := |code|, HeadsOf(z, rsym);
      BackKnown(c1, |code3|);
      KnownPlain(back);
      ghost var cells := Tie(head, f) + b + back;
      AppendedPart(code0, code3, Tie(head, f) + b, f, h3, ls', code, back);
      Close(z.b.value, |code|, code0, cells, f, h3, ls', Brk);
      Close(z.c.value, c1, code0, Bind(cells, Brk, end), f, h3.With(Brk, None), ls', Cnt);
      LoopShape(test, step, f, b, back, end, c1);
      ghost var out := LoopCode(c, n, body, d);
      assert out == Bind(Bind(cells, Brk, end), Cnt, c1);
      assert Lacks(out, Brk) && Lacks(out, Cnt) by { BoundLacks(cells, Brk, end, Cnt, c1); }
      LeaveLoop(code0, code, out, f, h, h3.With(Brk, None).With(Cnt, None), ls);
      z := z.(b := y.b, c := y.c);
    }

    static lemma BoundLacks(x: Symbolic, l: Label, a: int, l': Label, a': int)
      requires !l.To? && !l'.To?
      ensures Lacks(Bind(Bind(x, l, a), l', a'), l) && Lacks(Bind(Bind(x, l, a), l', a'), l')
    {
    }

    static lemma NoStep(code: seq<Cell>, n: Option<Expr>, d: int)
      ensures n.None? ==> Appended(code, code, StepCode(n, d, |code|))
    {
    }

    method LoopTest(c: Option<Expr>, ghost h: Heads, ghost ls: Lists) returns (a: int)
      requires 0 < |code| && Held(code, h, ls)
      modifies `code
      ensures var test := OptTest(c, |old(code)|);
              && Valued(test) && |code| == |old(code)| + |test|
              && Part(old(code), code, AsBreak(test), None, LoopHeads(h).(b := Some(a)), LoopLists(ls))
    {
      hide Held, Linked, Spots, Matches, Plain, TestCode, Valued, AsBreak;
      ghost var code0, h', ls' := code, LoopHeads(h), LoopLists(ls);
      HeldBound(code, h, ls);
      EnterLoop(code, h, ls);
      InnerHas(ls);
      a := 0;
      if c.Some? {
        PartBounds(code, code, [], None, h', ls');
        assert Now(ls', [], |code|, None) == ls' by { NowNil(ls', |code|); }
        a := TestPart(c.value, h', ls');
        ValuedLacks(TestCode(c.value, true, |code0|));
        PartAsBreak(code0, code, TestCode(c.value, true, |code0|), h', ls', a);
      } else {
        NilValued();
        NilAsBreak();
      }
    }

    static lemma InnerHas(ls: Lists)
      ensures forall x :: LoopLists(ls).Has(x) || SwitchLists(ls).Has(x) ==> ls.Has(x)
    {
    }

    static lemma NowNil(ls: Lists, p: int)
      ensures Now(ls, [], p, None) == ls
    {
    }

    static lemma NilAsBreak()
      ensures AsBreak([]) == []
    {
    }

    /** The increment, jumped over on the way to the body. */
    method LoopStep(e: Expr, d: int)
      requires 0 < |code|
      modifies `code
      ensures Appended(old(code), code, StepCode(Some(e), d, |old(code)|))
    {
      hide Linked, Spots, Bind, Matches, PopCode, JmpBack;
      ghost var code0, p := code, |code|;
      LinkedNil(code);
      var o := Gjmp(0, Over, []);
      ghost var code1 := code;
      GexprPop(e);
      ghost var code2, c := code, PopCode(e, p + 5);
      AppendedSeq(code0, code1, JmpTo(Over), code2, c);
      GjmpAddr(d);
      ghost var code3, back := code, JmpBack(d, |code2|);
      AppendedSeq(code0, code2, JmpTo(Over) + c, code3, back);
      PopKnown(e, p + 5);
      BackKnown(d, |code2|);
      assert code3[..|code1|] == code1 by { PrefixTrans(code1, code2, code3); }
      StepOver(code1, code3, c, back, p);
      KnownAll(c);
      KnownAll(back);
      StepShape(c, back, |code3|);
      Gsym(o, Spots(JmpTo(Over) + c + back, p, Over));
      AppendedBind(code0, code3, JmpTo(Over) + c + back, Over, |code3|);
    }

    static lemma StepOver(code1: seq<Cell>, code3: seq<Cell>, c: Symbolic, back: Symbolic, p: int)
      requires Known(c) && Known(back) && 0 < p + 1 < |code1| <= |code3| && code3[..|code1|] == code1
      requires Linked(code1, p + 1, [p + 1] + [])
      ensures Linked(code3, p + 1, Spots(JmpTo(Over) + c + back, p, Over))
    {
      hide Linked, Spots, JmpTo, Known;
      StepSpots(c, back, p);
      assert code3[p + 1] == code1[p + 1] by { assert code3[..|code1|][p + 1] == code1[p + 1]; }
      LinkedFrame(code1, code3, p + 1, [p + 1] + []);
    }

    static lemma PrefixTrans(a: seq<Cell>, b: seq<Cell>, c: seq<Cell>)
      requires |a| <= |b| <= |c| && b[..|a|] == a && c[..|b|] == b
      ensures c[..|a|] == a
    {
      assert c[..|a|] == c[..|b|][..|a|];
    }

    static lemma StepSpots(c: Symbolic, back: Symbolic, p: int)
      requires Known(c) && Known(back)
      ensures Spots(JmpTo(Over) + c + back, p, Over) == [p + 1] + []
    {
      hide Spots, Known;
      var jump := JmpTo(Over);
      KnownAll(c);
      KnownAll(back);
      SpotsConcat(jump + c, back, p, Over);
      SpotsConcat(jump, c, p, Over);
      SpotsNone(c, p + 5, Over);
      SpotsNone(back, p + |jump + c|, Over);
      JumpSpots([Raw(Jmp)], Over, p, Over);
    }

    static lemma StepShape(c: Symbolic, back: Symbolic, a: int)
      requires Lacks(c, Over) && Lacks(back, Over)
      ensures Bind(JmpTo(Over) + c + back, Over, a) == JmpTo(To(a)) + c + back
    {
      hide Lacks;
      var jump := JmpTo(Over);
      BindConcat(jump + c, back, Over, a);
      BindConcat(jump, c, Over, a);
      BindNone(c, Over, a);
      BindNone(back, Over, a);
      assert Bind(jump, Over, a) == JmpTo(To(a));
    }

    method BlockDo(s: Stmt, y: Syms, ghost ls: Lists) returns (ok: bool, z: Syms)
      requires s.DoWhile?
      requires 0 < |code| && Held(code, HeadsOf(y, rsym), ls)
      modifies this
      ensures ok == Accepted(s, y.b.Some?, y.c.Some?, y.k.Some?, y.d != 0)
      ensures ok ==> Done(s, old(code), code, y, z, rsym, ls)
      decreases s, 0
    {
      hide Held, Emit, Part, Linked, Spots, Bind, Matches, Plain, Lacks, TestCode, Only, Known, Valued, LoopCode, RegCode, CaseTest;
      ghost var code0, p, h := code, |code|, HeadsOf(y, rsym);
      HeldBound(code, h, ls);
      ghost var ls' := LoopLists(ls);
      EnterLoop(code, h, ls);
      InnerHas(ls);
      var d := |code|;
      ok, z := Sub(s.body, Syms(Some(0), Some(0), y.k, y.d), code0, [], None, ls', Pending, None);
      if !ok { return; }
      ghost var f, body, c, h1 := First(s.body, p), Emit(s.body, p), |code|, HeadsOf(z, rsym);
      OnlyLacks(body, true, true, y.k.Some?);
      ghost var cells := Tie([], f) + body;
      assert cells == body;
      Close(z.c.value, |code|, code0, cells, f, h1, ls', Cnt);
      ghost var tied, h2, code2 := Bind(cells, Cnt, c), h1.With(Cnt, None), code;
      var t := GexprTest(s.cond, false);
      ghost var test := TestCode(s.cond, false, c);
      TestValued(s.cond, false, c);
      ValuedLacks(test);
      AppendedPart(code0, code2, tied, f, h2, ls', code, test);
      assert Linked(code, t, Spots(tied + test, p, Pending)) by {
        SpotsConcat(tied, test, p, Pending);
        BindLacks(body, Cnt, c, Pending);
        SpotsNone(tied, p, Pending);
        assert Spots(test, c, Pending) + [] == Spots(test, c, Pending);
      }
      Bring(t, d, code0, tied + test, f, h2, ls', Pending);
      ghost var end := |code|;
      Close(z.b.value, |code|, code0, Bind(tied + test, Pending, d), f, h2, ls', Brk);
      DoShape(f, body, test, c, d, end);
      EmitDo(s.body, s.cond, p);
      assert Lacks(Emit(s, p), Brk) && Lacks(Emit(s, p), Cnt) by { DoLacks(body, end, c, test, p); }
      LeaveLoop(code0, code, Emit(s, p), f, h, h2.With(Brk, None), ls);
      z := z.(b := y.b, c := y.c);
      LabelsInsideAt(s, p);
    }

    static lemma BindLacks(x: Symbolic, l: Label, a: int, l': Label)
      requires Lacks(x, l') && !l'.To?
      ensures Lacks(Bind(x, l, a), l')
    {
    }

    static lemma DoLacks(body: Symbolic, end: int, c: int, test: Symbolic, p: int)
      requires Valued(test)
      ensures var x := Bind(Bind(body, Brk, end), Cnt, c) + Bind(test, Pending, p); Lacks(x, Brk) && Lacks(x, Cnt)
    {
    }

    method BlockSwitch(s: Stmt, y: Syms, ghost ls: Lists) returns (ok: bool, z: Syms)
      requires s.Switch?
      requires 0 < |code| && Held(code, HeadsOf(y, rsym), ls)
      modifies this
      ensures ok == Accepted(s, y.b.Some?, y.c.Some?, y.k.Some?, y.d != 0)
      ensures ok ==> Done(s, old(code), code, y, z, rsym, ls)
      decreases s, 0
    {
      hide Held, Emit, Part, Linked, Spots, Bind, Matches, Plain, Lacks, TestCode, Only, Known, Valued, LoopCode, RegCode, CaseTest, Code, Patched, FirstCase, DefaultAt;
      ghost var code0, p, h := code, |code|, HeadsOf(y, rsym);
      HeldBound(code, h, ls);
      ghost var ls', h0 := SwitchLists(ls), SwitchHeads(h);
      EnterSwitch(code, h, ls);
      InnerHas(ls);
      GexprReg(s.scrutinee);
      ghost var reg := RegCode(s.scrutinee, p);
      NoJumpNoList(s.scrutinee, p);
      RegKnown([], s.scrutinee, p);
      KnownPlain(reg);
      AppendedPart(code0, code0, [], None, h0, ls', code, reg);
      assert [] + reg == reg;
      var b := JumpOff(0, Nxt, code0, reg, h0, ls');
      ghost var q := |code|;
      assert HeadsOf(Syms(Some(0), y.c, Some(b), 0), rsym) == h0.With(Nxt, Some(b));
      ok, z := Sub(s.body, Syms(Some(0), y.c, Some(b), 0), code0, reg + JmpTo(Nxt), None, ls', Pending, None);
      if !ok { return; }
      ghost var f, body, end := First(s.body, q), Emit(s.body, q), |code|;
      var c := z.d;
      if c == 0 { c := |code|; }
      if HasDefault(s.body) { DefaultAbove(s.body, q); }
      assert c == Otherwise(s.body, q);
      ghost var cells, h1 := Tie(reg + JmpTo(Nxt), f) + body, HeadsOf(z, rsym);
      Close(z.k.value, c, code0, cells, f, h1, ls', Nxt);
      Close(z.b.value, |code|, code0, Bind(cells, Nxt, c), f, h1.With(Nxt, None), ls', Brk);
      SwitchShape(reg, f, body, c, end);
      EmitSwitch(s.scrutinee, s.body, p);
      assert Emit(s, p) == Bind(Bind(cells, Nxt, c), Brk, end);
      assert Lacks(Emit(s, p), Brk) && Lacks(Emit(s, p), Nxt) by { BoundLacks(cells, Nxt, c, Brk, end); }
      LeaveSwitch(code0, code, Emit(s, p), f, h, h1.With(Nxt, None).With(Brk, None), ls);
      z := Syms(y.b, z.c, y.k, y.d);
    }

    method BlockCase(s: Stmt, y: Syms, ghost ls: Lists) returns (ok: bool, z: Syms)
      requires s.Case?
      requires 0 < |code| && Held(code, HeadsOf(y, rsym), ls)
      modifies this
      ensures ok == Accepted(s, y.b.Some?, y.c.Some?, y.k.Some?, y.d != 0)
      ensures ok ==> Done(s, old(code), code, y, z, rsym, ls)
      decreases s, 0
    {
      hide Held, Emit, Part, Linked, Spots, Bind, Matches, Plain, Lacks, TestCode, Only, Known, Valued, LoopCode, RegCode, CaseTest;
      ghost var code0, p, h := code, |code|, HeadsOf(y, rsym);
      HeldBound(code, h, ls);
      if y.k.None? { return false, y; }
      PartStart(code, h, ls);
      LinkedNil(code);
      var b := Gjmp(0, Over, []);
      ghost var jump := JmpTo(Over);
      OverJump();
      AppendedPart(code0, code0, [], None, h, ls, code, jump);
      assert [] + jump == jump;
      CaseLists(code0, code, h, ls, b);
      ghost var code1 := code;
      Gsym(y.k.value, ls.k);
      PartFirst(code0, code1, jump, h, ls, p + 5);
      PatchedOver(code0, code1, ls, b);
      ghost var h1 := h.(k := Some(0));
      var k := EmitCaseTest(s.lo, s.hi, b, code0, h1, ls);
      ghost var q, test := |code|, CaseTest(s.lo, s.hi);
      Bring(b, |code|, code0, jump + test, Some(p + 5), h1.With(Nxt, Some(k)), ls, Over);
      ghost var head := Bind(jump + test, Over, q);
      ok, z := Sub(s.body, y.(k := Some(k)), code0, head, Some(p + 5), ls, Pending, None);
      if !ok { return; }
      ghost var f, body := First(s.body, q), Emit(s.body, q);
      OnlyCaseTest(s.lo, s.hi, false, false);
      OnlyLacks(test, false, false, true);
      CaseShape(test, q, f, body);
      EmitCase(s.lo, s.hi, s.body, p);
      LinkIsTie(test, s.body, q);
    }

    static lemma CaseLists(code0: seq<Cell>, code: seq<Cell>, h: Heads, ls: Lists, b: int)
      requires Held(code0, h, ls) && h.k.Some? && Appended(code0, code, JmpTo(Over)) && b == |code0| + 1
      ensures Linked(code, h.k.value, ls.k)
      ensures Spots(JmpTo(Over), |code0|, Over) == [b]
    {
      hide Linked, Spots;
      HeldLists(code0, h, ls);
      AppendedKeeps(code0, code, JmpTo(Over), h.k.value, ls.k);
      JumpSpots([Raw(Jmp)], Over, |code0|, Over);
    }

    static lemma PatchedOver(code0: seq<Cell>, code: seq<Cell>, ls: Lists, b: int)
      requires |code0| < b < |code| && Linked(code, b, [b] + []) && forall x :: ls.Has(x) ==> x < |code0|
      ensures forall a :: Linked(Patched(code, ls.k, a), b, [b] + [])
    {
      hide Linked;
      assert forall x :: x in ls.k ==> ls.Has(x);
      forall a ensures Linked(Patched(code, ls.k, a), b, [b] + []) {
        LinkedFrame(code, Patched(code, ls.k, a), b, [b] + []);
      }
    }

    /** The comparison with the value or the two bounds of a case. */
    method EmitCaseTest(lo: int, hi: int, b: int, ghost code0: seq<Cell>, ghost h: Heads, ghost ls: Lists) returns (k: int)
      requires h.k == Some(0) && Part(code0, code, JmpTo(Over), Some(|code0| + 5), h, ls)
      requires b == |code0| + 1 && Linked(code, b, [b] + [])
      modifies `code
      ensures |code| == |code0| + 5 + |CaseTest(lo, hi)|
      ensures Part(code0, code, JmpTo(Over) + CaseTest(lo, hi), Some(|code0| + 5), h.With(Nxt, Some(k)), ls)
      ensures Linked(code, b, Spots(JmpTo(Over) + CaseTest(lo, hi), |code0|, Over))
    {
      hide Held, Linked, Spots, Matches, Plain, Lacks, Part;
      PartLength(code0, code, JmpTo(Over), Some(|code0| + 5), h, ls);
      ghost var jump, first := JmpTo(Over), Some(|code0| + 5);
      JumpSpots([Raw(Jmp)], Over, |code0|, Over);
      assert [b] + [] == Spots(jump, |code0|, Over);
      if lo == hi {
        k := EmitCompare(lo, Flip(TOK_EQ), 0, b, code0, jump, first, h, ls);
      } else {
        k := EmitCompare(lo, Flip(TOK_GE), 0, b, code0, jump, first, h, ls);
        ghost var x := CompareImm(lo) + JccTo(Flip(TOK_GE), Nxt);
        ghost var h1 := h.With(Nxt, Some(k));
        k := EmitCompare(hi, Flip(TOK_LE), k, b, code0, jump + x, first, h1, ls);
        assert jump + x + (CompareImm(hi) + JccTo(Flip(TOK_LE), Nxt)) == jump + CaseTest(lo, hi);
      }
    }

    static lemma PartLength(code0: seq<Cell>, code: seq<Cell>, cells: Symbolic, first: Option<int>, h: Heads, ls: Lists)
      requires Part(code0, code, cells, first, h, ls)
      ensures |code| == |code0| + |cells| && 0 < |code0|
    {
    }

    /** One comparison whose failure goes on to the next case test. */
    method EmitCompare(c: int, op: CompareOp, k0: int, b: int, ghost code0: seq<Cell>, ghost cells: Symbolic, ghost first: Option<int>, ghost h: Heads, ghost ls: Lists)
      returns (k: int)
      requires h.k == Some(k0) && Part(code0, code, cells, first, h, ls) && Linked(code, b, Spots(cells, |code0|, Over))
      modifies `code
      ensures var x := CompareImm(c) + JccTo(op, Nxt);
              && |code| == |old(code)| + |x|
              && Part(code0, code, cells + x, first, h.With(Nxt, Some(k)), ls)
              && Linked(code, b, Spots(cells + x, |code0|, Over))
    {
      hide Held, Linked, Spots, Matches;
      var extra := if -128 <= c < 128 then 2 else 5;
      ghost var imm, jcc := CompareImm(c), JccTo(op, Nxt);
      G([CompareTo(c, extra)] + seq(extra, _ => Fill), imm);
      ghost var code1 := code;
      assert Plain(imm) && Lacks(imm, Over) && Lacks(jcc, Over);
      AppendedPart(code0, old(code), cells, first, h, ls, code1, imm);
      WaitingGrows(code0, old(code), cells, code1, imm, Over, b);
      PartBounds(code0, code1, cells + imm, first, h, ls);
      ghost var now := Now(ls, cells + imm, |code0|, first);
      HeldLists(code1, h, now);
      k := Gjcc(op, k0, Nxt, now.k);
      PartJump(code0, code1, cells + imm, first, h, ls, code, [Raw(Jcc(op)), Raw(Fill)], Nxt);
      WaitingGrows(code0, code1, cells + imm, code, jcc, Over, b);
      assert cells + imm + jcc == cells + (imm + jcc);
    }

    method BlockDefault(s: Stmt, y: Syms, ghost ls: Lists) returns (ok: bool, z: Syms)
      requires s.Default?
      requires 0 < |code| && Held(code, HeadsOf(y, rsym), ls)
      modifies this
      ensures ok == Accepted(s, y.b.Some?, y.c.Some?, y.k.Some?, y.d != 0)
      ensures ok ==> Done(s, old(code), code, y, z, rsym, ls)
      decreases s, 0
    {
      hide Held, Emit, Part, Linked, Spots, Bind, Matches, Plain, Lacks, TestCode, Only, Known, Valued, LoopCode, RegCode, CaseTest;
      ghost var code0, p, h := code, |code|, HeadsOf(y, rsym);
      HeldBound(code, h, ls);
      if y.k.None? { return false, y; }
      if y.d != 0 { return false, y; }
      PartStart(code, h, ls);
      ok, z := Sub(s.body, y.(d := |code|), code0, [], None, ls, Pending, None);
      if !ok { return; }
      ghost var f, body := First(s.body, p), Emit(s.body, p);
      assert Tie([], f) + body == body;
      OneDefault(s.body, y.b.Some?, y.c.Some?, y.k.Some?);
      EmitLoop(s, p);
      LabelsInsideAt(s, p);
    }

    /** `gen_function` around a body: the return list lands after it. */
    method GenFunction(s: Stmt) returns (ok: bool)
      requires 0 < |code|
      modifies this
      ensures ok == WellPlaced(s)
      ensures ok ==> Appended(old(code), code, Bind(Emit(s, |old(code)|), Ret, |code|))
    {
      hide WellPlaced;
      AcceptedExactly(s);
      rsym := 0;
      var z;
      ghost var ls, y, p := Lists([], [], [], []), Syms(None, None, None, 0), |code|;
      LinkedNil(code);
      ok, z := Block(s, Syms(None, None, None, 0), ls);
      if !ok { return; }
      ghost var cells := Emit(s, p);
      LabelsNeedSwitch(s, false, false, false);
      assert Part(old(code), code, cells, None, HeadsOf(z, rsym), ls);
      assert Appended(old(code), code, cells);
      assert Spots(cells, p, Ret) + [] == Spots(cells, p, Ret);
      AppendedBind(old(code), code, cells, Ret, |code|);
      Gsym(rsym, Spots(cells, p, Ret));
    }
  }
}
