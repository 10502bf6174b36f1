/** 64-bit comparisons on a 32-bit target: the upper words decide unless they are equal, and
    then the lower words, always unsigned, do. */
module LongCompare {
  import opened JumpCode
  import opened Control
  import opened Patching
  import opened Regions
  import opened OnePass
  import opened Simulation
  import LongLong
  import Words

  const W := LongLong.W

  function HighOp(op: CompareOp): CompareOp {
    if op == TOK_LT then TOK_LE
    else if op == TOK_GT then TOK_GE
    else if op == TOK_ULT then TOK_ULE
    else if op == TOK_UGT then TOK_UGE
    else op
  }

  function LowOp(op: CompareOp): CompareOp {
    if op == TOK_LT then TOK_ULT
    else if op == TOK_LE then TOK_ULE
    else if op == TOK_GT then TOK_UGT
    else if op == TOK_GE then TOK_UGE
    else op
  }

  /** An instruction that compares two words. */
  datatype Comparison = Comparison(id: nat, extra: nat)

  function CompareWords(w: Comparison): Symbolic { [Raw(Cell.Compare(w.id, w.extra))] + Fills(w.extra) }

  function IfFalse(op: CompareOp): Symbolic {
    if op == TOK_NE then [] else JccTo(Flip(HighOp(op)), Pending)
  }

  function IfUnequal(op: CompareOp): Symbolic {
    if op == TOK_EQ then [] else JccTo(TOK_NE, Over)
  }

  /** The code before its last jump to the end is bound. */
  function LongOpen(op: CompareOp, high: Comparison, low: Comparison): Symbolic {
    CompareWords(high) + IfFalse(op) + IfUnequal(op) + (CompareWords(low) + JccTo(Flip(LowOp(op)), Pending))
  }

  /** The code at `p` of a comparison that leaves a value of the kind "jump if false". */
  function LongCode(op: CompareOp, high: Comparison, low: Comparison, p: int): Symbolic {
    Bind(LongOpen(op, high, low), Over, p + |LongOpen(op, high, low)|)
  }

  // ----- meaning -----

  predicate IsWord(x: int) { -0x8000_0000 <= x < 0x8000_0000 }

  /** The pairs whose upper words are `h` and whose lower words are `l`. */
  function Pairs(h: (int, int), l: (int, int)): (int, int) {
    (W * h.0 + Unsigned(l.0), W * h.1 + Unsigned(l.1))
  }

  /** The condition on 64-bit values; unsigned ones are read modulo 2^64. */
  predicate Cond64(op: CompareOp, f: (int, int)) {
    var u, v := f.0 % (W * W), f.1 % (W * W);
    if op == TOK_ULT then u < v
    else if op == TOK_UGE then u >= v
    else if op == TOK_EQ then u == v
    else if op == TOK_NE then u != v
    else if op == TOK_ULE then u <= v
    else if op == TOK_UGT then u > v
    else if op == TOK_LT then f.0 < f.1
    else if op == TOK_GE then f.0 >= f.1
    else if op == TOK_LE then f.0 <= f.1
    else f.0 > f.1
  }

  lemma UnsignedPair(h: int, l: int)
    requires IsWord(h)
    ensures (W * h + Unsigned(l)) % (W * W) == W * Unsigned(h) + Unsigned(l)
  {
    assert Unsigned(h) == if h < 0 then h + W else h;
    var x := W * h + Unsigned(l);
    assert 0 <= Unsigned(l) < W;
    assert x % (W * W) == if h < 0 then x + W * W else x;
  }

  /** Unequal upper words decide every comparison but an equality. */
  lemma HighDecides(op: CompareOp, h: (int, int), l: (int, int))
    requires IsWord(h.0) && IsWord(h.1) && h.0 != h.1
    ensures op != TOK_EQ && op != TOK_NE ==> (Cond64(op, Pairs(h, l)) <==> Cond(HighOp(op), h))
    ensures op == TOK_NE ==> Cond64(op, Pairs(h, l))
    ensures op == TOK_EQ ==> !Cond64(op, Pairs(h, l)) && !Cond(HighOp(op), h)
  {
    UnsignedPair(h.0, l.0);
    UnsignedPair(h.1, l.1);
    assert IsCompare(op);
  }

  lemma LowDecides(op: CompareOp, h: (int, int), l: (int, int))
    requires IsWord(h.0) && IsWord(h.1) && IsWord(l.0) && IsWord(l.1) && h.0 == h.1
    ensures Cond64(op, Pairs(h, l)) <==> Cond(LowOp(op), l)
    ensures op != TOK_NE ==> Cond(HighOp(op), h)
  {
    UnsignedPair(h.0, l.0);
    UnsignedPair(h.1, l.1);
    assert IsCompare(op);
  }

  /** What the words of two 64-bit values say, read as signed, is what the values say. */
  lemma PairsDenote(x: LongLong.Val, y: LongLong.Val)
    requires x.Long? && y.Long? && LongLong.Fits(x) && LongLong.Fits(y)
    ensures W == Words.Pow2(32) && W * W == Words.Pow2(64)
    ensures var a, b := LongLong.Join(x.lo, x.hi), LongLong.Join(y.lo, y.hi);
            && 0 <= a < W * W && 0 <= b < W * W
            && Pairs((Words.Signed(x.hi, 32), Words.Signed(y.hi, 32)), (Words.Signed(x.lo, 32), Words.Signed(y.lo, 32)))
               == (Words.Signed(a, 64), Words.Signed(b, 64))
            && Words.Signed(a, 64) % (W * W) == a && Words.Signed(b, 64) % (W * W) == b
  {
    hide Words.Pow2;
    Words.Pow2Values();
    WordsDenote(x.lo, x.hi);
    WordsDenote(y.lo, y.hi);
  }

  lemma WordsDenote(lo: nat, hi: nat)
    requires lo < W && hi < W
    ensures W == Words.Pow2(32) && W * W == Words.Pow2(64) && 0 <= LongLong.Join(lo, hi) < W * W
    ensures W * Words.Signed(hi, 32) + Unsigned(Words.Signed(lo, 32)) == Words.Signed(LongLong.Join(lo, hi), 64)
    ensures IsWord(Words.Signed(hi, 32)) && IsWord(Words.Signed(lo, 32))
  {
    hide Words.Pow2;
    Words.Pow2Values();
    assert Unsigned(Words.Signed(lo, 32)) == lo;
  }

  // ----- running the code -----

  lemma RunWords(code: seq<Cell>, o: Oracle, w: Comparison, env: Env, s: State)
    requires Fits(code, s.pc, CompareWords(w), env)
    ensures Steps(code, o, s, 1) ==
            s.(pc := s.pc + |CompareWords(w)|, flags := o(s.history + [w.id]), history := s.history + [w.id])
  {
    StepPlain(code, o, Cell.Compare(w.id, w.extra), CompareWords(w), env, s);
  }

  /** Two compares at most, and the machine is at the list exactly when the 64-bit
      comparison fails. */
  lemma RunLong(code: seq<Cell>, o: Oracle, op: CompareOp, high: Comparison, low: Comparison, p: int, env: Env, s: State)
    returns (k: nat, t: State)
    requires Fits(code, p, LongCode(op, high, low, p), env) && s.pc == p
    requires var h1 := s.history + [high.id]; var h, l := o(h1), o(h1 + [low.id]);
             IsWord(h.0) && IsWord(h.1) && IsWord(l.0) && IsWord(l.1)
    ensures var h1 := s.history + [high.id]; var h, l := o(h1), o(h1 + [low.id]);
            && Steps(code, o, s, k) == t
            && t.history == (if h.0 == h.1 then h1 + [low.id] else h1)
            && Simulation.Holds(JmpFalse, Bit(Cond64(op, Pairs(h, l))), t, p + |LongCode(op, high, low, p)|, env.pending)
  {
    hide Fits, Bind, Step, Cond, Cond64, CompareWords;
    var all, end := LongOpen(op, high, low), p + |LongOpen(op, high, low)|;
    FitsBind(code, p, all, Over, end, env);
    var env' := Set(env, Over, end);
    var a, b, c := CompareWords(high), IfFalse(op), IfUnequal(op);
    var rest := CompareWords(low) + JccTo(Flip(LowOp(op)), Pending);
    FitsConcat(code, p, a + b + c, rest, env');
    FitsConcat(code, p, a + b, c, env');
    FitsConcat(code, p, a, b, env');
    RunWords(code, o, high, env', s);
    var m := Steps(code, o, s, 1);
    var h, l := o(m.history), o(m.history + [low.id]);
    k, t := RunUpper(code, o, op, env', m);
    StepsCompose(code, o, s, 1, k);
    k := k + 1;
    if h.0 != h.1 {
      HighDecides(op, h, l);
    } else {
      LowDecides(op, h, l);
      var j;
      ghost var was := t;
      j, t := RunLower(code, o, op, low, env', was);
      StepsCompose(code, o, s, k, j);
      k := k + j;
    }
  }

  /** The comparison of 64-bit words. */
  predicate Compares(op: CompareOp, a: nat, b: nat)
    requires a < Words.Pow2(64) && b < Words.Pow2(64)
  {
    var sa, sb := Words.Signed(a, 64), Words.Signed(b, 64);
    if op == TOK_ULT then a < b
    else if op == TOK_UGE then a >= b
    else if op == TOK_EQ then a == b
    else if op == TOK_NE then a != b
    else if op == TOK_ULE then a <= b
    else if op == TOK_UGT then a > b
    else if op == TOK_LT then sa < sb
    else if op == TOK_GE then sa >= sb
    else if op == TOK_LE then sa <= sb
    else sa > sb
  }

  /** The generated code on two values of the stack, where each compare instruction sees the
      words it was generated for. */
  lemma RunCompare(code: seq<Cell>, o: Oracle, op: CompareOp, compares: (nat, nat) -> Comparison, x: LongLong.Val, y: LongLong.Val,
                   p: int, env: Env, s: State)
    returns (k: nat, t: State)
    requires x.Long? && y.Long? && LongLong.Fits(x) && LongLong.Fits(y) && W == Words.Pow2(32)
    requires Fits(code, p, LongCode(op, compares(x.hi, y.hi), compares(x.lo, y.lo), p), env) && s.pc == p
    requires var h1 := s.history + [compares(x.hi, y.hi).id];
             && o(h1) == (Words.Signed(x.hi, 32), Words.Signed(y.hi, 32))
             && o(h1 + [compares(x.lo, y.lo).id]) == (Words.Signed(x.lo, 32), Words.Signed(y.lo, 32))
    ensures var a, b := LongLong.Join(x.lo, x.hi), LongLong.Join(y.lo, y.hi);
            && 0 <= a < Words.Pow2(64) && 0 <= b < Words.Pow2(64)
            && Steps(code, o, s, k) == t
            && Simulation.Holds(JmpFalse, Bit(Compares(op, a, b)), t,
                                p + |LongCode(op, compares(x.hi, y.hi), compares(x.lo, y.lo), p)|, env.pending)
  {
    hide Fits, Bind, Step, Steps, Cond, CompareWords, LongCode, LongOpen, Words.Pow2, Words.Signed;
    PairsDenote(x, y);
    WordsDenote(x.lo, x.hi);
    WordsDenote(y.lo, y.hi);
    k, t := RunLong(code, o, op, compares(x.hi, y.hi), compares(x.lo, y.lo), p, env, s);
  }

  /** The jumps on the upper words. */
  lemma RunUpper(code: seq<Cell>, o: Oracle, op: CompareOp, env: Env, s: State) returns (k: nat, t: State)
    requires Fits(code, s.pc, IfFalse(op), env) && Fits(code, s.pc + |IfFalse(op)|, IfUnequal(op), env)
    ensures Steps(code, o, s, k) == t && t.history == s.history && t.flags == s.flags
    ensures t.pc ==
            if op != TOK_NE && !Cond(HighOp(op), s.flags) then env.pending
            else if op != TOK_EQ && s.flags.0 != s.flags.1 then env.over
            else s.pc + |IfFalse(op)| + |IfUnequal(op)|
  {
    k, t := 0, s;
    if op != TOK_NE {
      StepJcc(code, o, Flip(HighOp(op)), Pending, env, s);
      k, t := 1, Steps(code, o, s, 1);
    }
    if op != TOK_EQ && (op == TOK_NE || Cond(HighOp(op), s.flags)) {
      StepJcc(code, o, TOK_NE, Over, env, t);
      StepsCompose(code, o, s, k, 1);
      k, t := k + 1, Steps(code, o, t, 1);
    }
  }

  lemma RunLower(code: seq<Cell>, o: Oracle, op: CompareOp, low: Comparison, env: Env, s: State) returns (k: nat, t: State)
    requires Fits(code, s.pc, CompareWords(low) + JccTo(Flip(LowOp(op)), Pending), env)
    ensures Steps(code, o, s, k) == t && t.history == s.history + [low.id]
    ensures t.pc == if Cond(LowOp(op), o(s.history + [low.id])) then s.pc + |CompareWords(low)| + 6 else env.pending
  {
    FitsConcat(code, s.pc, CompareWords(low), JccTo(Flip(LowOp(op)), Pending), env);
    RunWords(code, o, low, env, s);
    var m := Steps(code, o, s, 1);
    StepJcc(code, o, Flip(LowOp(op)), Pending, env, m);
    StepsCompose(code, o, s, 1, 1);
    k, t := 2, Steps(code, o, s, 2);
  }

  // ----- the generator -----

  /** Code emitted so far, with its list of jumps if false and its list of jumps to the end. */
  ghost predicate Open(code0: seq<Cell>, code: seq<Cell>, cells: Symbolic, a: int, b: int) {
    && Appended(code0, code, cells)
    && Linked(code, a, Spots(cells, |code0|, Pending))
    && Linked(code, b, Spots(cells, |code0|, Over))
  }

  lemma OpenNone(code0: seq<Cell>)
    ensures Open(code0, code0, [], 0, 0)
  {
    SpotsNone([], |code0|, Pending);
    SpotsNone([], |code0|, Over);
  }

  /** More code: each list has the jumps of the new code on top of what it had. */
  lemma OpenMore(code0: seq<Cell>, code: seq<Cell>, cells: Symbolic, a: int, b: int, code': seq<Cell>, x: Symbolic, a': int, b': int)
    requires Open(code0, code, cells, a, b) && Appended(code, code', x)
    requires Linked(code', a', Spots(x, |code|, Pending) + Spots(cells, |code0|, Pending))
    requires Linked(code', b', Spots(x, |code|, Over) + Spots(cells, |code0|, Over))
    ensures Open(code0, code', cells + x, a', b')
  {
    hide Linked, Spots, Matches;
    AppendedSeq(code0, code, cells, code', x);
    SpotsConcat(cells, x, |code0|, Pending);
    SpotsConcat(cells, x, |code0|, Over);
  }

  /** A list that the new code is not on. */
  lemma StaysLinked(code: seq<Cell>, code': seq<Cell>, x: Symbolic, l: Label, t: int, ts: seq<int>)
    requires Appended(code, code', x) && Lacks(x, l) && Linked(code, t, ts)
    ensures Linked(code', t, Spots(x, |code|, l) + ts)
  {
    hide Linked, Spots, Matches;
    AppendedKeeps(code, code', x, t, ts);
    SpotsNone(x, |code|, l);
    assert [] + ts == ts;
  }

  /** Compares two words. */
  method CompareTwo(g: CodeGen, w: Comparison, ghost code0: seq<Cell>, ghost cells: Symbolic, ghost a: int, ghost b: int)
    requires Open(code0, g.code, cells, a, b)
    modifies g`code
    ensures Open(code0, g.code, cells + CompareWords(w), a, b)
  {
    hide Linked, Spots, Matches;
    ghost var was, x := g.code, CompareWords(w);
    g.EmitAtom(Cell.Compare(w.id, w.extra), w.extra);
    StaysLinked(was, g.code, x, Pending, a, Spots(cells, |code0|, Pending));
    StaysLinked(was, g.code, x, Over, b, Spots(cells, |code0|, Over));
    OpenMore(code0, was, cells, a, b, g.code, x, a, b);
  }

  /** `gtst(1, a)` on a comparison. */
  method JumpIfNot(g: CodeGen, op: CompareOp, a: int, ghost code0: seq<Cell>, ghost cells: Symbolic, ghost b: int) returns (r: int)
    requires 0 < |code0| && Open(code0, g.code, cells, a, b)
    modifies g`code
    ensures Open(code0, g.code, cells + JccTo(Flip(op), Pending), r, b)
    ensures r != 0
  {
    hide Linked, Spots, Matches;
    ghost var was, x := g.code, JccTo(Flip(op), Pending);
    ghost var ts := Spots(cells, |code0|, Pending);
    assert was + [] == was;
    assert Appended(was, was, []) by { OpenNone(was); }
    assert [] + x == x;
    NothingPending();
    r := g.Gtst(AFlags(op), true, a, [], InFlags(op), was, ts);
    assert Lacks(x, Over);
    StaysLinked(was, g.code, x, Over, b, Spots(cells, |code0|, Over));
    OpenMore(code0, was, cells, a, b, g.code, x, r, b);
    JumpSpots([Raw(Jcc(Flip(op))), Raw(Fill)], Pending, |was|, Pending);
    NotNil(g.code, r, Spots(x, |was|, Pending) + ts);
  }

  lemma NothingPending()
    ensures Lacks([], Pending)
  {
  }

  lemma NotNil(code: seq<Cell>, t: int, ts: seq<int>)
    requires Linked(code, t, ts) && ts != []
    ensures t != 0
  {
  }

  /** The jump to the end when the upper words differ. */
  method JumpUnequal(g: CodeGen, ghost code0: seq<Cell>, ghost cells: Symbolic, ghost a: int) returns (b: int)
    requires 0 < |code0| && Open(code0, g.code, cells, a, 0)
    modifies g`code
    ensures Open(code0, g.code, cells + JccTo(TOK_NE, Over), a, b)
  {
    hide Linked, Spots, Matches;
    ghost var was, x := g.code, JccTo(TOK_NE, Over);
    b := g.Gjcc(TOK_NE, 0, Over, Spots(cells, |code0|, Over));
    assert Lacks(x, Pending);
    StaysLinked(was, g.code, x, Pending, a, Spots(cells, |code0|, Pending));
    JumpSpots([Raw(Jcc(TOK_NE)), Raw(Fill)], Over, |was|, Over);
    OpenMore(code0, was, cells, a, 0, g.code, x, a, b);
  }

  /** The compare part of `gen_opl`: returns the value `VT_JMPI a`. `compares` are the
      instructions for the words on the stack. */
  method GenOplCompare(g: CodeGen, stack: LongLong.ValueStack, op: CompareOp, compares: (nat, nat) -> Comparison,
                       ghost rest: seq<LongLong.Val>, ghost x: LongLong.Val, ghost y: LongLong.Val)
    returns (v: OnePass.Val)
    requires 0 < |g.code| && stack.Valid() && stack.vs == rest + [x, y] && x.Long? && y.Long?
    modifies g`code, stack`vs
    ensures stack.Valid() && stack.vs == rest
    ensures var cells := LongCode(op, compares(x.hi, y.hi), compares(x.lo, y.lo), |old(g.code)|);
            Appended(old(g.code), g.code, cells) && IsVal(g.code, v, JmpFalse, cells, |old(g.code)|)
  {
    ghost var l1, l2 := LongLong.Word(x.lo), LongLong.Word(y.lo);
    stack.GroupPairs(rest, x, y);
    assert stack.vs == (rest + [l1, l2]) + [LongLong.Word(x.hi), LongLong.Word(y.hi)];
    var h1, h2 := stack.TakePair(rest + [l1, l2], x.hi, y.hi);
    var a, b := CompareHigh(g, op, compares(h1, h2));
    assert stack.vs == rest + [l1, l2];
    var w1, w2 := stack.TakePair(rest, x.lo, y.lo);
    v := CompareLow(g, op, compares(h1, h2), compares(w1, w2), old(g.code), a, b);
  }

  /** What the code for the upper words leaves open. */
  function HighOpen(op: CompareOp, high: Comparison): Symbolic { CompareWords(high) + IfFalse(op) + IfUnequal(op) }

  method CompareHigh(g: CodeGen, op: CompareOp, high: Comparison) returns (a: int, b: int)
    requires 0 < |g.code|
    modifies g`code
    ensures Open(old(g.code), g.code, HighOpen(op, high), a, b)
  {
    hide Linked, Spots, Matches, Patched, CompareWords;
    ghost var code0 := g.code;
    ghost var x, y := CompareWords(high), IfFalse(op);
    OpenNone(code0);
    assert [] + x == x;
    CompareTwo(g, high, code0, [], 0, 0);
    var op1: CompareOp := HighOpOf(op);
    a, b := 0, 0;
    assert x + [] == x && x + y + [] == x + y;
    if op1 != TOK_NE {
      a := JumpIfNot(g, op1, 0, code0, x, 0);
    }
    if op != TOK_EQ {
      b := JumpUnequal(g, code0, x + y, a);
    }
  }

  method CompareLow(g: CodeGen, op: CompareOp, ghost high: Comparison, low: Comparison, ghost code0: seq<Cell>, list: int, b: int)
    returns (v: OnePass.Val)
    requires 0 < |code0| && Open(code0, g.code, HighOpen(op, high), list, b)
    modifies g`code
    ensures Appended(code0, g.code, LongCode(op, high, low, |code0|))
    ensures IsVal(g.code, v, JmpFalse, LongCode(op, high, low, |code0|), |code0|)
  {
    hide Linked, Spots, Matches, Patched, CompareWords, HighOpen;
    ghost var all, z := LongOpen(op, high, low), HighOpen(op, high);
    CompareTwo(g, low, code0, z, list, b);
    var a := JumpIfNot(g, LowOp(op), list, code0, z + CompareWords(low), b);
    Grouped(op, high, low);
    ghost var open := g.code;
    g.Gsym(b, Spots(all, |code0|, Over));
    AppendedBind(code0, open, all, Over, |open|);
    WaitingBind(code0, open, all, Over, |open|, Pending, a);
    v := AJumpInv(a);
  }

  lemma Grouped(op: CompareOp, high: Comparison, low: Comparison)
    ensures HighOpen(op, high) + CompareWords(low) + JccTo(Flip(LowOp(op)), Pending) == LongOpen(op, high, low)
  {
    assert HighOpen(op, high) + CompareWords(low) + JccTo(Flip(LowOp(op)), Pending) ==
           HighOpen(op, high) + (CompareWords(low) + JccTo(Flip(LowOp(op)), Pending));
  }

  /** The comparison of the upper words: an inverted jump inverts the test as well. */
  method HighOpOf(op: CompareOp) returns (op1: CompareOp)
    ensures op1 == HighOp(op)
  {
    op1 := op;
    if op1 == TOK_LT {
      op1 := TOK_LE;
    } else if op1 == TOK_GT {
      op1 := TOK_GE;
    } else if op1 == TOK_ULT {
      op1 := TOK_ULE;
    } else if op1 == TOK_UGT {
      op1 := TOK_UGE;
    }
  }
}
