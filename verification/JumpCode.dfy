/** The target of the one-pass code generator: a code buffer of byte-sized cells and
    the small machine that runs it.

    A 32-bit displacement occupies four cells, a `Slot` that holds the number followed by
    three `Fill`s, so that every address is the byte address the generator computes with.
    Instructions that only compute are opaque atoms: running one appends its identifier
    to the history, and the value it leaves is whatever an oracle says about that history. */
module JumpCode {
  const TOK_ULT := 0x92
  const TOK_UGE := 0x93
  const TOK_EQ := 0x94
  const TOK_NE := 0x95
  const TOK_ULE := 0x96
  const TOK_UGT := 0x97
  const TOK_LT := 0x9c
  const TOK_GE := 0x9d
  const TOK_LE := 0x9e
  const TOK_GT := 0x9f

  predicate IsCompare(op: int) {
    TOK_ULT <= op <= TOK_UGT || TOK_LT <= op <= TOK_GT
  }

  type CompareOp = op: int | IsCompare(op) witness TOK_EQ

  function Unsigned(x: int): int { x % 0x1_0000_0000 }

  /** The condition `op` of the two words last compared. */
  predicate Cond(op: CompareOp, f: (int, int)) {
    if op == TOK_ULT then Unsigned(f.0) < Unsigned(f.1)
    else if op == TOK_UGE then Unsigned(f.0) >= Unsigned(f.1)
    else if op == TOK_EQ then f.0 == f.1
    else if op == TOK_NE then f.0 != f.1
    else if op == TOK_ULE then Unsigned(f.0) <= Unsigned(f.1)
    else if op == TOK_UGT then Unsigned(f.0) > Unsigned(f.1)
    else if op == TOK_LT then f.0 < f.1
    else if op == TOK_GE then f.0 >= f.1
    else if op == TOK_LE then f.0 <= f.1
    else f.0 > f.1
  }

  /** `op ^ 1`: condition codes come in complementary pairs. */
  function Flip(op: CompareOp): (r: CompareOp)
    ensures forall f :: Cond(r, f) <==> !Cond(op, f)
  {
    assert IsCompare(op);
    if op % 2 == 0 then op + 1 else op - 1
  }

  function FlipIf(op: CompareOp, inv: bool): CompareOp {
    if inv then Flip(op) else op
  }

  datatype Cell =
    | Atom(id: nat, extra: nat)     // leaves a value in the accumulator
    | Compare(id: nat, extra: nat)  // leaves two words in the flags
    | Test                          // test r, r
    | CompareTo(imm: int, extra: nat)  // cmp $imm, r
    | Mov(imm: int)                 // mov $imm, r
    | SetCond(op: CompareOp)        // setxx r
    | Jmp                           // 0xe9
    | Jcc(op: CompareOp)            // 0x0f 0x8x
    | JmpShort                      // 0xeb
    | Disp8(d: int)
    | Slot(v: int)
    | Fill

  type Oracle = seq<nat> -> (int, int)

  datatype State = State(pc: int, acc: int, flags: (int, int), history: seq<nat>)

  /** What a sign-extended byte that was cut from `d` is worth. */
  function Byte(d: int): (r: int)
    ensures -128 <= r < 128 && (r - d) % 256 == 0
  {
    (d + 128) % 256 - 128
  }

  /** One machine step. Where there is no instruction the machine stays put. */
  function Step(code: seq<Cell>, o: Oracle, s: State): State {
    if !(0 <= s.pc < |code|) then s else
    match code[s.pc]
    case Atom(id, extra) =>
      var h := s.history + [id];
      s.(pc := s.pc + 1 + extra, acc := o(h).0, history := h)
    case Compare(id, extra) =>
      var h := s.history + [id];
      s.(pc := s.pc + 1 + extra, flags := o(h), history := h)
    case Test => s.(pc := s.pc + 2, flags := (s.acc, 0))
    case CompareTo(imm, extra) => s.(pc := s.pc + 1 + extra, flags := (s.acc, if extra == 2 then Byte(imm) else imm))
    case Mov(imm) => s.(pc := s.pc + 5, acc := imm)
    case SetCond(op) => s.(pc := s.pc + 3, acc := s.acc - s.acc % 256 + if Cond(op, s.flags) then 1 else 0)
    case Jmp =>
      if s.pc + 1 < |code| && code[s.pc + 1].Slot? then s.(pc := s.pc + 5 + code[s.pc + 1].v) else s
    case Jcc(op) =>
      if s.pc + 2 < |code| && code[s.pc + 2].Slot? then
        s.(pc := s.pc + 6 + if Cond(op, s.flags) then code[s.pc + 2].v else 0)
      else s
    case JmpShort =>
      if s.pc + 1 < |code| && code[s.pc + 1].Disp8? then s.(pc := s.pc + 2 + Byte(code[s.pc + 1].d)) else s
    case _ => s
  }

  function Steps(code: seq<Cell>, o: Oracle, s: State, k: nat): State
    decreases k
  {
    if k == 0 then s else Steps(code, o, Step(code, o, s), k - 1)
  }

  lemma {:induction false} StepsCompose(code: seq<Cell>, o: Oracle, s: State, j: nat, k: nat)
    ensures Steps(code, o, s, j + k) == Steps(code, o, Steps(code, o, s, j), k)
    decreases j
  {
    if j > 0 {
      StepsCompose(code, o, Step(code, o, s), j - 1, k);
    }
  }

  /** A machine that has run off its code never moves again. */
  lemma {:induction false} StepsHalted(code: seq<Cell>, o: Oracle, s: State, k: nat)
    requires s.pc == |code|
    ensures Steps(code, o, s, k) == s
    decreases k
  {
    if k > 0 {
      StepsHalted(code, o, s, k - 1);
    }
  }
}
