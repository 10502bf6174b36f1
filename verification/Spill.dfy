/** Registers of the value stack: finding a free one, and spilling entries to fresh slots of
    the frame when there is none. Integer and long long entries of a 32-bit target. */
module Spill {
  const NB_REGS := 4
  const TREG_EAX := 0
  const TREG_EDX := 2
  const TREG_ST0 := 3

  /** `reg_classes` of the i386, for RC_INT. */
  predicate IsInt(r: nat) { r < TREG_ST0 }

  /** Where an entry lives: in a register, as a constant, in the frame (`Local`), behind a
      pointer in the frame (`LLocal`), or in something no register is needed for. */
  datatype Home = Reg(r: nat) | Const(v: int) | Local(off: int) | LLocal(off: int) | Other(tag: int)

  /** The second register of a long long, if it is in two. */
  datatype Second = NoReg | Also(r: nat)

  datatype Entry = Entry(home: Home, lval: bool, isLong: bool, second: Second)

  predicate EntryOk(e: Entry) {
    && (e.second.Also? <==> e.home.Reg? && !e.lval && e.isLong)
    && (e.home.LLocal? ==> e.lval)
  }

  predicate InFrame(e: Entry, loc: int) {
    && (e.home.Local? && e.lval ==> loc <= e.home.off)
    && (e.home.LLocal? ==> loc <= e.home.off)
  }

  ghost predicate StackOk(vs: seq<Entry>, loc: int) {
    forall i :: 0 <= i < |vs| ==> EntryOk(vs[i]) && InFrame(vs[i], loc)
  }

  predicate Touches(e: Entry, r: nat) { e.home == Reg(r) || (e.isLong && e.second == Also(r)) }

  ghost predicate Free(vs: seq<Entry>, r: nat) { forall i :: 0 <= i < |vs| ==> !Touches(vs[i], r) }

  // ----- the machine -----

  datatype Ins = Store(r: nat, off: int)

  datatype Machine = Machine(regs: nat -> int, frame: int -> int)

  /** What an entry stands for: a word, a pair of words, or the address of an object. */
  datatype Meaning = AWord(w: int) | APair(lo: int, hi: int) | AnObject(address: int) | AFrameAddress(off: int) | Else(tag: int)

  function Denote(e: Entry, m: Machine): Meaning {
    match e.home
    case Reg(r) =>
      if e.lval then AnObject(m.regs(r))
      else if e.second.Also? then APair(m.regs(r), m.regs(e.second.r))
      else AWord(m.regs(r))
    case Const(v) => if e.lval then AnObject(v) else AWord(v)
    case Local(off) =>
      if !e.lval then AFrameAddress(off)
      else if e.isLong then APair(m.frame(off), m.frame(off + 4))
      else AWord(m.frame(off))
    case LLocal(off) => AnObject(m.frame(off))
    case Other(tag) => Else(tag)
  }

  function Execute(code: seq<Ins>, m: Machine): Machine
    decreases |code|
  {
    if code == [] then m else
    var n := Execute(code[..|code| - 1], m);
    var i := code[|code| - 1];
    n.(frame := x => if x == i.off then n.regs(i.r) else n.frame(x))
  }

  ghost predicate SameMeaning(a: seq<Entry>, b: seq<Entry>, code: seq<Ins>) {
    && |a| == |b|
    && forall m: Machine, i :: 0 <= i < |a| ==> Denote(b[i], Execute(code, m)) == Denote(a[i], m)
  }

  // ----- spilling one register -----

  function First(vs: seq<Entry>, n: nat, r: nat): (i: nat)
    requires n <= |vs|
    ensures i <= n && (i < n ==> Touches(vs[i], r))
    ensures forall k :: 0 <= k < i ==> !Touches(vs[k], r)
  {
    if n == 0 then 0 else
    var i := First(vs, n - 1, r);
    if i < n - 1 || Touches(vs[n - 1], r) then i else n
  }

  function Slot(loc: int, size: int): (l: int)
    ensures l <= loc - size && l % 4 == 0
  {
    loc - size - (loc - size) % 4
  }

  function Marked(e: Entry, l: int): Entry {
    if e.lval then e.(home := LLocal(l), second := NoReg) else Entry(Local(l), true, e.isLong, NoReg)
  }

  datatype Spilled = Spilled(vs: seq<Entry>, loc: int, code: seq<Ins>)

  /** `save_reg`: the register stored is that of the first entry found, and from there on
      entries that touch it are marked. */
  function Saved(vs: seq<Entry>, loc: int, r: nat): (s: Spilled)
    ensures |s.vs| == |vs| && s.loc <= loc
  {
    var first := First(vs, |vs|, r);
    if first == |vs| || !vs[first].home.Reg? then Spilled(vs, loc, []) else
    var f := vs[first];
    var q := f.home.r;
    var pair := !f.lval && f.isLong && f.second.Also?;
    var l := Slot(loc, if pair then 8 else 4);
    Spilled(seq(|vs|, i requires 0 <= i < |vs| => if i >= first && Touches(vs[i], q) then Marked(vs[i], l) else vs[i]),
            l,
            [Store(q, l)] + if pair then [Store(f.second.r, l + 4)] else [])
  }

  /** The slot is no lower than it must be: as high as it fits below what is in use, on a multiple
      of four, eight bytes for a pair of registers and four for anything else. */
  lemma SlotTight(vs: seq<Entry>, loc: int, r: nat)
    requires StackOk(vs, loc)
    ensures var s, first := Saved(vs, loc, r), First(vs, |vs|, r);
            if first == |vs| then s == Spilled(vs, loc, []) else
            var size := if vs[first].second.Also? then 8 else 4;
            s.loc % 4 == 0 && s.loc + size <= loc < s.loc + size + 4
  {
    assert First(vs, |vs|, r) < |vs| ==> EntryOk(vs[First(vs, |vs|, r)]);
  }

  /** Everything the spill marks or should free is in the register that is stored, alone or
      with the very partner that is stored beside it. */
  ghost predicate WellPaired(vs: seq<Entry>, r: nat) {
    var first := First(vs, |vs|, r);
    first < |vs| ==>
      forall i :: first <= i < |vs| && Concerned(vs[first], vs[i], r) ==> Partners(vs[first], vs[i])
  }

  predicate Concerned(f: Entry, e: Entry, r: nat) { Touches(e, r) || (f.home.Reg? && Touches(e, f.home.r)) }

  predicate Partners(f: Entry, e: Entry) {
    f.home.Reg? && e.home == f.home && (e.second == NoReg || e.second == f.second)
  }

  /** What the emitted stores do: nothing but to the slot. */
  lemma SlotOnly(code: seq<Ins>, q: nat, l: int, second: Second, m: Machine)
    requires code == [Store(q, l)] + if second.Also? then [Store(second.r, l + 4)] else []
    ensures var n := Execute(code, m);
            && n.regs == m.regs && n.frame(l) == m.regs(q)
            && n.frame(l + 4) == (if second.Also? then m.regs(second.r) else m.frame(l + 4))
            && forall x :: x > l + 4 ==> n.frame(x) == m.frame(x)
  {
    assert Execute([], m) == m;
    var first := [Store(q, l)];
    assert first[..0] == [];
    if second.Also? {
      assert code[..1] == first;
    } else {
      assert code == first;
    }
  }

  /** The value a spilled entry had is in its slot. */
  lemma MarkedMeans(f: Entry, e: Entry, l: int, code: seq<Ins>, m: Machine)
    requires EntryOk(f) && EntryOk(e) && Partners(f, e)
    requires code == [Store(f.home.r, l)] + if f.second.Also? then [Store(f.second.r, l + 4)] else []
    ensures Denote(Marked(e, l), Execute(code, m)) == Denote(e, m)
  {
    SlotOnly(code, f.home.r, l, f.second, m);
  }

  /** Spilling is right, leaving the register free and every entry with its meaning, exactly
      when no concerned entry has a register apart from the pair that is stored. */
  lemma SavedRight(vs: seq<Entry>, loc: int, r: nat)
    requires StackOk(vs, loc)
    ensures var s := Saved(vs, loc, r);
            WellPaired(vs, r) <==> Free(s.vs, r) && SameMeaning(vs, s.vs, s.code)
  {
    var s, first := Saved(vs, loc, r), First(vs, |vs|, r);
    if first == |vs| {
      assert forall m :: Execute(s.code, m) == m;
    } else if WellPaired(vs, r) {
      forall m: Machine, i | 0 <= i < |vs| ensures Denote(s.vs[i], Execute(s.code, m)) == Denote(vs[i], m) {
        EntryKept(vs, loc, r, m, i);
      }
      forall i | 0 <= i < |vs| ensures !Touches(s.vs[i], r) {
        assert EntryOk(vs[i]);
      }
    } else {
      var i :| first <= i < |vs| && Concerned(vs[first], vs[i], r) && !Partners(vs[first], vs[i]);
      Spoiled(vs, loc, r, i);
    }
  }

  lemma EntryKept(vs: seq<Entry>, loc: int, r: nat, m: Machine, i: nat)
    requires StackOk(vs, loc) && i < |vs| && First(vs, |vs|, r) < |vs| && WellPaired(vs, r)
    ensures var s := Saved(vs, loc, r); Denote(s.vs[i], Execute(s.code, m)) == Denote(vs[i], m)
  {
    hide First, Execute, Denote;
    var s, first := Saved(vs, loc, r), First(vs, |vs|, r);
    var f := vs[first];
    assert EntryOk(f) && EntryOk(vs[i]) && InFrame(vs[i], loc);
    if i >= first && Touches(vs[i], f.home.r) {
      MarkedMeans(f, vs[i], s.loc, s.code, m);
    } else {
      UntouchedMeans(f.home.r, f.second, vs[i], loc, s.loc, s.code, m);
    }
  }

  /** The stores change nothing an entry in the frame above them stands for. */
  lemma UntouchedMeans(q: nat, second: Second, e: Entry, loc: int, l: int, code: seq<Ins>, m: Machine)
    requires InFrame(e, loc) && EntryOk(e) && l + (if second.Also? then 8 else 4) <= loc
    requires code == [Store(q, l)] + if second.Also? then [Store(second.r, l + 4)] else []
    ensures Denote(e, Execute(code, m)) == Denote(e, m)
  {
    SlotOnly(code, q, l, second, m);
  }

  /** A state in which every register holds its own number tells a spoiled entry. */
  const TELL := Machine((x: nat) => x as int, (x: int) => -1)

  /** A marked entry that was not in the pair that is stored stands for something else, unless
      the word behind the slot happens to hold the number of its second register. */
  lemma MarkedLies(f: Entry, e: Entry, l: int, code: seq<Ins>, m: Machine)
    requires EntryOk(f) && EntryOk(e) && f.home.Reg? && Touches(e, f.home.r) && !Partners(f, e)
    requires code == [Store(f.home.r, l)] + if f.second.Also? then [Store(f.second.r, l + 4)] else []
    requires forall x :: m.regs(x) == x
    requires e.second.Also? && f.second.NoReg? ==> m.frame(l + 4) != e.second.r
    ensures Denote(Marked(e, l), Execute(code, m)) != Denote(e, m)
  {
    hide Execute;
    SlotOnly(code, f.home.r, l, f.second, m);
    assert e.second.Also?;
    assert Denote(Marked(e, l), Execute(code, m)).lo == f.home.r;
    if e.home == f.home {
      assert Denote(Marked(e, l), Execute(code, m)).hi == (if f.second.Also? then f.second.r as int else m.frame(l + 4));
    }
  }

  lemma Spoiled(vs: seq<Entry>, loc: int, r: nat, i: nat)
    requires StackOk(vs, loc) && First(vs, |vs|, r) <= i < |vs|
    requires var f := vs[First(vs, |vs|, r)]; Concerned(f, vs[i], r) && !Partners(f, vs[i])
    ensures var s := Saved(vs, loc, r); !(Free(s.vs, r) && SameMeaning(vs, s.vs, s.code))
  {
    hide Denote, Execute, Partners;
    var s, f, e := Saved(vs, loc, r), vs[First(vs, |vs|, r)], vs[i];
    assert EntryOk(f) && EntryOk(e);
    if Touches(e, f.home.r) {
      MarkedLies(f, e, s.loc, s.code, TELL);
      assert s.vs[i] == Marked(e, s.loc);
    } else {
      assert Touches(s.vs[i], r);
    }
  }

  /** The case that goes wrong: a register that is the upper half of one entry and the whole
      of another. The call to free it saves the pair and leaves the other entry in it. */
  lemma SharedHalf()
    ensures var vs := [Entry(Reg(TREG_EAX), false, true, Also(TREG_EDX)), Entry(Reg(TREG_EDX), false, false, NoReg)];
            var s := Saved(vs, 0, TREG_EDX);
            StackOk(vs, 0) && !WellPaired(vs, TREG_EDX) && s.vs[1] == vs[1]
  {
    var vs := [Entry(Reg(TREG_EAX), false, true, Also(TREG_EDX)), Entry(Reg(TREG_EDX), false, false, NoReg)];
    assert First(vs, 1, TREG_EDX) == 0;
    assert First(vs, 2, TREG_EDX) == 0;
    assert Concerned(vs[0], vs[1], TREG_EDX) && !Partners(vs[0], vs[1]);
  }

  // ----- stacks without shared halves -----

  /** Entries that share a register are in the same registers. */
  ghost predicate Uniform(vs: seq<Entry>) {
    forall i, j, r {:trigger Touches(vs[i], r), Touches(vs[j], r)} ::
      0 <= i < |vs| && 0 <= j < |vs| && Touches(vs[i], r) && Touches(vs[j], r) ==>
        vs[i].home == vs[j].home && vs[i].second == vs[j].second
  }

  /** In particular every stack without a register pair. */
  lemma SinglesUniform(vs: seq<Entry>)
    requires forall i :: 0 <= i < |vs| ==> vs[i].second == NoReg
    ensures Uniform(vs)
  {
  }

  lemma UniformPaired(vs: seq<Entry>, loc: int, r: nat)
    requires StackOk(vs, loc) && Uniform(vs)
    ensures WellPaired(vs, r)
  {
    var first := First(vs, |vs|, r);
    if first < |vs| {
      assert EntryOk(vs[first]);
      forall i | first <= i < |vs| && Concerned(vs[first], vs[i], r) ensures Partners(vs[first], vs[i]) {
        assert Touches(vs[first], r) && Touches(vs[first], vs[first].home.r);
      }
    }
  }

  lemma SavedStays(vs: seq<Entry>, loc: int, r: nat)
    requires StackOk(vs, loc)
    ensures var s := Saved(vs, loc, r); StackOk(s.vs, s.loc) && (Uniform(vs) ==> Uniform(s.vs))
    ensures forall x :: Free(vs, x) ==> Free(Saved(vs, loc, r).vs, x)
  {
    var s := Saved(vs, loc, r);
    forall i | 0 <= i < |vs| ensures EntryOk(s.vs[i]) && InFrame(s.vs[i], s.loc) {
      assert EntryOk(vs[i]) && InFrame(vs[i], loc);
    }
    assert forall i, x :: 0 <= i < |vs| && Touches(s.vs[i], x) ==> Touches(vs[i], x) && s.vs[i] == vs[i];
  }

  lemma {:induction false} ExecuteConcat(a: seq<Ins>, b: seq<Ins>, m: Machine)
    ensures Execute(a + b, m) == Execute(b, Execute(a, m))
    decreases |b|
  {
    if b == [] {
      assert a + b == a;
    } else {
      assert (a + b)[..|a + b| - 1] == a + b[..|b| - 1];
      ExecuteConcat(a, b[..|b| - 1], m);
    }
  }

  lemma MeaningTrans(a: seq<Entry>, b: seq<Entry>, c: seq<Entry>, x: seq<Ins>, y: seq<Ins>)
    requires SameMeaning(a, b, x) && SameMeaning(b, c, y)
    ensures SameMeaning(a, c, x + y)
  {
    forall m: Machine, i | 0 <= i < |a| ensures Denote(c[i], Execute(x + y, m)) == Denote(a[i], m) {
      ExecuteConcat(x, y, m);
      assert Denote(b[i], Execute(x, m)) == Denote(a[i], m);
    }
  }

  lemma MeaningRefl(a: seq<Entry>)
    ensures SameMeaning(a, a, [])
  {
    assert forall m :: Execute([], m) == m;
  }

  // ----- spilling all registers of the lower entries -----

  /** The first `p` entries looked at in turn, and spilled if they are in a register. */
  function SavedAll(vs: seq<Entry>, loc: int, p: nat): (s: Spilled)
    requires p <= |vs|
    ensures |s.vs| == |vs|
  {
    if p == 0 then Spilled(vs, loc, []) else
    var s := SavedAll(vs, loc, p - 1);
    if !s.vs[p - 1].home.Reg? then s else
    var t := Saved(s.vs, s.loc, s.vs[p - 1].home.r);
    Spilled(t.vs, t.loc, s.code + t.code)
  }

  /** Every spill on the way is right. */
  ghost predicate AllPaired(vs: seq<Entry>, loc: int, p: nat)
    requires p <= |vs|
  {
    p == 0 || (AllPaired(vs, loc, p - 1) &&
               var s := SavedAll(vs, loc, p - 1);
               s.vs[p - 1].home.Reg? ==> WellPaired(s.vs, s.vs[p - 1].home.r))
  }

  /** The first entry in a register is the first that touches it. */
  lemma FirstHere(vs: seq<Entry>, loc: int, p: nat)
    requires StackOk(vs, loc) && p < |vs| && vs[p].home.Reg? && forall i :: 0 <= i < p ==> !vs[i].home.Reg?
    ensures First(vs, |vs|, vs[p].home.r) == p
    ensures forall i :: 0 <= i < p + 1 ==> !Saved(vs, loc, vs[p].home.r).vs[i].home.Reg?
  {
    forall i | 0 <= i < p ensures !Touches(vs[i], vs[p].home.r) {
      assert EntryOk(vs[i]);
    }
    assert Touches(vs[p], vs[p].home.r);
  }

  /** No entry looked at stays in a register. */
  lemma {:induction false} SavedAllOk(vs: seq<Entry>, loc: int, p: nat)
    requires StackOk(vs, loc) && p <= |vs|
    ensures var s := SavedAll(vs, loc, p);
            && StackOk(s.vs, s.loc) && (Uniform(vs) ==> Uniform(s.vs))
            && (forall i :: 0 <= i < p ==> !s.vs[i].home.Reg?)
    decreases p
  {
    hide Saved, Uniform, StackOk;
    if p > 0 {
      SavedAllOk(vs, loc, p - 1);
      var s := SavedAll(vs, loc, p - 1);
      if s.vs[p - 1].home.Reg? {
        SavedStays(s.vs, s.loc, s.vs[p - 1].home.r);
        FirstHere(s.vs, s.loc, p - 1);
      }
    }
  }

  lemma {:induction false} SavedAllMeans(vs: seq<Entry>, loc: int, p: nat)
    requires StackOk(vs, loc) && p <= |vs| && AllPaired(vs, loc, p)
    ensures var s := SavedAll(vs, loc, p); SameMeaning(vs, s.vs, s.code)
    decreases p
  {
    hide Saved, WellPaired, SameMeaning, StackOk;
    if p == 0 {
      MeaningRefl(vs);
    } else {
      SavedAllMeans(vs, loc, p - 1);
      SavedAllOk(vs, loc, p - 1);
      var s := SavedAll(vs, loc, p - 1);
      if s.vs[p - 1].home.Reg? {
        var t := Saved(s.vs, s.loc, s.vs[p - 1].home.r);
        SavedRight(s.vs, s.loc, s.vs[p - 1].home.r);
        MeaningTrans(vs, s.vs, t.vs, s.code, t.code);
      }
    }
  }

  // ----- one wrong spill is not made good -----

  lemma {:induction false} ExecuteRegs(code: seq<Ins>, m: Machine)
    ensures Execute(code, m).regs == m.regs
    decreases |code|
  {
    if code != [] { ExecuteRegs(code[..|code| - 1], m); }
  }

  /** The word in the last slot is the number of a register that no entry is in any more. */
  ghost predicate LastFree(s: Spilled) {
    var n := Execute(s.code, TELL);
    if s.code == [] then forall x :: n.frame(x) == -1
    else s.loc % 4 == 0 && n.frame(s.loc) >= 0 && Free(s.vs, n.frame(s.loc))
  }

  /** Entries still in a register are as they were. */
  ghost predicate Original(vs: seq<Entry>, s: Spilled)
    requires |s.vs| == |vs|
  {
    forall i :: 0 <= i < |vs| && s.vs[i].home.Reg? ==> s.vs[i] == vs[i]
  }

  lemma {:induction false} SavedAllLast(vs: seq<Entry>, loc: int, p: nat)
    requires StackOk(vs, loc) && p <= |vs|
    ensures LastFree(SavedAll(vs, loc, p)) && Original(vs, SavedAll(vs, loc, p))
    decreases p
  {
    hide StackOk, LastFree, Saved;
    if p == 0 {
      LastNone(vs, loc);
    } else {
      SavedAllLast(vs, loc, p - 1);
      SavedAllOk(vs, loc, p - 1);
      if SavedAll(vs, loc, p - 1).vs[p - 1].home.Reg? { LastStep(vs, SavedAll(vs, loc, p - 1), p - 1); }
    }
  }

  lemma LastNone(vs: seq<Entry>, loc: int)
    ensures LastFree(Spilled(vs, loc, []))
  {
  }

  lemma LastStep(vs: seq<Entry>, s: Spilled, p: nat)
    requires StackOk(s.vs, s.loc) && |s.vs| == |vs| && Original(vs, s) && p < |vs|
    requires s.vs[p].home.Reg? && forall i :: 0 <= i < p ==> !s.vs[i].home.Reg?
    ensures var t := Saved(s.vs, s.loc, s.vs[p].home.r); var r := Spilled(t.vs, t.loc, s.code + t.code);
            LastFree(r) && Original(vs, r)
  {
    hide Execute, First;
    var f := s.vs[p];
    var t := Saved(s.vs, s.loc, f.home.r);
    FirstHere(s.vs, s.loc, p);
    assert EntryOk(f);
    ExecuteRegs(s.code, TELL);
    ExecuteConcat(s.code, t.code, TELL);
    SlotOnly(t.code, f.home.r, t.loc, f.second, Execute(s.code, TELL));
    forall i | 0 <= i < |vs| ensures !Touches(t.vs[i], f.home.r) {
      assert EntryOk(s.vs[i]);
    }
  }

  /** Entry `i` is in memory and no longer stands for what it stood for. */
  ghost predicate Lost(vs: seq<Entry>, s: Spilled, i: nat)
    requires |s.vs| == |vs|
  {
    i < |vs| && !s.vs[i].home.Reg? && Denote(s.vs[i], Execute(s.code, TELL)) != Denote(vs[i], TELL)
  }

  /** A lost entry stays lost. */
  lemma LostStays(vs: seq<Entry>, s: Spilled, i: nat, p: nat)
    requires |s.vs| == |vs| && StackOk(s.vs, s.loc) && Lost(vs, s, i)
    requires p < |vs| && s.vs[p].home.Reg? && forall i :: 0 <= i < p ==> !s.vs[i].home.Reg?
    ensures var t := Saved(s.vs, s.loc, s.vs[p].home.r); Lost(vs, Spilled(t.vs, t.loc, s.code + t.code), i)
  {
    hide Execute, First, Denote;
    var f := s.vs[p];
    var t := Saved(s.vs, s.loc, f.home.r);
    FirstHere(s.vs, s.loc, p);
    assert EntryOk(f) && EntryOk(s.vs[i]) && InFrame(s.vs[i], s.loc);
    assert t.vs[i] == s.vs[i];
    ExecuteConcat(s.code, t.code, TELL);
    UntouchedMeans(f.home.r, f.second, s.vs[i], s.loc, t.loc, t.code, Execute(s.code, TELL));
  }

  /** A badly paired spill loses an entry: the word behind the slot does not help, since it was
      never written or is in the last slot, whose register is not one of the entry's. */
  lemma SpillLoses(vs: seq<Entry>, s: Spilled, p: nat) returns (i: nat)
    requires |s.vs| == |vs| && StackOk(s.vs, s.loc) && Original(vs, s) && LastFree(s)
    requires p < |vs| && s.vs[p].home.Reg? && forall i :: 0 <= i < p ==> !s.vs[i].home.Reg?
    requires !WellPaired(s.vs, s.vs[p].home.r)
    ensures var t := Saved(s.vs, s.loc, s.vs[p].home.r); Lost(vs, Spilled(t.vs, t.loc, s.code + t.code), i)
  {
    hide Execute, First;
    var f := s.vs[p];
    var t := Saved(s.vs, s.loc, f.home.r);
    FirstHere(s.vs, s.loc, p);
    i :| p <= i < |vs| && Concerned(f, s.vs[i], f.home.r) && !Partners(f, s.vs[i]);
    var e, m := s.vs[i], Execute(s.code, TELL);
    assert EntryOk(f) && EntryOk(e);
    assert t.vs[i] == Marked(e, t.loc);
    ExecuteRegs(s.code, TELL);
    ExecuteConcat(s.code, t.code, TELL);
    if e.second.Also? && f.second.NoReg? { assert Touches(e, e.second.r); }
    MarkedLies(f, e, t.loc, t.code, m);
  }

  lemma {:induction false} OneIsLost(vs: seq<Entry>, loc: int, p: nat) returns (i: nat)
    requires StackOk(vs, loc) && p <= |vs| && !AllPaired(vs, loc, p)
    ensures Lost(vs, SavedAll(vs, loc, p), i)
    decreases p
  {
    hide Saved, WellPaired, StackOk, LastFree, Original, Lost;
    SavedAllOk(vs, loc, p - 1);
    var s := SavedAll(vs, loc, p - 1);
    if AllPaired(vs, loc, p - 1) {
      SavedAllLast(vs, loc, p - 1);
      i := SpillLoses(vs, s, p - 1);
    } else {
      i := OneIsLost(vs, loc, p - 1);
      if s.vs[p - 1].home.Reg? { LostStays(vs, s, i, p - 1); }
    }
  }

  /** All entries keep their meaning if and only if every spill is right. */
  lemma SavedAllRight(vs: seq<Entry>, loc: int, p: nat)
    requires StackOk(vs, loc) && p <= |vs|
    ensures var s := SavedAll(vs, loc, p); AllPaired(vs, loc, p) <==> SameMeaning(vs, s.vs, s.code)
  {
    hide SavedAll, AllPaired, Denote, Execute, StackOk;
    if AllPaired(vs, loc, p) {
      SavedAllMeans(vs, loc, p);
    } else {
      var i := OneIsLost(vs, loc, p);
    }
  }

  /** A register and then the pair whose upper half it is: both end in the one slot, and the
      pair is gone. */
  lemma PairSpoiled()
    ensures var vs := [Entry(Reg(TREG_EDX), false, false, NoReg), Entry(Reg(TREG_EAX), false, true, Also(TREG_EDX))];
            var s := SavedAll(vs, 0, 2);
            && StackOk(vs, 0) && !AllPaired(vs, 0, 2) && !SameMeaning(vs, s.vs, s.code)
            && s.vs == [Entry(Local(-4), true, false, NoReg), Entry(Local(-4), true, true, NoReg)]
  {
    var vs := [Entry(Reg(TREG_EDX), false, false, NoReg), Entry(Reg(TREG_EAX), false, true, Also(TREG_EDX))];
    FirstHere(vs, 0, 0);
    assert SavedAll(vs, 0, 0).vs == vs;
    assert Concerned(vs[0], vs[1], TREG_EDX) && !Partners(vs[0], vs[1]);
    assert !AllPaired(vs, 0, 1);
    SavedAllRight(vs, 0, 2);
  }

  /** Stacks without shared halves are among those. */
  lemma {:induction false} UniformAllPaired(vs: seq<Entry>, loc: int, p: nat)
    requires StackOk(vs, loc) && Uniform(vs) && p <= |vs|
    ensures AllPaired(vs, loc, p)
    decreases p
  {
    hide SavedAll, WellPaired, Uniform, StackOk;
    if p > 0 {
      UniformAllPaired(vs, loc, p - 1);
      SavedAllOk(vs, loc, p - 1);
      var s := SavedAll(vs, loc, p - 1);
      if s.vs[p - 1].home.Reg? { UniformPaired(s.vs, s.loc, s.vs[p - 1].home.r); }
    }
  }

  /** An integer register is in the entry. */
  predicate HoldsInt(e: Entry) { (e.second.Also? && IsInt(e.second.r)) || (e.home.Reg? && IsInt(e.home.r)) }

  /** `p` is the lowest entry with an integer register, and `r` is it, or its second one. */
  predicate Lowest(vs: seq<Entry>, p: nat, r: nat) {
    && p < |vs| && (forall i :: 0 <= i < p ==> !HoldsInt(vs[i])) && HoldsInt(vs[p])
    && if vs[p].second.Also? && IsInt(vs[p].second.r) then vs[p].second.r == r else vs[p].home == Reg(r)
  }

  // ----- the code -----

  class ValueStack {
    var vs: seq<Entry>
    var loc: int
    var code: seq<Ins>

    ghost predicate Valid()
      reads this
    {
      StackOk(vs, loc)
    }

    constructor (vs: seq<Entry>, loc: int)
      requires StackOk(vs, loc)
      ensures Valid() && this.vs == vs && this.loc == loc && code == []
    {
      this.vs, this.loc, code := vs, loc, [];
    }

    /** `save_reg`. */
    method SaveReg(reg: nat)
      requires Valid()
      modifies this
      ensures var s := Saved(old(vs), old(loc), reg); vs == s.vs && loc == s.loc && code == old(code) + s.code
    {
      ghost var was, s, first := vs, Saved(vs, loc, reg), First(vs, |vs|, reg);
      var r, saved, l, p := reg, false, 0, 0;
      while p < |vs|
        invariant 0 <= p <= |vs| == |was|
        invariant p <= first ==> !saved && r == reg && vs == was && loc == old(loc) && code == old(code)
        invariant p > first ==> saved && was[first].home == Reg(r) && l == loc == s.loc && code == old(code) + s.code
        invariant forall k :: 0 <= k < p ==> vs[k] == s.vs[k]
        invariant forall k :: p <= k < |vs| ==> vs[k] == was[k]
      {
        var e := vs[p];
        assert e == was[p] && EntryOk(e);
        if Touches(e, r) {
          if !saved {
            assert p == first;
            r := e.home.r;
            var pair := !e.lval && e.isLong;
            var at := loc - if pair then 8 else 4;
            loc := at - at % 4;
            code := code + [Store(r, loc)];
            if pair { code := code + [Store(e.second.r, loc + 4)]; }
            l := loc;
            saved := true;
          }
          vs := vs[p := if e.lval then e.(home := LLocal(l), second := NoReg) else Entry(Local(l), true, e.isLong, NoReg)];
        }
        p := p + 1;
      }
      assert vs == s.vs;
    }

    /** The part of `get_reg` that looks for a free register. */
    method FindFree() returns (r: int)
      ensures r >= 0 ==> r < NB_REGS && IsInt(r) && Free(vs, r) && forall x :: 0 <= x < r && IsInt(x) ==> !Free(vs, x)
      ensures r < 0 ==> forall x :: 0 <= x < NB_REGS && IsInt(x) ==> !Free(vs, x)
    {
      r := 0;
      while r < NB_REGS
        invariant 0 <= r <= NB_REGS
        invariant forall x :: 0 <= x < r && IsInt(x) ==> !Free(vs, x)
      {
        if IsInt(r) {
          var p := 0;
          while p < |vs| && !Touches(vs[p], r)
            invariant 0 <= p <= |vs| && forall k :: 0 <= k < p ==> !Touches(vs[k], r)
          {
            p := p + 1;
          }
          if p == |vs| { return; }
        }
        r := r + 1;
      }
      r := -1;
    }

    /** `get_reg` of an integer register: it always finds one, spilling that of the lowest
        entry when none is free; then the register is free and every entry means what it
        meant exactly if the stack is well paired, as it is without shared halves. */
    method GetReg() returns (r: int)
      requires Valid()
      modifies this
      ensures 0 <= r < NB_REGS && IsInt(r) && Valid() && old(code) <= code
      ensures if exists x: nat :: x < NB_REGS && IsInt(x) && Free(old(vs), x)
              then Free(old(vs), r) && vs == old(vs) && loc == old(loc) && code == old(code)
              else
                && (exists p: nat :: Lowest(old(vs), p, r))
                && (WellPaired(old(vs), r) <==> Free(vs, r) && SameMeaning(old(vs), vs, code[|old(code)|..]))
                && var s := Saved(old(vs), old(loc), r); vs == s.vs && loc == s.loc && code == old(code) + s.code
      ensures Uniform(old(vs)) ==> Uniform(vs) && Free(vs, r) && SameMeaning(old(vs), vs, code[|old(code)|..])
    {
      hide WellPaired, Uniform, SameMeaning;
      r := FindFree();
      if r >= 0 {
        assert code[|old(code)|..] == [];
        MeaningRefl(vs);
        return;
      }
      assert !Free(vs, TREG_EAX);
      ghost var k :| 0 <= k < |vs| && Touches(vs[k], TREG_EAX);
      var p := 0;
      while p < |vs|
        invariant 0 <= p <= |vs| && vs == old(vs) && loc == old(loc) && code == old(code)
        invariant p <= k && forall i :: 0 <= i < p ==> !HoldsInt(vs[i])
      {
        assert EntryOk(vs[p]);
        assert HoldsInt(vs[p]) ==> Lowest(vs, p, if vs[p].second.Also? && IsInt(vs[p].second.r) then vs[p].second.r else vs[p].home.r);
        if vs[p].second.Also? && IsInt(vs[p].second.r) {
          r := vs[p].second.r;
          Spill(r);
          return;
        }
        if vs[p].home.Reg? && IsInt(vs[p].home.r) {
          r := vs[p].home.r;
          Spill(r);
          return;
        }
        p := p + 1;
      }
      assert false;
    }

    method Spill(r: nat)
      requires Valid()
      modifies this
      ensures Valid() && old(code) <= code && |vs| == |old(vs)|
      ensures var s := Saved(old(vs), old(loc), r); vs == s.vs && loc == s.loc && code == old(code) + s.code
      ensures WellPaired(old(vs), r) <==> Free(vs, r) && SameMeaning(old(vs), vs, code[|old(code)|..])
      ensures Uniform(old(vs)) ==> Uniform(vs) && Free(vs, r) && SameMeaning(old(vs), vs, code[|old(code)|..])
    {
      hide WellPaired, Uniform, SameMeaning;
      ghost var was, s, at := vs, Saved(vs, loc, r), loc;
      SaveReg(r);
      assert code[|old(code)|..] == s.code;
      SavedStays(was, at, r);
      SavedRight(was, at, r);
      if Uniform(was) { UniformPaired(was, at, r); }
    }

    /** `save_regs`: no entry up to `n` below the top is left in a register, and all mean what
        they meant exactly if every spill is right, as on a stack without shared halves. */
    method SaveRegs(n: nat)
      requires Valid() && n <= |vs|
      modifies this
      ensures Valid() && |vs| == |old(vs)| && old(code) <= code
      ensures var s := SavedAll(old(vs), old(loc), |vs| - n); vs == s.vs && loc == s.loc && code == old(code) + s.code
      ensures forall i :: 0 <= i < |vs| - n ==> !vs[i].home.Reg?
      ensures AllPaired(old(vs), old(loc), |vs| - n) <==> SameMeaning(old(vs), vs, code[|old(code)|..])
      ensures Uniform(old(vs)) ==> AllPaired(old(vs), old(loc), |vs| - n)
    {
      hide Saved, WellPaired, Uniform, StackOk, SameMeaning, AllPaired;
      ghost var was, at := vs, loc;
      var p := 0;
      while p < |vs| - n
        invariant 0 <= p <= |vs| - n && |vs| == |was| && Valid()
        invariant var s := SavedAll(was, at, p); vs == s.vs && loc == s.loc && code == old(code) + s.code
      {
        if vs[p].home.Reg? { Spill(vs[p].home.r); }
        p := p + 1;
      }
      SavedAllOk(was, at, p);
      SavedAllRight(was, at, p);
      if Uniform(was) { UniformAllPaired(was, at, p); }
      assert code[|old(code)|..] == SavedAll(was, at, p).code;
    }
  }
}
