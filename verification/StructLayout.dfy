/** Laying out the members of a structure or union, bit-fields included. */
module StructLayout {
  import opened Wrappers
  import opened Arith

  const VT_INT := 0

  /** One declarator: `size` and `align` are those of its type after attributes, `width` the
      width of a bit-field. Only members of structure type may go without a name, apart
      from bit-fields. */
  datatype Decl = Decl(named: bool, isStruct: bool, bt: nat, scalar: bool, size: nat, align: nat, width: Option<int>)

  /** A member as it is recorded: its bits are `width` bits at `pos` of the storage at `off`. */
  datatype Field = Field(off: nat, pos: nat, width: nat, align: nat)

  datatype State = State(c: nat, offset: nat, bitPos: nat, prevbt: nat, maxalign: nat, fields: seq<Field>)

  const FIRST := State(0, 0, 0, VT_INT, 1, [])

  /** The declarators the parser lets through. */
  predicate DeclOk(d: Decl) {
    && d.align > 0 && PowerOf2(d.align)
    && (d.named || d.isStruct || d.width.Some?)
    && (d.isStruct ==> !d.scalar)
  }

  function Bits(d: Decl): nat { 8 * d.size }

  /** The errors: negative width, a named field of width 0, no scalar type, too wide. */
  predicate Rejected(d: Decl) {
    d.width.Some? && (d.width.value < 0 || (d.named && d.width.value == 0) || !d.scalar || d.width.value > Bits(d))
  }

  /** A width that makes it a bit-field proper. */
  predicate Proper(d: Decl) { d.width.Some? && 0 < d.width.value < Bits(d) }

  /** The bit position of a proper bit-field in its unit. */
  function BitPosition(st: State, d: Decl, isUnion: bool): nat
    requires Proper(d)
  {
    if st.bitPos + d.width.value > Bits(d) || d.bt != st.prevbt || isUnion then 0 else st.bitPos
  }

  /** Storage at the next aligned offset, or in a union at its start. */
  function Allocate(st: State, d: Decl, isUnion: bool): State
    requires d.align > 0
  {
    var at := AlignUp(st.c, d.align);
    st.(offset := if isUnion then 0 else at,
        c := if isUnion then (if d.size > st.c then d.size else st.c) else at + d.size,
        maxalign := if d.align > st.maxalign then d.align else st.maxalign)
  }

  /** One declarator. */
  function Step(st: State, d: Decl, isUnion: bool): State
    requires DeclOk(d) && !Rejected(d)
  {
    var lbit := if Proper(d) then BitPosition(st, d, isUnion) else 0;
    var st1 := st.(bitPos := if Proper(d) then lbit + d.width.value else 0,
                   prevbt := if d.width.Some? then d.bt else st.prevbt);
    if !d.named && !d.isStruct then st1 else
    var st2 := if lbit == 0 then Allocate(st1, d, isUnion) else st1;
    st2.(fields := st2.fields + [Field(st2.offset, lbit, if Proper(d) then d.width.value else Bits(d), d.align)])
  }

  function Steps(ds: seq<Decl>, isUnion: bool): Option<State>
    requires forall i :: 0 <= i < |ds| ==> DeclOk(ds[i])
    decreases |ds|
  {
    if ds == [] then Some(FIRST) else
    var st := Steps(ds[..|ds| - 1], isUnion);
    var d := ds[|ds| - 1];
    if st.None? || Rejected(d) then None else Some(Step(st.value, d, isUnion))
  }

  // ----- what is right about a layout -----

  function StartBit(f: Field): nat { 8 * f.off + f.pos }
  function EndBit(f: Field): nat { StartBit(f) + f.width }

  ghost predicate Apart(fields: seq<Field>) {
    forall i, j :: 0 <= i < j < |fields| ==> EndBit(fields[i]) <= StartBit(fields[j])
  }

  /** Types of one kind have one size. */
  ghost predicate SizesFixed(ds: seq<Decl>, sizeOf: nat -> nat) {
    forall i :: 0 <= i < |ds| && ds[i].width.Some? ==> ds[i].size == sizeOf(ds[i].bt)
  }

  predicate Kept(d: Decl) { d.named || d.isStruct }

  /** Whether the unit that is open after `d` has no storage, given whether the one before
      had none: a bit-field without a name opens a unit and allocates nothing for it. */
  predicate NextUnstored(st: State, d: Decl, was: bool) {
    Proper(d) && if BitPosition(st, d, false) == 0 then !Kept(d) else was
  }

  /** A named bit-field that continues a unit without storage. */
  predicate IsStray(st: State, d: Decl, unstored: bool) {
    Kept(d) && Proper(d) && BitPosition(st, d, false) > 0 && unstored
  }

  /** The first bit of the member that `d` makes. */
  function At(st: State, d: Decl): nat
    requires d.align > 0
  {
    if Proper(d) && BitPosition(st, d, false) > 0 then 8 * st.offset + BitPosition(st, d, false) else 8 * AlignUp(st.c, d.align)
  }

  predicate Last(flags: seq<bool>) { flags != [] && flags[|flags| - 1] }

  /** `flags` marks the strays among the members. The others lie in the storage, and the last
      of them below the current bit if its unit has storage. */
  ghost predicate Laid(st: State, flags: seq<bool>, unstored: bool, sizeOf: nat -> nat) {
    && st.maxalign > 0 && |flags| == |st.fields|
    && (forall k :: 0 <= k < |flags| ==> Aligned(st, st.fields[k]) && (!flags[k] ==> EndBit(st.fields[k]) <= 8 * st.c))
    && (st.bitPos > 0 && !unstored ==>
          && st.offset + sizeOf(st.prevbt) <= st.c && st.bitPos <= 8 * sizeOf(st.prevbt)
          && flags != [] && !Last(flags) && EndBit(st.fields[|flags| - 1]) <= 8 * st.offset + st.bitPos)
  }

  predicate Aligned(st: State, f: Field) { f.align > 0 && (f.pos == 0 ==> f.off % f.align == 0 && f.align <= st.maxalign) }

  /** Only strays, and what follows them, can come before the end of the member before. */
  lemma StepLaid(st: State, flags: seq<bool>, unstored: bool, d: Decl, sizeOf: nat -> nat)
    requires DeclOk(d) && !Rejected(d) && Laid(st, flags, unstored, sizeOf)
    requires d.width.Some? ==> d.size == sizeOf(d.bt)
    ensures var s := Step(st, d, false);
            var flags' := if Kept(d) then flags + [IsStray(st, d, unstored)] else flags;
            && Laid(s, flags', NextUnstored(st, d, unstored), sizeOf)
            && (!Kept(d) ==> s.fields == st.fields)
            && (Kept(d) ==> |s.fields| == |st.fields| + 1 && s.fields[..|st.fields|] == st.fields)
            && (Kept(d) ==> StartBit(s.fields[|st.fields|]) == At(st, d))
            && (Kept(d) && flags != [] && !IsStray(st, d, unstored) && !Last(flags) ==>
                  EndBit(st.fields[|flags| - 1]) <= At(st, d))
  {
    hide PowerOf2;
    var s := Step(st, d, false);
    forall k | 0 <= k < |st.fields| ensures Aligned(s, st.fields[k]) && (!flags[k] ==> EndBit(st.fields[k]) <= 8 * s.c) {
      assert Aligned(st, st.fields[k]);
    }
  }

  // ----- over all members of a structure -----

  predicate AllDeclsOk(ds: seq<Decl>) { forall i :: 0 <= i < |ds| ==> DeclOk(ds[i]) }

  function Init(ds: seq<Decl>): seq<Decl>
    requires ds != []
  {
    ds[..|ds| - 1]
  }

  function Final(ds: seq<Decl>): Decl
    requires ds != []
  {
    ds[|ds| - 1]
  }

  predicate Unstored(ds: seq<Decl>)
    requires AllDeclsOk(ds) && Steps(ds, false).Some?
  {
    ds != [] && NextUnstored(Steps(Init(ds), false).value, Final(ds), Unstored(Init(ds)))
  }

  /** The last declarator is a stray. */
  predicate EndsStray(ds: seq<Decl>)
    requires AllDeclsOk(ds) && Steps(ds, false).Some?
  {
    ds != [] && IsStray(Steps(Init(ds), false).value, Final(ds), Unstored(Init(ds)))
  }

  /** What the last declarator adds. */
  lemma Unfold(ds: seq<Decl>)
    requires ds != [] && AllDeclsOk(ds) && Steps(ds, false).Some?
    ensures AllDeclsOk(Init(ds)) && DeclOk(Final(ds)) && !Rejected(Final(ds)) && Steps(Init(ds), false).Some?
    ensures Steps(ds, false).value == Step(Steps(Init(ds), false).value, Final(ds), false)
  {
    hide Step;
  }

  /** Which members are strays. */
  function Strays(ds: seq<Decl>): seq<bool>
    requires AllDeclsOk(ds) && Steps(ds, false).Some?
  {
    if ds == [] then [] else Strays(Init(ds)) + if Kept(Final(ds)) then [EndsStray(ds)] else []
  }

  /** The last declarator is a stray, or follows one, and begins before the member before it
      ends. */
  predicate Collides(ds: seq<Decl>)
    requires AllDeclsOk(ds) && Steps(ds, false).Some?
  {
    ds != [] && Kept(Final(ds)) && (EndsStray(ds) || Last(Strays(Init(ds)))) &&
    var st := Steps(Init(ds), false).value;
    st.fields != [] && At(st, Final(ds)) < EndBit(st.fields[|st.fields| - 1])
  }

  lemma {:induction false} AllLaid(ds: seq<Decl>, sizeOf: nat -> nat)
    requires AllDeclsOk(ds) && SizesFixed(ds, sizeOf) && Steps(ds, false).Some?
    ensures Laid(Steps(ds, false).value, Strays(ds), Unstored(ds), sizeOf)
    decreases |ds|
  {
    hide PowerOf2, Step, Laid, DeclOk, Rejected, IsStray, NextUnstored, Steps, At;
    if ds == [] {
      FirstLaid(sizeOf);
    } else {
      Unfold(ds);
      AllLaid(Init(ds), sizeOf);
      StepLaid(Steps(Init(ds), false).value, Strays(Init(ds)), Unstored(Init(ds)), Final(ds), sizeOf);
      assert Kept(Final(ds)) || Strays(Init(ds)) + [] == Strays(Init(ds));
    }
  }

  lemma FirstLaid(sizeOf: nat -> nat)
    ensures Steps([], false) == Some(FIRST) && Laid(FIRST, [], false, sizeOf)
  {
  }

  /** No declarator of the list collides. */
  predicate NoneCollides(ds: seq<Decl>)
    requires AllDeclsOk(ds) && Steps(ds, false).Some?
  {
    ds == [] || (NoneCollides(Init(ds)) && !Collides(ds))
  }

  lemma ApartSnoc(fields: seq<Field>, f: Field)
    ensures Apart(fields + [f]) <==> Apart(fields) && (fields != [] ==> EndBit(fields[|fields| - 1]) <= StartBit(f))
  {
    var all := fields + [f];
    if Apart(all) {
      forall i, j | 0 <= i < j < |fields| ensures EndBit(fields[i]) <= StartBit(fields[j]) {
        assert all[i] == fields[i] && all[j] == fields[j];
      }
      if fields != [] { assert EndBit(all[|fields| - 1]) <= StartBit(all[|fields|]); }
    }
    if Apart(fields) && (fields != [] ==> EndBit(fields[|fields| - 1]) <= StartBit(f)) {
      forall i, j | 0 <= i < j < |all| ensures EndBit(all[i]) <= StartBit(all[j]) {
        if j == |fields| && i < |fields| - 1 { assert EndBit(fields[i]) <= StartBit(fields[|fields| - 1]); }
      }
    }
  }

  /** Members lie in order, one after another, if and only if no declarator collides. */
  lemma {:induction false} OrderExact(ds: seq<Decl>, sizeOf: nat -> nat)
    requires AllDeclsOk(ds) && SizesFixed(ds, sizeOf) && Steps(ds, false).Some?
    ensures Apart(Steps(ds, false).value.fields) <==> NoneCollides(ds)
    decreases |ds|
  {
    hide PowerOf2, Step, Steps, Apart, DeclOk, Rejected, At, IsStray, NextUnstored, Unstored;
    if ds == [] {
      NothingApart();
    } else {
      Unfold(ds);
      var init, d := Init(ds), Final(ds);
      var st := Steps(init, false).value;
      OrderExact(init, sizeOf);
      AllLaid(init, sizeOf);
      StepLaid(st, Strays(init), Unstored(init), d, sizeOf);
      if Kept(d) {
        var fields := Step(st, d, false).fields;
        assert fields == st.fields + [fields[|st.fields|]];
        ApartSnoc(st.fields, fields[|st.fields|]);
      }
    }
  }

  lemma NothingApart()
    ensures Steps([], false) == Some(FIRST) && Apart([])
  {
  }

  /** What is right about the layout of every structure, and when the rest is: members begin
      at their alignment; they are in order exactly if none collides; they are all within the
      storage exactly if the strays are. */
  lemma LayoutExact(ds: seq<Decl>, sizeOf: nat -> nat)
    requires AllDeclsOk(ds) && SizesFixed(ds, sizeOf) && Steps(ds, false).Some?
    ensures var st, strays := Steps(ds, false).value, Strays(ds);
            && |strays| == |st.fields|
            && (forall k :: 0 <= k < |st.fields| ==> Aligned(st, st.fields[k]))
            && (Apart(st.fields) <==> NoneCollides(ds))
            && ((forall k :: 0 <= k < |st.fields| ==> EndBit(st.fields[k]) <= 8 * st.c) <==>
                  forall k :: 0 <= k < |st.fields| && strays[k] ==> EndBit(st.fields[k]) <= 8 * st.c)
  {
    hide Steps, Strays, NoneCollides, Apart, Unstored, DeclOk;
    AllLaid(ds, sizeOf);
    OrderExact(ds, sizeOf);
  }

  /** Without strays members lie in order without overlap, aligned and within the storage. */
  lemma LayoutSound(ds: seq<Decl>, sizeOf: nat -> nat)
    requires AllDeclsOk(ds) && SizesFixed(ds, sizeOf) && Steps(ds, false).Some?
    requires true !in Strays(ds)
    ensures var st := Steps(ds, false).value;
            Apart(st.fields) && forall k :: 0 <= k < |st.fields| ==> Aligned(st, st.fields[k]) && EndBit(st.fields[k]) <= 8 * st.c
  {
    hide Steps, Strays, NoneCollides, Apart, Unstored, DeclOk;
    LayoutExact(ds, sizeOf);
    NoStrayNoCollision(ds);
  }

  lemma {:induction false} NoStrayNoCollision(ds: seq<Decl>)
    requires AllDeclsOk(ds) && Steps(ds, false).Some? && true !in Strays(ds)
    ensures NoneCollides(ds)
    decreases |ds|
  {
    hide Step, At, IsStray;
    if ds != [] { NoStrayNoCollision(Init(ds)); }
  }

  /** The index of the declarator that opened the unit of the last one. */
  function Opener(ds: seq<Decl>): (u: nat)
    requires ds != [] && AllDeclsOk(ds) && Steps(ds, false).Some?
    ensures u < |ds|
    decreases |ds|
  {
    var d := Final(ds);
    if Proper(d) && BitPosition(Steps(Init(ds), false).value, d, false) > 0 && Init(ds) != [] then Opener(Init(ds)) else |ds| - 1
  }

  lemma OpenUnit(st: State, d: Decl)
    requires DeclOk(d) && !Rejected(d) && Step(st, d, false).bitPos > 0
    ensures Proper(d)
  {
  }

  /** The unit of a named bit-field was opened without allocating storage if and only if the
      field is a stray. */
  lemma {:induction false} StrayOpener(ds: seq<Decl>)
    requires ds != [] && AllDeclsOk(ds) && Steps(ds, false).Some? && Proper(Final(ds))
    ensures Unstored(ds) <==> !Kept(ds[Opener(ds)])
    ensures Kept(Final(ds)) ==> (EndsStray(ds) <==> !Kept(ds[Opener(ds)]))
    decreases |ds|
  {
    hide PowerOf2, Allocate;
    Unfold(ds);
    if BitPosition(Steps(Init(ds), false).value, Final(ds), false) > 0 {
      assert Init(ds) != [];
      Unfold(Init(ds));
      OpenUnit(Steps(Init(Init(ds)), false).value, Final(Init(ds)));
      StrayOpener(Init(ds));
    }
  }

  /** A stray allocates nothing and goes to the storage before it. So unless that has bits to
      spare at its end, it begins inside the member before it or ends outside the storage. */
  lemma StrayHarms(ds: seq<Decl>)
    requires AllDeclsOk(ds) && Steps(ds, false).Some? && EndsStray(ds)
    ensures var was, st := Steps(Init(ds), false).value, Steps(ds, false).value;
            && st.fields == was.fields + [Field(was.offset, was.bitPos, Final(ds).width.value, Final(ds).align)]
            && st.c == was.c && st.maxalign == was.maxalign
            && ((if was.fields == [] then was.c == 0 else EndBit(was.fields[|was.fields| - 1]) >= 8 * was.c) ==>
                  Collides(ds) || EndBit(st.fields[|was.fields|]) > 8 * st.c)
  {
    hide PowerOf2, Steps, Unstored;
    Unfold(ds);
  }

  /** A structure of nothing but an unnamed and a named bit-field has no storage at all. */
  lemma NoStorage()
    ensures var pad := Decl(false, false, VT_INT, true, 4, 4, Some(3));
            var bits := Decl(true, false, VT_INT, true, 4, 4, Some(4));
            var ds := [pad, bits];
            && AllDeclsOk(ds) && Steps(ds, false).Some? && EndsStray(ds) && !Collides(ds)
            && Steps(ds, false).value.fields == [Field(0, 3, 4, 4)] && Steps(ds, false).value.c == 0
  {
    assert PowerOf2(4) by { assert PowerOf2(2) by { assert PowerOf2(1); } }
    var pad := Decl(false, false, VT_INT, true, 4, 4, Some(3));
    var bits := Decl(true, false, VT_INT, true, 4, 4, Some(4));
    assert Init([pad, bits]) == [pad] && Init([pad]) == [];
    assert Steps([pad], false) == Some(Step(FIRST, pad, false));
    assert Unstored([pad]);
  }

  /** After a `char`, an unnamed three-bit field opens a unit without storage, and the four
      bits that follow it land in the `char`. */
  lemma UnnamedOverlaps()
    ensures var int8 := Decl(true, false, 1, true, 1, 1, None);
            var pad := Decl(false, false, VT_INT, true, 4, 4, Some(3));
            var bits := Decl(true, false, VT_INT, true, 4, 4, Some(4));
            var ds := [int8, pad, bits];
            && AllDeclsOk(ds) && Steps(ds, false).Some?
            && Steps(ds, false).value.fields == [Field(0, 0, 8, 1), Field(0, 3, 4, 4)] && Steps(ds, false).value.c == 1
            && EndsStray(ds) && Collides(ds)
  {
    assert PowerOf2(4) by { assert PowerOf2(2) by { assert PowerOf2(1); } }
    var int8 := Decl(true, false, 1, true, 1, 1, None);
    var pad := Decl(false, false, VT_INT, true, 4, 4, Some(3));
    var bits := Decl(true, false, VT_INT, true, 4, 4, Some(4));
    var ds := [int8, pad, bits];
    assert Init(ds) == [int8, pad] && Init([int8, pad]) == [int8] && Init([int8]) == [];
    assert Steps([int8], false) == Some(Step(FIRST, int8, false));
    assert Steps([int8, pad], false) == Some(Step(Step(FIRST, int8, false), pad, false));
    assert Unstored([int8, pad]);
  }

  /** A list of declarators is accepted if and only if every bit-field is of a scalar type and at
      most as wide as that, and those with a name have a bit at least. */
  lemma {:induction false} AcceptedExactly(ds: seq<Decl>, isUnion: bool)
    requires AllDeclsOk(ds)
    ensures Steps(ds, isUnion).Some? <==>
            forall i :: 0 <= i < |ds| && ds[i].width.Some? ==>
              ds[i].scalar && 0 <= ds[i].width.value <= 8 * ds[i].size && (ds[i].named ==> ds[i].width.value >= 1)
    decreases |ds|
  {
    hide Step, DeclOk;
    if ds != [] {
      var init := ds[..|ds| - 1];
      AcceptedExactly(init, isUnion);
      assert forall i :: 0 <= i < |init| ==> init[i] == ds[i];
    }
  }

  // ----- nothing is wasted -----

  /** A bit-field that takes up some of a unit. One that takes up none closes the unit before
      it, and one that takes up all is a member like others. */
  predicate Partial(d: Decl) { d.width.Some? && 0 < d.width.value < 8 * d.size }

  /** The bits that the bit-fields of a run take up. */
  function Widths(ds: seq<Decl>): int
  {
    if ds == [] then 0 else Widths(ds[..|ds| - 1]) + if ds[|ds| - 1].width.Some? then ds[|ds| - 1].width.value else 0
  }

  /** Where the run of bit-fields that share a unit with the last declarator begins: as long as
      they are of one type and fit. */
  function RunStart(ds: seq<Decl>): (u: nat)
    requires ds != []
    ensures u < |ds|
    decreases |ds|
  {
    var d, n := Final(ds), |ds|;
    if n >= 2 && Partial(d) && Partial(ds[n - 2]) && ds[n - 2].bt == d.bt
       && Widths(ds[RunStart(Init(ds))..n - 1]) + d.width.value <= 8 * d.size
    then RunStart(Init(ds)) else n - 1
  }

  /** Bits of the open unit that are taken. */
  function Taken(ds: seq<Decl>): int {
    if ds == [] || !Partial(Final(ds)) then 0 else Widths(ds[RunStart(ds)..])
  }

  lemma WidthsSnoc(ds: seq<Decl>, u: nat)
    requires u < |ds| && ds[|ds| - 1].width.Some?
    ensures Widths(ds[u..]) == Widths(ds[u..|ds| - 1]) + ds[|ds| - 1].width.value
  {
    var run := ds[u..];
    assert run[..|run| - 1] == ds[u..|ds| - 1];
  }

  lemma TakenSnoc(ds: seq<Decl>)
    requires ds != [] && Partial(Final(ds))
    ensures Taken(ds) == (if RunStart(ds) < |ds| - 1 then Taken(Init(ds)) else 0) + Final(ds).width.value
  {
    hide Widths;
    var u, n := RunStart(ds), |ds|;
    WidthsSnoc(ds, u);
    if u < n - 1 {
      assert Final(Init(ds)) == ds[n - 2] && Init(ds)[u..] == ds[u..n - 1];
    } else {
      NoWidths(ds[u..n - 1]);
    }
  }

  lemma NoWidths(ds: seq<Decl>)
    requires ds == []
    ensures Widths(ds) == 0
  {
  }

  /** The bit position that is kept is that of the run, in a structure. */
  lemma {:induction false} BitsTaken(ds: seq<Decl>)
    requires AllDeclsOk(ds) && Steps(ds, false).Some?
    ensures Steps(ds, false).value.bitPos == Taken(ds)
    ensures ds != [] && Final(ds).width.Some? ==> Steps(ds, false).value.prevbt == Final(ds).bt
    decreases |ds|
  {
    hide PowerOf2, Steps, Taken, RunStart, Allocate;
    if ds == [] {
      NoneTaken();
    } else {
      Unfold(ds);
      BitsTaken(Init(ds));
      StepBits(Steps(Init(ds), false).value, Final(ds));
      RunDecides(ds);
    }
  }

  lemma NoneTaken()
    ensures Steps([], false) == Some(FIRST) && Taken([]) == 0
  {
  }

  lemma StepBits(st: State, d: Decl)
    requires DeclOk(d) && !Rejected(d)
    ensures var s := Step(st, d, false);
            && s.bitPos == (if Partial(d) then BitPosition(st, d, false) + d.width.value else 0)
            && (d.width.Some? ==> s.prevbt == d.bt)
  {
  }

  /** The run goes on exactly where the code goes on. */
  lemma RunDecides(ds: seq<Decl>)
    requires ds != [] && AllDeclsOk(ds) && Steps(ds, false).Some? && Steps(Init(ds), false).Some?
    requires var st := Steps(Init(ds), false).value;
             st.bitPos == Taken(Init(ds)) && (Init(ds) != [] && Final(Init(ds)).width.Some? ==> st.prevbt == Final(Init(ds)).bt)
    ensures Partial(Final(ds)) ==>
              && BitPosition(Steps(Init(ds), false).value, Final(ds), false) == (if RunStart(ds) < |ds| - 1 then Taken(Init(ds)) else 0)
              && Taken(ds) == (if RunStart(ds) < |ds| - 1 then Taken(Init(ds)) else 0) + Final(ds).width.value
    ensures !Partial(Final(ds)) ==> Taken(ds) == 0
  {
    hide Steps, PowerOf2;
    if Partial(Final(ds)) {
      TakenSnoc(ds);
      if |ds| >= 2 && Partial(ds[|ds| - 2]) {
        assert Final(Init(ds)) == ds[|ds| - 2] && Init(ds)[RunStart(Init(ds))..] == ds[RunStart(Init(ds))..|ds| - 1];
      }
    }
  }

  /** A member goes on in the unit of the bit-fields before it, if it is one and there is room
      and they are of its type. */
  predicate Continuing(ds: seq<Decl>)
    requires ds != []
  {
    Partial(Final(ds)) && RunStart(ds) < |ds| - 1
  }

  /** The first multiple of `align` from `from` on. */
  predicate Least(x: int, from: int, align: int) { align > 0 && from <= x < from + align && x % align == 0 }

  /** Members of a structure are packed: one that continues a unit begins right after the bits
      that are taken there; any other begins at the least multiple of its alignment after the
      storage so far, which then ends with it. Declarators that make no member take nothing. */
  lemma Packed(ds: seq<Decl>)
    requires ds != [] && AllDeclsOk(ds) && Steps(ds, false).Some?
    ensures Steps(Init(ds), false).Some?
    ensures var was, st, d := Steps(Init(ds), false).value, Steps(ds, false).value, Final(ds);
            if !Kept(d) then (st.fields, st.c, st.maxalign) == (was.fields, was.c, was.maxalign) else
            && |st.fields| == |was.fields| + 1 && st.fields[..|was.fields|] == was.fields
            && var f := st.fields[|was.fields|];
            && f.align == d.align && f.width == (if d.width.Some? then d.width.value else 8 * d.size)
            && if Continuing(ds) then f.off == was.offset && f.pos == Taken(Init(ds)) && (st.c, st.offset, st.maxalign) == (was.c, was.offset, was.maxalign)
               else f.pos == 0 && Least(f.off, was.c, d.align) && st.c == f.off + d.size && st.offset == f.off
                    && st.maxalign == if d.align > was.maxalign then d.align else was.maxalign
  {
    hide Steps, Taken, RunStart, PowerOf2;
    Unfold(ds);
    BitsTaken(Init(ds));
    RunDecides(ds);
    if Continuing(ds) { TakenSome(ds); }
  }

  /** A run that is continued has bits in it. */
  lemma TakenSome(ds: seq<Decl>)
    requires ds != [] && AllDeclsOk(ds) && Steps(ds, false).Some? && Continuing(ds)
    ensures Taken(Init(ds)) > 0
  {
    hide Steps, Taken, PowerOf2;
    var init := Init(ds);
    assert Final(init) == ds[|ds| - 2];
    Unfold(ds);
    Unfold(init);
    BitsTaken(Init(init));
    TakenSnoc(init);
  }

  /** In particular a named bit-field right after another of its type is put right behind it,
      in the same storage, exactly if it fits in what is left of that. */
  lemma NextBits(ds: seq<Decl>)
    requires |ds| >= 2 && AllDeclsOk(ds) && Steps(ds, false).Some?
    requires Kept(Final(ds)) && Partial(Final(ds)) && Kept(ds[|ds| - 2]) && Partial(ds[|ds| - 2]) && ds[|ds| - 2].bt == Final(ds).bt
    ensures Steps(Init(ds), false).Some?
    ensures var was, st := Steps(Init(ds), false).value.fields, Steps(ds, false).value.fields;
            && |was| > 0 && |st| == |was| + 1
            && var g, f := was[|was| - 1], st[|was|];
            if g.pos + g.width + Final(ds).width.value <= 8 * Final(ds).size then f.off == g.off && f.pos == g.pos + g.width
            else f.pos == 0 && Least(f.off, Steps(Init(ds), false).value.c, Final(ds).align)
  {
    hide Steps, PowerOf2;
    Packed(ds);
    Packed(Init(ds));
    TakenSnoc(Init(ds));
  }

  /** In a union every member has the first storage, as much as the largest of them needs. */
  lemma UnionPacked(ds: seq<Decl>)
    requires ds != [] && AllDeclsOk(ds) && Steps(ds, true).Some?
    ensures Steps(Init(ds), true).Some?
    ensures var was, st, d := Steps(Init(ds), true).value, Steps(ds, true).value, Final(ds);
            if !Kept(d) then (st.fields, st.c, st.maxalign) == (was.fields, was.c, was.maxalign) else
            && st.fields == was.fields + [Field(0, 0, if d.width.Some? then d.width.value else 8 * d.size, d.align)]
            && st.c == (if d.size > was.c then d.size else was.c)
            && st.maxalign == if d.align > was.maxalign then d.align else was.maxalign
  {
    hide PowerOf2;
  }

  /** The last declarator takes storage of its own. */
  predicate Allocates(ds: seq<Decl>, isUnion: bool) {
    ds != [] && Kept(Final(ds)) && (isUnion || !Continuing(ds))
  }

  predicate AllocatesAt(ds: seq<Decl>, isUnion: bool, i: int) { 0 <= i < |ds| && Allocates(ds[..i + 1], isUnion) }

  /** The alignment is that of the most aligned member that takes storage, or 1. */
  lemma {:induction false} AlignLargest(ds: seq<Decl>, isUnion: bool)
    requires AllDeclsOk(ds) && Steps(ds, isUnion).Some?
    ensures var a := Steps(ds, isUnion).value.maxalign;
            && (forall i :: AllocatesAt(ds, isUnion, i) ==> ds[i].align <= a)
            && (a == 1 || exists i :: AllocatesAt(ds, isUnion, i) && ds[i].align == a)
    decreases |ds|
  {
    hide Steps, Allocates, PowerOf2;
    if ds == [] {
      FirstAlign(isUnion);
    } else {
      var init, n := Init(ds), |ds|;
      if isUnion { UnionPacked(ds); } else { Packed(ds); }
      AlignLargest(init, isUnion);
      var was, a := Steps(init, isUnion).value.maxalign, Steps(ds, isUnion).value.maxalign;
      assert ds[..n] == ds;
      LastAllocates(ds, isUnion);
      forall i | AllocatesAt(ds, isUnion, i) ensures ds[i].align <= a {
        if i < n - 1 { AllocatesBefore(ds, isUnion, i); }
      }
      if a != 1 && a == was {
        var i :| AllocatesAt(init, isUnion, i) && init[i].align == was;
        AllocatesBefore(ds, isUnion, i);
        assert AllocatesAt(ds, isUnion, i) && ds[i].align == a;
      } else if a != 1 {
        assert AllocatesAt(ds, isUnion, n - 1) && ds[n - 1].align == a;
      }
    }
  }

  lemma FirstAlign(isUnion: bool)
    ensures Steps([], isUnion) == Some(FIRST) && forall i :: !AllocatesAt([], isUnion, i)
  {
  }

  lemma AllocatesBefore(ds: seq<Decl>, isUnion: bool, i: nat)
    requires i < |ds| - 1
    ensures AllocatesAt(ds, isUnion, i) <==> AllocatesAt(Init(ds), isUnion, i)
  {
    assert Init(ds)[..i + 1] == ds[..i + 1];
  }

  /** Only a member that takes storage counts for the alignment. */
  lemma LastAllocates(ds: seq<Decl>, isUnion: bool)
    requires ds != [] && AllDeclsOk(ds) && Steps(ds, isUnion).Some?
    ensures Steps(Init(ds), isUnion).Some?
    ensures var was, a := Steps(Init(ds), isUnion).value.maxalign, Steps(ds, isUnion).value.maxalign;
            a == if Allocates(ds, isUnion) && Final(ds).align > was then Final(ds).align else was
  {
    hide Steps, PowerOf2, RunStart;
    if isUnion { UnionPacked(ds); } else { Packed(ds); }
  }

  /** Every member of a union starts at its first bit, and the largest of them fits. */
  lemma {:induction false} UnionSound(ds: seq<Decl>)
    requires forall i :: 0 <= i < |ds| ==> DeclOk(ds[i])
    requires Steps(ds, true).Some?
    ensures var st := Steps(ds, true).value;
            && st.maxalign > 0
            && forall i :: 0 <= i < |st.fields| ==> StartBit(st.fields[i]) == 0 && EndBit(st.fields[i]) <= 8 * st.c && st.fields[i].align <= st.maxalign
    decreases |ds|
  {
    hide PowerOf2;
    if ds != [] { UnionSound(ds[..|ds| - 1]); }
  }

  // ----- the code -----

  /** The member loop of `struct_decl`. */
  method StructDecl(ds: seq<Decl>, isUnion: bool) returns (ok: bool, fields: seq<Field>, size: nat, maxalign: nat)
    requires forall i :: 0 <= i < |ds| ==> DeclOk(ds[i])
    ensures ok <==> Steps(ds, isUnion).Some?
    ensures ok ==>
              var st := Steps(ds, isUnion).value;
              && fields == st.fields && maxalign == st.maxalign > 0
              && size % maxalign == 0 && st.c <= size < st.c + maxalign
  {
    hide PowerOf2;
    var c: nat, offset: nat, bitPos: nat, prevbt: nat := 0, 0, 0, VT_INT;
    ok, fields, size, maxalign := true, [], 0, 1;
    var i := 0;
    while i < |ds|
      invariant 0 <= i <= |ds| && maxalign > 0
      invariant Steps(ds[..i], isUnion) == Some(State(c, offset, bitPos, prevbt, maxalign, fields))
    {
      var d := ds[i];
      assert ds[..i + 1][..i] == ds[..i] && ds[..i + 1][i] == d && DeclOk(d);
      if d.width.Some? {
        var bits := d.width.value;
        if bits < 0 || (d.named && bits == 0) || !d.scalar || bits > Bits(d) {
          RejectedThere(ds, i, isUnion);
          return false, fields, 0, maxalign;
        }
      }
      var lbit, width;
      lbit, width, bitPos := PlaceBits(d, bitPos, prevbt, isUnion);
      if d.width.Some? { prevbt := d.bt; }
      if d.named || d.isStruct {
        if lbit == 0 {
          if !isUnion {
            c := AlignUp(c, d.align);
            offset := c;
            c := c + d.size;
          } else {
            offset := 0;
            if d.size > c { c := d.size; }
          }
          if d.align > maxalign { maxalign := d.align; }
        }
        fields := fields + [Field(offset, lbit, width, d.align)];
      }
      i := i + 1;
    }
    assert ds[..|ds|] == ds;
    size := AlignUp(c, maxalign);
  }

  /** The position of a bit-field in its unit, and the next free bit. */
  method PlaceBits(d: Decl, was: nat, prevbt: nat, isUnion: bool) returns (lbit: nat, width: nat, bitPos: nat)
    requires !Rejected(d)
    ensures width == if Proper(d) then d.width.value else Bits(d)
    ensures lbit == if Proper(d) then BitPosition(FIRST.(bitPos := was, prevbt := prevbt), d, isUnion) else 0
    ensures bitPos == if Proper(d) then lbit + d.width.value else 0
  {
    lbit, width, bitPos := 0, Bits(d), was;
    if d.width.Some? {
      var bits := d.width.value;
      if bits == Bits(d) || bits == 0 {
        bitPos := 0;
      } else {
        if bitPos + bits > Bits(d) || d.bt != prevbt || isUnion {
          bitPos := 0;
        }
        lbit := bitPos;
        width := bits;
        bitPos := bitPos + bits;
      }
    } else {
      bitPos := 0;
    }
  }

  lemma {:induction false} RejectedThere(ds: seq<Decl>, i: nat, isUnion: bool)
    requires forall i :: 0 <= i < |ds| ==> DeclOk(ds[i])
    requires i < |ds| && Rejected(ds[i])
    ensures Steps(ds, isUnion).None?
    decreases |ds|
  {
    hide Step;
    if i < |ds| - 1 {
      RejectedThere(ds[..|ds| - 1], i, isUnion);
    }
  }
}
