/** The compiler's symbol stacks. Every symbol is on a stack, local or global, and every
    name has a chain through the symbols that bear it, newest first, so that looking a name
    up takes one step. Symbols live in a pool and are referred to by their index, 0 for none. */
module Scopes {
  /** What is bound: an identifier or a tag of a token, which have chains of their own, or a
      structure field or an anonymous symbol, which have none. */
  datatype Name = Ident(tok: nat) | Tag(tok: nat) | Field(tok: nat) | Anonymous(n: nat)

  predicate Recorded(v: Name) { v.Ident? || v.Tag? }

  datatype Sym = Sym(v: Name, prev: nat, prevTok: nat)

  // ----- plain search -----

  predicate Known(heap: seq<Sym>, ids: seq<nat>) { forall i :: 0 <= i < |ids| ==> 0 < ids[i] < |heap| }

  /** The symbols of a stack called `v`, newest first. */
  function Named(heap: seq<Sym>, ids: seq<nat>, v: Name): (r: seq<nat>)
    requires Known(heap, ids)
    ensures forall i :: 0 <= i < |r| ==> r[i] in ids && heap[r[i]].v == v
    decreases |ids|
  {
    if ids == [] then [] else
    var top := ids[|ids| - 1];
    (if heap[top].v == v then [top] else []) + Named(heap, ids[..|ids| - 1], v)
  }

  function Head(ids: seq<nat>): nat { if ids == [] then 0 else ids[0] }

  function Top(ids: seq<nat>): nat { if ids == [] then 0 else ids[|ids| - 1] }

  /** The newest local symbol of that name, else the newest global one. */
  function Linear(heap: seq<Sym>, locals: seq<nat>, globals: seq<nat>, v: Name): nat
    requires Known(heap, locals) && Known(heap, globals)
  {
    if Named(heap, locals, v) != [] then Head(Named(heap, locals, v)) else Head(Named(heap, globals, v))
  }

  // ----- the linked structure -----

  ghost predicate Stacked(heap: seq<Sym>, ids: seq<nat>) {
    Known(heap, ids) && forall i :: 0 <= i < |ids| ==> Under(heap, ids, i)
  }

  predicate Under(heap: seq<Sym>, ids: seq<nat>, i: nat)
    requires i < |ids| && Known(heap, ids)
  {
    heap[ids[i]].prev == (if i == 0 then 0 else ids[i - 1])
  }

  ghost predicate Chained(heap: seq<Sym>, x: nat, c: seq<nat>)
    decreases |c|
  {
    if c == [] then x == 0
    else 0 < x < |heap| && x == c[0] && Chained(heap, heap[x].prevTok, c[1..])
  }

  ghost predicate Distinct(ids: seq<nat>) { forall i, j :: 0 <= i < j < |ids| ==> ids[i] != ids[j] }

  function SlotOf(table: map<Name, nat>, v: Name): nat { if v in table then table[v] else 0 }

  ghost function Chain(heap: seq<Sym>, locals: seq<nat>, globals: seq<nat>, v: Name): seq<nat>
    requires Known(heap, locals) && Known(heap, globals)
  {
    Named(heap, locals, v) + Named(heap, globals, v)
  }

  lemma ChainedCons(heap: seq<Sym>, s: nat, c: seq<nat>)
    requires 0 < s < |heap| && Chained(heap, heap[s].prevTok, c)
    ensures Chained(heap, s, [s] + c)
  {
    assert ([s] + c)[1..] == c;
  }

  /** The stack below its top. */
  lemma StackedInit(heap: seq<Sym>, ids: seq<nat>)
    requires Stacked(heap, ids) && Top(ids) != 0
    ensures ids != [] && 0 < Top(ids) < |heap|
    ensures var init := ids[..|ids| - 1]; Stacked(heap, init) && heap[Top(ids)].prev == Top(init)
  {
    var k: nat := |ids| - 1;
    assert Under(heap, ids, k);
    forall i | 0 <= i < k ensures Under(heap, ids[..k], i) {
      assert Under(heap, ids, i);
    }
  }

  lemma {:induction false} ChainedFrame(heap: seq<Sym>, heap': seq<Sym>, x: nat, c: seq<nat>)
    requires Chained(heap, x, c) && |heap| <= |heap'|
    requires forall i :: 0 <= i < |c| && 0 <= c[i] < |heap| ==> heap'[c[i]].prevTok == heap[c[i]].prevTok
    ensures Chained(heap', x, c)
    decreases |c|
  {
    if c != [] {
      ChainedFrame(heap, heap', heap[x].prevTok, c[1..]);
    }
  }

  lemma {:induction false} NamedFrame(heap: seq<Sym>, heap': seq<Sym>, ids: seq<nat>, v: Name)
    requires Known(heap, ids) && |heap| <= |heap'|
    requires forall i :: 0 <= i < |heap| ==> heap'[i].v == heap[i].v
    ensures Named(heap', ids, v) == Named(heap, ids, v)
    decreases |ids|
  {
    if ids != [] { NamedFrame(heap, heap', ids[..|ids| - 1], v); }
  }

  lemma NamedPush(heap: seq<Sym>, ids: seq<nat>, x: nat, v: Name)
    requires Known(heap, ids) && 0 < x < |heap|
    ensures Known(heap, ids + [x])
    ensures Named(heap, ids + [x], v) == (if heap[x].v == v then [x] else []) + Named(heap, ids, v)
  {
    assert (ids + [x])[..|ids|] == ids;
  }

  /** A chain ends in 0, and linking one more symbol to its last one lengthens it. */
  lemma {:induction false} ChainedAppend(heap: seq<Sym>, x: nat, c: seq<nat>, s: nat)
    requires Chained(heap, x, c) && c != [] && Distinct(c) && s !in c && 0 < s < |heap| && heap[s].prevTok == 0
    ensures var last := c[|c| - 1]; last < |heap| && Chained(heap[last := heap[last].(prevTok := s)], x, c + [s])
    decreases |c|
  {
    LastIn(heap, x, c);
    var last := c[|c| - 1];
    var heap' := heap[last := heap[last].(prevTok := s)];
    assert (c + [s])[1..] == c[1..] + [s];
    if |c| == 1 {
      assert s != last;
      assert Chained(heap', s, [s]);
    } else {
      assert c[1..][|c| - 2] == last;
      ChainedAppend(heap, heap[x].prevTok, c[1..], s);
      assert x != last;
    }
  }

  lemma {:induction false} LastIn(heap: seq<Sym>, x: nat, c: seq<nat>)
    requires Chained(heap, x, c) && c != []
    ensures 0 < c[|c| - 1] < |heap|
    decreases |c|
  {
    if |c| > 1 { LastIn(heap, heap[x].prevTok, c[1..]); }
  }

  lemma {:induction false} NamedDistinct(heap: seq<Sym>, ids: seq<nat>, v: Name)
    requires Known(heap, ids) && Distinct(ids)
    ensures Distinct(Named(heap, ids, v))
    decreases |ids|
  {
    if ids != [] {
      var init := ids[..|ids| - 1];
      NamedDistinct(heap, init, v);
      var r, top := Named(heap, init, v), ids[|ids| - 1];
      forall i | 0 <= i < |r| ensures r[i] != top {
        assert r[i] in init;
      }
    }
  }

  /** Two stacks, and for every name a chain of its local and then its global symbols. */
  ghost predicate Consistent(heap: seq<Sym>, locals: seq<nat>, globals: seq<nat>, table: map<Name, nat>) {
    && |heap| > 0 && Stacked(heap, locals) && Stacked(heap, globals) && Distinct(locals + globals)
    && (forall v :: Recorded(v) ==> Chained(heap, SlotOf(table, v), Chain(heap, locals, globals, v)))
  }

  // ----- the code -----

  class Symbols {
    var heap: seq<Sym>
    var localTop: nat
    var globalTop: nat
    var scopeBottom: nat
    var table: map<Name, nat>
    ghost var locals: seq<nat>
    ghost var globals: seq<nat>

    ghost predicate Valid()
      reads this
    {
      localTop == Top(locals) && globalTop == Top(globals) && Consistent(heap, locals, globals, table)
    }

    constructor ()
      ensures Valid() && locals == [] && globals == [] && scopeBottom == 0
    {
      heap := [Sym(Anonymous(0), 0, 0)];
      localTop, globalTop, scopeBottom := 0, 0, 0;
      table, locals, globals := map[], [], [];
    }

    /** `sym_find`. */
    method Find(v: Name) returns (s: nat)
      requires Valid() && Recorded(v)
      ensures s == Linear(heap, locals, globals, v)
    {
      s := SlotOf(table, v);
      assert Chained(heap, s, Chain(heap, locals, globals, v));
    }

    /** `sym_find2`: the search of one stack. */
    method Find2(top: nat, v: Name, ghost ids: seq<nat>) returns (s: nat)
      requires Stacked(heap, ids) && top == Top(ids)
      ensures s == Head(Named(heap, ids, v))
    {
      s := top;
      ghost var rest := ids;
      while s != 0
        invariant Stacked(heap, rest) && s == Top(rest)
        invariant Head(Named(heap, ids, v)) == Head(Named(heap, rest, v))
        decreases |rest|
      {
        StackedInit(heap, rest);
        if heap[s].v == v { return; }
        s := heap[s].prev;
        rest := rest[..|rest| - 1];
      }
    }

    /** The search of both stacks. */
    method FindByScan(v: Name) returns (s: nat)
      requires Valid() && Recorded(v)
      ensures s == Linear(heap, locals, globals, v)
    {
      s := Find2(localTop, v, locals);
      HeadKnown(heap, locals, v);
      if s == 0 {
        s := Find2(globalTop, v, globals);
      }
    }

    static lemma HeadKnown(heap: seq<Sym>, ids: seq<nat>, v: Name)
      requires Known(heap, ids)
      ensures Named(heap, ids, v) != [] ==> Head(Named(heap, ids, v)) != 0
    {
      var r := Named(heap, ids, v);
      if r != [] { assert r[0] in ids; }
    }

    /** Whether an identifier or tag is already bound in the innermost scope. */
    method Redefined(v: Name) returns (bad: bool)
      requires Valid()
      ensures bad <==> Clash(heap, locals, scopeBottom, v)
    {
      var s := localTop;
      ghost var rest := locals;
      while s != 0 && s != scopeBottom
        invariant Stacked(heap, rest) && s == Top(rest)
        invariant Clash(heap, locals, scopeBottom, v) <==> Clash(heap, rest, scopeBottom, v)
        decreases |rest|
      {
        StackedInit(heap, rest);
        if Recorded(v) && heap[s].v == v { return true; }
        s := heap[s].prev;
        rest := rest[..|rest| - 1];
      }
      bad := false;
    }

    /** `sym_push2` and `sym_push` onto the local stack; fails on a redefinition in the same scope. */
    method PushLocal(v: Name) returns (ok: bool, s: nat)
      requires Valid()
      modifies this
      ensures Valid() && scopeBottom == old(scopeBottom) && globals == old(globals)
      ensures ok <==> !Clash(old(heap), old(locals), scopeBottom, v)
      ensures !ok ==> locals == old(locals) && heap == old(heap)
      ensures ok ==> s == |old(heap)| && locals == old(locals) + [s] && Extended(old(heap), heap, v)
    {
      hide Consistent;
      SeeStacks(heap, locals, globals, table);
      var bad := Redefined(v);
      if bad { return false, 0; }
      ok, s := true, |heap|;
      ghost var was := heap;
      var chained := if Recorded(v) then SlotOf(table, v) else 0;
      heap := heap + [Sym(v, localTop, chained)];
      localTop := s;
      locals := locals + [s];
      if Recorded(v) { table := table[v := s]; }
      PushConsistent(was, heap, old(locals), globals, old(table), table, s, v);
    }

    /** `sym_push` while there is no local stack. */
    method PushFileScope(v: Name) returns (s: nat)
      requires Valid() && localTop == 0
      modifies this
      ensures Valid() && scopeBottom == old(scopeBottom) && locals == old(locals) == []
      ensures s == |old(heap)| && globals == old(globals) + [s] && Extended(old(heap), heap, v)
    {
      hide Consistent;
      SeeStacks(heap, locals, globals, table);
      NoLocals(heap, locals);
      s := |heap|;
      ghost var was := heap;
      var chained := if Recorded(v) then SlotOf(table, v) else 0;
      heap := heap + [Sym(v, globalTop, chained)];
      globalTop := s;
      globals := globals + [s];
      if Recorded(v) { table := table[v := s]; }
      FileScopeConsistent(was, heap, old(globals), old(table), table, s, v);
    }

    static lemma NoLocals(heap: seq<Sym>, ids: seq<nat>)
      requires Stacked(heap, ids) && Top(ids) == 0
      ensures ids == []
    {
    }

    /** `global_identifier_push`: the new symbol goes to the tail of its name's chain, below
        every local one. That is where it should be exactly if the name had none at file scope
        yet, as its callers see to. */
    method PushGlobal(v: Name) returns (s: nat)
      requires Valid() && (v.Ident? || v.Anonymous?)
      modifies this
      ensures Valid() <==> old(Unbound(heap, globals, v))
      ensures scopeBottom == old(scopeBottom) && locals == old(locals)
      ensures v.Ident? ==> Chained(heap, SlotOf(table, v), old(Chain(heap, locals, globals, v)) + [s])
      ensures s == |old(heap)| && globals == old(globals) + [s] && Extended(old(heap), heap, v)
    {
      hide Consistent, Chained, Named;
      SeeStacks(heap, locals, globals, table);
      s := |heap|;
      ghost var was, slot := heap, SlotOf(table, v);
      heap := heap + [Sym(v, globalTop, 0)];
      globalTop := s;
      globals := globals + [s];
      ghost var c := Chain(was, locals, old(globals), v);
      if !v.Ident? {
        TailDone(was, heap, locals, old(globals), table, table, s, v);
      } else {
        assert Chained(was, slot, c) by { ChainOf(was, locals, old(globals), table, v); }
        ChainedFrame(was, heap, slot, c);
        ChainedMore(heap, slot, c);
        if SlotOf(table, v) == 0 {
          table := table[v := s];
        } else {
          ghost var added := heap;
          var x: nat := SlotOf(table, v);
          ghost var rest := c;
          ChainedMore(heap, x, rest);
          while heap[x].prevTok != 0
            invariant heap == added && x < |heap| && x != 0 && rest != [] && Chained(heap, x, rest)
            invariant rest[|rest| - 1] == c[|c| - 1] && |c| > 0
            invariant locals == old(locals) && globals == old(globals) + [s] && table == old(table)
            invariant localTop == old(localTop) && globalTop == s && scopeBottom == old(scopeBottom)
            decreases |rest|
          {
            ChainedMore(heap, x, rest);
            ChainedMore(heap, heap[x].prevTok, rest[1..]);
            x := heap[x].prevTok;
            rest := rest[1..];
          }
          ChainedMore(heap, x, rest);
          ChainedEnd(heap, rest[1..]);
          assert |rest| == 1 && x == c[|c| - 1];
          heap := heap[x := heap[x].(prevTok := s)];
        }
        TailDone(was, heap, locals, old(globals), old(table), table, s, v);
      }
    }

    /** `sym_pop` on the local stack. */
    method PopLocal(b: nat, ghost n: nat)
      requires Valid() && n <= |locals| && b == Top(locals[..n])
      modifies this
      ensures Valid() && scopeBottom == old(scopeBottom) && heap == old(heap)
      ensures locals == old(locals)[..n] && globals == old(globals)
    {
      hide Consistent;
      var s := localTop;
      while s != b
        invariant heap == old(heap) && globals == old(globals) && scopeBottom == old(scopeBottom) && globalTop == old(globalTop)
        invariant n <= |locals| && locals == old(locals)[..|locals|] && s == Top(locals)
        invariant Consistent(heap, locals, globals, table)
        decreases |locals|
      {
        SeeStacks(heap, locals, globals, table);
        ghost var all, was := locals, table;
        StackedInit(heap, locals);
        var v := heap[s].v;
        if Recorded(v) { table := table[v := heap[s].prevTok]; }
        s := heap[s].prev;
        locals := locals[..|locals| - 1];
        PopConsistent(heap, all, globals, was, table);
      }
      SeeStacks(heap, locals, globals, table);
      if n < |locals| { TopDiffers(heap, locals, n); assert false; }
      localTop := b;
    }

    /** `sym_pop` on the global stack, at the end of a compilation. */
    method PopGlobal(b: nat, ghost n: nat)
      requires Valid() && localTop == 0 && n <= |globals| && b == Top(globals[..n])
      modifies this
      ensures Valid() && scopeBottom == old(scopeBottom) && heap == old(heap)
      ensures globals == old(globals)[..n] && locals == old(locals) == []
    {
      hide Consistent;
      SeeStacks(heap, locals, globals, table);
      NoLocals(heap, locals);
      var s := globalTop;
      while s != b
        invariant heap == old(heap) && locals == [] && scopeBottom == old(scopeBottom) && localTop == 0
        invariant n <= |globals| && globals == old(globals)[..|globals|] && s == Top(globals)
        invariant Consistent(heap, [], globals, table)
        decreases |globals|
      {
        SeeStacks(heap, locals, globals, table);
        ghost var all, was := globals, table;
        StackedInit(heap, globals);
        var v := heap[s].v;
        if Recorded(v) { table := table[v := heap[s].prevTok]; }
        s := heap[s].prev;
        globals := globals[..|globals| - 1];
        SwapEmpty(heap, all, was);
        PopConsistent(heap, all, [], was, table);
        SwapEmpty(heap, globals, table);
      }
      SeeStacks(heap, locals, globals, table);
      if n < |globals| { TopDiffers(heap, globals, n); assert false; }
      globalTop := b;
    }
  }

  lemma PushConsistent(heap: seq<Sym>, heap': seq<Sym>, locals: seq<nat>, globals: seq<nat>, table: map<Name, nat>, table': map<Name, nat>, s: nat, v: Name)
    requires Consistent(heap, locals, globals, table) && s == |heap|
    requires heap' == heap + [Sym(v, Top(locals), if Recorded(v) then SlotOf(table, v) else 0)]
    requires table' == if Recorded(v) then table[v := s] else table
    ensures Consistent(heap', locals + [s], globals, table')
  {
    hide Chained, Named;
    PushStacked(heap, heap', locals, s);
    GlobalsStacked(heap, heap', globals);
    DistinctPush(heap, locals, globals, s);
    forall w | Recorded(w) ensures Chained(heap', SlotOf(table', w), Chain(heap', locals + [s], globals, w)) {
      PushChain(heap, heap', locals, globals, s, w, SlotOf(table, w));
    }
  }

  lemma SeeStacks(heap: seq<Sym>, locals: seq<nat>, globals: seq<nat>, table: map<Name, nat>)
    requires Consistent(heap, locals, globals, table)
    ensures |heap| > 0 && Stacked(heap, locals) && Stacked(heap, globals) && Distinct(locals) && Distinct(globals)
  {
    var all := locals + globals;
    assert forall i :: 0 <= i < |locals| ==> locals[i] == all[i];
    assert forall i :: 0 <= i < |globals| ==> globals[i] == all[|locals| + i];
  }

  lemma DistinctPush(heap: seq<Sym>, locals: seq<nat>, globals: seq<nat>, s: nat)
    requires Known(heap, locals) && Known(heap, globals) && Distinct(locals + globals) && s == |heap|
    ensures Distinct(locals + [s] + globals)
  {
    var a, b := locals + globals, locals + [s] + globals;
    forall i, j | 0 <= i < j < |b| ensures b[i] != b[j] {
      var i', j' := if i < |locals| then i else i - 1, if j < |locals| then j else j - 1;
      if i != |locals| && j != |locals| { assert a[i'] == b[i] && a[j'] == b[j]; }
    }
  }

  /** A heap with one more symbol. */
  ghost predicate Extended(heap: seq<Sym>, heap': seq<Sym>, v: Name) {
    |heap'| == |heap| + 1 && heap'[|heap|].v == v && forall i :: 0 <= i < |heap| ==> heap'[i].v == heap[i].v
  }

  /** Bound above the bottom of the innermost scope. */
  predicate Clash(heap: seq<Sym>, ids: seq<nat>, bottom: nat, v: Name)
    requires Known(heap, ids)
    decreases |ids|
  {
    ids != [] && ids[|ids| - 1] != bottom
    && ((Recorded(v) && heap[ids[|ids| - 1]].v == v) || Clash(heap, ids[..|ids| - 1], bottom, v))
  }

  lemma PushStacked(heap: seq<Sym>, heap': seq<Sym>, ids: seq<nat>, s: nat)
    requires Stacked(heap, ids) && |heap| == s > 0 && |heap'| == |heap| + 1
    requires forall i :: 0 <= i < |heap| ==> heap'[i].prev == heap[i].prev
    requires heap'[s].prev == Top(ids)
    ensures Stacked(heap', ids + [s])
  {
    var r := ids + [s];
    assert Known(heap', r);
    forall i | 0 <= i < |r| ensures Under(heap', r, i) {
      if i < |ids| { assert Under(heap, ids, i); }
    }
  }

  lemma GlobalsStacked(heap: seq<Sym>, heap': seq<Sym>, ids: seq<nat>)
    requires Stacked(heap, ids) && |heap| <= |heap'| && forall i :: 0 <= i < |heap| ==> heap'[i].prev == heap[i].prev
    ensures Stacked(heap', ids)
  {
    forall i | 0 <= i < |ids| ensures Under(heap', ids, i) {
      assert Under(heap, ids, i);
    }
  }

  /** The chain of `w` once symbol `s` is on top of the local stack. */
  lemma PushChain(heap: seq<Sym>, heap': seq<Sym>, locals: seq<nat>, globals: seq<nat>, s: nat, w: Name, x: nat)
    requires Known(heap, locals) && Known(heap, globals) && s == |heap| > 0
    requires |heap'| == |heap| + 1 && forall i :: 0 <= i < |heap| ==> heap'[i] == heap[i]
    requires Chained(heap, x, Chain(heap, locals, globals, w))
    requires heap'[s].v == w ==> heap'[s].prevTok == x
    ensures Known(heap', locals + [s]) && Known(heap', globals)
    ensures Chained(heap', if heap'[s].v == w then s else x, Chain(heap', locals + [s], globals, w))
  {
    hide Named, Chained;
    var c := Chain(heap, locals, globals, w);
    NamedFrame(heap, heap', locals, w);
    NamedFrame(heap, heap', globals, w);
    NamedPush(heap', locals, s, w);
    ChainedFrame(heap, heap', x, c);
    if heap'[s].v == w {
      assert [s] + Named(heap', locals, w) + Named(heap', globals, w) == [s] + c;
      ChainedCons(heap', s, c);
    } else {
      assert [] + Named(heap', locals, w) == Named(heap', locals, w);
    }
  }

  lemma ChainOf(heap: seq<Sym>, locals: seq<nat>, globals: seq<nat>, table: map<Name, nat>, v: Name)
    requires Consistent(heap, locals, globals, table) && Recorded(v)
    ensures Chained(heap, SlotOf(table, v), Chain(heap, locals, globals, v))
  {
  }

  lemma ChainedMore(heap: seq<Sym>, x: nat, c: seq<nat>)
    requires Chained(heap, x, c)
    ensures x != 0 <==> c != []
    ensures x != 0 ==> x < |heap| && x == c[0] && Chained(heap, heap[x].prevTok, c[1..])
  {
  }

  lemma ChainedEnd(heap: seq<Sym>, c: seq<nat>)
    requires Chained(heap, 0, c)
    ensures c == []
  {
  }

  /** With one stack empty it does not matter which. */
  lemma SwapEmpty(heap: seq<Sym>, ids: seq<nat>, table: map<Name, nat>)
    ensures Consistent(heap, [], ids, table) <==> Consistent(heap, ids, [], table)
  {
    assert [] + ids == ids == ids + [];
    if Known(heap, ids) {
      forall v ensures Chain(heap, [], ids, v) == Chain(heap, ids, [], v) {
        assert [] + Named(heap, ids, v) == Named(heap, ids, v) + [];
      }
    }
  }

  lemma FileScopeConsistent(heap: seq<Sym>, heap': seq<Sym>, globals: seq<nat>, table: map<Name, nat>, table': map<Name, nat>, s: nat, v: Name)
    requires Consistent(heap, [], globals, table) && s == |heap|
    requires heap' == heap + [Sym(v, Top(globals), if Recorded(v) then SlotOf(table, v) else 0)]
    requires table' == if Recorded(v) then table[v := s] else table
    ensures Consistent(heap', [], globals + [s], table')
  {
    hide Consistent;
    SwapEmpty(heap, globals, table);
    PushConsistent(heap, heap', globals, [], table, table', s, v);
    SwapEmpty(heap', globals + [s], table');
  }

  lemma TopDiffers(heap: seq<Sym>, ids: seq<nat>, n: nat)
    requires Stacked(heap, ids) && Distinct(ids) && n < |ids|
    ensures Top(ids) != Top(ids[..n])
  {
    if n > 0 { assert ids[..n][n - 1] == ids[n - 1]; }
  }

  lemma PopConsistent(heap: seq<Sym>, locals: seq<nat>, globals: seq<nat>, table: map<Name, nat>, table': map<Name, nat>)
    requires Consistent(heap, locals, globals, table) && Top(locals) != 0 && Top(locals) < |heap|
    requires var s := heap[Top(locals)]; table' == if Recorded(s.v) then table[s.v := s.prevTok] else table
    ensures Consistent(heap, locals[..|locals| - 1], globals, table')
  {
    hide Chained, Named;
    StackedInit(heap, locals);
    var init, s := locals[..|locals| - 1], Top(locals);
    assert locals == init + [s];
    DistinctPop(init, s, globals);
    forall w | Recorded(w) ensures Chained(heap, SlotOf(table', w), Chain(heap, init, globals, w)) {
      PopChain(heap, init, s, globals, w, SlotOf(table, w));
    }
  }

  lemma DistinctPop(init: seq<nat>, s: nat, globals: seq<nat>)
    requires Distinct(init + [s] + globals)
    ensures Distinct(init + globals)
  {
    var a, b := init + [s] + globals, init + globals;
    forall i, j | 0 <= i < j < |b| ensures b[i] != b[j] {
      var i', j' := if i < |init| then i else i + 1, if j < |init| then j else j + 1;
      assert a[i'] == b[i] && a[j'] == b[j];
    }
  }

  lemma PopChain(heap: seq<Sym>, init: seq<nat>, s: nat, globals: seq<nat>, w: Name, x: nat)
    requires Known(heap, init) && Known(heap, globals) && 0 < s < |heap|
    requires Known(heap, init + [s]) && Chained(heap, x, Chain(heap, init + [s], globals, w))
    ensures Chained(heap, if heap[s].v == w then heap[s].prevTok else x, Chain(heap, init, globals, w))
  {
    hide Chained, Named;
    var c := Chain(heap, init, globals, w);
    NamedPush(heap, init, s, w);
    if heap[s].v == w {
      assert [s] + Named(heap, init, w) + Named(heap, globals, w) == [s] + c;
      ChainedMore(heap, x, [s] + c);
      assert ([s] + c)[1..] == c;
    } else {
      assert [] + Named(heap, init, w) == Named(heap, init, w);
    }
  }

  /** `s` is a new global symbol `v`, linked to the end of its name's chain. */
  ghost predicate Tailed(heap: seq<Sym>, heap': seq<Sym>, locals: seq<nat>, globals: seq<nat>, table: map<Name, nat>, table': map<Name, nat>, s: nat, v: Name)
    requires Known(heap, locals) && Known(heap, globals)
  {
    var c := Chain(heap, locals, globals, v);
    var added := heap + [Sym(v, Top(globals), 0)];
    && s == |heap| && (v.Ident? || v.Anonymous?)
    && if !v.Ident? then heap' == added && table' == table
       else if c == [] then heap' == added && table' == table[v := s]
       else c[|c| - 1] < |heap| && heap' == added[c[|c| - 1] := added[c[|c| - 1]].(prevTok := s)] && table' == table
  }

  /** No identifier of that name at file scope. */
  ghost predicate Unbound(heap: seq<Sym>, globals: seq<nat>, v: Name)
    requires Known(heap, globals)
  {
    v.Ident? ==> Named(heap, globals, v) == []
  }

  /** A name without a symbol at file scope gets one there, at the tail of its chain. */
  lemma TailConsistent(heap: seq<Sym>, heap': seq<Sym>, locals: seq<nat>, globals: seq<nat>, table: map<Name, nat>, table': map<Name, nat>, s: nat, v: Name)
    requires Consistent(heap, locals, globals, table) && Tailed(heap, heap', locals, globals, table, table', s, v)
    requires Unbound(heap, globals, v)
    ensures Consistent(heap', locals, globals + [s], table')
  {
    hide Chained, Named, Stacked, Distinct, Known, Tailed, Chain, Unbound;
    SeeStacks(heap, locals, globals, table);
    SeeKnown(heap, locals);
    SeeKnown(heap, globals);
    TailStacks(heap, heap', locals, globals, table, table', s, v);
    forall w | Recorded(w) ensures Chained(heap', SlotOf(table', w), Chain(heap', locals, globals + [s], w)) {
      ChainOf(heap, locals, globals, table, w);
      TailOne(heap, heap', locals, globals, table, table', s, v, w);
    }
  }

  /** A name that has one already gets the new one behind it, where no search of the stack from
      its top would look for it. */
  lemma TailBehind(heap: seq<Sym>, heap': seq<Sym>, locals: seq<nat>, globals: seq<nat>, table: map<Name, nat>, table': map<Name, nat>, s: nat, v: Name)
    requires Consistent(heap, locals, globals, table) && Tailed(heap, heap', locals, globals, table, table', s, v)
    requires !Unbound(heap, globals, v)
    ensures Chained(heap', SlotOf(table', v), Chain(heap, locals, globals, v) + [s])
    ensures !Consistent(heap', locals, globals + [s], table')
  {
    hide Chained, Named, Consistent, Stacked, Distinct;
    SeeStacks(heap, locals, globals, table);
    ChainOf(heap, locals, globals, table, v);
    var c, x := Chain(heap, locals, globals, v), SlotOf(table, v);
    var added := heap + [Sym(v, Top(globals), 0)];
    ChainDistinct(heap, locals, globals, table, v);
    ChainedFrame(heap, added, x, c);
    ChainedAppend(added, x, c, s);
    var a, b := Named(heap, locals, v), Named(heap, globals, v);
    assert c[|a|] == b[0];
    assert (c + [s])[|a|] == b[0] && (a + ([s] + b))[|a|] == s;
    if Consistent(heap', locals, globals + [s], table') {
      SeeStacks(heap', locals, globals + [s], table');
      ChainOf(heap', locals, globals + [s], table', v);
      TailNames(heap, heap', locals, globals, s, v);
      ChainedUnique(heap', x, c + [s], a + ([s] + b));
      assert false;
    }
  }

  /** Either way the new symbol is last of its name's chain; the stacks and the chains are in
      step exactly if there was no other. */
  lemma TailDone(heap: seq<Sym>, heap': seq<Sym>, locals: seq<nat>, globals: seq<nat>, table: map<Name, nat>, table': map<Name, nat>, s: nat, v: Name)
    requires Consistent(heap, locals, globals, table) && Tailed(heap, heap', locals, globals, table, table', s, v)
    ensures Consistent(heap', locals, globals + [s], table') <==> Unbound(heap, globals, v)
    ensures v.Ident? ==> Chained(heap', SlotOf(table', v), Chain(heap, locals, globals, v) + [s])
  {
    hide Chained, Named, Consistent, Stacked, Distinct, Tailed;
    SeeStacks(heap, locals, globals, table);
    SeeKnown(heap, locals);
    SeeKnown(heap, globals);
    if !Unbound(heap, globals, v) {
      TailBehind(heap, heap', locals, globals, table, table', s, v);
    } else {
      TailConsistent(heap, heap', locals, globals, table, table', s, v);
      if v.Ident? {
        SeeStacks(heap', locals, globals + [s], table');
        ChainOf(heap', locals, globals + [s], table', v);
        TailLast(heap, heap', locals, globals, table, table', s, v);
      }
    }
  }

  lemma TailLast(heap: seq<Sym>, heap': seq<Sym>, locals: seq<nat>, globals: seq<nat>, table: map<Name, nat>, table': map<Name, nat>, s: nat, v: Name)
    requires Known(heap, locals) && Known(heap, globals) && |heap| > 0 && v.Ident? && Unbound(heap, globals, v)
    requires Tailed(heap, heap', locals, globals, table, table', s, v)
    ensures Known(heap', locals) && Known(heap', globals + [s])
    ensures Chain(heap', locals, globals + [s], v) == Chain(heap, locals, globals, v) + [s]
  {
    hide Named;
    TailNames(heap, heap', locals, globals, s, v);
    assert [s] + [] == [s];
    assert Chain(heap, locals, globals, v) == Named(heap, locals, v);
  }

  lemma {:induction false} ChainedUnique(heap: seq<Sym>, x: nat, c: seq<nat>, d: seq<nat>)
    requires Chained(heap, x, c) && Chained(heap, x, d)
    ensures c == d
    decreases |c|
  {
    if c != [] && d != [] {
      ChainedUnique(heap, heap[x].prevTok, c[1..], d[1..]);
      assert c == [c[0]] + c[1..] && d == [d[0]] + d[1..];
    }
  }

  lemma ChainDistinct(heap: seq<Sym>, locals: seq<nat>, globals: seq<nat>, table: map<Name, nat>, v: Name)
    requires Consistent(heap, locals, globals, table)
    ensures var c := Chain(heap, locals, globals, v); Distinct(c) && forall i :: 0 <= i < |c| ==> 0 < c[i] < |heap|
  {
    hide Chained, Named;
    SeeStacks(heap, locals, globals, table);
    NamedDistinct(heap, locals, v);
    NamedDistinct(heap, globals, v);
    var a, b := Named(heap, locals, v), Named(heap, globals, v);
    forall i, j | 0 <= i < |a| && 0 <= j < |b| ensures a[i] != b[j] {
      assert a[i] in locals && b[j] in globals;
      var p :| 0 <= p < |locals| && locals[p] == a[i];
      var q :| 0 <= q < |globals| && globals[q] == b[j];
      assert (locals + globals)[p] == a[i] && (locals + globals)[|locals| + q] == b[j];
    }
  }

  lemma TailStacks(heap: seq<Sym>, heap': seq<Sym>, locals: seq<nat>, globals: seq<nat>, table: map<Name, nat>, table': map<Name, nat>, s: nat, v: Name)
    requires Stacked(heap, locals) && Stacked(heap, globals) && Distinct(locals + globals) && |heap| > 0
    requires Tailed(heap, heap', locals, globals, table, table', s, v)
    ensures |heap'| > 0 && Stacked(heap', locals) && Stacked(heap', globals + [s]) && Distinct(locals + (globals + [s]))
    ensures Known(heap', locals) && Known(heap', globals + [s])
  {
    hide Named, Stacked, Distinct;
    SeeKnown(heap, locals);
    SeeKnown(heap, globals);
    PushStacked(heap, heap', globals, s);
    GlobalsStacked(heap, heap', locals);
    DistinctTail(heap, locals, globals, s);
    SeeKnown(heap', locals);
    SeeKnown(heap', globals + [s]);
  }

  lemma TailOne(heap: seq<Sym>, heap': seq<Sym>, locals: seq<nat>, globals: seq<nat>, table: map<Name, nat>, table': map<Name, nat>, s: nat, v: Name, w: Name)
    requires Stacked(heap, locals) && Stacked(heap, globals) && Distinct(locals) && |heap| > 0 && Recorded(w)
    requires Tailed(heap, heap', locals, globals, table, table', s, v) && Unbound(heap, globals, v)
    requires Chained(heap, SlotOf(table, w), Chain(heap, locals, globals, w))
    ensures Known(heap', locals) && Known(heap', globals + [s])
    ensures Chained(heap', SlotOf(table', w), Chain(heap', locals, globals + [s], w))
  {
    hide Chained, Named, Distinct;
    if w == v {
      TailBound(heap, heap', locals, globals, table, table', s, v);
    } else {
      TailNames(heap, heap', locals, globals, s, w);
      TailWrote(heap, heap', locals, globals, s, v);
      OtherChain(heap, heap', locals, globals, s, v, w, SlotOf(table, w));
    }
  }

  lemma TailBound(heap: seq<Sym>, heap': seq<Sym>, locals: seq<nat>, globals: seq<nat>, table: map<Name, nat>, table': map<Name, nat>, s: nat, v: Name)
    requires Stacked(heap, locals) && Stacked(heap, globals) && Distinct(locals) && |heap| > 0 && v.Ident?
    requires Tailed(heap, heap', locals, globals, table, table', s, v) && Unbound(heap, globals, v)
    requires Chained(heap, SlotOf(table, v), Chain(heap, locals, globals, v))
    ensures Known(heap', locals) && Known(heap', globals + [s])
    ensures Chained(heap', SlotOf(table', v), Chain(heap', locals, globals + [s], v))
  {
    hide Chained, Named, Stacked, Distinct;
    SeeKnown(heap, locals);
    SeeKnown(heap, globals);
    TailNames(heap, heap', locals, globals, s, v);
    assert [s] + [] == [s];
    assert Chain(heap, locals, globals, v) == Named(heap, locals, v);
    TailChain(heap, heap', locals, globals, s, v, SlotOf(table, v));
    SlotIff(heap, SlotOf(table, v), Named(heap, locals, v));
  }

  lemma SeeKnown(heap: seq<Sym>, ids: seq<nat>)
    requires Stacked(heap, ids)
    ensures Known(heap, ids)
  {
  }

  lemma SlotIff(heap: seq<Sym>, x: nat, c: seq<nat>)
    requires Chained(heap, x, c)
    ensures x == 0 <==> c == []
  {
  }

  /** Only a symbol of that name has its link written. */
  lemma TailWrote(heap: seq<Sym>, heap': seq<Sym>, locals: seq<nat>, globals: seq<nat>, s: nat, v: Name)
    requires Known(heap, locals) && Known(heap, globals) && s == |heap|
    requires var c := Chain(heap, locals, globals, v);
             var added := heap + [Sym(v, Top(globals), 0)];
             heap' == added
             || (c != [] && c[|c| - 1] < |heap| && heap' == added[c[|c| - 1] := added[c[|c| - 1]].(prevTok := s)])
    ensures |heap'| > |heap| && forall i :: 0 <= i < |heap| && heap[i].v != v ==> heap'[i].prevTok == heap[i].prevTok
  {
    var c := Chain(heap, locals, globals, v);
    var a := Named(heap, locals, v);
    if c != [] {
      assert c[|c| - 1] == if Named(heap, globals, v) == [] then a[|a| - 1] else Named(heap, globals, v)[|Named(heap, globals, v)| - 1];
    }
  }

  lemma DistinctTail(heap: seq<Sym>, locals: seq<nat>, globals: seq<nat>, s: nat)
    requires Known(heap, locals) && Known(heap, globals) && Distinct(locals + globals) && s == |heap|
    ensures Distinct(locals + (globals + [s]))
  {
    var a, b := locals + globals, locals + (globals + [s]);
    assert forall i :: 0 <= i < |a| ==> b[i] == a[i] && a[i] < s;
  }

  lemma TailNames(heap: seq<Sym>, heap': seq<Sym>, locals: seq<nat>, globals: seq<nat>, s: nat, w: Name)
    requires Known(heap, locals) && Known(heap, globals) && s == |heap| > 0
    requires |heap'| == |heap| + 1 && forall i :: 0 <= i < |heap| ==> heap'[i].v == heap[i].v
    ensures Known(heap', locals) && Known(heap', globals + [s])
    ensures Chain(heap', locals, globals + [s], w) ==
            if heap'[s].v == w then Named(heap, locals, w) + ([s] + Named(heap, globals, w)) else Chain(heap, locals, globals, w)
  {
    hide Named;
    NamedFrame(heap, heap', locals, w);
    NamedFrame(heap, heap', globals, w);
    NamedPush(heap', globals, s, w);
    assert [] + Named(heap, globals, w) == Named(heap, globals, w);
  }

  lemma TailChain(heap: seq<Sym>, heap': seq<Sym>, locals: seq<nat>, globals: seq<nat>, s: nat, v: Name, x: nat)
    requires Stacked(heap, locals) && Stacked(heap, globals) && Distinct(locals) && s == |heap| > 0
    requires Named(heap, globals, v) == []
    requires var c := Named(heap, locals, v); var added := heap + [Sym(v, Top(globals), 0)];
             && Chained(heap, x, c)
             && if c == [] then heap' == added
                else c[|c| - 1] < |heap| && heap' == added[c[|c| - 1] := added[c[|c| - 1]].(prevTok := s)]
    ensures var c := Named(heap, locals, v); Chained(heap', if c == [] then s else x, c + [s])
  {
    var c, added := Named(heap, locals, v), heap + [Sym(v, Top(globals), 0)];
    ChainedFrame(heap, added, x, c);
    if c == [] {
      assert Chained(heap', s, [s]);
      assert c + [s] == [s];
    } else {
      NamedDistinct(heap, locals, v);
      forall i | 0 <= i < |c| ensures c[i] != s { assert c[i] in locals; }
      ChainedAppend(added, x, c, s);
    }
  }

  lemma OtherChain(heap: seq<Sym>, heap': seq<Sym>, locals: seq<nat>, globals: seq<nat>, s: nat, v: Name, w: Name, x: nat)
    requires Known(heap, locals) && Known(heap, globals) && |heap'| > |heap| && w != v
    requires Chained(heap, x, Chain(heap, locals, globals, w))
    requires forall i :: 0 <= i < |heap| && heap[i].v != v ==> heap'[i].prevTok == heap[i].prevTok
    ensures Chained(heap', x, Chain(heap, locals, globals, w))
  {
    hide Chained;
    var c := Chain(heap, locals, globals, w);
    forall i | 0 <= i < |c| ensures heap[c[i]].v == w {
      if i < |Named(heap, locals, w)| { assert c[i] == Named(heap, locals, w)[i]; }
    }
    ChainedFrame(heap, heap', x, c);
  }

  // ----- whole runs -----

  /** The stacks at one moment. */
  datatype World = World(heap: seq<Sym>, locals: seq<nat>, globals: seq<nat>)

  ghost predicate WorldOk(w: World) { Known(w.heap, w.locals) && Known(w.heap, w.globals) }

  /** What one successful call of the methods above does to the stacks. */
  ghost predicate PushedLocal(a: World, b: World, v: Name) {
    Extended(a.heap, b.heap, v) && b.locals == a.locals + [|a.heap|] && b.globals == a.globals
  }

  ghost predicate PushedGlobal(a: World, b: World, v: Name) {
    Extended(a.heap, b.heap, v) && b.globals == a.globals + [|a.heap|] && b.locals == a.locals
  }

  predicate PoppedLocal(a: World, b: World, n: nat) {
    b.heap == a.heap && b.globals == a.globals && n <= |a.locals| && b.locals == a.locals[..n]
  }

  ghost predicate Step(a: World, b: World) {
    || (exists v :: PushedLocal(a, b, v))
    || (exists v :: PushedGlobal(a, b, v))
    || (exists n: nat :: PoppedLocal(a, b, n))
  }

  /** A run that never pops what was on the local stack at its start. */
  ghost predicate Nested(ws: seq<World>) {
    && |ws| > 0 && WorldOk(ws[0]) && |ws[0].heap| > 0
    && (forall i :: 0 <= i < |ws| ==> |ws[0].locals| <= |ws[i].locals|)
    && (forall i :: 0 < i < |ws| ==> Step(ws[i - 1], ws[i]))
  }

  ghost predicate Grows(a: World, b: World) {
    && WorldOk(b) && a.locals <= b.locals && a.globals <= b.globals && |a.heap| <= |b.heap|
    && (forall i :: 0 <= i < |a.heap| ==> b.heap[i].v == a.heap[i].v)
  }

  lemma {:induction false} RunGrows(ws: seq<World>)
    requires Nested(ws)
    ensures Grows(ws[0], ws[|ws| - 1])
    decreases |ws|
  {
    if |ws| > 1 {
      var init := ws[..|ws| - 1];
      assert Nested(init) by {
        forall i | 0 < i < |init| ensures Step(init[i - 1], init[i]) { assert Step(ws[i - 1], ws[i]); }
      }
      RunGrows(init);
      StepGrows(ws[0], ws[|ws| - 2], ws[|ws| - 1]);
    }
  }

  lemma StepGrows(a: World, b: World, c: World)
    requires WorldOk(a) && |a.heap| > 0 && Grows(a, b) && Step(b, c) && |a.locals| <= |c.locals|
    ensures Grows(a, c)
  {
    if exists n: nat :: PoppedLocal(b, c, n) {
      var n: nat :| PoppedLocal(b, c, n);
      assert a.locals == b.locals[..n][..|a.locals|];
    }
  }

  lemma NamedEmpty(heap: seq<Sym>, v: Name)
    ensures Named(heap, [], v) == []
  {
  }

  lemma {:induction false} NamedConcat(heap: seq<Sym>, a: seq<nat>, b: seq<nat>, v: Name)
    requires Known(heap, a) && Known(heap, b)
    ensures Known(heap, a + b) && Named(heap, a + b, v) == Named(heap, b, v) + Named(heap, a, v)
    decreases |b|
  {
    hide Named;
    if b == [] {
      NamedEmpty(heap, v);
      assert a + b == a && [] + Named(heap, a, v) == Named(heap, a, v);
    } else {
      var init, top := b[..|b| - 1], b[|b| - 1];
      assert a + b == (a + init) + [top];
      NamedConcat(heap, a, init, v);
      NamedPush(heap, a + init, top, v);
      assert b == init + [top];
      NamedPush(heap, init, top, v);
    }
  }

  /** Popping back to an earlier top restores the binding of every name, but for names that
      had no local one and were bound at file scope in between. */
  lemma BindingsRestored(ws: seq<World>, v: Name)
    requires Nested(ws) && |ws[|ws| - 1].locals| == |ws[0].locals|
    ensures var a, z := ws[0], ws[|ws| - 1];
            && WorldOk(z) && |a.globals| <= |z.globals|
            && var now := Linear(z.heap, z.locals, z.globals, v);
            now == Linear(a.heap, a.locals, a.globals, v)
            || (Named(a.heap, a.locals, v) == [] && now in z.globals[|a.globals|..] && z.heap[now].v == v)
  {
    var a, z := ws[0], ws[|ws| - 1];
    RunGrows(ws);
    var added := z.globals[|a.globals|..];
    assert z.globals == a.globals + added && z.locals == a.locals;
    NamedFrame(a.heap, z.heap, a.locals, v);
    NamedFrame(a.heap, z.heap, a.globals, v);
    assert Known(z.heap, added) by {
      forall i | 0 <= i < |added| ensures 0 < added[i] < |z.heap| { assert added[i] == z.globals[|a.globals| + i]; }
    }
    assert Known(z.heap, a.globals);
    NamedConcat(z.heap, a.globals, added, v);
    var newer := Named(z.heap, added, v);
    if newer == [] {
      assert [] + Named(z.heap, a.globals, v) == Named(z.heap, a.globals, v);
    } else {
      assert newer[0] in added;
    }
  }
}
