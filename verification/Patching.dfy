/** Jump lists threaded through unpatched displacements: their shape, and what patching,
    merging and extending one does to the code around it. */
module Patching {
  import opened JumpCode
  import opened Control

  /** The list headed by `t` runs through exactly the slots `ss`, each below the one before;
      0 ends it. */
  ghost predicate Linked(code: seq<Cell>, t: int, ss: seq<int>) {
    if ss == [] then t == 0
    else
      && t == ss[0] && 0 < t < |code|
      && code[t].Slot? && code[t].v < t
      && Linked(code, code[t].v, ss[1..])
  }

  /** Every slot of `ss` leads to `a`; nothing else changes. */
  ghost function Patched(code: seq<Cell>, ss: seq<int>, a: int): (r: seq<Cell>)
    ensures |r| == |code|
    ensures forall i :: 0 <= i < |code| ==> r[i] == if i in ss then Slot(a - i - 4) else code[i]
  {
    seq(|code|, i requires 0 <= i < |code| => if i in ss then Slot(a - i - 4) else code[i])
  }

  predicate CellMatches(c: Cell, s: SCell, t: int) {
    match s
    case Raw(cell) => c == cell
    case Ref(l) => c.Slot? && (l.To? ==> c.v == l.a - t - 4)
  }

  /** The code at `p` is `cells`, its open displacements holding list links. */
  ghost predicate Matches(code: seq<Cell>, p: int, cells: Symbolic) {
    && 0 <= p && p + |cells| <= |code|
    && forall i :: 0 <= i < |cells| ==> CellMatches(code[p + i], cells[i], p + i)
  }

  /** The addresses of the open displacements of list `l` among the first `n` cells,
      highest first. */
  ghost function SpotsTo(cells: Symbolic, n: nat, p: int, l: Label): seq<int>
    requires n <= |cells|
  {
    if n == 0 then [] else
    (if cells[n - 1] == Ref(l) then [p + n - 1] else []) + SpotsTo(cells, n - 1, p, l)
  }

  ghost function Spots(cells: Symbolic, p: int, l: Label): seq<int> { SpotsTo(cells, |cells|, p, l) }

  lemma {:induction false} SpotsToIn(cells: Symbolic, n: nat, p: int, l: Label, x: int)
    requires n <= |cells|
    ensures x in SpotsTo(cells, n, p, l) <==> p <= x < p + n && cells[x - p] == Ref(l)
    decreases n
  {
    if n > 0 {
      SpotsToIn(cells, n - 1, p, l, x);
      InConcat(if cells[n - 1] == Ref(l) then [p + n - 1] else [], SpotsTo(cells, n - 1, p, l), x);
    }
  }

  lemma InConcat(a: seq<int>, b: seq<int>, x: int)
    ensures x in a + b <==> x in a || x in b
  {
  }

  lemma SpotsIn(cells: Symbolic, p: int, l: Label)
    ensures forall x :: x in Spots(cells, p, l) <==> p <= x < p + |cells| && cells[x - p] == Ref(l)
  {
    forall x ensures x in Spots(cells, p, l) <==> p <= x < p + |cells| && cells[x - p] == Ref(l) {
      SpotsToIn(cells, |cells|, p, l, x);
    }
  }

  lemma {:induction false} SpotsToConcat(a: Symbolic, b: Symbolic, n: nat, p: int, l: Label)
    requires n <= |b|
    ensures SpotsTo(a + b, |a| + n, p, l) == SpotsTo(b, n, p + |a|, l) + SpotsTo(a, |a|, p, l)
    decreases n
  {
    if n == 0 {
      SpotsToSame(a + b, l, a, l, |a|, p);
    } else {
      assert (a + b)[|a| + n - 1] == b[n - 1];
      SpotsToConcat(a, b, n - 1, p, l);
    }
  }

  lemma SpotsConcat(a: Symbolic, b: Symbolic, p: int, l: Label)
    ensures Spots(a + b, p, l) == Spots(b, p + |a|, l) + Spots(a, p, l)
  {
    SpotsToConcat(a, b, |b|, p, l);
  }

  /** Two pieces of code of which one list sees the same open displacements. */
  lemma {:induction false} SpotsToSame(a: Symbolic, la: Label, b: Symbolic, lb: Label, n: nat, p: int)
    requires n <= |a| && n <= |b|
    requires forall i :: 0 <= i < n ==> (a[i] == Ref(la) <==> b[i] == Ref(lb))
    ensures SpotsTo(a, n, p, la) == SpotsTo(b, n, p, lb)
    decreases n
  {
    if n > 0 {
      SpotsToSame(a, la, b, lb, n - 1, p);
    }
  }

  lemma SpotsSame(a: Symbolic, la: Label, b: Symbolic, lb: Label, p: int)
    requires |a| == |b|
    requires forall i :: 0 <= i < |a| ==> (a[i] == Ref(la) <==> b[i] == Ref(lb))
    ensures Spots(a, p, la) == Spots(b, p, lb)
  {
    SpotsToSame(a, la, b, lb, |a|, p);
  }

  /** No displacement of `cells` is on list `l`. */
  ghost predicate Lacks(cells: Symbolic, l: Label) {
    forall i :: 0 <= i < |cells| ==> cells[i] != Ref(l)
  }

  lemma {:induction false} SpotsToNone(cells: Symbolic, n: nat, p: int, l: Label)
    requires Lacks(cells, l) && n <= |cells|
    ensures SpotsTo(cells, n, p, l) == []
    decreases n
  {
    if n > 0 {
      SpotsToNone(cells, n - 1, p, l);
    }
  }

  lemma SpotsNone(cells: Symbolic, p: int, l: Label)
    requires Lacks(cells, l)
    ensures Spots(cells, p, l) == []
  {
    SpotsToNone(cells, |cells|, p, l);
  }

  lemma Assoc(a: seq<int>, b: seq<int>, c: seq<int>)
    ensures (a + b) + c == a + (b + c)
  {
  }

  lemma SpotsBind(cells: Symbolic, l: Label, a: int, p: int, l': Label)
    requires !l.To? && !l'.To?
    ensures Spots(Bind(cells, l, a), p, l') == if l' == l then [] else Spots(cells, p, l')
  {
    if l' == l {
      SpotsNone(Bind(cells, l, a), p, l);
    } else {
      SpotsSame(Bind(cells, l, a), l', cells, l', p);
    }
  }

  lemma BindNone(cells: Symbolic, l: Label, a: int)
    requires Lacks(cells, l)
    ensures Bind(cells, l, a) == cells
  {
  }

  lemma BindConcat(a: Symbolic, b: Symbolic, l: Label, x: int)
    ensures Bind(a + b, l, x) == Bind(a, l, x) + Bind(b, l, x)
  {
  }

  lemma MatchesConcat(code: seq<Cell>, p: int, a: Symbolic, b: Symbolic)
    ensures Matches(code, p, a + b) <==> Matches(code, p, a) && Matches(code, p + |a|, b)
  {
    if Matches(code, p, a + b) {
      forall i | 0 <= i < |a| ensures CellMatches(code[p + i], a[i], p + i) {
        assert (a + b)[i] == a[i];
      }
      forall i | 0 <= i < |b| ensures CellMatches(code[p + |a| + i], b[i], p + |a| + i) {
        assert (a + b)[|a| + i] == b[i];
        assert CellMatches(code[p + (|a| + i)], (a + b)[|a| + i], p + (|a| + i));
      }
    }
    if Matches(code, p, a) && Matches(code, p + |a|, b) {
      forall i | 0 <= i < |a + b| ensures CellMatches(code[p + i], (a + b)[i], p + i) {
        if i >= |a| {
          assert CellMatches(code[p + |a| + (i - |a|)], b[i - |a|], p + |a| + (i - |a|));
        }
      }
    }
  }

  /** Code that agrees on a region matches it as well. */
  lemma MatchesFrame(code: seq<Cell>, code': seq<Cell>, p: int, cells: Symbolic)
    requires Matches(code, p, cells) && p + |cells| <= |code'|
    requires forall x :: p <= x < p + |cells| ==> code'[x] == code[x]
    ensures Matches(code', p, cells)
  {
    forall i | 0 <= i < |cells| ensures CellMatches(code'[p + i], cells[i], p + i) {
      assert CellMatches(code[p + i], cells[i], p + i);
    }
  }

  /** Patching the whole of list `l` in a region binds it there. */
  lemma MatchesPatched(code: seq<Cell>, p: int, cells: Symbolic, ss: seq<int>, l: Label, a: int)
    requires Matches(code, p, cells)
    requires forall x :: p <= x < p + |cells| ==> (x in ss <==> cells[x - p] == Ref(l))
    ensures Matches(Patched(code, ss, a), p, Bind(cells, l, a))
  {
    var code' := Patched(code, ss, a);
    forall i | 0 <= i < |cells| ensures CellMatches(code'[p + i], Bind(cells, l, a)[i], p + i) {
      assert CellMatches(code[p + i], cells[i], p + i);
      assert cells[(p + i) - p] == cells[i];
    }
  }

  lemma {:induction false} LinkedBelow(code: seq<Cell>, t: int, ss: seq<int>)
    requires Linked(code, t, ss)
    ensures forall x :: x in ss ==> 0 < x <= t && x < |code| && code[x].Slot?
    decreases |ss|
  {
    if ss != [] {
      LinkedBelow(code, code[t].v, ss[1..]);
      forall x | x in ss ensures 0 < x <= t && x < |code| && code[x].Slot? {
        assert x == ss[0] || x in ss[1..];
      }
    }
  }

  lemma {:induction false} LinkedFrame(code: seq<Cell>, code': seq<Cell>, t: int, ss: seq<int>)
    requires Linked(code, t, ss)
    requires |code| <= |code'| && forall x :: x in ss && 0 <= x < |code| ==> code'[x] == code[x]
    ensures Linked(code', t, ss)
    decreases |ss|
  {
    if ss != [] {
      LinkedFrame(code, code', code[t].v, ss[1..]);
    }
  }

  /** Writing `t` into the last link of one list appends the list at `t`. */
  lemma {:induction false} LinkedAppend(code: seq<Cell>, h: int, hs: seq<int>, t: int, ts: seq<int>)
    requires Linked(code, h, hs) && Linked(code, t, ts) && hs != []
    requires forall x, y :: x in hs && y in ts ==> x > y
    ensures var last := hs[|hs| - 1];
            0 < last < |code| && Linked(code[last := Slot(t)], h, hs + ts)
    decreases |hs|
  {
    LinkedBelow(code, h, hs);
    LinkedBelow(code, t, ts);
    var last := hs[|hs| - 1];
    assert last in hs;
    var code' := code[last := Slot(t)];
    if |hs| == 1 {
      assert last !in ts;
      LinkedFrame(code, code', t, ts);
      assert (hs + ts)[1..] == ts;
      if ts != [] { assert ts[0] in ts; }
    } else {
      var n := code[h].v;
      LinkedBelow(code, n, hs[1..]);
      assert hs[1..][|hs[1..]| - 1] == last && last in hs[1..];
      forall x, y | x in hs[1..] && y in ts ensures x > y { assert x in hs; }
      LinkedAppend(code, n, hs[1..], t, ts);
      assert (hs + ts)[1..] == hs[1..] + ts;
      assert h != last;
    }
  }
}
