/** The generated code of a whole function behaves as the source does. */
module Correct {
  import opened Wrappers
  import opened JumpCode
  import opened Control
  import opened Positions
  import opened Patching
  import opened Regions
  import opened OnePass
  import opened Simulation

  /** What `GenFunction` ensures about an accepted body compiled behind `code0`. */
  ghost predicate Compiled(s: Stmt, code0: seq<Cell>, code: seq<Cell>) {
    && 0 < |code0|
    && WellPlaced(s)
    && Appended(code0, code, Bind(Emit(s, |code0|), Ret, |code|))
  }

  lemma CompiledFits(s: Stmt, code0: seq<Cell>, code: seq<Cell>, env: Env)
    requires Compiled(s, code0, code)
    ensures Fits(code, |code0|, Emit(s, |code0|), env.(ret := |code|))
    ensures |code| == |code0| + |Emit(s, |code0|)|
  {
    hide Emit, WellPlaced;
    AcceptedExactly(s);
    var p, cells := |code0|, Emit(s, |code0|);
    var bound := Bind(cells, Ret, |code|);
    EmitOnly(s, p, false, false, false, false);
    forall i | 0 <= i < |bound| ensures code[p + i] == Concrete(bound[i], p + i, env) {
      assert CellMatches(code[p + i], bound[i], p + i);
    }
    FitsBind(code, p, cells, Ret, |code|, env);
  }

  /** Outside a loop or switch nothing is left by `break` or `continue`. */
  lemma {:induction false} NoStray(s: Stmt, m: Mode, o: Oracle, h: History, fuel: nat, b: bool, c: bool, w: bool, seen: bool)
    requires Accepted(s, b, c, w, seen) && Hit(s, m)
    ensures Exec(s, m, o, h, fuel).0.Broke? ==> b
    ensures Exec(s, m, o, h, fuel).0.Continued? ==> c
    decreases s
  {
    hide Value, Loop, DoLoop;
    match s
    case Seq(x, y) =>
      if Hit(x, m) {
        NoStray(x, m, o, h, fuel, b, c, w, seen);
        var r := Exec(x, m, o, h, fuel);
        if r.0.Normal? { NoStray(y, Run, o, r.1, fuel, b, c, w, seen || HasDefault(x)); }
      } else {
        NoStray(y, m, o, h, fuel, b, c, w, seen || HasDefault(x));
      }
    case If(e, x) =>
      if !m.Run? || Value(e, o, h).0 != 0 {
        NoStray(x, m, o, if m.Run? then Value(e, o, h).1 else h, fuel, b, c, w, seen);
      }
    case IfElse(e, x, y) =>
      var h1 := if m.Run? then Value(e, o, h).1 else h;
      if if m.Run? then Value(e, o, h).0 != 0 else Hit(x, m) {
        NoStray(x, m, o, h1, fuel, b, c, w, seen);
      } else {
        NoStray(y, m, o, h1, fuel, b, c, w, seen || HasDefault(x));
      }
    case While(e, x) => LoopStays(Some(e), None, x, m, o, h, fuel);
    case For(i, t, n, x) => LoopStays(t, n, x, m, o, if m.Run? then Opt(i, o, h) else h, fuel);
    case DoWhile(x, e) => DoStays(x, e, m, o, h, fuel);
    case Switch(e, x) =>
      var (v, h1) := Value(e, o, h);
      if HasMatch(x, v) {
        NoStray(x, ToCase(v), o, h1, fuel, true, c, true, false);
      } else if HasDefault(x) {
        NoStray(x, ToDefault, o, h1, fuel, true, c, true, false);
      }
    case Case(lo, hi, x) =>
      NoStray(x, if m.ToCase? && lo <= m.v <= hi then Run else m, o, h, fuel, b, c, w, seen);
    case Default(x) =>
      NoStray(x, if m.ToDefault? then Run else m, o, h, fuel, b, c, w, true);
    case _ =>
  }

  lemma {:induction false} LoopStays(t: Option<Expr>, n: Option<Expr>, x: Stmt, m: Mode, o: Oracle, h: History, fuel: nat)
    requires Hit(x, m)
    ensures var r := Loop(t, n, x, m, o, h, fuel).0; !r.Broke? && !r.Continued?
    decreases fuel
  {
    var h1 := if m.Run? && t.Some? then Value(t.value, o, h).1 else h;
    var r := Exec(x, m, o, h1, fuel);
    if (r.0.Normal? || r.0.Continued?) && fuel > 0 {
      LoopStays(t, n, x, Run, o, Opt(n, o, r.1), fuel - 1);
    }
  }

  lemma {:induction false} DoStays(x: Stmt, e: Expr, m: Mode, o: Oracle, h: History, fuel: nat)
    requires Hit(x, m)
    ensures var r := DoLoop(x, e, m, o, h, fuel).0; !r.Broke? && !r.Continued?
    decreases fuel
  {
    var r := Exec(x, m, o, h, fuel);
    if (r.0.Normal? || r.0.Continued?) && fuel > 0 {
      DoStays(x, e, Run, o, Value(e, o, r.1).1, fuel - 1);
    }
  }

  /** The source finishes within `fuel`, having evaluated the atoms `h`, with result `v`. */
  predicate Finishes(s: Stmt, o: Oracle, fuel: nat, h: History, v: Option<int>) {
    var r := Exec(s, Run, o, [], fuel);
    r.1 == h && (r.0 == Returned(v) || (r.0.Normal? && v.None?))
  }

  /** After `k` steps the machine has run off the end of the code. */
  predicate Halts(code: seq<Cell>, o: Oracle, st: State, k: nat, h: History, v: Option<int>) {
    var t := Steps(code, o, st, k);
    t.pc == |code| && t.history == h && (v.Some? ==> t.acc == v.value)
  }

  lemma RunsFrom(s: Stmt, code0: seq<Cell>, code: seq<Cell>, o: Oracle, st: State, fuel: nat) returns (k: nat)
    requires Compiled(s, code0, code) && st.pc == |code0| && st.history == []
    ensures forall h, v :: Finishes(s, o, fuel, h, v) ==> Halts(code, o, st, k, h, v)
    ensures !Exec(s, Run, o, [], fuel).0.OutOfFuel? ==> Steps(code, o, st, k).pc == |code|
    ensures Exec(s, Run, o, [], fuel).0.OutOfFuel? ==> k >= fuel && Steps(code, o, st, k).pc != |code|
    ensures Steps(code, o, st, k).history == Exec(s, Run, o, [], fuel).1
  {
    hide Emit, Exec, Accepted, WellPlaced;
    AcceptedExactly(s);
    var p, env := |code0|, Env(0, 0, 0, 0, |code|, 0);
    CompiledFits(s, code0, code, env);
    NoStray(s, Run, o, [], fuel, false, false, false, false);
    var t;
    k, t := RunStmt(code, o, s, Run, p, env, st, fuel);
  }

  /** Main theorem: the machine halts with a history exactly when the source finishes with
      it, for every oracle; a result that is returned is in the register. */
  lemma SamePrograms(s: Stmt, code0: seq<Cell>, code: seq<Cell>, o: Oracle, st: State, h: History)
    requires Compiled(s, code0, code) && st.pc == |code0| && st.history == []
    ensures (exists fuel, v :: Finishes(s, o, fuel, h, v)) <==> (exists k :: Halts(code, o, st, k, h, None))
    ensures forall fuel, v :: Finishes(s, o, fuel, h, v) ==> exists k :: Halts(code, o, st, k, h, v)
  {
    hide Exec, Steps, Compiled;
    forall fuel, v | Finishes(s, o, fuel, h, v) ensures exists k :: Halts(code, o, st, k, h, v) && Halts(code, o, st, k, h, None) {
      var k := RunsFrom(s, code0, code, o, st, fuel);
      assert Halts(code, o, st, k, h, v) && Halts(code, o, st, k, h, None);
    }
    if exists k :: Halts(code, o, st, k, h, None) {
      var k :| Halts(code, o, st, k, h, None);
      var v := HaltMeansFinish(s, code0, code, o, st, k, h);
    }
  }

  /** A machine that has halted after `k` steps ran a source that finishes within `k + 1`
      rounds of its loops. */
  lemma HaltMeansFinish(s: Stmt, code0: seq<Cell>, code: seq<Cell>, o: Oracle, st: State, k: nat, h: History) returns (v: Option<int>)
    requires Compiled(s, code0, code) && st.pc == |code0| && st.history == []
    requires Halts(code, o, st, k, h, None)
    ensures Finishes(s, o, k + 1, h, v)
  {
    hide Emit, Exec, Accepted, WellPlaced;
    AcceptedExactly(s);
    var r := Exec(s, Run, o, [], k + 1);
    NoStray(s, Run, o, [], k + 1, false, false, false, false);
    var j := RunsFrom(s, code0, code, o, st, k + 1);
    if j >= k {
      StepsCompose(code, o, st, k, j - k);
      StepsHalted(code, o, Steps(code, o, st, k), j - k);
    } else {
      StepsCompose(code, o, st, j, k - j);
      StepsHalted(code, o, Steps(code, o, st, j), k - j);
    }
    v := if r.0.Returned? then r.0.value else None;
  }

  /** A source that never finishes is matched step for step: for every number of rounds the
      machine is still running, and has gone through the same atoms. */
  lemma Diverges(s: Stmt, code0: seq<Cell>, code: seq<Cell>, o: Oracle, st: State, fuel: nat) returns (k: nat)
    requires Compiled(s, code0, code) && st.pc == |code0| && st.history == []
    requires Exec(s, Run, o, [], fuel).0.OutOfFuel?
    ensures k >= fuel && forall j: nat :: j <= k ==> Steps(code, o, st, j).pc != |code|
    ensures Steps(code, o, st, k).history == Exec(s, Run, o, [], fuel).1
  {
    hide Emit, Exec, Compiled;
    k := RunsFrom(s, code0, code, o, st, fuel);
    forall j: nat | j <= k ensures Steps(code, o, st, j).pc != |code| {
      if Steps(code, o, st, j).pc == |code| {
        StepsCompose(code, o, st, j, k - j);
        StepsHalted(code, o, Steps(code, o, st, j), k - j);
      }
    }
  }
}
