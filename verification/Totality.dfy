/** The type checker's rule for blocks that never fall through (src/checker/program/totality.rs,
    src/checker/common_flow.rs). A destructuring's `else` must pass it, which is what lets `free_vars` bind
    the destructured names for everything that follows. */
module Totality {
  import opened Ast
  import opened LowerUsing
  import opened Walk
  import opened Interp
  import opened Capture

  // ----- The rule -----

  /** An expression of type `never`, as the checker recognises one; `never` holds the functions it knows to
      be declared so. */
  predicate IsNever(never: set<Name>, e: Expr)
    decreases e
  {
    match e
    case Call(callee, _) => callee.Ident? && (callee.name in FAULT_INTRINSICS || callee.name in never)
    case One(k, _) => k.Throw?
    case If(_, a, b) => IsNever(never, a) && IsNever(never, b)
    case Match(_, arms) => arms != [] && forall a :: a in arms ==> ArmIsNever(never, a)
    case _ => false
  }

  predicate ArmIsNever(never: set<Name>, a: Arm)
    decreases a
  {
    IsNever(never, a.body)
  }

  /** Whether `s` holds a `break` (or a `continue`) that binds outside it. Only the clauses of a C-`for`
      can hold one besides blocks, and the parser puts none there. */
  predicate Escapes(sig: Signal, s: Stmt)
    decreases s
  {
    match s
    case Break => sig.BreakSig?
    case Continue => sig.ContinueSig?
    case Block(ss) => BlockEscapes(sig, ss)
    case Using(_, _, body) => BlockEscapes(sig, body)
    case IfStmt(_, _, a, b) => BlockEscapes(sig, a) || OptEscapes(sig, b)
    case Try(body, catches, f) =>
      BlockEscapes(sig, body) || (exists c :: c in catches && CatchEscapes(sig, c)) || OptEscapes(sig, f)
    case Destructure(_, _, b) => OptEscapes(sig, b)
    case CFor(start, _, step, _) => OptStmtEscapes(sig, start) || OptStmtEscapes(sig, step)
    case _ => false
  }

  predicate BlockEscapes(sig: Signal, ss: seq<Stmt>)
    decreases ss
  {
    exists s :: s in ss && Escapes(sig, s)
  }

  predicate OptEscapes(sig: Signal, b: OptBlock)
    decreases b
  {
    b.SomeBlock? && BlockEscapes(sig, b.stmts)
  }

  predicate OptStmtEscapes(sig: Signal, s: Option<Stmt>)
    decreases s
  {
    s.Some? && Escapes(sig, s.value)
  }

  predicate CatchEscapes(sig: Signal, c: Catch)
    decreases c
  {
    BlockEscapes(sig, c.body)
  }

  predicate TrueLit(e: Expr) { e == Lit(BoolLit(true)) }

  /** The checker's rule takes a `do` loop to end with its body's first run even when that run can leave the
      loop; with `careful` set it must not be able to. */
  datatype Rule = Rule(never: set<Name>, careful: bool)

  predicate Terminates(r: Rule, s: Stmt)
    decreases s
  {
    match s
    case Return(_) => true
    case ThrowStmt(_) => true
    case Block(ss) => BlockTerminates(r, ss)
    case Using(_, _, body) => BlockTerminates(r, body)
    case IfStmt(_, _, a, b) => BlockTerminates(r, a) && OptTerminates(r, b)
    case While(t, body, postCond) =>
      || (postCond && BlockTerminates(r, body) && (r.careful ==> !LeavesLoop(body)))
      || (TrueLit(t) && !BlockEscapes(BreakSig, body))
    case CFor(_, test, _, body) => (test.None? || TrueLit(test.value)) && !BlockEscapes(BreakSig, body)
    case ExprStmt(e) => IsNever(r.never, e)
    case Try(body, catches, f) =>
      OptTerminates(r, f) || (BlockTerminates(r, body) && forall c :: c in catches ==> CatchTerminates(r, c))
    case _ => false
  }

  predicate BlockTerminates(r: Rule, ss: seq<Stmt>)
    decreases ss
  {
    exists s :: s in ss && Terminates(r, s)
  }

  predicate OptTerminates(r: Rule, b: OptBlock)
    decreases b
  {
    b.SomeBlock? && BlockTerminates(r, b.stmts)
  }

  predicate CatchTerminates(r: Rule, c: Catch)
    decreases c
  {
    BlockTerminates(r, c.body)
  }

  predicate LeavesLoop(body: seq<Stmt>) { BlockEscapes(BreakSig, body) || BlockEscapes(ContinueSig, body) }

  // ----- What the rule relies on -----

  /** The functions known to be of type `never` do not return. */
  ghost predicate NeverReturn(prog: Program, never: set<Name>) {
    forall n :: n in never ==> n in prog.funcs && FunctionNeverReturns(prog, prog.funcs[n])
  }

  ghost predicate FunctionNeverReturns(prog: Program, f: Fun) {
    forall c: Cx, fuel: nat, vs: seq<Value>, w: World :: c.prog == prog ==> RunFun(c, fuel, f, None, None, vs, w).0.Stop?
  }

  // ----- Loop control stays inside calls and loops -----

  ghost predicate IsLoopControl(o: Out) { o == Stop(BreakSig) || o == Stop(ContinueSig) }

  lemma {:induction false} EvalKeepsControl(c: Cx, fuel: nat, e: Expr, env: Env, w: World)
    ensures !IsLoopControl(Eval(c, fuel, e, env, w).0)
    decreases fuel, 2
  {
    hide Eval, IsLoopControl;
    if fuel == 0 || e.Ident? || e.This? || e.Lambda? || e.ParentCall? {
      AtomKeepsControl(c, fuel, e, env, w);
    } else if e.If? || e.Match? || (e.Two? && !Strict(e)) {
      BranchKeepsControl(c, fuel, e, env, w);
    } else {
      HandedOnKeepsControl(c, fuel, e, env, w);
    }
  }

  lemma {:induction false} AtomKeepsControl(c: Cx, fuel: nat, e: Expr, env: Env, w: World)
    requires fuel == 0 || e.Ident? || e.This? || e.Lambda? || e.ParentCall?
    ensures !IsLoopControl(Eval(c, fuel, e, env, w).0)
    decreases fuel, 1
  {
    if fuel > 0 && e.ParentCall? { AllKeepControl(c, fuel - 1, e.args, env, w); }
  }

  lemma {:induction false} BranchKeepsControl(c: Cx, fuel: nat, e: Expr, env: Env, w: World)
    requires fuel > 0 && (e.If? || e.Match? || (e.Two? && !Strict(e)))
    ensures !IsLoopControl(Eval(c, fuel, e, env, w).0)
    decreases fuel, 1
  {
    hide EvalAll, EvalStrict, EvalArms, EvalCall, RunFun;
    match e
    case If(t, a, b) =>
      EvalKeepsControl(c, fuel - 1, t, env, w);
      var (o, w1) := Eval(c, fuel - 1, t, env, w);
      if o.Ok? { EvalKeepsControl(c, fuel - 1, if IsTrue(o.value) then a else b, env, w1); }
    case Match(s, arms) =>
      EvalKeepsControl(c, fuel - 1, s, env, w);
      var (o, w1) := Eval(c, fuel - 1, s, env, w);
      if o.Ok? { ArmsKeepControl(c, fuel - 1, arms, o.value, env, w1); }
    case Two(_, l, r) =>
      EvalKeepsControl(c, fuel - 1, l, env, w);
      EvalKeepsControl(c, fuel - 1, r, env, Eval(c, fuel - 1, l, env, w).1);
  }

  lemma {:induction false} HandedOnKeepsControl(c: Cx, fuel: nat, e: Expr, env: Env, w: World)
    requires fuel > 0 && (e.Call? || Strict(e))
    ensures !IsLoopControl(Eval(c, fuel, e, env, w).0)
    decreases fuel, 1
  {
    hide IsLoopControl, EvalCall, EvalStrict;
    if e.Call? { CallKeepsControl(c, fuel - 1, e.callee, e.args, env, w); }
    else { StrictKeepsControl(c, fuel - 1, e, env, w); }
  }

  lemma {:induction false} AllKeepControl(c: Cx, fuel: nat, es: seq<Expr>, env: Env, w: World)
    ensures var os := EvalAll(c, fuel, es, env, w).0; os.Stops? ==> !IsLoopControl(Stop(os.signal))
    decreases fuel, 0
  {
    if fuel > 0 && es != [] {
      EvalKeepsControl(c, fuel - 1, es[0], env, w);
      AllKeepControl(c, fuel - 1, es[1..], env, Eval(c, fuel - 1, es[0], env, w).1);
    }
  }

  lemma {:induction false} StrictKeepsControl(c: Cx, fuel: nat, e: Expr, env: Env, w: World)
    requires Strict(e)
    ensures !IsLoopControl(EvalStrict(c, fuel, e, env, w).0)
    decreases fuel, 0
  {
    if fuel > 0 {
      AllKeepControl(c, fuel - 1, Operands(e), env, w);
      var (os, w1) := EvalAll(c, fuel - 1, Operands(e), env, w);
      if os.Oks? { ApplyKeepsControl(c.host, e, os.values, w1); }
    }
  }

  lemma ApplyKeepsControl(host: Host, e: Expr, vs: seq<Value>, w: World)
    requires Strict(e) && |vs| == |Operands(e)|
    ensures !IsLoopControl(Apply(host, e, vs, w).0)
  {
    if e.MapLit? { BuildKeepsControl(vs, MapV([], [])); }
  }

  lemma {:induction false} BuildKeepsControl(vs: seq<Value>, m: Value)
    requires m.MapV? && |m.keys| == |m.values|
    ensures !IsLoopControl(BuildMap(vs, m))
    decreases |vs|
  {
    if |vs| >= 2 && IsKey(vs[0]) { BuildKeepsControl(vs[2..], PutKey(m, vs[0].lit, vs[1])); }
  }

  lemma {:induction false} ArmsKeepControl(c: Cx, fuel: nat, arms: seq<Arm>, v: Value, env: Env, w: World)
    ensures !IsLoopControl(EvalArms(c, fuel, arms, v, env, w).0)
    decreases fuel, 0
  {
    hide Eval;
    if fuel > 0 && arms != [] {
      var bs := MatchPattern(c.host, arms[0].pattern, v, w);
      if bs.None? {
        ArmsKeepControl(c, fuel - 1, arms[1..], v, env, w);
      } else {
        var inner := Nest(bs.value, env);
        var w1 := w;
        if arms[0].guard.Some? {
          EvalKeepsControl(c, fuel - 1, arms[0].guard.value, inner, w);
          w1 := Eval(c, fuel - 1, arms[0].guard.value, inner, w).1;
          ArmsKeepControl(c, fuel - 1, arms[1..], v, env, w1);
        }
        EvalKeepsControl(c, fuel - 1, arms[0].body, inner, w1);
      }
    }
  }

  lemma {:induction false} CallKeepsControl(c: Cx, fuel: nat, callee: Expr, args: seq<Expr>, env: Env, w: World)
    ensures !IsLoopControl(EvalCall(c, fuel, callee, args, env, w).0)
    decreases fuel, 0
  {
    hide EvalAll, Eval, CallNamed, CallValue, CallMethod;
    if fuel > 0 {
      if callee.Ident? {
        AllKeepControl(c, fuel - 1, args, env, w);
        var (os, w1) := EvalAll(c, fuel - 1, args, env, w);
        if os.Oks? { NamedKeepsControl(c, fuel - 1, callee.name, os.values, env, w1); }
      } else {
        var member := callee.One? && callee.one.Member?;
        var head := if member then callee.inner else callee;
        EvalKeepsControl(c, fuel - 1, head, env, w);
        var (o, w1) := Eval(c, fuel - 1, head, env, w);
        AllKeepControl(c, fuel - 1, args, env, w1);
        var (os, w2) := EvalAll(c, fuel - 1, args, env, w1);
        if o.Ok? && os.Oks? {
          if member { MethodKeepsControl(c, fuel - 1, o.value, callee.one.field, os.values, w2); }
          else { ValueKeepsControl(c, fuel - 1, o.value, os.values, w2); }
        }
      }
    }
  }

  lemma MethodKeepsControl(c: Cx, fuel: nat, recv: Value, m: Name, vs: seq<Value>, w: World)
    ensures !IsLoopControl(CallMethod(c, fuel, recv, m, vs, w).0)
  {
  }

  lemma {:induction false} NamedKeepsControl(c: Cx, fuel: nat, n: Name, vs: seq<Value>, env: Env, w: World)
    ensures !IsLoopControl(CallNamed(c, fuel, n, vs, env, w).0)
    decreases fuel, 0
  {
    if fuel > 0 {
      var v := Lookup(env, n);
      if v.Some? && v.value.Closure? { ValueKeepsControl(c, fuel - 1, v.value, vs, w); }
    }
  }

  lemma {:induction false} ValueKeepsControl(c: Cx, fuel: nat, f: Value, vs: seq<Value>, w: World)
    ensures !IsLoopControl(CallValue(c, fuel, f, vs, w).0)
    decreases fuel, 0
  {
    if fuel > 0 && f.Closure? && |f.params| == |vs| && f.body.ExprBody? {
      EvalKeepsControl(c.(self := f.self), fuel - 1, f.body.expr, DeclareAll(Root(f.env), f.params, vs), w);
    }
  }

  // ----- A statement without a loose `break` does not break -----

  lemma {:induction false} ExecKeepsControl(c: Cx, fuel: nat, sig: Signal, s: Stmt, env: Env, w: World)
    requires IsLoopControl(Stop(sig)) && !Escapes(sig, s)
    ensures Exec(c, fuel, s, env, w).0 != Stop(sig)
    decreases fuel, 2
  {
    hide Exec;
    if fuel == 0 {
      LeafKeepsControl(c, fuel, sig, s, env, w);
    } else if s.IfStmt? || s.For? || s.Destructure? {
      BranchStmtKeepsControl(c, fuel, sig, s, env, w);
    } else if s.Using? || s.While? || s.Block? {
      HandedOnStmtKeepsControl(c, fuel, sig, s, env, w);
    } else if s.CFor? {
      CForKeepsControl(c, fuel, sig, s, env, w);
    } else if s.Try? {
      TryKeepsControl(c, fuel, sig, s, env, w);
    } else {
      LeafKeepsControl(c, fuel, sig, s, env, w);
    }
  }

  lemma {:induction false} LeafKeepsControl(c: Cx, fuel: nat, sig: Signal, s: Stmt, env: Env, w: World)
    requires IsLoopControl(Stop(sig)) && !Escapes(sig, s)
    requires fuel > 0 ==> s.VarDecl? || s.Assign? || s.Return? || s.ExprStmt? || s.Discard? || s.ThrowStmt? || s.Break? || s.Continue?
    ensures Exec(c, fuel, s, env, w).0 != Stop(sig)
    decreases fuel, 1
  {
    hide Eval, ExecAssign, ExecIn, ExecCatches, ForEach, WhileLoop, DoWhile, CForLoop, ExecDestructure;
    if fuel > 0 {
      match s
      case VarDecl(_, init) => EvalKeepsControl(c, fuel - 1, init, env, w);
      case Assign(t, x) => AssignKeepsControl(c, fuel - 1, t, x, env, w);
      case Return(e) => if e.Some? { EvalKeepsControl(c, fuel - 1, e.value, env, w); }
      case ExprStmt(e) => EvalKeepsControl(c, fuel - 1, e, env, w);
      case Discard(e) => EvalKeepsControl(c, fuel - 1, e, env, w);
      case ThrowStmt(e) => EvalKeepsControl(c, fuel - 1, e, env, w);
      case Break =>
      case Continue =>
    }
  }

  lemma {:induction false} BranchStmtKeepsControl(c: Cx, fuel: nat, sig: Signal, s: Stmt, env: Env, w: World)
    requires IsLoopControl(Stop(sig)) && !Escapes(sig, s) && fuel > 0 && (s.IfStmt? || s.For? || s.Destructure?)
    ensures Exec(c, fuel, s, env, w).0 != Stop(sig)
    decreases fuel, 1
  {
    hide Eval, ExecIn, ForEach;
    match s
    case IfStmt(t, bind, a, b) =>
      EvalKeepsControl(c, fuel - 1, t, env, w);
      var (o, w1) := Eval(c, fuel - 1, t, env, w);
      if o.Ok? {
        InKeepsControl(c, fuel - 1, sig, if bind.Some? then map[bind.value := o.value] else map[], a, env, w1);
        if b.SomeBlock? { InKeepsControl(c, fuel - 1, sig, map[], b.stmts, env, w1); }
      }
    case For(n, val, iter, body) =>
      EvalKeepsControl(c, fuel - 1, iter, env, w);
      var (o, w1) := Eval(c, fuel - 1, iter, env, w);
      if o.Ok? && IterElements(o.value).Some? {
        ForEachKeepsControl(c, fuel - 1, sig, n, val, IterElements(o.value).value, body, env, w1);
      }
    case Destructure(_, init, b) =>
      EvalKeepsControl(c, fuel - 1, init, env, w);
      if fuel > 1 && b.SomeBlock? {
        InKeepsControl(c, fuel - 2, sig, map[], b.stmts, env, Eval(c, fuel - 1, init, env, w).1);
      }
  }

  lemma {:induction false} HandedOnStmtKeepsControl(c: Cx, fuel: nat, sig: Signal, s: Stmt, env: Env, w: World)
    requires IsLoopControl(Stop(sig)) && !Escapes(sig, s) && fuel > 0 && (s.Using? || s.While? || s.Block?)
    ensures Exec(c, fuel, s, env, w).0 != Stop(sig)
    decreases fuel, 1
  {
    hide ExecIn, WhileLoop, DoWhile, Eval, ExecCatches, ForEach, CForLoop, ExecAssign, ExecDestructure;
    match s
    case Using(n, init, body) =>
      LoweredEscapes(sig, n, init, body);
      ExecKeepsControl(c, fuel - 1, sig, Lower(n, init, body), env, w);
    case While(t, body, postCond) =>
      if postCond { DoWhileKeepsControl(c, fuel - 1, sig, t, body, env, w); }
      else { WhileKeepsControl(c, fuel - 1, sig, t, body, env, w); }
    case Block(ss) => InKeepsControl(c, fuel - 1, sig, map[], ss, env, w);
  }

  lemma LoweredEscapes(sig: Signal, n: Name, init: Expr, body: seq<Stmt>)
    requires !BlockEscapes(sig, body)
    ensures !Escapes(sig, Lower(n, init, body))
  {
    assert !Escapes(sig, CloseCall(n));
    assert !BlockEscapes(sig, [CloseCall(n)]);
    assert !Escapes(sig, Guarded(n, body));
    assert !Escapes(sig, VarDecl(n, init));
  }

  lemma {:induction false} BlockKeepsControl(c: Cx, fuel: nat, sig: Signal, ss: seq<Stmt>, env: Env, w: World)
    requires IsLoopControl(Stop(sig)) && !BlockEscapes(sig, ss)
    ensures ExecBlock(c, fuel, ss, env, w).0 != Stop(sig)
    decreases fuel, 0
  {
    if fuel > 0 && ss != [] {
      ExecKeepsControl(c, fuel - 1, sig, ss[0], env, w);
      var (o, w1, env1) := Exec(c, fuel - 1, ss[0], env, w);
      BlockKeepsControl(c, fuel - 1, sig, ss[1..], env1, w1);
    }
  }

  lemma {:induction false} InKeepsControl(c: Cx, fuel: nat, sig: Signal, vars: Scope, ss: seq<Stmt>, env: Env, w: World)
    requires IsLoopControl(Stop(sig)) && !BlockEscapes(sig, ss)
    ensures ExecIn(c, fuel, vars, ss, env, w).0 != Stop(sig)
    decreases fuel, 0
  {
    if fuel > 0 { BlockKeepsControl(c, fuel - 1, sig, ss, Nest(vars, env), w); }
  }

  lemma {:induction false} TryKeepsControl(c: Cx, fuel: nat, sig: Signal, s: Stmt, env: Env, w: World)
    requires IsLoopControl(Stop(sig)) && !Escapes(sig, s) && fuel > 0 && s.Try?
    ensures Exec(c, fuel, s, env, w).0 != Stop(sig)
    decreases fuel, 0
  {
    hide Eval, ExecIn, ExecCatches, ForEach, WhileLoop, DoWhile, CForLoop, ExecAssign, ExecDestructure;
    InKeepsControl(c, fuel - 1, sig, map[], s.body, env, w);
    var (o, w1, env1) := ExecIn(c, fuel - 1, map[], s.body, env, w);
    CatchesKeepControl(c, fuel - 1, sig, s.catches, o, env1, w1);
    var (p, w2, env2) := ExecCatches(c, fuel - 1, s.catches, o, env1, w1);
    if s.finallyBlock.SomeBlock? { InKeepsControl(c, fuel - 1, sig, map[], s.finallyBlock.stmts, env2, w2); }
  }

  lemma {:induction false} CatchesKeepControl(c: Cx, fuel: nat, sig: Signal, cs: seq<Catch>, o: Out, env: Env, w: World)
    requires IsLoopControl(Stop(sig)) && o != Stop(sig) && forall d :: d in cs ==> !CatchEscapes(sig, d)
    ensures ExecCatches(c, fuel, cs, o, env, w).0 != Stop(sig)
    decreases fuel, 0
  {
    if fuel > 0 && o.Stop? && o.signal.ThrowSig? && cs != [] {
      assert !CatchEscapes(sig, cs[0]);
      InKeepsControl(c, fuel - 1, sig, map[cs[0].name := o.signal.value], cs[0].body, env, w);
      CatchesKeepControl(c, fuel - 1, sig, cs[1..], o, env, w);
    }
  }

  lemma {:induction false} ForEachKeepsControl(c: Cx, fuel: nat, sig: Signal, n: Name, val: Option<Name>,
                                               xs: seq<Value>, body: seq<Stmt>, env: Env, w: World)
    requires IsLoopControl(Stop(sig))
    ensures ForEach(c, fuel, n, val, xs, body, env, w).0 != Stop(sig)
    decreases fuel, 0
  {
    hide ExecIn;
    if fuel > 0 && xs != [] {
      var (o, w1, env1) := ExecIn(c, fuel - 1, LoopScope(n, val, xs[0]), body, env, w);
      ForEachKeepsControl(c, fuel - 1, sig, n, val, xs[1..], body, env1, w1);
    }
  }

  lemma {:induction false} WhileKeepsControl(c: Cx, fuel: nat, sig: Signal, t: Expr, body: seq<Stmt>, env: Env,
                                             w: World)
    requires IsLoopControl(Stop(sig))
    ensures WhileLoop(c, fuel, t, body, env, w).0 != Stop(sig)
    decreases fuel, 0
  {
    hide Eval, ExecIn;
    if fuel > 0 {
      EvalKeepsControl(c, fuel - 1, t, env, w);
      var (p, w2, env2) := ExecIn(c, fuel - 1, map[], body, env, Eval(c, fuel - 1, t, env, w).1);
      WhileKeepsControl(c, fuel - 1, sig, t, body, env2, w2);
    }
  }

  lemma {:induction false} DoWhileKeepsControl(c: Cx, fuel: nat, sig: Signal, t: Expr, body: seq<Stmt>, env: Env,
                                               w: World)
    requires IsLoopControl(Stop(sig))
    ensures DoWhile(c, fuel, t, body, env, w).0 != Stop(sig)
    decreases fuel, 0
  {
    hide Eval, ExecIn;
    if fuel > 0 {
      var (p, w1, env1) := ExecIn(c, fuel - 1, map[], body, env, w);
      EvalKeepsControl(c, fuel - 1, t, env1, w1);
      DoWhileKeepsControl(c, fuel - 1, sig, t, body, env1, Eval(c, fuel - 1, t, env1, w1).1);
    }
  }

  lemma {:induction false} CForKeepsControl(c: Cx, fuel: nat, sig: Signal, s: Stmt, env: Env, w: World)
    requires IsLoopControl(Stop(sig)) && !Escapes(sig, s) && fuel > 0 && s.CFor?
    ensures Exec(c, fuel, s, env, w).0 != Stop(sig)
    decreases fuel, 0
  {
    var env1, w1 := Push(env), w;
    if s.start.Some? {
      ExecKeepsControl(c, fuel - 1, sig, s.start.value, Push(env), w);
      var r := Exec(c, fuel - 1, s.start.value, Push(env), w);
      env1, w1 := r.2, r.1;
    }
    CForLoopKeepsControl(c, fuel - 1, sig, s.test, s.step, s.body, env1, w1);
  }

  lemma {:induction false} CForLoopKeepsControl(c: Cx, fuel: nat, sig: Signal, test: Option<Expr>, step: Option<Stmt>,
                                                body: seq<Stmt>, env: Env, w: World)
    requires IsLoopControl(Stop(sig)) && !OptStmtEscapes(sig, step)
    ensures CForLoop(c, fuel, test, step, body, env, w).0 != Stop(sig)
    decreases fuel, 0
  {
    hide Eval, ExecIn, Exec;
    if fuel > 0 {
      if test.Some? { EvalKeepsControl(c, fuel - 1, test.value, env, w); }
      var w1 := if test.Some? then Eval(c, fuel - 1, test.value, env, w).1 else w;
      var (p, w2, env2) := ExecIn(c, fuel - 1, map[], body, env, w1);
      if step.None? {
        CForLoopKeepsControl(c, fuel - 1, sig, test, step, body, env2, w2);
      } else {
        ExecKeepsControl(c, fuel - 1, sig, step.value, env2, w2);
        var (q, w3, env3) := Exec(c, fuel - 1, step.value, env2, w2);
        CForLoopKeepsControl(c, fuel - 1, sig, test, step, body, env3, w3);
      }
    }
  }

  lemma {:induction false} AssignKeepsControl(c: Cx, fuel: nat, target: Expr, value: Expr, env: Env, w: World)
    ensures !IsLoopControl(ExecAssign(c, fuel, target, value, env, w).0)
  {
    hide EvalAll, Eval;
    if fuel > 0 {
      if target.Ident? { EvalKeepsControl(c, fuel - 1, value, env, w); }
      else if target.Two? { AllKeepControl(c, fuel - 1, IndexPath(target) + [value], env, w); }
      else if target.One? { AllKeepControl(c, fuel - 1, [target.inner, value], env, w); }
    }
  }

  // ----- What passes the careful rule never completes -----

  lemma {:induction false} NeverStops(c: Cx, fuel: nat, never: set<Name>, e: Expr, env: Env, w: World)
    requires NeverReturn(c.prog, never) && IsNever(never, e)
    ensures Eval(c, fuel, e, env, w).0.Stop?
    decreases fuel, 1
  {
    hide EvalAll, EvalStrict, EvalArms, EvalCall, RunFun;
    if fuel > 0 {
      match e
      case Call(callee, args) => NeverCallStops(c, fuel - 1, never, callee.name, args, env, w);
      case One(_, inner) => ThrowStops(c, fuel, e, env, w);
      case If(t, a, b) =>
        var (o, w1) := Eval(c, fuel - 1, t, env, w);
        if o.Ok? { NeverStops(c, fuel - 1, never, if IsTrue(o.value) then a else b, env, w1); }
      case Match(s, arms) =>
        var (o, w1) := Eval(c, fuel - 1, s, env, w);
        if o.Ok? { NeverArmsStop(c, fuel - 1, never, arms, o.value, env, w1); }
    }
  }

  lemma ThrowStops(c: Cx, fuel: nat, e: Expr, env: Env, w: World)
    requires e.One? && e.one.Throw?
    ensures Eval(c, fuel, e, env, w).0.Stop?
  {
  }

  lemma NeverCallStops(c: Cx, fuel: nat, never: set<Name>, n: Name, args: seq<Expr>, env: Env, w: World)
    requires NeverReturn(c.prog, never) && (n in FAULT_INTRINSICS || n in never)
    ensures EvalCall(c, fuel, Ident(n), args, env, w).0.Stop?
  {
    if fuel > 1 && n !in FAULT_INTRINSICS {
      var (os, w1) := EvalAll(c, fuel - 1, args, env, w);
      assert FunctionNeverReturns(c.prog, c.prog.funcs[n]);
      if os.Oks? { assert RunFun(c, fuel - 2, c.prog.funcs[n], None, None, os.values, w1).0.Stop?; }
    }
  }

  lemma {:induction false} NeverArmsStop(c: Cx, fuel: nat, never: set<Name>, arms: seq<Arm>, v: Value, env: Env,
                                         w: World)
    requires NeverReturn(c.prog, never) && forall a :: a in arms ==> ArmIsNever(never, a)
    ensures EvalArms(c, fuel, arms, v, env, w).0.Stop?
    decreases fuel, 0
  {
    hide Eval;
    if fuel > 0 && arms != [] {
      assert ArmIsNever(never, arms[0]);
      var bs := MatchPattern(c.host, arms[0].pattern, v, w);
      if bs.None? {
        NeverArmsStop(c, fuel - 1, never, arms[1..], v, env, w);
      } else {
        var inner := Nest(bs.value, env);
        var w1 := w;
        if arms[0].guard.Some? {
          w1 := Eval(c, fuel - 1, arms[0].guard.value, inner, w).1;
          NeverArmsStop(c, fuel - 1, never, arms[1..], v, env, w1);
        }
        NeverStops(c, fuel - 1, never, arms[0].body, inner, w1);
      }
    }
  }

  lemma {:induction false} StmtStops(c: Cx, fuel: nat, r: Rule, s: Stmt, env: Env, w: World)
    requires r.careful && NeverReturn(c.prog, r.never) && Terminates(r, s)
    ensures Exec(c, fuel, s, env, w).0.Stop?
    decreases fuel, 1
  {
    hide Eval, NeverReturn, ExecIn, ExecCatches, ForEach, WhileLoop, DoWhile, CForLoop, ExecAssign, ExecDestructure;
    if fuel > 0 {
      match s
      case Block(ss) => InStops(c, fuel - 1, r, map[], ss, env, w);
      case IfStmt(t, bind, a, b) =>
        var (o, w1) := Eval(c, fuel - 1, t, env, w);
        InStops(c, fuel - 1, r, if bind.Some? && o.Ok? then map[bind.value := o.value] else map[], a, env, w1);
        InStops(c, fuel - 1, r, map[], b.stmts, env, w1);
      case Using(n, init, body) =>
        LoweredTerminates(r, n, init, body);
        StmtStops(c, fuel - 1, r, Lower(n, init, body), env, w);
      case While(t, body, postCond) =>
        if postCond { DoWhileStops(c, fuel - 1, r, t, body, env, w); } else { WhileStops(c, fuel - 1, t, body, env, w); }
      case CFor(start, test, step, body) =>
        if start.None? {
          CForLoopStops(c, fuel - 1, test, step, body, Push(env), w);
        } else {
          var (o, w1, env1) := Exec(c, fuel - 1, start.value, Push(env), w);
          CForLoopStops(c, fuel - 1, test, step, body, env1, w1);
        }
      case ExprStmt(e) => NeverStops(c, fuel - 1, r.never, e, env, w);
      case Try(_, _, _) => TryStops(c, fuel, r, s, env, w);
      case Return(_) =>
      case ThrowStmt(_) =>
    }
  }

  lemma LoweredTerminates(r: Rule, n: Name, init: Expr, body: seq<Stmt>)
    requires BlockTerminates(r, body)
    ensures Terminates(r, Lower(n, init, body))
  {
    var ss := [VarDecl(n, init), Guarded(n, body)];
    assert Terminates(r, Guarded(n, body));
    assert Guarded(n, body) in ss;
  }

  lemma {:induction false} BlockStops(c: Cx, fuel: nat, r: Rule, ss: seq<Stmt>, env: Env, w: World)
    requires r.careful && NeverReturn(c.prog, r.never) && BlockTerminates(r, ss)
    ensures ExecBlock(c, fuel, ss, env, w).0.Stop?
    decreases fuel, 0
  {
    hide Exec;
    if fuel > 0 {
      if Terminates(r, ss[0]) {
        StmtStops(c, fuel - 1, r, ss[0], env, w);
      } else {
        var (o, w1, env1) := Exec(c, fuel - 1, ss[0], env, w);
        assert ss == [ss[0]] + ss[1..];
        BlockStops(c, fuel - 1, r, ss[1..], env1, w1);
      }
    }
  }

  lemma {:induction false} InStops(c: Cx, fuel: nat, r: Rule, vars: Scope, ss: seq<Stmt>, env: Env, w: World)
    requires r.careful && NeverReturn(c.prog, r.never) && BlockTerminates(r, ss)
    ensures ExecIn(c, fuel, vars, ss, env, w).0.Stop?
    decreases fuel, 0
  {
    if fuel > 0 { BlockStops(c, fuel - 1, r, ss, Nest(vars, env), w); }
  }

  lemma {:induction false} TryStops(c: Cx, fuel: nat, r: Rule, s: Stmt, env: Env, w: World)
    requires r.careful && NeverReturn(c.prog, r.never) && Terminates(r, s) && fuel > 0 && s.Try?
    ensures Exec(c, fuel, s, env, w).0.Stop?
    decreases fuel, 0
  {
    hide Eval, ExecIn, ExecCatches, ForEach, WhileLoop, DoWhile, CForLoop, ExecAssign, ExecDestructure;
    var (o, w1, env1) := ExecIn(c, fuel - 1, map[], s.body, env, w);
    var (p, w2, env2) := ExecCatches(c, fuel - 1, s.catches, o, env1, w1);
    if OptTerminates(r, s.finallyBlock) {
      InStops(c, fuel - 1, r, map[], s.finallyBlock.stmts, env2, w2);
    } else {
      InStops(c, fuel - 1, r, map[], s.body, env, w);
      CatchesStop(c, fuel - 1, r, s.catches, o, env1, w1);
    }
  }

  lemma {:induction false} CatchesStop(c: Cx, fuel: nat, r: Rule, cs: seq<Catch>, o: Out, env: Env, w: World)
    requires r.careful && NeverReturn(c.prog, r.never) && o.Stop? && forall d :: d in cs ==> CatchTerminates(r, d)
    ensures ExecCatches(c, fuel, cs, o, env, w).0.Stop?
    decreases fuel, 0
  {
    if fuel > 0 && o.signal.ThrowSig? && cs != [] {
      assert CatchTerminates(r, cs[0]);
      InStops(c, fuel - 1, r, map[cs[0].name := o.signal.value], cs[0].body, env, w);
      CatchesStop(c, fuel - 1, r, cs[1..], o, env, w);
    }
  }

  /** An endless loop whose body holds no `break` of its own. */
  lemma {:induction false} WhileStops(c: Cx, fuel: nat, t: Expr, body: seq<Stmt>, env: Env, w: World)
    requires TrueLit(t) && !BlockEscapes(BreakSig, body)
    ensures WhileLoop(c, fuel, t, body, env, w).0.Stop?
    decreases fuel
  {
    hide Eval, ExecIn;
    if fuel > 0 {
      LitIsTrue(c, fuel - 1, t, env, w);
      InKeepsControl(c, fuel - 1, BreakSig, map[], body, env, w);
      var (p, w2, env2) := ExecIn(c, fuel - 1, map[], body, env, w);
      WhileStops(c, fuel - 1, t, body, env2, w2);
    }
  }

  lemma LitIsTrue(c: Cx, fuel: nat, t: Expr, env: Env, w: World)
    requires TrueLit(t)
    ensures Eval(c, fuel, t, env, w) == (Ok(Bool(true)), w) || Eval(c, fuel, t, env, w) == (Stop(Timeout), w)
  {
    if fuel > 1 { assert EvalAll(c, fuel - 2, [], env, w) == if fuel == 2 then (Stops(Timeout), w) else (Oks([]), w); }
  }

  lemma {:induction false} DoWhileStops(c: Cx, fuel: nat, r: Rule, t: Expr, body: seq<Stmt>, env: Env, w: World)
    requires r.careful && NeverReturn(c.prog, r.never) && Terminates(r, While(t, body, true))
    ensures DoWhile(c, fuel, t, body, env, w).0.Stop?
    decreases fuel, 0
  {
    hide Eval, ExecIn;
    if fuel > 0 {
      var (p, w1, env1) := ExecIn(c, fuel - 1, map[], body, env, w);
      InKeepsControl(c, fuel - 1, BreakSig, map[], body, env, w);
      if TrueLit(t) {
        LitIsTrue(c, fuel - 1, t, env1, w1);
        DoWhileStops(c, fuel - 1, r, t, body, env1, w1);
      } else {
        InStops(c, fuel - 1, r, map[], body, env, w);
        InKeepsControl(c, fuel - 1, ContinueSig, map[], body, env, w);
      }
    }
  }

  lemma {:induction false} CForLoopStops(c: Cx, fuel: nat, test: Option<Expr>, step: Option<Stmt>, body: seq<Stmt>,
                                         env: Env, w: World)
    requires (test.None? || TrueLit(test.value)) && !BlockEscapes(BreakSig, body)
    ensures CForLoop(c, fuel, test, step, body, env, w).0.Stop?
    decreases fuel
  {
    hide Eval, ExecIn, Exec;
    if fuel > 0 {
      if test.Some? { LitIsTrue(c, fuel - 1, test.value, env, w); }
      InKeepsControl(c, fuel - 1, BreakSig, map[], body, env, w);
      var (p, w2, env2) := ExecIn(c, fuel - 1, map[], body, env, w);
      if step.None? {
        CForLoopStops(c, fuel - 1, test, step, body, env2, w2);
      } else {
        var (q, w3, env3) := Exec(c, fuel - 1, step.value, env2, w2);
        CForLoopStops(c, fuel - 1, test, step, body, env3, w3);
      }
    }
  }

  /** The careful rule is sound: what it accepts never falls through, in any run of the program. */
  lemma TerminatesNeverCompletes(prog: Program, r: Rule, ss: seq<Stmt>)
    requires r.careful && NeverReturn(prog, r.never) && BlockTerminates(r, ss)
    ensures NeverCompletes(prog, ss)
  {
    forall c: Cx, fuel: nat, env: Env, w: World | c.prog == prog ensures !Completes(c, fuel, ss, env, w) {
      BlockStops(c, fuel, r, ss, env, w);
    }
  }

  function Checked(r: Rule): Rules {
    Running(ss => !BlockTerminates(r, ss))
  }

  lemma CheckedIsRight(prog: Program, r: Rule)
    requires r.careful && NeverReturn(prog, r.never)
    ensures RightAbout(Checked(r), prog)
  {
    forall ss ensures NeverCompletes(prog, ss) || Checked(r).falls(ss) {
      if BlockTerminates(r, ss) { TerminatesNeverCompletes(prog, r, ss); }
    }
  }

  // ----- Where the checker's own rule is too eager -----

  /** `do { break; .. } while (t);` */
  function LeavingLoop(t: Expr, rest: seq<Stmt>): seq<Stmt> {
    [While(t, [Break] + rest, true)]
  }

  /** The rule accepts a `do` loop for a terminating statement in its body, and does not ask whether the
      body leaves the loop before it: such a block is accepted and always falls through. */
  lemma RuleAcceptsLeavingLoop(r: Rule, t: Expr, rest: seq<Stmt>, c: Cx, fuel: nat, env: Env, w: World)
    requires !r.careful && BlockTerminates(r, rest) && fuel >= 7
    ensures BlockTerminates(r, LeavingLoop(t, rest))
    ensures ExecBlock(c, fuel, LeavingLoop(t, rest), env, w) == (Ok(Unit), w, env)
  {
    var body := [Break] + rest;
    var s :| s in rest && Terminates(r, s);
    assert s in body && Terminates(r, While(t, body, true));
    assert Exec(c, fuel - 5, body[0], Push(env), w) == (Stop(BreakSig), w, Push(env));
    assert ExecBlock(c, fuel - 4, body, Push(env), w) == (Stop(BreakSig), w, Push(env));
    assert ExecIn(c, fuel - 3, map[], body, env, w) == (Stop(BreakSig), w, env);
    assert DoWhile(c, fuel - 2, t, body, env, w) == (Ok(Unit), w, env);
    assert LeavingLoop(t, rest)[1..] == [];
    assert ExecBlock(c, fuel - 1, [], env, w) == (Ok(Unit), w, env);
  }

  /** Whether `s` holds a `do` loop that a `break` or `continue` of its body can leave. */
  predicate Leavable(s: Stmt)
    decreases s
  {
    match s
    case Block(ss) => BlockLeavable(ss)
    case Using(_, _, body) => BlockLeavable(body)
    case IfStmt(_, _, a, b) => BlockLeavable(a) || OptLeavable(b)
    case While(_, body, postCond) => postCond && (LeavesLoop(body) || BlockLeavable(body))
    case Try(body, catches, f) =>
      BlockLeavable(body) || (exists c :: c in catches && CatchLeavable(c)) || OptLeavable(f)
    case _ => false
  }

  predicate BlockLeavable(ss: seq<Stmt>)
    decreases ss
  {
    exists s :: s in ss && Leavable(s)
  }

  predicate OptLeavable(b: OptBlock)
    decreases b
  {
    b.SomeBlock? && BlockLeavable(b.stmts)
  }

  predicate CatchLeavable(c: Catch)
    decreases c
  {
    BlockLeavable(c.body)
  }

  /** Elsewhere the checker's rule is the careful one. */
  lemma {:induction false} RuleIsCareful(never: set<Name>, s: Stmt)
    requires Terminates(Rule(never, false), s) && !Leavable(s)
    ensures Terminates(Rule(never, true), s)
    decreases s
  {
    match s
    case Block(ss) => BlockRuleIsCareful(never, ss);
    case Using(_, _, body) => BlockRuleIsCareful(never, body);
    case IfStmt(_, _, a, b) => BlockRuleIsCareful(never, a); BlockRuleIsCareful(never, b.stmts);
    case While(t, body, _) => if !(TrueLit(t) && !BlockEscapes(BreakSig, body)) { BlockRuleIsCareful(never, body); }
    case Try(body, catches, f) =>
      if OptTerminates(Rule(never, false), f) {
        BlockRuleIsCareful(never, f.stmts);
      } else {
        BlockRuleIsCareful(never, body);
        forall c | c in catches ensures CatchTerminates(Rule(never, true), c) { CatchRuleIsCareful(never, c); }
      }
    case _ =>
  }

  lemma {:induction false} BlockRuleIsCareful(never: set<Name>, ss: seq<Stmt>)
    requires BlockTerminates(Rule(never, false), ss) && !BlockLeavable(ss)
    ensures BlockTerminates(Rule(never, true), ss)
    decreases ss
  {
    var s :| s in ss && Terminates(Rule(never, false), s);
    RuleIsCareful(never, s);
  }

  lemma {:induction false} CatchRuleIsCareful(never: set<Name>, c: Catch)
    requires CatchTerminates(Rule(never, false), c) && !CatchLeavable(c)
    ensures CatchTerminates(Rule(never, true), c)
    decreases c
  {
    BlockRuleIsCareful(never, c.body);
  }
}
