/** What `using` promises (src/ast/stmts.rs, src/ast/lower_using.rs): the handle is released exactly
    once, after the body, on every exit path. */
module UsingGuarantee {
  import opened Ast
  import opened Walk
  import opened LowerUsing
  import opened Interp

  // ----- A body that does not assign a name leaves its binding alone -----

  /** Whether a statement of `s`, outside lambdas, assigns the local `x` or an element of it. */
  predicate Assigns(s: Stmt, x: Name)
    decreases s
  {
    match s
    case Assign(t, _) => IndexRoot(t) == Some(x)
    case IfStmt(_, _, a, b) => BlockAssigns(a, x) || OptAssigns(b, x)
    case For(_, _, _, body) => BlockAssigns(body, x)
    case Using(_, _, body) => BlockAssigns(body, x)
    case While(_, body, _) => BlockAssigns(body, x)
    case CFor(start, _, step, body) => OptStmtAssigns(start, x) || OptStmtAssigns(step, x) || BlockAssigns(body, x)
    case Block(ss) => BlockAssigns(ss, x)
    case Destructure(_, _, b) => OptAssigns(b, x)
    case Try(body, catches, f) =>
      BlockAssigns(body, x) || (exists c :: c in catches && CatchAssigns(c, x)) || OptAssigns(f, x)
    case _ => false
  }

  predicate BlockAssigns(ss: seq<Stmt>, x: Name)
    decreases ss
  {
    exists s :: s in ss && Assigns(s, x)
  }

  predicate OptAssigns(b: OptBlock, x: Name)
    decreases b
  {
    b.SomeBlock? && BlockAssigns(b.stmts, x)
  }

  predicate OptStmtAssigns(s: Option<Stmt>, x: Name)
    decreases s
  {
    s.Some? && Assigns(s.value, x)
  }

  predicate CatchAssigns(c: Catch, x: Name)
    decreases c
  {
    BlockAssigns(c.body, x)
  }

  /** The two stacks have one shape and hold the same binding of `x`, or none, at every level. */
  ghost predicate SameAt(x: Name, a: Env, b: Env) {
    && (x in a.vars <==> x in b.vars) && (x in a.vars ==> a.vars[x] == b.vars[x])
    && (match a
        case Root(_) => b.Root?
        case Nest(_, outer) => b.Nest? && SameAt(x, outer, b.outer))
  }

  /** Below the top scope, nothing about `x` changed. */
  ghost predicate SameBelow(x: Name, a: Env, b: Env) {
    match a
    case Root(_) => b.Root?
    case Nest(_, outer) => b.Nest? && SameAt(x, outer, b.outer)
  }

  lemma {:induction false} SameAtReflexive(x: Name, a: Env)
    ensures SameAt(x, a, a)
  {
    if a.Nest? { SameAtReflexive(x, a.outer); }
  }

  lemma {:induction false} SameAtTransitive(x: Name, a: Env, b: Env, c: Env)
    requires SameAt(x, a, b) && SameAt(x, b, c)
    ensures SameAt(x, a, c)
  {
    if a.Nest? { SameAtTransitive(x, a.outer, b.outer, c.outer); }
  }

  lemma {:induction false} ReassignKeeps(x: Name, y: Name, v: Value, a: Env)
    requires x != y
    ensures SameAt(x, a, Reassign(a, y, v))
  {
    SameAtReflexive(x, a);
    if y !in a.vars && a.Nest? { ReassignKeeps(x, y, v, a.outer); }
  }

  lemma {:induction false} DeclareAllKeeps(x: Name, xs: seq<Name>, vs: seq<Value>, a: Env)
    requires |xs| == |vs|
    ensures SameBelow(x, a, DeclareAll(a, xs, vs)) && (x !in xs ==> SameAt(x, a, DeclareAll(a, xs, vs)))
    decreases |xs|
  {
    SameAtReflexive(x, a);
    if xs == [] {
      if a.Nest? { SameAtReflexive(x, a.outer); }
    } else {
      var b := Declare(a, xs[0], vs[0]);
      DeclareAllKeeps(x, xs[1..], vs[1..], b);
      if a.Nest? { SameAtReflexive(x, a.outer); }
      if x !in xs {
        assert x != xs[0];
        SameAtTransitive(x, a, b, DeclareAll(b, xs[1..], vs[1..]));
      }
    }
  }

  /** The effect of a statement on the binding of a name it does not assign: at most a fresh
      declaration in the top scope. */
  lemma {:induction false} ExecKeeps(c: Cx, fuel: nat, s: Stmt, env: Env, w: World, x: Name)
    requires !Assigns(s, x)
    ensures var env1 := Exec(c, fuel, s, env, w).2;
            SameBelow(x, env, env1) && (x !in Declares(Walked, s) ==> SameAt(x, env, env1))
    decreases fuel
  {
    hide Eval, ExecAssign, ExecIn, ForEach, WhileLoop, ExecCatches, DoWhile, CForLoop, ExecDestructure;
    SameAtReflexive(x, env);
    if env.Nest? { SameAtReflexive(x, env.outer); }
    if fuel > 0 {
      match s
      case Assign(t, v) => AssignKeeps(c, fuel - 1, t, v, env, w, x);
      case IfStmt(t, bind, a, b) =>
        var (o, w1) := Eval(c, fuel - 1, t, env, w);
        InKeeps(c, fuel - 1, if bind.Some? && o.Ok? then map[bind.value := o.value] else map[], a, env, w1, x);
        if b.SomeBlock? { InKeeps(c, fuel - 1, map[], b.stmts, env, w1, x); }
      case For(n, val, iter, body) =>
        var (o, w1) := Eval(c, fuel - 1, iter, env, w);
        if o.Ok? && IterElements(o.value).Some? && (val.None? || o.value.MapV?) {
          ForEachKeeps(c, fuel - 1, n, val, IterElements(o.value).value, body, env, w1, x);
        }
      case Using(n, init, body) =>
        LoweredAssigns(n, init, body, x);
        ExecKeeps(c, fuel - 1, Lower(n, init, body), env, w, x);
      case While(t, body, postCond) =>
        if postCond { DoWhileKeeps(c, fuel - 1, t, body, env, w, x); }
        else { WhileKeeps(c, fuel - 1, t, body, env, w, x); }
      case CFor(start, test, step, body) => CForKeeps(c, fuel, s, env, w, x);
      case Block(ss) => InKeeps(c, fuel - 1, map[], ss, env, w, x);
      case Destructure(p, init, b) =>
        var (o, w1) := Eval(c, fuel - 1, init, env, w);
        if o.Ok? { DestructureKeeps(c, fuel - 1, p, o.value, b, env, w1, x); }
      case Try(body, catches, f) => TryKeeps(c, fuel, s, env, w, x);
      case _ =>
    }
  }

  lemma LoweredAssigns(n: Name, init: Expr, body: seq<Stmt>, x: Name)
    requires !BlockAssigns(body, x)
    ensures !Assigns(Lower(n, init, body), x)
  {
    assert !Assigns(CloseCall(n), x);
    assert !BlockAssigns([CloseCall(n)], x);
    assert !Assigns(Guarded(n, body), x);
    assert !Assigns(VarDecl(n, init), x);
  }

  lemma {:induction false} CForKeeps(c: Cx, fuel: nat, s: Stmt, env: Env, w: World, x: Name)
    requires s.CFor? && !Assigns(s, x) && fuel > 0
    ensures SameAt(x, env, Exec(c, fuel, s, env, w).2)
    decreases fuel, 0
  {
    hide Eval, ExecIn, ExecCatches, ForEach, WhileLoop, DoWhile, CForLoop, ExecAssign, ExecDestructure;
    SameAtReflexive(x, env);
    var env1, w1 := Push(env), w;
    if s.start.Some? {
      ExecKeeps(c, fuel - 1, s.start.value, Push(env), w, x);
      var r := Exec(c, fuel - 1, s.start.value, Push(env), w);
      env1, w1 := r.2, r.1;
    }
    CForLoopKeeps(c, fuel - 1, s.test, s.step, s.body, env1, w1, x);
    var env2 := CForLoop(c, fuel - 1, s.test, s.step, s.body, env1, w1).2;
    SameAtTransitive(x, env, env1.outer, env2.outer);
  }

  lemma {:induction false} TryKeeps(c: Cx, fuel: nat, s: Stmt, env: Env, w: World, x: Name)
    requires s.Try? && !Assigns(s, x) && fuel > 0
    ensures SameAt(x, env, Exec(c, fuel, s, env, w).2)
    decreases fuel, 0
  {
    hide Eval, ExecIn, ExecCatches, ForEach, WhileLoop, DoWhile, CForLoop, ExecAssign, ExecDestructure;
    InKeeps(c, fuel - 1, map[], s.body, env, w, x);
    var (o, w1, env1) := ExecIn(c, fuel - 1, map[], s.body, env, w);
    CatchesKeep(c, fuel - 1, s.catches, o, env1, w1, x);
    var (p, w2, env2) := ExecCatches(c, fuel - 1, s.catches, o, env1, w1);
    SameAtTransitive(x, env, env1, env2);
    if s.finallyBlock.SomeBlock? {
      InKeeps(c, fuel - 1, map[], s.finallyBlock.stmts, env2, w2, x);
      SameAtTransitive(x, env, env2, ExecIn(c, fuel - 1, map[], s.finallyBlock.stmts, env2, w2).2);
    }
  }

  lemma {:induction false} BlockKeeps(c: Cx, fuel: nat, ss: seq<Stmt>, env: Env, w: World, x: Name)
    requires !BlockAssigns(ss, x)
    ensures SameBelow(x, env, ExecBlock(c, fuel, ss, env, w).2)
    decreases fuel
  {
    hide Exec;
    if env.Nest? { SameAtReflexive(x, env.outer); }
    if fuel > 0 && ss != [] {
      ExecKeeps(c, fuel - 1, ss[0], env, w, x);
      var (o, w1, env1) := Exec(c, fuel - 1, ss[0], env, w);
      BlockKeeps(c, fuel - 1, ss[1..], env1, w1, x);
      if env.Nest? && o.Ok? {
        SameAtTransitive(x, env.outer, env1.outer, ExecBlock(c, fuel - 1, ss[1..], env1, w1).2.outer);
      }
    }
  }

  lemma {:induction false} InKeeps(c: Cx, fuel: nat, vars: Scope, ss: seq<Stmt>, env: Env, w: World, x: Name)
    requires !BlockAssigns(ss, x)
    ensures SameAt(x, env, ExecIn(c, fuel, vars, ss, env, w).2)
    decreases fuel
  {
    SameAtReflexive(x, env);
    if fuel > 0 { BlockKeeps(c, fuel - 1, ss, Nest(vars, env), w, x); }
  }

  lemma {:induction false} CatchesKeep(c: Cx, fuel: nat, cs: seq<Catch>, o: Out, env: Env, w: World, x: Name)
    requires forall d :: d in cs ==> !CatchAssigns(d, x)
    ensures SameAt(x, env, ExecCatches(c, fuel, cs, o, env, w).2)
    decreases fuel
  {
    SameAtReflexive(x, env);
    if fuel > 0 && o.Stop? && o.signal.ThrowSig? && cs != [] {
      assert !CatchAssigns(cs[0], x);
      InKeeps(c, fuel - 1, map[cs[0].name := o.signal.value], cs[0].body, env, w, x);
      CatchesKeep(c, fuel - 1, cs[1..], o, env, w, x);
    }
  }

  lemma {:induction false} ForEachKeeps(c: Cx, fuel: nat, n: Name, val: Option<Name>, items: seq<Value>,
                                        body: seq<Stmt>, env: Env, w: World, x: Name)
    requires !BlockAssigns(body, x)
    ensures SameAt(x, env, ForEach(c, fuel, n, val, items, body, env, w).2)
    decreases fuel
  {
    hide ExecIn;
    SameAtReflexive(x, env);
    if fuel > 0 && items != [] {
      InKeeps(c, fuel - 1, LoopScope(n, val, items[0]), body, env, w, x);
      var (o, w1, env1) := ExecIn(c, fuel - 1, LoopScope(n, val, items[0]), body, env, w);
      ForEachKeeps(c, fuel - 1, n, val, items[1..], body, env1, w1, x);
      SameAtTransitive(x, env, env1, ForEach(c, fuel - 1, n, val, items[1..], body, env1, w1).2);
    }
  }

  lemma {:induction false} WhileKeeps(c: Cx, fuel: nat, t: Expr, body: seq<Stmt>, env: Env, w: World, x: Name)
    requires !BlockAssigns(body, x)
    ensures SameAt(x, env, WhileLoop(c, fuel, t, body, env, w).2)
    decreases fuel
  {
    hide Eval, ExecIn;
    SameAtReflexive(x, env);
    if fuel > 0 {
      var (o, w1) := Eval(c, fuel - 1, t, env, w);
      InKeeps(c, fuel - 1, map[], body, env, w1, x);
      var (p, w2, env2) := ExecIn(c, fuel - 1, map[], body, env, w1);
      WhileKeeps(c, fuel - 1, t, body, env2, w2, x);
      SameAtTransitive(x, env, env2, WhileLoop(c, fuel - 1, t, body, env2, w2).2);
    }
  }

  lemma {:induction false} DoWhileKeeps(c: Cx, fuel: nat, t: Expr, body: seq<Stmt>, env: Env, w: World, x: Name)
    requires !BlockAssigns(body, x)
    ensures SameAt(x, env, DoWhile(c, fuel, t, body, env, w).2)
    decreases fuel
  {
    hide Eval, ExecIn;
    SameAtReflexive(x, env);
    if fuel > 0 {
      InKeeps(c, fuel - 1, map[], body, env, w, x);
      var (p, w1, env1) := ExecIn(c, fuel - 1, map[], body, env, w);
      var w2 := Eval(c, fuel - 1, t, env1, w1).1;
      DoWhileKeeps(c, fuel - 1, t, body, env1, w2, x);
      SameAtTransitive(x, env, env1, DoWhile(c, fuel - 1, t, body, env1, w2).2);
    }
  }

  lemma {:induction false} CForLoopKeeps(c: Cx, fuel: nat, test: Option<Expr>, step: Option<Stmt>, body: seq<Stmt>,
                                         env: Env, w: World, x: Name)
    requires !BlockAssigns(body, x) && !OptStmtAssigns(step, x)
    ensures SameBelow(x, env, CForLoop(c, fuel, test, step, body, env, w).2)
    decreases fuel
  {
    hide Eval, ExecIn, Exec;
    if env.Nest? { SameAtReflexive(x, env.outer); }
    if fuel > 0 {
      var w1 := if test.Some? then Eval(c, fuel - 1, test.value, env, w).1 else w;
      InKeeps(c, fuel - 1, map[], body, env, w1, x);
      var (p, w2, env2) := ExecIn(c, fuel - 1, map[], body, env, w1);
      if step.None? {
        CForLoopKeeps(c, fuel - 1, test, step, body, env2, w2, x);
        if env.Nest? {
          SameAtTransitive(x, env.outer, env2.outer, CForLoop(c, fuel - 1, test, step, body, env2, w2).2.outer);
        }
      } else {
        ExecKeeps(c, fuel - 1, step.value, env2, w2, x);
        var (q, w3, env3) := Exec(c, fuel - 1, step.value, env2, w2);
        CForLoopKeeps(c, fuel - 1, test, step, body, env3, w3, x);
        if env.Nest? {
          SameAtTransitive(x, env.outer, env2.outer, env3.outer);
          SameAtTransitive(x, env.outer, env3.outer, CForLoop(c, fuel - 1, test, step, body, env3, w3).2.outer);
        }
      }
    }
  }

  lemma {:induction false} AssignKeeps(c: Cx, fuel: nat, target: Expr, value: Expr, env: Env, w: World, x: Name)
    requires IndexRoot(target) != Some(x)
    ensures SameAt(x, env, ExecAssign(c, fuel, target, value, env, w).2)
  {
    hide EvalAll, Eval;
    SameAtReflexive(x, env);
    if fuel > 0 && target.Ident? {
      var o := Eval(c, fuel - 1, value, env, w).0;
      if o.Ok? { ReassignKeeps(x, target.name, o.value, env); }
    } else if fuel > 0 && target.Two? && target.two.Index? && IndexRoot(target).Some? {
      var root := IndexRoot(target).value;
      var os := EvalAll(c, fuel - 1, IndexPath(target) + [value], env, w).0;
      if os.Oks? && Lookup(env, root).Some? {
        var n := |os.values| - 1;
        var v := SetNested(Lookup(env, root).value, os.values[..n], os.values[n]);
        if v.Some? { ReassignKeeps(x, root, v.value, env); }
      }
    }
  }

  lemma {:induction false} DestructureKeeps(c: Cx, fuel: nat, p: DestructurePat, v: Value, b: OptBlock, env: Env,
                                            w: World, x: Name)
    requires !OptAssigns(b, x)
    ensures var env1 := ExecDestructure(c, fuel, p, v, b, env, w).2;
            SameBelow(x, env, env1) && (x !in p.Binders() ==> SameAt(x, env, env1))
    decreases fuel
  {
    hide ExecIn;
    SameAtReflexive(x, env);
    if env.Nest? { SameAtReflexive(x, env.outer); }
    if fuel > 0 {
      var vs := TargetValues(p, v, w);
      if vs.Some? { DeclareAllKeeps(x, p.Binders(), vs.value, env); }
      if b.SomeBlock? { InKeeps(c, fuel - 1, map[], b.stmts, env, w, x); }
    }
  }

  // ----- One guard -----

  /** The scope a guard's body runs in: the handle `v` under its name. */
  function Holding(env: Env, name: Name, v: Value): Env {
    Nest(map[name := v], env)
  }

  lemma {:induction false} BlockEndsInUnit(c: Cx, fuel: nat, ss: seq<Stmt>, env: Env, w: World)
    ensures ExecBlock(c, fuel, ss, env, w).0.Ok? ==> ExecBlock(c, fuel, ss, env, w).0.value == Unit
    decreases fuel
  {
    if fuel > 0 && ss != [] {
      var (o, w1, env1) := Exec(c, fuel - 1, ss[0], env, w);
      BlockEndsInUnit(c, fuel - 1, ss[1..], env1, w1);
    }
  }

  lemma Alone(c: Cx, fuel: nat, s: Stmt, env: Env, w: World)
    requires fuel >= 2
    ensures ExecBlock(c, fuel, [s], env, w)
         == var (o, w1, env1) := Exec(c, fuel - 1, s, env, w); (if o.Stop? then o else Ok(Unit), w1, env1)
  {
    assert [s][1..] == [];
    var (o, w1, env1) := Exec(c, fuel - 1, s, env, w);
    assert ExecBlock(c, fuel - 1, [], env1, w1) == (Ok(Unit), w1, env1);
  }

  lemma CloseCallRuns(c: Cx, fuel: nat, name: Name, v: Value, env: Env, w: World)
    requires fuel >= 6 && Lookup(env, name) == Some(v)
    ensures var (q, w1) := CallMethod(c, fuel - 5, v, CLOSE_METHOD, [], w);
            ExecIn(c, fuel, map[], [CloseCall(name)], env, w) == (if q.Stop? then q else Ok(Unit), w1, env)
  {
    var call := Call(One(Member(CLOSE_METHOD, false), Ident(name)), []);
    var inner := Push(env);
    assert Eval(c, fuel - 5, Ident(name), inner, w) == (Ok(v), w);
    assert EvalAll(c, fuel - 5, [], inner, w) == (Oks([]), w);
    assert EvalCall(c, fuel - 4, call.callee, [], inner, w) == CallMethod(c, fuel - 5, v, CLOSE_METHOD, [], w);
    var (q, w1) := CallMethod(c, fuel - 5, v, CLOSE_METHOD, [], w);
    assert Eval(c, fuel - 3, call, inner, w) == (q, w1);
    assert Exec(c, fuel - 2, CloseCall(name), inner, w) == (if q.Stop? then q else Ok(Unit), w1, inner);
    Alone(c, fuel - 1, CloseCall(name), inner, w);
  }

  lemma GuardedReleases(c: Cx, fuel: nat, name: Name, v: Value, body: seq<Stmt>, env: Env, w: World)
    requires fuel >= 7 && !BlockAssigns(body, name)
    ensures var (p, w1, env1) := ExecIn(c, fuel - 1, map[], body, Holding(env, name, v), w);
            var r := Exec(c, fuel, Guarded(name, body), Holding(env, name, v), w);
            if p == Stop(Timeout) then r == (p, w1, env1)
            else
              var (q, w2) := CallMethod(c, fuel - 6, v, CLOSE_METHOD, [], w1);
              r == (if q.Stop? then q else p, w2, env1)
  {
    var held := Holding(env, name, v);
    var (p, w1, env1) := ExecIn(c, fuel - 1, map[], body, held, w);
    InKeeps(c, fuel - 1, map[], body, held, w, name);
    assert ExecCatches(c, fuel - 1, [], p, env1, w1) == (p, w1, env1);
    CloseCallRuns(c, fuel - 1, name, v, env1, w1);
  }

  /** `using` acquires, runs its body, then releases: `close` is called once, on the acquired value, after
      the body and whatever its outcome, and the body's outcome stands unless `close` itself does not
      return. A failed initializer acquires nothing and releases nothing. */
  lemma UsingReleases(c: Cx, fuel: nat, name: Name, init: Expr, body: seq<Stmt>, env: Env, w: World)
    requires fuel >= 12 && !BlockAssigns(body, name)
    ensures var (o, w1) := Eval(c, fuel - 5, init, Push(env), w);
            var r := Exec(c, fuel, Using(name, init, body), env, w);
            if o.Stop? then r == (o, w1, env)
            else
              var (p, w2, env2) := ExecIn(c, fuel - 6, map[], body, Holding(env, name, o.value), w1);
              if p == Stop(Timeout) then r == (p, w2, Pop(env2))
              else
                var (q, w3) := CallMethod(c, fuel - 11, o.value, CLOSE_METHOD, [], w2);
                r == (if q.Stop? then q else p, w3, Pop(env2))
  {
    hide EvalAll, EvalStrict, EvalArms, EvalCall, RunFun, ExecCatches, ForEach, WhileLoop, DoWhile, CForLoop;
    hide ExecAssign, ExecDestructure;
    var (o, w1) := Eval(c, fuel - 5, init, Push(env), w);
    var decl, guarded := VarDecl(name, init), Guarded(name, body);
    assert [decl, guarded][1..] == [guarded];
    assert Exec(c, fuel, Using(name, init, body), env, w) == ExecIn(c, fuel - 2, map[], [decl, guarded], env, w);
    var d := Exec(c, fuel - 4, decl, Push(env), w);
    assert d == if o.Stop? then (o, w1, Push(env)) else (Ok(Unit), w1, Declare(Push(env), name, o.value));
    var r := ExecBlock(c, fuel - 3, [decl, guarded], Push(env), w);
    assert r == if d.0.Stop? then d else ExecBlock(c, fuel - 4, [guarded], d.2, d.1);
    if o.Ok? {
      var held := Holding(env, name, o.value);
      assert Declare(Push(env), name, o.value) == held;
      GuardedReleases(c, fuel - 5, name, o.value, body, env, w1);
      BlockEndsInUnit(c, fuel - 7, body, Nest(map[], held), w1);
      Alone(c, fuel - 4, guarded, held, w1);
    }
  }

  // ----- Nested guards -----

  datatype Guard = Guard(name: Name, init: Expr)

  function UsingNest(gs: seq<Guard>, body: seq<Stmt>): seq<Stmt> {
    if gs == [] then body else [Using(gs[0].name, gs[0].init, UsingNest(gs[1..], body))]
  }

  /** The acquired handles in order, with the outcome and world of the body, or of the initializer that
      did not return. */
  function Peak(c: Cx, fuel: nat, gs: seq<Guard>, body: seq<Stmt>, env: Env, w: World): (seq<Value>, Out, World)
    requires fuel >= 8 * |gs|
    decreases |gs|
  {
    if gs == [] then
      var (p, w1, _) := ExecIn(c, fuel, map[], body, env, w);
      ([], p, w1)
    else
      var (o, w1) := Eval(c, fuel - 7, gs[0].init, Push(Push(env)), w);
      if o.Stop? then ([], o, w1)
      else
        var (hs, p, w2) := Peak(c, fuel - 8, gs[1..], body, Holding(Push(env), gs[0].name, o.value), w1);
        ([o.value] + hs, p, w2)
  }

  /** Calls `close` on `hs`, last acquired first, from the outcome `p` that was about to leave the body. A
      `close` that does not return replaces the outcome so far, and the remaining ones are still called; only
      running out of fuel ends everything. */
  function Unwind(c: Cx, fuel: nat, hs: seq<Value>, p: Out, w: World): (Out, World)
    requires fuel >= 8 * |hs| + 8
    decreases |hs|
  {
    if hs == [] then (p, w)
    else
      var (q, w1) := Unwind(c, fuel - 8, hs[1..], p, w);
      if q == Stop(Timeout) then (q, w1)
      else
        var (o, w2) := CallMethod(c, fuel - 13, hs[0], CLOSE_METHOD, [], w1);
        (if o.Stop? then o else q, w2)
  }

  lemma {:induction false} NestAssigns(gs: seq<Guard>, body: seq<Stmt>, x: Name)
    requires !BlockAssigns(body, x)
    ensures !BlockAssigns(UsingNest(gs, body), x)
  {
    if gs != [] {
      NestAssigns(gs[1..], body, x);
      assert !Assigns(Using(gs[0].name, gs[0].init, UsingNest(gs[1..], body)), x);
    }
  }

  lemma {:induction false} PeakCount(c: Cx, fuel: nat, gs: seq<Guard>, body: seq<Stmt>, env: Env, w: World)
    requires fuel >= 8 * |gs|
    ensures |Peak(c, fuel, gs, body, env, w).0| <= |gs|
    decreases |gs|
  {
    if gs != [] {
      var (o, w1) := Eval(c, fuel - 7, gs[0].init, Push(Push(env)), w);
      if o.Ok? { PeakCount(c, fuel - 8, gs[1..], body, Holding(Push(env), gs[0].name, o.value), w1); }
    }
  }

  /** Any nesting, whatever its body and whatever its `close` methods do, releases exactly the handles it
      acquired, innermost first, after the body or the failed initializer. */
  lemma {:induction false} NestReleasesInnerFirst(c: Cx, fuel: nat, gs: seq<Guard>, body: seq<Stmt>, env: Env, w: World)
    requires fuel >= 8 * |gs| + 8
    requires forall g :: g in gs ==> !BlockAssigns(body, g.name)
    ensures var (hs, p, w1) := Peak(c, fuel, gs, body, env, w);
            var r := ExecIn(c, fuel, map[], UsingNest(gs, body), env, w);
            |hs| <= |gs| && (r.0, r.1) == Unwind(c, fuel, hs, p, w1)
    decreases |gs|
  {
    hide Eval, Exec, BlockAssigns, CallMethod;
    PeakCount(c, fuel, gs, body, env, w);
    if gs != [] {
      var g, inner := gs[0], UsingNest(gs[1..], body);
      NestAssigns(gs[1..], body, g.name);
      UsingReleases(c, fuel - 2, g.name, g.init, inner, Push(env), w);
      Alone(c, fuel - 1, Using(g.name, g.init, inner), Push(env), w);
      var (o, w1) := Eval(c, fuel - 7, g.init, Push(Push(env)), w);
      if o.Ok? {
        var held := Holding(Push(env), g.name, o.value);
        NestPeakStep(c, fuel, gs, body, env, w);
        NestReleasesInnerFirst(c, fuel - 8, gs[1..], body, held, w1);
        var hs := Peak(c, fuel - 8, gs[1..], body, held, w1).0;
        assert ([o.value] + hs)[1..] == hs;
        InEndsInUnit(c, fuel - 8, inner, held, w1);
      }
    }
  }

  lemma NestPeakStep(c: Cx, fuel: nat, gs: seq<Guard>, body: seq<Stmt>, env: Env, w: World)
    requires gs != [] && fuel >= 8 * |gs|
    ensures var (o, w1) := Eval(c, fuel - 7, gs[0].init, Push(Push(env)), w);
            o.Ok? ==>
              var (hs, p, w2) := Peak(c, fuel - 8, gs[1..], body, Holding(Push(env), gs[0].name, o.value), w1);
              Peak(c, fuel, gs, body, env, w) == ([o.value] + hs, p, w2)
  {
  }

  lemma InEndsInUnit(c: Cx, fuel: nat, ss: seq<Stmt>, env: Env, w: World)
    ensures ExecIn(c, fuel, map[], ss, env, w).0.Ok? ==> ExecIn(c, fuel, map[], ss, env, w).0.value == Unit
  {
    if fuel > 0 { BlockEndsInUnit(c, fuel - 1, ss, Nest(map[], env), w); }
  }

  // ----- What unwinding does -----

  /** The outcomes of the `close` calls, the first one called (on the last handle) last in the list, and the
      worlds they are called in. */
  ghost predicate CloseRun(c: Cx, fuel: nat, hs: seq<Value>, w: World, outs: seq<Out>, worlds: seq<World>)
    requires fuel >= 8 * |hs| + 8
  {
    && |outs| == |hs| && |worlds| == |hs| + 1 && worlds[|hs|] == w
    && forall i :: 0 <= i < |hs| ==> (outs[i], worlds[i]) == CallMethod(c, fuel - 8 * i - 13, hs[i], CLOSE_METHOD, [], worlds[i + 1])
  }

  /** The outcome that is left: that of the last `close` called which did not return, else the body's. */
  function Final(outs: seq<Out>, p: Out): Out {
    if outs == [] then p else if outs[0].Stop? then outs[0] else Final(outs[1..], p)
  }

  /** Every handle's `close` is called, in the world the inner ones left, whether or not those returned. */
  lemma {:induction false} UnwindClosesEach(c: Cx, fuel: nat, hs: seq<Value>, p: Out, w: World)
    returns (outs: seq<Out>, worlds: seq<World>)
    requires fuel >= 8 * |hs| + 8 && Unwind(c, fuel, hs, p, w).0 != Stop(Timeout)
    ensures CloseRun(c, fuel, hs, w, outs, worlds)
    ensures Unwind(c, fuel, hs, p, w) == (Final(outs, p), worlds[0])
    decreases |hs|
  {
    hide CallMethod;
    if hs == [] {
      outs, worlds := [], [w];
    } else {
      var (q, w1) := Unwind(c, fuel - 8, hs[1..], p, w);
      var rest, later := UnwindClosesEach(c, fuel - 8, hs[1..], p, w);
      var (o, w2) := CallMethod(c, fuel - 13, hs[0], CLOSE_METHOD, [], w1);
      outs, worlds := [o] + rest, [w2] + later;
      forall i | 0 <= i < |hs|
        ensures (outs[i], worlds[i]) == CallMethod(c, fuel - 8 * i - 13, hs[i], CLOSE_METHOD, [], worlds[i + 1])
      {
        if i > 0 {
          assert hs[1..][i - 1] == hs[i] && rest[i - 1] == outs[i] && later[i - 1] == worlds[i] && later[i] == worlds[i + 1];
        }
      }
      assert outs[1..] == rest;
    }
  }

  /** The calls that releasing `hs` leaves in the trace, in order. */
  function Closes(hs: seq<Value>): seq<Event>
    requires forall h :: h in hs ==> h.Ref?
  {
    if hs == [] then [] else Closes(hs[1..]) + [Invoked(hs[0].id, CLOSE_METHOD, [])]
  }

  /** Every `close` of the program returns and does nothing but be called. */
  ghost predicate QuietClose(prog: Program) {
    forall m :: m in prog.methods && m.1 == CLOSE_METHOD ==> prog.methods[m] == Fun([], [])
  }

  ghost predicate Closable(prog: Program, v: Value, w: World) {
    v.Ref? && v.id < |w.heap| && (w.heap[v.id].class_, CLOSE_METHOD) in prog.methods
  }

  lemma QuietCall(c: Cx, fuel: nat, v: Value, w: World)
    requires QuietClose(c.prog) && fuel >= 3 && Closable(c.prog, v, w)
    ensures CallMethod(c, fuel, v, CLOSE_METHOD, [], w)
         == (Ok(Unit), w.(trace := w.trace + [Invoked(v.id, CLOSE_METHOD, [])]))
  {
    var cls := w.heap[v.id].class_;
    var w1 := w.(trace := w.trace + [Invoked(v.id, CLOSE_METHOD, [])]);
    assert c.prog.methods[(cls, CLOSE_METHOD)] == Fun([], []);
    assert ExecBlock(c.(self := Some(v.id), cls := Some(cls)), fuel - 2, [], Root(map[]), w1).0 == Ok(Unit);
  }

  /** With such methods the outcome stands and the trace shows one `close` per handle, innermost first. */
  lemma {:induction false} QuietUnwind(c: Cx, fuel: nat, hs: seq<Value>, p: Out, w: World)
    requires QuietClose(c.prog) && fuel >= 8 * |hs| + 8 && p != Stop(Timeout)
    requires forall h :: h in hs ==> h.Ref?
    requires forall h :: h in hs ==> Closable(c.prog, h, w)
    ensures Unwind(c, fuel, hs, p, w) == (p, w.(trace := w.trace + Closes(hs)))
    decreases |hs|
  {
    hide QuietClose, CallMethod;
    if hs == [] {
      assert w.trace + Closes(hs) == w.trace;
    } else {
      QuietUnwind(c, fuel - 8, hs[1..], p, w);
      var w1 := w.(trace := w.trace + Closes(hs[1..]));
      assert Closable(c.prog, hs[0], w) && Closable(c.prog, hs[0], w1);
      QuietCall(c, fuel - 13, hs[0], w1);
      assert w1.trace + [Invoked(hs[0].id, CLOSE_METHOD, [])] == w.trace + Closes(hs);
    }
  }

  lemma QuietNestReleases(c: Cx, fuel: nat, gs: seq<Guard>, body: seq<Stmt>, env: Env, w: World)
    requires QuietClose(c.prog) && fuel >= 8 * |gs| + 8
    requires forall g :: g in gs ==> !BlockAssigns(body, g.name)
    requires var (hs, p, w1) := Peak(c, fuel, gs, body, env, w);
             p != Stop(Timeout) && forall h :: h in hs ==> h.Ref? && Closable(c.prog, h, w1)
    ensures var (hs, p, w1) := Peak(c, fuel, gs, body, env, w);
            var r := ExecIn(c, fuel, map[], UsingNest(gs, body), env, w);
            (r.0, r.1) == (p, w1.(trace := w1.trace + Closes(hs)))
  {
    hide QuietClose, Closable;
    var (hs, p, w1) := Peak(c, fuel, gs, body, env, w);
    NestReleasesInnerFirst(c, fuel, gs, body, env, w);
    QuietUnwind(c, fuel, hs, p, w1);
  }

  /** `new C()` evaluates to a fresh instance. */
  lemma NewInstance(c: Cx, fuel: nat, cls: Name, env: Env, w: World)
    requires fuel >= 4 && cls in c.prog.classes && c.prog.classes[cls] == []
    requires cls !in c.prog.funcs && cls !in c.prog.variants && cls !in FAULT_INTRINSICS
    ensures Eval(c, fuel, Call(Ident(cls), []), env, w) == (Ok(Ref(|w.heap|)), w.(heap := w.heap + [Obj(cls, map[])]))
  {
    assert EvalAll(c, fuel - 2, [], env, w) == (Oks([]), w);
    assert CallNamed(c, fuel - 2, cls, [], env, w) == Allocate(Obj(cls, map[]), w);
    assert EvalCall(c, fuel - 1, Ident(cls), [], env, w) == CallNamed(c, fuel - 2, cls, [], env, w);
  }

  /** `new C()` twice, nested, around an empty body. */
  lemma TwoHandlesPeak(c: Cx, cls: Name, env: Env)
    requires cls in c.prog.classes && c.prog.classes[cls] == []
    requires cls !in c.prog.funcs && cls !in c.prog.variants && cls !in FAULT_INTRINSICS
    ensures var make, one := Call(Ident(cls), []), Obj(cls, map[]);
            Peak(c, 24, [Guard("a", make), Guard("b", make)], [], env, World([], []))
            == ([Ref(0), Ref(1)], Ok(Unit), World([one, one], []))
  {
    hide Eval, EvalAll;
    var make, one, w := Call(Ident(cls), []), Obj(cls, map[]), World([], []);
    var a, b := Guard("a", make), Guard("b", make);
    var w1, w2 := World([one], []), World([one, one], []);
    NewInstance(c, 17, cls, Push(Push(env)), w);
    assert w.heap + [one] == w1.heap && w1.heap + [one] == w2.heap;
    var held := Holding(Push(env), "a", Ref(0));
    NewInstance(c, 9, cls, Push(Push(held)), w1);
    var held2 := Holding(Push(held), "b", Ref(1));
    assert ExecIn(c, 8, map[], [], held2, w2) == (Ok(Unit), w2, held2);
    assert [a, b][1..] == [b] && [b][1..] == [];
    NestPeakStep(c, 16, [b], [], held, w1);
    NestPeakStep(c, 24, [a, b], [], env, w);
    assert [Ref(1)] + [] == [Ref(1)] && [Ref(0)] + [Ref(1)] == [Ref(0), Ref(1)];
  }

  /** Two handles of a class with an empty `close`: the second acquired is the first released. */
  lemma TwoHandles(c: Cx, cls: Name, env: Env)
    requires c.prog.classes == map[cls := []] && c.prog.methods == map[(cls, CLOSE_METHOD) := Fun([], [])]
    requires cls !in c.prog.funcs && cls !in c.prog.variants && cls !in FAULT_INTRINSICS
    ensures var make := Call(Ident(cls), []);
            var r := ExecIn(c, 24, map[], UsingNest([Guard("a", make), Guard("b", make)], []), env, World([], []));
            r.0 == Ok(Unit) && r.1.trace == [Invoked(1, CLOSE_METHOD, []), Invoked(0, CLOSE_METHOD, [])]
  {
    hide Eval, EvalAll, Peak, ExecIn;
    var make := Call(Ident(cls), []);
    TwoHandlesPeak(c, cls, env);
    QuietNestReleases(c, 24, [Guard("a", make), Guard("b", make)], [], env, World([], []));
    assert Closes([Ref(0), Ref(1)]) == Closes([Ref(1)]) + [Invoked(0, CLOSE_METHOD, [])] by {
      assert [Ref(0), Ref(1)][1..] == [Ref(1)];
    }
    assert [Ref(1)][1..] == [] && Closes([Ref(1)]) == [Invoked(1, CLOSE_METHOD, [])];
  }
}
