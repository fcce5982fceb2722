/** `free_vars` reports enough: the statements, and the inputs on which it does not. */
module CaptureTheorems {
  import opened Ast
  import opened Walk
  import opened LowerUsing
  import opened Interp
  import opened Capture
  import opened CaptureRelation
  import opened CaptureReport
  import opened CaptureSound
  import opened Totality
  import Subexprs

  /** Bindings whose closures all have fit bodies, so that they behave like themselves. */
  ghost predicate SoundScope(rules: Rules, s: Scope) { SameScope(rules, s, s) }

  /** A value without closures. */
  predicate Ground(v: Value)
    decreases v
  {
    match v
    case ListV(xs) => forall x :: x in xs ==> Ground(x)
    case MapV(_, vs) => forall x :: x in vs ==> Ground(x)
    case EnumV(_, _, p) => forall x :: x in p ==> Ground(x)
    case Closure(_, _, _, _) => false
    case _ => true
  }

  /** What a program can print or compare is not merely similar but equal. */
  lemma {:induction false} SameGround(rules: Rules, a: Value, b: Value)
    requires Same(rules, a, b) && Ground(a)
    ensures a == b
    decreases a
  {
    match a
    case ListV(xs) => SameGroundAll(rules, xs, b.items);
    case MapV(_, vs) => SameGroundAll(rules, vs, b.values);
    case EnumV(_, _, p) => SameGroundAll(rules, p, b.payload);
    case _ =>
  }

  lemma {:induction false} SameGroundAll(rules: Rules, xs: seq<Value>, ys: seq<Value>)
    requires SameAll(rules, xs, ys) && forall x :: x in xs ==> Ground(x)
    ensures xs == ys
    decreases xs
  {
    forall i | 0 <= i < |xs| ensures xs[i] == ys[i] { SameGround(rules, xs[i], ys[i]); }
  }

  /** A closure over any environment that agrees with `whole` on the reported names, in particular over
      `whole` restricted to them, behaves as the closure over `whole` does, on all arguments, whenever the
      report holds every name the body needs. */
  lemma ReportedNamesSuffice(rules: Rules, c: Cx, fuel: nat, ps: seq<Name>, body: LambdaBody, whole: Scope, part: Scope,
                             self: Option<nat>, vs: seq<Value>, w: World)
    requires RightAbout(rules, c.prog) && FitProgram(rules, c.prog)
    requires FitBody(rules, ps, body) && !AnyBody(body, Unfit(rules))
    requires SoundScope(rules, whole) && SameAll(rules, vs, vs) && SameWorld(rules, w, w)
    requires forall x :: x in FreeVars(ps, body) ==> (x in whole <==> x in part) && (x in whole ==> part[x] == whole[x])
    ensures InStep(rules, CallValue(c, fuel, Closure(ps, body, whole, self), vs, w),
                   CallValue(c, fuel, Closure(ps, body, part, self), vs, w))
  {
    hide Eval, RunFun, ExecBlock;
    forall x | x in FreeVars(ps, body) && x in whole ensures Same(rules, whole[x], part[x]) {
      assert SameIn(rules, whole, whole, x);
    }
    ValueInStep(rules, c, c, fuel, Closure(ps, body, whole, self), Closure(ps, body, part, self), vs, vs, w, w, true);
  }

  /** Nor does the receiver matter to a body in which `lambda_uses_this` finds no `this`. */
  lemma UnusedReceiverIgnored(rules: Rules, c: Cx, fuel: nat, ps: seq<Name>, body: LambdaBody, s: Scope,
                              a: Option<nat>, b: Option<nat>, vs: seq<Value>, w: World)
    requires RightAbout(rules, c.prog) && FitProgram(rules, c.prog)
    requires FitBody(rules, ps, body) && !AnyBody(body, Unfit(rules)) && !UsesThis(body)
    requires SoundScope(rules, s) && SameAll(rules, vs, vs) && SameWorld(rules, w, w)
    ensures InStep(rules, CallValue(c, fuel, Closure(ps, body, s, a), vs, w),
                   CallValue(c, fuel, Closure(ps, body, s, b), vs, w))
  {
    forall x | x in Needs(rules, ps, body) ensures SameIn(rules, s, s, x) { }
    ValueInStep(rules, c, c, fuel, Closure(ps, body, s, a), Closure(ps, body, s, b), vs, vs, w, w, true);
  }

  /** A whole program behaves alike whether its lambdas, nested ones included, capture only the reported
      names or everything in scope: same method calls in the same order, and the same outcome, equal when
      it holds no closure. */
  lemma CapturingModesAgree(rules: Rules, c: Cx, d: Cx, fuel: nat, main: Fun)
    requires c == d.(mode := c.mode) && RightAbout(rules, c.prog)
    requires FitProgram(rules, c.prog) && !AnyBlock(main.body, Unfit(rules))
    ensures var r := RunFun(c, fuel, main, None, None, [], World([], []));
            var s := RunFun(d, fuel, main, None, None, [], World([], []));
            InStep(rules, r, s) && (r.0.Ok? && Ground(r.0.value) ==> s.0 == r.0)
            && |r.1.trace| == |s.1.trace|
            && forall i :: 0 <= i < |r.1.trace| && (forall a :: a in r.1.trace[i].args ==> Ground(a))
                           ==> r.1.trace[i] == s.1.trace[i]
  {
    RunInStep(rules, c, d, fuel, main, None, None, [], [], World([], []), World([], []), true);
    var r := RunFun(c, fuel, main, None, None, [], World([], []));
    var s := RunFun(d, fuel, main, None, None, [], World([], []));
    if r.0.Ok? && Ground(r.0.value) { SameGround(rules, r.0.value, s.0.value); }
    forall i | 0 <= i < |r.1.trace| && (forall a :: a in r.1.trace[i].args ==> Ground(a))
      ensures r.1.trace[i] == s.1.trace[i]
    {
      assert SameEvent(rules, r.1.trace[i], s.1.trace[i]);
      SameGroundAll(rules, r.1.trace[i].args, s.1.trace[i].args);
    }
  }

  // ----- Programs that need no computation of what their lambdas need -----

  /** A lambda holding a declaring step or an `else` the rule does not accept, or a `parent` call and no `this`. */
  function Untidy(rules: Rules): Expr -> bool {
    (e: Expr) => e.Lambda? && (AnyExpr(e, MisscopedLambda(rules)) || (AnyBody(e.body, NeedsReceiver) && !UsesThis(e.body)))
  }

  lemma TidyIsFit(rules: Rules, ss: seq<Stmt>)
    requires rules.Running? && !AnyBlock(ss, Untidy(rules))
    ensures !AnyBlock(ss, Unfit(rules))
  {
    forall e: Expr | Unfit(rules)(e) ensures Untidy(rules)(e) {
      if !Untidy(rules)(e) { NeedsAreReported(rules, e.params, e.body); }
    }
    if AnyBlock(ss, Unfit(rules)) { AnyBlockMonotone(ss, Unfit(rules), Untidy(rules)); }
  }

  ghost predicate TidyProgram(rules: Rules, p: Program) {
    && (forall n :: n in p.funcs ==> !AnyBlock(p.funcs[n].body, Untidy(rules)))
    && (forall m :: m in p.methods ==> !AnyBlock(p.methods[m].body, Untidy(rules)))
    && (forall m :: m in p.parents ==> !AnyBlock(p.parents[m].1.body, Untidy(rules)))
  }

  /** In particular when each destructuring `else` in a lambda passes the checker's rule, without a `do` loop
      its body can leave: what the checker accepts is accepted here, endless loops and calls of type `never`
      included. */
  lemma CheckedModesAgree(never: set<Name>, c: Cx, d: Cx, fuel: nat, main: Fun)
    requires c == d.(mode := c.mode) && NeverReturn(c.prog, never)
    requires TidyProgram(Checked(Rule(never, true)), c.prog) && !AnyBlock(main.body, Untidy(Checked(Rule(never, true))))
    ensures var r := RunFun(c, fuel, main, None, None, [], World([], []));
            var s := RunFun(d, fuel, main, None, None, [], World([], []));
            (r.0.Ok? && Ground(r.0.value) ==> s.0 == r.0) && |r.1.trace| == |s.1.trace|
  {
    hide ExecBlock;
    var rules := Checked(Rule(never, true));
    CheckedIsRight(c.prog, Rule(never, true));
    forall n | n in c.prog.funcs ensures !AnyBlock(c.prog.funcs[n].body, Unfit(rules)) {
      TidyIsFit(rules, c.prog.funcs[n].body);
    }
    forall m | m in c.prog.methods ensures !AnyBlock(c.prog.methods[m].body, Unfit(rules)) {
      TidyIsFit(rules, c.prog.methods[m].body);
    }
    forall m | m in c.prog.parents ensures !AnyBlock(c.prog.parents[m].1.body, Unfit(rules)) {
      TidyIsFit(rules, c.prog.parents[m].1.body);
    }
    TidyIsFit(rules, main.body);
    CapturingModesAgree(rules, c, d, fuel, main);
  }

  // ----- Where the report falls short -----

  /** `for (;; var x = init) { return x; }` */
  function DeclaringStepLoop(x: Name, init: Expr): LambdaBody {
    BlockBody([CFor(None, None, Some(VarDecl(x, init)), [Return(Some(Ident(x)))])])
  }

  /** The step's name is bound for the body, yet the first iteration runs before the step: `x` is read from
      the environment and not reported, so a closure over the reported names alone faults. */
  lemma DeclaringStepUnderReports(c: Cx, fuel: nat, x: Name, init: Expr, v: Value, w: World)
    requires fuel >= 10 && x !in c.prog.funcs && x !in FreeExpr(Walked, init, {})
    ensures var body := DeclaringStepLoop(x, init);
            x !in FreeVars([], body)
            && CallValue(c, fuel, Closure([], body, map[x := v], None), [], w) == (Ok(v), w)
            && CallValue(c, fuel, Closure([], body, map[], None), [], w) == (Stop(Fault), w)
  {
    hide Eval, RunFun, ExecBlock;
    var body := DeclaringStepLoop(x, init);
    var loop := body.stmts[0];
    assert Elements([]) == {} && {} + {x} == {x};
    StepHidesItsNames(None, None, Some(VarDecl(x, init)), [Return(Some(Ident(x)))], {});
    assert FreeBlock(Walked, body.stmts, {}) == FreeStmt(Walked, loop, {}) + FreeBlock(Walked, [], {}) by { assert body.stmts[1..] == []; }
    LoopReads(c.(self := None), fuel - 1, x, init, map[x := v], w);
    LoopReads(c.(self := None), fuel - 1, x, init, map[], w);
  }

  lemma LoopReads(c: Cx, fuel: nat, x: Name, init: Expr, s: Scope, w: World)
    requires fuel >= 9 && x !in c.prog.funcs
    ensures var r := ExecBlock(c, fuel, DeclaringStepLoop(x, init).stmts, Root(s), w);
            r.0 == (if x in s then Stop(ReturnSig(s[x])) else Stop(Fault)) && r.1 == w
  {
    var body, step := [Return(Some(Ident(x)))], Some(VarDecl(x, init));
    var loop := CFor(None, None, step, body);
    var out := if x in s then Stop(ReturnSig(s[x])) else Stop(Fault);
    var inner := Push(Push(Root(s)));
    assert Lookup(Root(s), x) == if x in s then Some(s[x]) else None;
    assert Lookup(inner, x) == Lookup(Push(Root(s)), x) == Lookup(Root(s), x);
    assert Exec(c, fuel - 5, body[0], inner, w) == (out, w, inner);
    assert ExecBlock(c, fuel - 4, body, inner, w) == (out, w, inner);
    assert ExecIn(c, fuel - 3, map[], body, Push(Root(s)), w) == (out, w, Push(Root(s)));
    assert CForLoop(c, fuel - 2, None, step, body, Push(Root(s)), w) == (out, w, Push(Root(s)));
    assert Exec(c, fuel - 1, loop, Root(s), w) == (out, w, Root(s));
  }

  /** `var [x] = new List() else { do { break; return; } while (false); } return x;`, which the checker accepts. */
  function FallingElse(x: Name): LambdaBody {
    BlockBody([Destructure(ListTarget([x]), Mark(NewList), SomeBlock(LeavingLoop(Lit(BoolLit(false)), [Return(None)]))),
               Return(Some(Ident(x)))])
  }

  /** An `else` that falls through leaves the outer `x` to be read, and the walk has already bound it. */
  lemma FallingElseUnderReports(c: Cx, fuel: nat, x: Name, v: Value, w: World, never: set<Name>)
    requires fuel >= 20 && x !in c.prog.funcs
    ensures var body := FallingElse(x);
            && BlockTerminates(Rule(never, false), body.stmts[0].elseBlock.stmts)
            && x !in FreeVars([], body)
            && CallValue(c, fuel, Closure([], body, map[x := v], None), [], w) == (Ok(v), w)
            && CallValue(c, fuel, Closure([], body, map[], None), [], w) == (Stop(Fault), w)
  {
    hide Terminates, Exec, FreeExpr;
    var body := FallingElse(x);
    RuleAccepts(never);
    RuleAcceptsLeavingLoop(Rule(never, false), Lit(BoolLit(false)), [Return(None)], c, fuel, Root(map[]), w);
    ElseHides(x);
    ElseFalls(c.(self := None), fuel - 1, x, map[x := v], w);
    ElseFalls(c.(self := None), fuel - 1, x, map[], w);
  }

  lemma RuleAccepts(never: set<Name>)
    ensures BlockTerminates(Rule(never, false), [Return(None)])
  {
    assert Terminates(Rule(never, false), Return(None));
  }

  lemma LoopReadsNothing()
    ensures FreeBlock(Walked, LeavingLoop(Lit(BoolLit(false)), [Return(None)]), {}) == {}
  {
    var loop := LeavingLoop(Lit(BoolLit(false)), [Return(None)]);
    var inner := loop[0].body;
    assert inner == [Break, Return(None)] && inner[1..] == [Return(None)] && inner[1..][1..] == [];
    assert FreeBlock(Walked, inner[1..], {}) == {} && {} + Declares(Walked, Break) == {};
    assert loop[1..] == [];
    assert FreeStmt(Walked, loop[0], {})
        == FreeExpr(Walked, Lit(BoolLit(false)), {}) + FreeBlock(Walked, inner, {}) == {};
  }

  lemma ElseHides(x: Name)
    ensures x !in FreeVars([], FallingElse(x))
  {
    hide LeavingLoop;
    var body := FallingElse(x);
    var d, rest := body.stmts[0], [body.stmts[1]];
    assert body.stmts == [d] + rest && Elements([]) == {};
    DestructureHidesItsNames(d.pat, d.init, d.elseBlock, rest, {});
    assert x in Elements(d.pat.Binders()) by { assert [x][0] == x; }
    LoopReadsNothing();
  }

  /** The destructuring finds no element, its `else` falls through, and nothing is declared. */
  lemma EmptyElseFalls(c: Cx, fuel: nat, x: Name, s: Scope, w: World)
    requires fuel >= 14
    ensures Exec(c, fuel, FallingElse(x).stmts[0], Root(s), w) == (Ok(Unit), w, Root(s))
  {
    var d := FallingElse(x).stmts[0];
    var els := d.elseBlock.stmts;
    assert EvalAll(c, fuel - 3, [], Root(s), w) == (Oks([]), w);
    assert Eval(c, fuel - 1, d.init, Root(s), w) == (Ok(ListV([])), w);
    RuleAccepts({});
    RuleAcceptsLeavingLoop(Rule({}, false), Lit(BoolLit(false)), [Return(None)], c, fuel - 3, Push(Root(s)), w);
    assert ExecIn(c, fuel - 2, map[], els, Root(s), w) == (Ok(Unit), w, Root(s));
    assert ExecDestructure(c, fuel - 1, d.pat, ListV([]), SomeBlock(els), Root(s), w) == (Ok(Unit), w, Root(s));
  }

  lemma ReturnsVariable(c: Cx, fuel: nat, x: Name, s: Scope, w: World)
    requires fuel >= 6 && x !in c.prog.funcs
    ensures var r := Exec(c, fuel, Return(Some(Ident(x))), Root(s), w);
            r.0 == (if x in s then Stop(ReturnSig(s[x])) else Stop(Fault)) && r.1 == w
  {
    assert Eval(c, fuel - 1, Ident(x), Root(s), w) == (if x in s then Ok(s[x]) else Stop(Fault), w);
  }

  lemma ElseFalls(c: Cx, fuel: nat, x: Name, s: Scope, w: World)
    requires fuel >= 19 && x !in c.prog.funcs
    ensures var r := ExecBlock(c, fuel, FallingElse(x).stmts, Root(s), w);
            r.0 == (if x in s then Stop(ReturnSig(s[x])) else Stop(Fault)) && r.1 == w
  {
    hide Exec;
    var ss := FallingElse(x).stmts;
    EmptyElseFalls(c, fuel - 1, x, s, w);
    ReturnsVariable(c, fuel - 2, x, s, w);
    assert ss[1..] == [ss[1]] && ss[1] == Return(Some(Ident(x)));
    assert ExecBlock(c, fuel - 1, ss[1..], Root(s), w).0 == Exec(c, fuel - 2, ss[1], Root(s), w).0;
    assert ExecBlock(c, fuel - 1, ss[1..], Root(s), w).1 == Exec(c, fuel - 2, ss[1], Root(s), w).1;
  }

  // ----- The receiver -----

  predicate IsParentCall(e: Expr) { e.ParentCall? }

  /** The closure `lambda_uses_this` leads to lacks a receiver its body can read exactly when the body calls
      `parent` and nowhere mentions `this`. */
  lemma ReceiverLostIff(body: LambdaBody, id: nat)
    ensures AnyBody(body, NeedsReceiver) && CapturedSelf(FreeNames, body, Some(id)) != Some(id)
            <==> AnyBody(body, IsParentCall) && !UsesThis(body)
  {
    var e := Lambda([], body);
    var both := Subexprs.Or(IsThis, IsParentCall);
    Subexprs.AnyOr(e, IsThis, IsParentCall);
    assert forall p: Expr -> bool :: !p(e) ==> (AnyExpr(e, p) <==> AnyBody(body, p));
    forall x: Expr ensures both(x) <==> NeedsReceiver(x) {
      assert both(x) <==> IsThis(x) || IsParentCall(x);
    }
    if AnyBody(body, NeedsReceiver) { AnyBodyMonotone(body, NeedsReceiver, both); }
    if AnyBody(body, both) { AnyBodyMonotone(body, both, NeedsReceiver); }
  }

  /** Calling a parameterless expression lambda evaluates its body in the captured scope. */
  lemma CallsBody(c: Cx, fuel: nat, e: Expr, scope: Scope, self: Option<nat>, w: World)
    requires fuel > 0
    ensures CallValue(c, fuel, Closure([], ExprBody(e), scope, self), [], w)
         == Eval(c.(self := self), fuel - 1, e, Root(scope), w)
  {
    hide Eval, ExecBlock;
    assert DeclareAll(Root(scope), [], []) == Root(scope);
  }

  lemma ParentCallHasNoThis(m: Name)
    ensures !UsesThis(ExprBody(ParentCall(None, m, [])))
  {
    assert !AnyExpr(ParentCall(None, m, []), IsThis);
  }

  /** A call of an empty inherited method, with and without a receiver. */
  lemma ParentCallEvaluates(c: Cx, fuel: nat, m: Name, owner: Name, frame: Env, w: World)
    requires fuel >= 9 && c.cls.Some? && (c.cls.value, None, m) in c.prog.parents
    requires c.prog.parents[(c.cls.value, None, m)] == (owner, Fun([], []))
    requires frame == Root(map[])
    ensures Eval(c, fuel, ParentCall(None, m, []), frame, w)
         == if c.self.Some? then (Ok(Unit), w) else (Stop(Fault), w)
  {
    assert EvalAll(c, fuel - 1, [], frame, w) == (Oks([]), w);
    assert ExecBlock(c.(cls := Some(owner)), fuel - 2, [], frame, w) == (Ok(Unit), w, frame);
    if c.self.Some? {
      assert RunFun(c, fuel - 1, Fun([], []), c.self, Some(owner), [], w) == (Ok(Unit), w);
    }
  }

  /** `parent.m()` reads the receiver, but `lambda_uses_this` looks only for `this`: a lambda that does
      nothing else with its receiver is built without one and faults. */
  lemma ParentCallLosesReceiver(c: Cx, fuel: nat, m: Name, id: nat, owner: Name, w: World)
    requires fuel >= 10 && c.cls.Some? && (c.cls.value, None, m) in c.prog.parents
    requires c.prog.parents[(c.cls.value, None, m)] == (owner, Fun([], []))
    ensures var body := ExprBody(ParentCall(None, m, []));
            CapturedSelf(FreeNames, body, Some(id)) == None
            && CallValue(c, fuel, Closure([], body, map[], Some(id)), [], w) == (Ok(Unit), w)
            && CallValue(c, fuel, Closure([], body, map[], None), [], w) == (Stop(Fault), w)
  {
    hide CallValue, Eval, AnyBody, UsesThis;
    ParentCallHasNoThis(m);
    ReceiverLostIff(ExprBody(ParentCall(None, m, [])), id);
    CallsBody(c, fuel, ParentCall(None, m, []), map[], Some(id), w);
    CallsBody(c, fuel, ParentCall(None, m, []), map[], None, w);
    ParentCallEvaluates(c.(self := Some(id)), fuel - 1, m, owner, Root(map[]), w);
    ParentCallEvaluates(c.(self := None), fuel - 1, m, owner, Root(map[]), w);
  }
}
