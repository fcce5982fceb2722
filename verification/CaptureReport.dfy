/** When `free_vars` reports every name a lambda needs: the two forms whose scoping it does not follow, and
    exactly what each of them costs. */
module CaptureReport {
  import opened Ast
  import opened Walk
  import opened Interp
  import opened Capture

  // ----- The two forms, one at a time -----

  /** Of the names free in a loop body the report loses those the step declares and no other, so it is
      complete if and only if the body does not read such a name or another clause reports it. */
  lemma StepHidesItsNames(start: Option<Stmt>, test: Option<Expr>, step: Option<Stmt>, body: seq<Stmt>,
                          bound: set<Name>)
    ensures var inner := bound + DeclaresOpt(Walked, start);
            var clauses := FreeOptStmt(Walked, start, bound) + FreeOpt(Walked, test, inner) + FreeOptStmt(Walked, step, inner);
            var report := FreeStmt(Walked, CFor(start, test, step, body), bound);
            && report == clauses + (FreeBlock(Walked, body, inner) - DeclaresOpt(Walked, step))
            && (FreeBlock(Walked, body, inner) <= report
                <==> FreeBlock(Walked, body, inner) * DeclaresOpt(Walked, step) <= clauses)
  {
    PlainBlockMinus(Walked, body, bound + DeclaresOpt(Walked, start), DeclaresOpt(Walked, step));
  }

  /** A destructuring binds its names for what follows even where its `else` falls through: of the names free
      in the rest of the block the report loses those and no other, so it is complete if and only if the rest
      does not read them or the initializer or the `else` reports them. */
  lemma DestructureHidesItsNames(p: DestructurePat, init: Expr, b: OptBlock, rest: seq<Stmt>, bound: set<Name>)
    ensures var binders := Elements(p.Binders());
            var clauses := FreeExpr(Walked, init, bound) + FreeOptBlock(Walked, b, bound);
            var report := FreeBlock(Walked, [Destructure(p, init, b)] + rest, bound);
            && report == clauses + (FreeBlock(Walked, rest, bound) - binders)
            && (FreeBlock(Walked, rest, bound) <= report <==> FreeBlock(Walked, rest, bound) * binders <= clauses)
  {
    var ss := [Destructure(p, init, b)] + rest;
    assert ss[0] == Destructure(p, init, b) && ss[1..] == rest;
    PlainBlockMinus(Walked, rest, bound, Elements(p.Binders()));
  }

  // ----- Without them the report is what is needed -----

  /** A C-`for` whose step declares a name, or a destructuring whose `else` may fall through. */
  predicate Misscoped(rules: Rules, s: Stmt)
    decreases s
  {
    match s
    case IfStmt(_, _, a, b) => MisscopedBlock(rules, a) || MisscopedOpt(rules, b)
    case For(_, _, _, body) => MisscopedBlock(rules, body)
    case Using(_, _, body) => MisscopedBlock(rules, body)
    case While(_, body, _) => MisscopedBlock(rules, body)
    case CFor(start, _, step, body) =>
      || DeclaresOpt(Walked, step) != {} || MisscopedOptStmt(rules, start) || MisscopedOptStmt(rules, step)
      || MisscopedBlock(rules, body)
    case Block(ss) => MisscopedBlock(rules, ss)
    case Destructure(p, _, b) => ElseFalls(rules, p, b) || MisscopedOpt(rules, b)
    case Try(body, catches, f) =>
      || MisscopedBlock(rules, body) || (exists c :: c in catches && MisscopedCatch(rules, c)) || MisscopedOpt(rules, f)
    case _ => false
  }

  predicate MisscopedBlock(rules: Rules, ss: seq<Stmt>)
    decreases ss
  {
    exists s :: s in ss && Misscoped(rules, s)
  }

  predicate MisscopedOpt(rules: Rules, b: OptBlock)
    decreases b
  {
    b.SomeBlock? && MisscopedBlock(rules, b.stmts)
  }

  predicate MisscopedOptStmt(rules: Rules, s: Option<Stmt>)
    decreases s
  {
    s.Some? && Misscoped(rules, s.value)
  }

  predicate MisscopedCatch(rules: Rules, c: Catch)
    decreases c
  {
    MisscopedBlock(rules, c.body)
  }

  function MisscopedLambda(rules: Rules): Expr -> bool {
    (e: Expr) => e.Lambda? && e.body.BlockBody? && MisscopedBlock(rules, e.body.stmts)
  }

  lemma {:induction false} ExprReported(rules: Rules, e: Expr, b: set<Name>)
    requires rules.Running? && !AnyExpr(e, MisscopedLambda(rules))
    ensures FreeExpr(rules, e, b) == FreeExpr(Walked, e, b)
    decreases e
  {
    match e
    case Template(_, parts) => PartsReported(rules, parts, b);
    case Items(_, items) => AllReported(rules, items, b);
    case MapLit(pairs) => PairsReported(rules, pairs, b);
    case One(_, inner) => ExprReported(rules, inner, b);
    case Two(_, l, r) => ExprReported(rules, l, b); ExprReported(rules, r, b);
    case Call(callee, args) => ExprReported(rules, callee, b); AllReported(rules, args, b);
    case ParentCall(_, _, args) => AllReported(rules, args, b);
    case CloneWith(o, fields) => ExprReported(rules, o, b); FieldsReported(rules, fields, b);
    case Match(s, arms) => ExprReported(rules, s, b); ArmsReported(rules, arms, b);
    case If(c, t, f) => ExprReported(rules, c, b); ExprReported(rules, t, b); ExprReported(rules, f, b);
    case Lambda(ps, body) =>
      assert !MisscopedLambda(rules)(e);
      BodyReported(rules, body, b + Elements(ps));
    case _ =>
  }

  lemma {:induction false} AllReported(rules: Rules, es: seq<Expr>, b: set<Name>)
    requires rules.Running? && forall e :: e in es ==> !AnyExpr(e, MisscopedLambda(rules))
    ensures FreeAll(rules, es, b) == FreeAll(Walked, es, b)
    decreases es
  {
    if es != [] { ExprReported(rules, es[0], b); AllReported(rules, es[1..], b); }
  }

  lemma {:induction false} PartsReported(rules: Rules, ps: seq<Part>, b: set<Name>)
    requires rules.Running? && forall q :: q in ps ==> !AnyPart(q, MisscopedLambda(rules))
    ensures FreeParts(rules, ps, b) == FreeParts(Walked, ps, b)
    decreases ps
  {
    if ps != [] {
      assert ps[0] in ps;
      PartReported(rules, ps[0], b);
      PartsReported(rules, ps[1..], b);
    }
  }

  lemma {:induction false} PartReported(rules: Rules, q: Part, b: set<Name>)
    requires rules.Running? && !AnyPart(q, MisscopedLambda(rules))
    ensures FreePart(rules, q, b) == FreePart(Walked, q, b)
    decreases q
  {
    if q.Hole? { ExprReported(rules, q.hole, b); }
  }

  lemma {:induction false} PairsReported(rules: Rules, ps: seq<Pair>, b: set<Name>)
    requires rules.Running? && forall q :: q in ps ==> !AnyPair(q, MisscopedLambda(rules))
    ensures FreePairs(rules, ps, b) == FreePairs(Walked, ps, b)
    decreases ps
  {
    if ps != [] {
      assert ps[0] in ps;
      PairReported(rules, ps[0], b);
      PairsReported(rules, ps[1..], b);
    }
  }

  lemma {:induction false} PairReported(rules: Rules, q: Pair, b: set<Name>)
    requires rules.Running? && !AnyPair(q, MisscopedLambda(rules))
    ensures FreePair(rules, q, b) == FreePair(Walked, q, b)
    decreases q
  {
    ExprReported(rules, q.key, b);
    ExprReported(rules, q.value, b);
  }

  lemma {:induction false} FieldsReported(rules: Rules, fs: seq<Field>, b: set<Name>)
    requires rules.Running? && forall f :: f in fs ==> !AnyField(f, MisscopedLambda(rules))
    ensures FreeFields(rules, fs, b) == FreeFields(Walked, fs, b)
    decreases fs
  {
    if fs != [] {
      assert fs[0] in fs;
      ExprReported(rules, fs[0].value, b);
      FieldsReported(rules, fs[1..], b);
    }
  }

  lemma {:induction false} ArmsReported(rules: Rules, arms: seq<Arm>, b: set<Name>)
    requires rules.Running? && forall a :: a in arms ==> !AnyArm(a, MisscopedLambda(rules))
    ensures FreeArms(rules, arms, b) == FreeArms(Walked, arms, b)
    decreases arms
  {
    if arms != [] {
      assert arms[0] in arms;
      ArmReported(rules, arms[0], b);
      ArmsReported(rules, arms[1..], b);
    }
  }

  lemma {:induction false} ArmReported(rules: Rules, a: Arm, b: set<Name>)
    requires rules.Running? && !AnyArm(a, MisscopedLambda(rules))
    ensures FreeArm(rules, a, b) == FreeArm(Walked, a, b)
    decreases a
  {
    var inner := b + PatternBinders(a.pattern);
    OptReported(rules, a.guard, inner);
    ExprReported(rules, a.body, inner);
  }

  lemma {:induction false} OptReported(rules: Rules, e: Option<Expr>, b: set<Name>)
    requires rules.Running? && !AnyOpt(e, MisscopedLambda(rules))
    ensures FreeOpt(rules, e, b) == FreeOpt(Walked, e, b)
    decreases e
  {
    if e.Some? { ExprReported(rules, e.value, b); }
  }

  lemma {:induction false} BodyReported(rules: Rules, body: LambdaBody, b: set<Name>)
    requires rules.Running? && !AnyBody(body, MisscopedLambda(rules))
    requires body.BlockBody? ==> !MisscopedBlock(rules, body.stmts)
    ensures FreeBody(rules, body, b) == FreeBody(Walked, body, b)
    decreases body
  {
    match body
    case ExprBody(e) => ExprReported(rules, e, b);
    case BlockBody(ss) => BlockReported(rules, ss, b);
  }

  lemma {:induction false} BlockReported(rules: Rules, ss: seq<Stmt>, b: set<Name>)
    requires rules.Running? && !MisscopedBlock(rules, ss) && !AnyBlock(ss, MisscopedLambda(rules))
    ensures FreeBlock(rules, ss, b) == FreeBlock(Walked, ss, b)
    decreases ss
  {
    if ss != [] {
      assert ss[0] in ss && forall s :: s in ss[1..] ==> s in ss;
      StmtReported(rules, ss[0], b);
      BlockReported(rules, ss[1..], b + Declares(Walked, ss[0]));
    }
  }

  lemma {:induction false} OptBlockReported(rules: Rules, o: OptBlock, b: set<Name>)
    requires rules.Running? && !MisscopedOpt(rules, o) && !AnyOptBlock(o, MisscopedLambda(rules))
    ensures FreeOptBlock(rules, o, b) == FreeOptBlock(Walked, o, b)
    decreases o
  {
    if o.SomeBlock? { BlockReported(rules, o.stmts, b); }
  }

  lemma {:induction false} OptStmtReported(rules: Rules, s: Option<Stmt>, b: set<Name>)
    requires rules.Running? && !MisscopedOptStmt(rules, s) && !AnyOptStmt(s, MisscopedLambda(rules))
    ensures FreeOptStmt(rules, s, b) == FreeOptStmt(Walked, s, b) && DeclaresOpt(rules, s) == DeclaresOpt(Walked, s)
    decreases s
  {
    if s.Some? { StmtReported(rules, s.value, b); }
  }

  lemma {:induction false} CatchesReported(rules: Rules, cs: seq<Catch>, b: set<Name>)
    requires rules.Running? && forall c :: c in cs ==> !MisscopedCatch(rules, c) && !AnyCatch(c, MisscopedLambda(rules))
    ensures FreeCatches(rules, cs, b) == FreeCatches(Walked, cs, b)
    decreases cs
  {
    if cs != [] {
      assert cs[0] in cs;
      CatchReported(rules, cs[0], b + {cs[0].name});
      CatchesReported(rules, cs[1..], b);
    }
  }

  lemma {:induction false} CatchReported(rules: Rules, c: Catch, b: set<Name>)
    requires rules.Running? && !MisscopedCatch(rules, c) && !AnyCatch(c, MisscopedLambda(rules))
    ensures FreeBlock(rules, c.body, b) == FreeBlock(Walked, c.body, b)
    decreases c
  {
    BlockReported(rules, c.body, b);
  }

  lemma {:induction false} StmtReported(rules: Rules, s: Stmt, b: set<Name>)
    requires rules.Running? && !Misscoped(rules, s) && !AnyStmt(s, MisscopedLambda(rules))
    ensures FreeStmt(rules, s, b) == FreeStmt(Walked, s, b) && Declares(rules, s) == Declares(Walked, s)
    decreases s
  {
    hide FreeBlock, FreeExpr, AnyExpr, AnyBlock, MisscopedBlock;
    match s
    case VarDecl(_, init) => ExprReported(rules, init, b);
    case Assign(t, v) => ExprReported(rules, t, b); ExprReported(rules, v, b);
    case Return(e) => OptReported(rules, e, b);
    case IfStmt(c, bind, t, f) =>
      ExprReported(rules, c, b);
      BlockReported(rules, t, b + if bind.Some? then {bind.value} else {});
      OptBlockReported(rules, f, b);
    case For(n, _, iter, body) => ExprReported(rules, iter, b); BlockReported(rules, body, b + {n});
    case Using(n, init, body) => ExprReported(rules, init, b); BlockReported(rules, body, b + {n});
    case While(c, body, _) => ExprReported(rules, c, b); BlockReported(rules, body, b);
    case CFor(start, test, step, body) =>
      var inner := b + DeclaresOpt(Walked, start);
      OptStmtReported(rules, start, b);
      OptReported(rules, test, inner);
      OptStmtReported(rules, step, inner);
      assert inner + StepBinds(Walked, step) == inner && inner + StepBinds(rules, step) == inner;
      BlockReported(rules, body, inner);
    case Block(ss) => BlockReported(rules, ss, b);
    case ExprStmt(e) => ExprReported(rules, e, b);
    case Discard(e) => ExprReported(rules, e, b);
    case ThrowStmt(e) => ExprReported(rules, e, b);
    case Destructure(_, init, f) => ExprReported(rules, init, b); OptBlockReported(rules, f, b);
    case Try(body, catches, f) =>
      BlockReported(rules, body, b); CatchesReported(rules, catches, b); OptBlockReported(rules, f, b);
    case _ =>
  }

  /** A body free of both forms, nested lambdas included, has its needs reported exactly. */
  lemma NeedsAreReported(rules: Rules, params: seq<Name>, body: LambdaBody)
    requires rules.Running? && !AnyExpr(Lambda(params, body), MisscopedLambda(rules))
    ensures Needs(rules, params, body) == FreeVars(params, body)
  {
    assert !MisscopedLambda(rules)(Lambda(params, body));
    BodyReported(rules, body, Elements(params));
  }

  // ----- The receiver -----

  /** Without a receiver, no `parent` call and no `this` is ever evaluated to a value. */
  lemma ReadingReceiverFaults(c: Cx, fuel: nat, e: Expr, env: Env, w: World)
    requires c.self.None? && NeedsReceiver(e)
    ensures Eval(c, fuel, e, env, w).0.Stop?
  {
  }
}
