/** Capturing only the names `free_vars` reports is enough (src/ast/walk.rs, `free_vars`). */
module Capture {
  import opened Ast
  import opened Walk
  import opened Interp

  // ----- What the claim asks of the source text -----

  predicate Completes(c: Cx, fuel: nat, ss: seq<Stmt>, env: Env, w: World) {
    ExecBlock(c, fuel, ss, env, w).0.Ok?
  }

  /** In no run of the program does control reach the end of the block. */
  ghost predicate NeverCompletes(prog: Program, ss: seq<Stmt>) {
    forall c: Cx, fuel: nat, env: Env, w: World :: c.prog == prog ==> !Completes(c, fuel, ss, env, w)
  }

  /** The exact account of the blocks that fall through in some run of the program. */
  ghost function Actual(prog: Program): Rules {
    Running(ss => !NeverCompletes(prog, ss))
  }

  /** An account of the blocks that may fall through which, for this program, leaves none out. */
  ghost predicate RightAbout(rules: Rules, prog: Program) {
    rules.Running? && forall ss :: NeverCompletes(prog, ss) || rules.falls(ss)
  }

  lemma ActualIsRight(prog: Program)
    ensures RightAbout(Actual(prog), prog)
  {
  }

  /** The names a call of the lambda can read from its environment. */
  function Needs(rules: Rules, params: seq<Name>, body: LambdaBody): set<Name> {
    FreeBody(rules, body, Elements(params))
  }

  predicate NeedsReceiver(e: Expr) { e.This? || e.ParentCall? }

  /** `lambda_uses_this` finds a use of the receiver if there is any, and `free_vars` reports every name
      that is needed. */
  predicate FitBody(rules: Rules, params: seq<Name>, body: LambdaBody) {
    (AnyBody(body, NeedsReceiver) ==> UsesThis(body)) && Needs(rules, params, body) <= FreeVars(params, body)
  }

  function Unfit(rules: Rules): Expr -> bool {
    (e: Expr) => e.Lambda? && !FitBody(rules, e.params, e.body)
  }

  /** Every lambda of the program is fit. */
  ghost predicate FitProgram(rules: Rules, p: Program) {
    && (forall n :: n in p.funcs ==> !AnyBlock(p.funcs[n].body, Unfit(rules)))
    && (forall m :: m in p.methods ==> !AnyBlock(p.methods[m].body, Unfit(rules)))
    && (forall m :: m in p.parents ==> !AnyBlock(p.parents[m].1.body, Unfit(rules)))
  }

  // ----- Binding a name removes it from the report, and nothing else -----

  lemma {:induction false} ExprMinus(rules: Rules, e: Expr, a: set<Name>, b: set<Name>)
    ensures FreeExpr(rules, e, a + b) == FreeExpr(rules, e, a) - b
    decreases e
  {
    match e
    case Template(_, parts) => PartsMinus(rules, parts, a, b);
    case Items(_, items) => AllMinus(rules, items, a, b);
    case MapLit(pairs) => PairsMinus(rules, pairs, a, b);
    case One(_, inner) => ExprMinus(rules, inner, a, b);
    case Two(_, l, r) => ExprMinus(rules, l, a, b); ExprMinus(rules, r, a, b);
    case Call(callee, args) => ExprMinus(rules, callee, a, b); AllMinus(rules, args, a, b);
    case ParentCall(_, _, args) => AllMinus(rules, args, a, b);
    case CloneWith(o, fields) => ExprMinus(rules, o, a, b); FieldsMinus(rules, fields, a, b);
    case Match(s, arms) => ExprMinus(rules, s, a, b); ArmsMinus(rules, arms, a, b);
    case If(c, t, f) => ExprMinus(rules, c, a, b); ExprMinus(rules, t, a, b); ExprMinus(rules, f, a, b);
    case Lambda(ps, body) => BodyMinus(rules, body, a, Elements(ps), b);
    case _ =>
  }

  lemma {:induction false} AllMinus(rules: Rules, es: seq<Expr>, a: set<Name>, b: set<Name>)
    ensures FreeAll(rules, es, a + b) == FreeAll(rules, es, a) - b
    decreases es
  {
    if es != [] { ExprMinus(rules, es[0], a, b); AllMinus(rules, es[1..], a, b); }
  }

  lemma {:induction false} PartMinus(rules: Rules, p: Part, a: set<Name>, b: set<Name>)
    ensures FreePart(rules, p, a + b) == FreePart(rules, p, a) - b
    decreases p
  {
    if p.Hole? { ExprMinus(rules, p.hole, a, b); }
  }

  lemma {:induction false} PartsMinus(rules: Rules, ps: seq<Part>, a: set<Name>, b: set<Name>)
    ensures FreeParts(rules, ps, a + b) == FreeParts(rules, ps, a) - b
    decreases ps
  {
    if ps != [] { PartMinus(rules, ps[0], a, b); PartsMinus(rules, ps[1..], a, b); }
  }

  lemma {:induction false} PairMinus(rules: Rules, p: Pair, a: set<Name>, b: set<Name>)
    ensures FreePair(rules, p, a + b) == FreePair(rules, p, a) - b
    decreases p
  {
    ExprMinus(rules, p.key, a, b);
    ExprMinus(rules, p.value, a, b);
  }

  lemma {:induction false} PairsMinus(rules: Rules, ps: seq<Pair>, a: set<Name>, b: set<Name>)
    ensures FreePairs(rules, ps, a + b) == FreePairs(rules, ps, a) - b
    decreases ps
  {
    if ps != [] { PairMinus(rules, ps[0], a, b); PairsMinus(rules, ps[1..], a, b); }
  }

  lemma {:induction false} FieldsMinus(rules: Rules, fs: seq<Field>, a: set<Name>, b: set<Name>)
    ensures FreeFields(rules, fs, a + b) == FreeFields(rules, fs, a) - b
    decreases fs
  {
    if fs != [] { ExprMinus(rules, fs[0].value, a, b); FieldsMinus(rules, fs[1..], a, b); }
  }

  lemma {:induction false} ArmMinus(rules: Rules, m: Arm, a: set<Name>, b: set<Name>)
    ensures FreeArm(rules, m, a + b) == FreeArm(rules, m, a) - b
    decreases m
  {
    var p := PatternBinders(m.pattern);
    assert a + b + p == a + p + b;
    if m.guard.Some? { ExprMinus(rules, m.guard.value, a + p, b); }
    ExprMinus(rules, m.body, a + p, b);
  }

  lemma {:induction false} ArmsMinus(rules: Rules, ms: seq<Arm>, a: set<Name>, b: set<Name>)
    ensures FreeArms(rules, ms, a + b) == FreeArms(rules, ms, a) - b
    decreases ms
  {
    if ms != [] { ArmMinus(rules, ms[0], a, b); ArmsMinus(rules, ms[1..], a, b); }
  }

  lemma {:induction false} BodyMinus(rules: Rules, body: LambdaBody, a: set<Name>, ps: set<Name>, b: set<Name>)
    ensures FreeBody(rules, body, a + b + ps) == FreeBody(rules, body, a + ps) - b
    decreases body
  {
    match body
    case ExprBody(e) => assert a + b + ps == a + ps + b; ExprMinus(rules, e, a + ps, b);
    case BlockBody(ss) => BlockMinus(rules, ss, a, ps, b);
  }

  lemma {:induction false} BlockMinus(rules: Rules, ss: seq<Stmt>, a: set<Name>, d: set<Name>, b: set<Name>)
    ensures FreeBlock(rules, ss, a + b + d) == FreeBlock(rules, ss, a + d) - b
    decreases ss, 0
  {
    if ss != [] {
      var e := Declares(rules, ss[0]);
      assert a + b + d == a + d + b && a + b + d + e == (a + d) + b + e;
      StmtMinus(rules, ss[0], a + d, b);
      BlockMinus(rules, ss[1..], a + d, e, b);
    }
  }

  lemma {:induction false} OptMinus(rules: Rules, e: Option<Expr>, a: set<Name>, b: set<Name>)
    ensures FreeOpt(rules, e, a + b) == FreeOpt(rules, e, a) - b
    decreases e
  {
    if e.Some? { ExprMinus(rules, e.value, a, b); }
  }

  lemma {:induction false} OptBlockMinus(rules: Rules, o: OptBlock, a: set<Name>, b: set<Name>)
    ensures FreeOptBlock(rules, o, a + b) == FreeOptBlock(rules, o, a) - b
    decreases o
  {
    if o.SomeBlock? { PlainBlockMinus(rules, o.stmts, a, b); }
  }

  lemma {:induction false} PlainBlockMinus(rules: Rules, ss: seq<Stmt>, a: set<Name>, b: set<Name>)
    ensures FreeBlock(rules, ss, a + b) == FreeBlock(rules, ss, a) - b
    decreases ss
  {
    assert a + b + {} == a + b && a + {} == a;
    BlockMinus(rules, ss, a, {}, b);
  }

  lemma {:induction false} OptStmtMinus(rules: Rules, s: Option<Stmt>, a: set<Name>, b: set<Name>)
    ensures FreeOptStmt(rules, s, a + b) == FreeOptStmt(rules, s, a) - b
    decreases s
  {
    if s.Some? { StmtMinus(rules, s.value, a, b); }
  }

  lemma {:induction false} CatchesMinus(rules: Rules, cs: seq<Catch>, a: set<Name>, b: set<Name>)
    ensures FreeCatches(rules, cs, a + b) == FreeCatches(rules, cs, a) - b
    decreases cs
  {
    if cs != [] {
      CatchMinus(rules, cs[0], a, b);
      CatchesMinus(rules, cs[1..], a, b);
    }
  }

  lemma {:induction false} CatchMinus(rules: Rules, c: Catch, a: set<Name>, b: set<Name>)
    ensures FreeBlock(rules, c.body, a + b + {c.name}) == FreeBlock(rules, c.body, a + {c.name}) - b
    decreases c
  {
    BlockMinus(rules, c.body, a, {c.name}, b);
  }

  lemma {:induction false} StmtMinus(rules: Rules, s: Stmt, a: set<Name>, b: set<Name>)
    ensures FreeStmt(rules, s, a + b) == FreeStmt(rules, s, a) - b
    decreases s, 1
  {
    hide FreeExpr, FreeBlock;
    match s
    case VarDecl(_, init) => ExprMinus(rules, init, a, b);
    case Assign(t, v) => ExprMinus(rules, t, a, b); ExprMinus(rules, v, a, b);
    case Return(e) => OptMinus(rules, e, a, b);
    case For(n, _, iter, body) => ExprMinus(rules, iter, a, b); BlockMinus(rules, body, a, {n}, b);
    case Using(n, init, body) => ExprMinus(rules, init, a, b); BlockMinus(rules, body, a, {n}, b);
    case While(c, body, _) => ExprMinus(rules, c, a, b); PlainBlockMinus(rules, body, a, b);
    case Block(ss) => PlainBlockMinus(rules, ss, a, b);
    case ExprStmt(e) => ExprMinus(rules, e, a, b);
    case Discard(e) => ExprMinus(rules, e, a, b);
    case ThrowStmt(e) => ExprMinus(rules, e, a, b);
    case Destructure(_, init, f) => ExprMinus(rules, init, a, b); OptBlockMinus(rules, f, a, b);
    case IfStmt(_, _, _, _) => SplitMinus(rules, s, a, b);
    case CFor(_, _, _, _) => SplitMinus(rules, s, a, b);
    case Try(_, _, _) => SplitMinus(rules, s, a, b);
    case Break =>
    case Continue =>
  }

  lemma {:induction false} SplitMinus(rules: Rules, s: Stmt, a: set<Name>, b: set<Name>)
    requires s.IfStmt? || s.CFor? || s.Try?
    ensures FreeStmt(rules, s, a + b) == FreeStmt(rules, s, a) - b
    decreases s, 0
  {
    hide FreeExpr, FreeBlock, FreeOpt, FreeOptBlock, FreeOptStmt, FreeCatches;
    match s
    case IfStmt(c, bind, t, f) =>
      ExprMinus(rules, c, a, b);
      BlockMinus(rules, t, a, if bind.Some? then {bind.value} else {}, b);
      OptBlockMinus(rules, f, a, b);
    case CFor(start, test, step, body) =>
      var d := DeclaresOpt(rules, start);
      assert a + b + d == a + d + b;
      OptStmtMinus(rules, start, a, b);
      OptMinus(rules, test, a + d, b);
      OptStmtMinus(rules, step, a + d, b);
      BlockMinus(rules, body, a + d, StepBinds(rules, step), b);
    case Try(body, catches, f) =>
      PlainBlockMinus(rules, body, a, b); CatchesMinus(rules, catches, a, b); OptBlockMinus(rules, f, a, b);
  }

  // ----- The total walk is monotone in its predicate -----

  ghost predicate Implies(p: Expr -> bool, q: Expr -> bool) {
    forall e :: p(e) ==> q(e)
  }

  lemma {:induction false} AnyExprMonotone(e: Expr, p: Expr -> bool, q: Expr -> bool)
    requires Implies(p, q) && AnyExpr(e, p)
    ensures AnyExpr(e, q)
    decreases e
  {
    if !p(e) {
      match e
      case Template(_, parts) =>
        var x :| x in parts && AnyPart(x, p);
        AnyPartMonotone(x, p, q);
      case Items(_, items) =>
        var x :| x in items && AnyExpr(x, p);
        AnyExprMonotone(x, p, q);
      case MapLit(pairs) =>
        var x :| x in pairs && AnyPair(x, p);
        AnyPairMonotone(x, p, q);
      case One(_, inner) => AnyExprMonotone(inner, p, q);
      case Two(_, l, r) => AnyExprMonotone(if AnyExpr(l, p) then l else r, p, q);
      case Call(callee, args) =>
        if AnyExpr(callee, p) { AnyExprMonotone(callee, p, q); }
        else { var x :| x in args && AnyExpr(x, p); AnyExprMonotone(x, p, q); }
      case ParentCall(_, _, args) =>
        var x :| x in args && AnyExpr(x, p);
        AnyExprMonotone(x, p, q);
      case CloneWith(o, fields) =>
        if AnyExpr(o, p) { AnyExprMonotone(o, p, q); }
        else { var x :| x in fields && AnyField(x, p); AnyFieldMonotone(x, p, q); }
      case Match(s, arms) =>
        if AnyExpr(s, p) { AnyExprMonotone(s, p, q); }
        else { var x :| x in arms && AnyArm(x, p); AnyArmMonotone(x, p, q); }
      case If(c, t, f) => AnyExprMonotone(if AnyExpr(c, p) then c else if AnyExpr(t, p) then t else f, p, q);
      case Lambda(_, body) => AnyBodyMonotone(body, p, q);
    }
  }

  lemma {:induction false} AnyPartMonotone(x: Part, p: Expr -> bool, q: Expr -> bool)
    requires Implies(p, q) && AnyPart(x, p)
    ensures AnyPart(x, q)
    decreases x
  {
    AnyExprMonotone(x.hole, p, q);
  }

  lemma {:induction false} AnyPairMonotone(x: Pair, p: Expr -> bool, q: Expr -> bool)
    requires Implies(p, q) && AnyPair(x, p)
    ensures AnyPair(x, q)
    decreases x
  {
    AnyExprMonotone(if AnyExpr(x.key, p) then x.key else x.value, p, q);
  }

  lemma {:induction false} AnyFieldMonotone(x: Field, p: Expr -> bool, q: Expr -> bool)
    requires Implies(p, q) && AnyField(x, p)
    ensures AnyField(x, q)
    decreases x
  {
    AnyExprMonotone(x.value, p, q);
  }

  lemma {:induction false} AnyArmMonotone(x: Arm, p: Expr -> bool, q: Expr -> bool)
    requires Implies(p, q) && AnyArm(x, p)
    ensures AnyArm(x, q)
    decreases x
  {
    if AnyOpt(x.guard, p) { AnyOptMonotone(x.guard, p, q); } else { AnyExprMonotone(x.body, p, q); }
  }

  lemma {:induction false} AnyOptMonotone(x: Option<Expr>, p: Expr -> bool, q: Expr -> bool)
    requires Implies(p, q) && AnyOpt(x, p)
    ensures AnyOpt(x, q)
    decreases x
  {
    AnyExprMonotone(x.value, p, q);
  }

  lemma {:induction false} AnyBodyMonotone(b: LambdaBody, p: Expr -> bool, q: Expr -> bool)
    requires Implies(p, q) && AnyBody(b, p)
    ensures AnyBody(b, q)
    decreases b
  {
    match b
    case ExprBody(e) => AnyExprMonotone(e, p, q);
    case BlockBody(ss) => AnyBlockMonotone(ss, p, q);
  }

  lemma {:induction false} AnyBlockMonotone(ss: seq<Stmt>, p: Expr -> bool, q: Expr -> bool)
    requires Implies(p, q) && AnyBlock(ss, p)
    ensures AnyBlock(ss, q)
    decreases ss
  {
    var s :| s in ss && AnyStmt(s, p);
    AnyStmtMonotone(s, p, q);
  }

  lemma {:induction false} AnyOptBlockMonotone(b: OptBlock, p: Expr -> bool, q: Expr -> bool)
    requires Implies(p, q) && AnyOptBlock(b, p)
    ensures AnyOptBlock(b, q)
    decreases b
  {
    AnyBlockMonotone(b.stmts, p, q);
  }

  lemma {:induction false} AnyOptStmtMonotone(s: Option<Stmt>, p: Expr -> bool, q: Expr -> bool)
    requires Implies(p, q) && AnyOptStmt(s, p)
    ensures AnyOptStmt(s, q)
    decreases s
  {
    AnyStmtMonotone(s.value, p, q);
  }

  lemma {:induction false} AnyCatchMonotone(c: Catch, p: Expr -> bool, q: Expr -> bool)
    requires Implies(p, q) && AnyCatch(c, p)
    ensures AnyCatch(c, q)
    decreases c
  {
    AnyBlockMonotone(c.body, p, q);
  }

  lemma {:induction false} AnyStmtMonotone(s: Stmt, p: Expr -> bool, q: Expr -> bool)
    requires Implies(p, q) && AnyStmt(s, p)
    ensures AnyStmt(s, q)
    decreases s
  {
    match s
    case VarDecl(_, init) => AnyExprMonotone(init, p, q);
    case Return(e) => AnyOptMonotone(e, p, q);
    case IfStmt(c, _, t, f) =>
      if AnyExpr(c, p) { AnyExprMonotone(c, p, q); }
      else if AnyBlock(t, p) { AnyBlockMonotone(t, p, q); }
      else { AnyOptBlockMonotone(f, p, q); }
    case For(_, _, iter, body) =>
      if AnyExpr(iter, p) { AnyExprMonotone(iter, p, q); } else { AnyBlockMonotone(body, p, q); }
    case Using(_, init, body) =>
      if AnyExpr(init, p) { AnyExprMonotone(init, p, q); } else { AnyBlockMonotone(body, p, q); }
    case While(c, body, _) =>
      if AnyExpr(c, p) { AnyExprMonotone(c, p, q); } else { AnyBlockMonotone(body, p, q); }
    case CFor(start, test, step, body) =>
      if AnyOptStmt(start, p) { AnyOptStmtMonotone(start, p, q); }
      else if AnyOpt(test, p) { AnyOptMonotone(test, p, q); }
      else if AnyOptStmt(step, p) { AnyOptStmtMonotone(step, p, q); }
      else { AnyBlockMonotone(body, p, q); }
    case Assign(t, v) => AnyExprMonotone(if AnyExpr(t, p) then t else v, p, q);
    case Destructure(_, init, f) =>
      if AnyExpr(init, p) { AnyExprMonotone(init, p, q); } else { AnyOptBlockMonotone(f, p, q); }
    case Block(ss) => AnyBlockMonotone(ss, p, q);
    case ExprStmt(e) => AnyExprMonotone(e, p, q);
    case Discard(e) => AnyExprMonotone(e, p, q);
    case ThrowStmt(e) => AnyExprMonotone(e, p, q);
    case Try(body, catches, f) =>
      if AnyBlock(body, p) { AnyBlockMonotone(body, p, q); }
      else if exists c :: c in catches && AnyCatch(c, p) {
        var c :| c in catches && AnyCatch(c, p);
        AnyCatchMonotone(c, p, q);
      } else { AnyOptBlockMonotone(f, p, q); }
  }
}
