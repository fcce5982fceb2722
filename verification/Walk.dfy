/** `free_vars`, `lambda_uses_this` and the recursive walk of `any_expr` (src/ast/walk.rs). */
module Walk {
  import opened Ast
  import Order

  // ----- Free variables -----

  function PatternBinders(p: Pattern): set<Name>
    decreases p
  {
    match p
    case Binding(n) => {n}
    case Variant(_, subs) => SubBinders(subs)
    case TypePattern(_, b) => if b.Some? then {b.value} else {}
    case Struct(_, fs) => FieldBinders(fs)
    case _ => {}
  }

  function SubBinders(ps: seq<Pattern>): set<Name>
    decreases ps
  {
    if ps == [] then {} else PatternBinders(ps[0]) + SubBinders(ps[1..])
  }

  function FieldBinders(fs: seq<FieldPat>): set<Name>
    decreases fs
  {
    if fs == [] then {} else PatternBinders(fs[0].pat) + FieldBinders(fs[1..])
  }

  /** Where declarations reach. `Walked` is what `free_vars` goes by: the step of a C-`for` binds its name
      for the body, and a destructuring binds its names for what follows. `Running` is what the evaluator
      does: a step runs after the body, and an `else` that `falls` through leaves nothing bound. */
  datatype Rules = Walked | Running(falls: seq<Stmt> -> bool)

  function FreeAll(rules: Rules, xs: seq<Expr>, bound: set<Name>): set<Name>
    decreases xs
  {
    if xs == [] then {} else FreeExpr(rules, xs[0], bound) + FreeAll(rules, xs[1..], bound)
  }

  /** The names `e` contributes to the capture list when the names in `bound` are not captured. */
  function FreeExpr(rules: Rules, e: Expr, bound: set<Name>): set<Name>
    decreases e
  {
    match e
    case Ident(n) => if n in bound then {} else {n}
    case This => {}
    case Lit(_) => {}
    case Mark(_) => {}
    case Template(_, parts) => FreeParts(rules, parts, bound)
    case Items(_, items) => FreeAll(rules, items, bound)
    case MapLit(pairs) => FreePairs(rules, pairs, bound)
    case One(_, inner) => FreeExpr(rules, inner, bound)
    case Two(_, l, r) => FreeExpr(rules, l, bound) + FreeExpr(rules, r, bound)
    case Call(callee, args) => FreeExpr(rules, callee, bound) + FreeAll(rules, args, bound)
    case ParentCall(_, _, args) => FreeAll(rules, args, bound)
    case CloneWith(o, fields) => FreeExpr(rules, o, bound) + FreeFields(rules, fields, bound)
    case Match(s, arms) => FreeExpr(rules, s, bound) + FreeArms(rules, arms, bound)
    case If(c, t, f) => FreeExpr(rules, c, bound) + FreeExpr(rules, t, bound) + FreeExpr(rules, f, bound)
    case Lambda(ps, body) => FreeBody(rules, body, bound + Elements(ps))
  }

  function FreePart(rules: Rules, p: Part, bound: set<Name>): set<Name>
    decreases p
  {
    if p.Hole? then FreeExpr(rules, p.hole, bound) else {}
  }

  function FreeParts(rules: Rules, xs: seq<Part>, bound: set<Name>): set<Name>
    decreases xs
  {
    if xs == [] then {} else FreePart(rules, xs[0], bound) + FreeParts(rules, xs[1..], bound)
  }

  function FreePair(rules: Rules, p: Pair, bound: set<Name>): set<Name>
    decreases p
  {
    FreeExpr(rules, p.key, bound) + FreeExpr(rules, p.value, bound)
  }

  function FreePairs(rules: Rules, xs: seq<Pair>, bound: set<Name>): set<Name>
    decreases xs
  {
    if xs == [] then {} else FreePair(rules, xs[0], bound) + FreePairs(rules, xs[1..], bound)
  }

  function FreeFields(rules: Rules, xs: seq<Field>, bound: set<Name>): set<Name>
    decreases xs
  {
    if xs == [] then {} else FreeExpr(rules, xs[0].value, bound) + FreeFields(rules, xs[1..], bound)
  }

  function FreeArms(rules: Rules, xs: seq<Arm>, bound: set<Name>): set<Name>
    decreases xs
  {
    if xs == [] then {} else FreeArm(rules, xs[0], bound) + FreeArms(rules, xs[1..], bound)
  }

  function FreeCatches(rules: Rules, xs: seq<Catch>, bound: set<Name>): set<Name>
    decreases xs
  {
    if xs == [] then {} else FreeBlock(rules, xs[0].body, bound + {xs[0].name}) + FreeCatches(rules, xs[1..], bound)
  }

  /** An arm's bindings are in scope for its guard and body only. */
  function FreeArm(rules: Rules, a: Arm, bound: set<Name>): set<Name>
    decreases a
  {
    var inner := bound + PatternBinders(a.pattern);
    (if a.guard.Some? then FreeExpr(rules, a.guard.value, inner) else {}) + FreeExpr(rules, a.body, inner)
  }

  function FreeBody(rules: Rules, b: LambdaBody, bound: set<Name>): set<Name>
    decreases b
  {
    match b
    case ExprBody(e) => FreeExpr(rules, e, bound)
    case BlockBody(ss) => FreeBlock(rules, ss, bound)
  }

  function FreeBlock(rules: Rules, ss: seq<Stmt>, bound: set<Name>): set<Name>
    decreases ss
  {
    if ss == [] then {} else FreeStmt(rules, ss[0], bound) + FreeBlock(rules, ss[1..], bound + Declares(rules, ss[0]))
  }

  /** Whether control can pass a destructuring without binding its names. Only a list can have the wrong
      length, so no other target runs its `else`. */
  predicate ElseFalls(rules: Rules, p: DestructurePat, b: OptBlock) {
    rules.Running? && p.ListTarget? && b.SomeBlock? && rules.falls(b.stmts)
  }

  /** The names a statement is sure to add to the scope it stands in. */
  function Declares(rules: Rules, s: Stmt): set<Name> {
    match s
    case VarDecl(n, _) => {n}
    case Destructure(p, _, b) => if ElseFalls(rules, p, b) then {} else Elements(p.Binders())
    case _ => {}
  }

  function FreeOpt(rules: Rules, e: Option<Expr>, bound: set<Name>): set<Name>
    decreases e
  {
    if e.Some? then FreeExpr(rules, e.value, bound) else {}
  }

  function FreeOptBlock(rules: Rules, b: OptBlock, bound: set<Name>): set<Name>
    decreases b
  {
    if b.SomeBlock? then FreeBlock(rules, b.stmts, bound) else {}
  }

  function FreeOptStmt(rules: Rules, s: Option<Stmt>, bound: set<Name>): set<Name>
    decreases s
  {
    if s.Some? then FreeStmt(rules, s.value, bound) else {}
  }

  function DeclaresOpt(rules: Rules, s: Option<Stmt>): set<Name> {
    if s.Some? then Declares(rules, s.value) else {}
  }

  /** The names a loop's step binds for the loop's body. */
  function StepBinds(rules: Rules, step: Option<Stmt>): set<Name> {
    if rules.Walked? then DeclaresOpt(rules, step) else {}
  }

  function FreeStmt(rules: Rules, s: Stmt, bound: set<Name>): set<Name>
    decreases s
  {
    match s
    case VarDecl(_, init) => FreeExpr(rules, init, bound)
    case Assign(t, v) => FreeExpr(rules, t, bound) + FreeExpr(rules, v, bound)
    case Return(e) => FreeOpt(rules, e, bound)
    case IfStmt(c, bind, t, f) =>
      FreeExpr(rules, c, bound) + FreeBlock(rules, t, bound + if bind.Some? then {bind.value} else {})
      + FreeOptBlock(rules, f, bound)
    case For(n, _, iter, body) => FreeExpr(rules, iter, bound) + FreeBlock(rules, body, bound + {n})
    case Using(n, init, body) => FreeExpr(rules, init, bound) + FreeBlock(rules, body, bound + {n})
    case While(c, body, _) => FreeExpr(rules, c, bound) + FreeBlock(rules, body, bound)
    case CFor(start, test, step, body) =>
      var loopBound := bound + DeclaresOpt(rules, start);
      FreeOptStmt(rules, start, bound) + FreeOpt(rules, test, loopBound) + FreeOptStmt(rules, step, loopBound)
      + FreeBlock(rules, body, loopBound + StepBinds(rules, step))
    case Break => {}
    case Continue => {}
    case Block(ss) => FreeBlock(rules, ss, bound)
    case ExprStmt(e) => FreeExpr(rules, e, bound)
    case Discard(e) => FreeExpr(rules, e, bound)
    case ThrowStmt(e) => FreeExpr(rules, e, bound)
    case Destructure(_, init, f) => FreeExpr(rules, init, bound) + FreeOptBlock(rules, f, bound)
    case Try(body, catches, f) =>
      FreeBlock(rules, body, bound) + FreeCatches(rules, catches, bound) + FreeOptBlock(rules, f, bound)
  }

  function FreeVars(params: seq<Name>, body: LambdaBody): set<Name> {
    FreeBody(Walked, body, Elements(params))
  }

  // ----- Uses of `this` and the total walk -----

  /** Whether `e` or an expression nested in it satisfies `p`. */
  predicate AnyExpr(e: Expr, p: Expr -> bool)
    decreases e
  {
    p(e) ||
    match e
    case Ident(_) => false
    case This => false
    case Lit(_) => false
    case Mark(_) => false
    case Template(_, parts) => exists q :: q in parts && AnyPart(q, p)
    case Items(_, items) => exists x :: x in items && AnyExpr(x, p)
    case MapLit(pairs) => exists q :: q in pairs && AnyPair(q, p)
    case One(_, inner) => AnyExpr(inner, p)
    case Two(_, l, r) => AnyExpr(l, p) || AnyExpr(r, p)
    case Call(callee, args) => AnyExpr(callee, p) || exists x :: x in args && AnyExpr(x, p)
    case ParentCall(_, _, args) => exists x :: x in args && AnyExpr(x, p)
    case CloneWith(o, fields) => AnyExpr(o, p) || exists f :: f in fields && AnyField(f, p)
    case Match(s, arms) => AnyExpr(s, p) || exists a :: a in arms && AnyArm(a, p)
    case If(c, t, f) => AnyExpr(c, p) || AnyExpr(t, p) || AnyExpr(f, p)
    case Lambda(_, body) => AnyBody(body, p)
  }

  predicate AnyPart(q: Part, p: Expr -> bool)
    decreases q
  {
    q.Hole? && AnyExpr(q.hole, p)
  }

  predicate AnyPair(q: Pair, p: Expr -> bool)
    decreases q
  {
    AnyExpr(q.key, p) || AnyExpr(q.value, p)
  }

  predicate AnyField(f: Field, p: Expr -> bool)
    decreases f
  {
    AnyExpr(f.value, p)
  }

  predicate AnyArm(a: Arm, p: Expr -> bool)
    decreases a
  {
    AnyOpt(a.guard, p) || AnyExpr(a.body, p)
  }

  predicate AnyOpt(e: Option<Expr>, p: Expr -> bool)
    decreases e
  {
    e.Some? && AnyExpr(e.value, p)
  }

  predicate AnyBody(b: LambdaBody, p: Expr -> bool)
    decreases b
  {
    match b
    case ExprBody(e) => AnyExpr(e, p)
    case BlockBody(ss) => AnyBlock(ss, p)
  }

  predicate AnyBlock(ss: seq<Stmt>, p: Expr -> bool)
    decreases ss
  {
    exists s :: s in ss && AnyStmt(s, p)
  }

  predicate AnyOptBlock(b: OptBlock, p: Expr -> bool)
    decreases b
  {
    b.SomeBlock? && AnyBlock(b.stmts, p)
  }

  predicate AnyOptStmt(s: Option<Stmt>, p: Expr -> bool)
    decreases s
  {
    s.Some? && AnyStmt(s.value, p)
  }

  predicate AnyCatch(c: Catch, p: Expr -> bool)
    decreases c
  {
    AnyBlock(c.body, p)
  }

  predicate AnyStmt(s: Stmt, p: Expr -> bool)
    decreases s
  {
    match s
    case VarDecl(_, init) => AnyExpr(init, p)
    case Return(e) => AnyOpt(e, p)
    case IfStmt(c, _, t, f) => AnyExpr(c, p) || AnyBlock(t, p) || AnyOptBlock(f, p)
    case For(_, _, iter, body) => AnyExpr(iter, p) || AnyBlock(body, p)
    case Using(_, init, body) => AnyExpr(init, p) || AnyBlock(body, p)
    case While(c, body, _) => AnyExpr(c, p) || AnyBlock(body, p)
    case CFor(start, test, step, body) =>
      AnyOptStmt(start, p) || AnyOpt(test, p) || AnyOptStmt(step, p) || AnyBlock(body, p)
    case Break => false
    case Continue => false
    case Assign(t, v) => AnyExpr(t, p) || AnyExpr(v, p)
    case Destructure(_, init, f) => AnyExpr(init, p) || AnyOptBlock(f, p)
    case Block(ss) => AnyBlock(ss, p)
    case ExprStmt(e) => AnyExpr(e, p)
    case Discard(e) => AnyExpr(e, p)
    case ThrowStmt(e) => AnyExpr(e, p)
    case Try(body, catches, f) =>
      AnyBlock(body, p) || (exists c :: c in catches && AnyCatch(c, p)) || AnyOptBlock(f, p)
  }

  predicate IsThis(e: Expr) { e.This? }

  /** `lambda_uses_this`: it descends into nested lambdas. */
  predicate UsesThis(body: LambdaBody) {
    AnyBody(body, IsThis)
  }

  // ----- The walk that collects them -----

  /** The accumulator `found` of the collecting walk; `bound` is passed and cloned as scopes open. */
  class Collector {
    var found: set<Name>

    constructor ()
      ensures found == {}
    {
      found := {};
    }

    method Pattern(p: Pattern, bound: set<Name>) returns (bound': set<Name>)
      ensures bound' == bound + PatternBinders(p)
      decreases p
    {
      bound' := bound;
      match p
      case Binding(n) => bound' := bound' + {n};
      case Variant(_, subs) =>
        for i := 0 to |subs|
          invariant bound' + SubBinders(subs[i..]) == bound + SubBinders(subs)
        {
          assert subs[i..][0] == subs[i] && subs[i..][1..] == subs[i + 1..];
          bound' := Pattern(subs[i], bound');
        }
      case TypePattern(_, b) =>
        if b.Some? { bound' := bound' + {b.value}; }
      case Struct(_, fs) =>
        for i := 0 to |fs|
          invariant bound' + FieldBinders(fs[i..]) == bound + FieldBinders(fs)
        {
          assert fs[i..][0] == fs[i] && fs[i..][1..] == fs[i + 1..];
          bound' := Pattern(fs[i].pat, bound');
        }
      case _ =>
    }

    method Exprs(xs: seq<Expr>, bound: set<Name>)
      modifies this
      ensures found == old(found) + FreeAll(Walked, xs, bound)
      decreases xs
    {
      for i := 0 to |xs|
        invariant found + FreeAll(Walked, xs[i..], bound) == old(found) + FreeAll(Walked, xs, bound)
      {
        assert xs[i..][0] == xs[i] && xs[i..][1..] == xs[i + 1..];
        Expr(xs[i], bound);
      }
    }

    method Parts(xs: seq<Part>, bound: set<Name>)
      modifies this
      ensures found == old(found) + FreeParts(Walked, xs, bound)
      decreases xs
    {
      for i := 0 to |xs|
        invariant found + FreeParts(Walked, xs[i..], bound) == old(found) + FreeParts(Walked, xs, bound)
      {
        assert xs[i..][0] == xs[i] && xs[i..][1..] == xs[i + 1..];
        Hole(xs[i], bound);
      }
    }

    method Pairs(xs: seq<Pair>, bound: set<Name>)
      modifies this
      ensures found == old(found) + FreePairs(Walked, xs, bound)
      decreases xs
    {
      for i := 0 to |xs|
        invariant found + FreePairs(Walked, xs[i..], bound) == old(found) + FreePairs(Walked, xs, bound)
      {
        assert xs[i..][0] == xs[i] && xs[i..][1..] == xs[i + 1..];
        KeyValue(xs[i], bound);
      }
    }

    method Hole(p: Part, bound: set<Name>)
      modifies this
      ensures found == old(found) + FreePart(Walked, p, bound)
      decreases p
    {
      if p.Hole? { Expr(p.hole, bound); }
    }

    method KeyValue(p: Pair, bound: set<Name>)
      modifies this
      ensures found == old(found) + FreePair(Walked, p, bound)
      decreases p
    {
      Expr(p.key, bound);
      Expr(p.value, bound);
    }

    method Fields(xs: seq<Field>, bound: set<Name>)
      modifies this
      ensures found == old(found) + FreeFields(Walked, xs, bound)
      decreases xs
    {
      for i := 0 to |xs|
        invariant found + FreeFields(Walked, xs[i..], bound) == old(found) + FreeFields(Walked, xs, bound)
      {
        assert xs[i..][0] == xs[i] && xs[i..][1..] == xs[i + 1..];
        Expr(xs[i].value, bound);
      }
    }

    method Arms(xs: seq<Arm>, bound: set<Name>)
      modifies this
      ensures found == old(found) + FreeArms(Walked, xs, bound)
      decreases xs
    {
      for i := 0 to |xs|
        invariant found + FreeArms(Walked, xs[i..], bound) == old(found) + FreeArms(Walked, xs, bound)
      {
        assert xs[i..][0] == xs[i] && xs[i..][1..] == xs[i + 1..];
        Arm(xs[i], bound);
      }
    }

    method Arm(a: Arm, bound: set<Name>)
      modifies this
      ensures found == old(found) + FreeArm(Walked, a, bound)
      decreases a
    {
      var inner := Pattern(a.pattern, bound);
      if a.guard.Some? { Expr(a.guard.value, inner); }
      Expr(a.body, inner);
    }

    method Catches(xs: seq<Catch>, bound: set<Name>)
      modifies this
      ensures found == old(found) + FreeCatches(Walked, xs, bound)
      decreases xs
    {
      for i := 0 to |xs|
        invariant found + FreeCatches(Walked, xs[i..], bound) == old(found) + FreeCatches(Walked, xs, bound)
      {
        assert xs[i..][0] == xs[i] && xs[i..][1..] == xs[i + 1..];
        var _ := Block(xs[i].body, bound + {xs[i].name});
      }
    }

    method Expr(e: Expr, bound: set<Name>)
      modifies this
      ensures found == old(found) + FreeExpr(Walked, e, bound)
      decreases e
    {
      match e
      case Ident(n) =>
        if n !in bound { found := found + {n}; }
      case This =>
      case Lit(_) =>
      case Mark(_) =>
      case Template(_, parts) => Parts(parts, bound);
      case Items(_, items) => Exprs(items, bound);
      case MapLit(pairs) => Pairs(pairs, bound);
      case One(_, inner) => Expr(inner, bound);
      case Two(_, l, r) => Expr(l, bound); Expr(r, bound);
      case Call(callee, args) => Expr(callee, bound); Exprs(args, bound);
      case ParentCall(_, _, args) => Exprs(args, bound);
      case CloneWith(o, fields) => Expr(o, bound); Fields(fields, bound);
      case Match(s, arms) => Expr(s, bound); Arms(arms, bound);
      case If(c, t, f) => Expr(c, bound); Expr(t, bound); Expr(f, bound);
      case Lambda(ps, body) =>
        match body
        case ExprBody(b) => Expr(b, bound + Elements(ps));
        case BlockBody(ss) =>
          var _ := Block(ss, bound + Elements(ps));
    }

    method Block(ss: seq<Stmt>, bound: set<Name>) returns (bound': set<Name>)
      modifies this
      ensures found == old(found) + FreeBlock(Walked, ss, bound)
      decreases ss
    {
      bound' := bound;
      for i := 0 to |ss|
        invariant found + FreeBlock(Walked, ss[i..], bound') == old(found) + FreeBlock(Walked, ss, bound)
      {
        assert ss[i..][0] == ss[i] && ss[i..][1..] == ss[i + 1..];
        bound' := Stmt(ss[i], bound');
      }
    }

    method OptStmt(s: Option<Stmt>, bound: set<Name>) returns (bound': set<Name>)
      modifies this
      ensures found == old(found) + FreeOptStmt(Walked, s, bound)
      ensures bound' == bound + DeclaresOpt(Walked, s)
      decreases s
    {
      bound' := bound;
      if s.Some? { bound' := Stmt(s.value, bound); }
    }

    method Stmt(s: Stmt, bound: set<Name>) returns (bound': set<Name>)
      modifies this
      ensures found == old(found) + FreeStmt(Walked, s, bound)
      ensures bound' == bound + Declares(Walked, s)
      decreases s
    {
      bound' := bound;
      match s
      case VarDecl(n, init) =>
        Expr(init, bound);
        bound' := bound + {n};
      case Assign(t, v) => Expr(t, bound); Expr(v, bound);
      case Return(e) =>
        if e.Some? { Expr(e.value, bound); }
      case IfStmt(c, bind, t, f) =>
        Expr(c, bound);
        var _ := Block(t, bound + if bind.Some? then {bind.value} else {});
        if f.SomeBlock? { var _ := Block(f.stmts, bound); }
      case For(n, _, iter, body) =>
        Expr(iter, bound);
        var _ := Block(body, bound + {n});
      case Using(n, init, body) =>
        Expr(init, bound);
        var _ := Block(body, bound + {n});
      case While(c, body, _) =>
        Expr(c, bound);
        var _ := Block(body, bound);
      case CFor(start, test, step, body) =>
        var loopBound := OptStmt(start, bound);
        if test.Some? { Expr(test.value, loopBound); }
        loopBound := OptStmt(step, loopBound);
        var _ := Block(body, loopBound);
      case Break =>
      case Continue =>
      case Block(ss) => var _ := Block(ss, bound);
      case ExprStmt(e) => Expr(e, bound);
      case Discard(e) => Expr(e, bound);
      case ThrowStmt(e) => Expr(e, bound);
      case Destructure(p, init, f) =>
        Expr(init, bound);
        if f.SomeBlock? { var _ := Block(f.stmts, bound); }
        bound' := bound + Elements(p.Binders());
      case Try(body, catches, f) =>
        var _ := Block(body, bound);
        Catches(catches, bound);
        if f.SomeBlock? { var _ := Block(f.stmts, bound); }
    }
  }

  /** `free_vars`: the captured names in increasing order. */
  method FreeVarsSorted(params: seq<Name>, body: LambdaBody) returns (names: seq<Name>)
    ensures Order.SortedListOf(names, FreeVars(params, body))
  {
    var c := new Collector();
    match body {
      case ExprBody(e) => c.Expr(e, Elements(params));
      case BlockBody(ss) => var _ := c.Block(ss, Elements(params));
    }
    names := Order.Sorted(c.found);
  }
}
