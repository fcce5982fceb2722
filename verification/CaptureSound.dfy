/** The simulation: two runs of the same code, each capturing in its own way, stay in step. */
module CaptureSound {
  import opened Ast
  import opened Walk
  import opened LowerUsing
  import opened Interp
  import opened Capture
  import opened CaptureRelation

  // ----- Code whose free names, and receiver if read, agree -----

  ghost predicate FitsExpr(rules: Rules, e: Expr, names: set<Name>, receiver: bool) {
    FreeExpr(rules, e, {}) <= names && !AnyExpr(e, Unfit(rules)) && (AnyExpr(e, NeedsReceiver) ==> receiver)
  }

  ghost predicate FitsAll(rules: Rules, es: seq<Expr>, names: set<Name>, receiver: bool) {
    forall e :: e in es ==> FitsExpr(rules, e, names, receiver)
  }

  ghost predicate FitsArm(rules: Rules, a: Arm, names: set<Name>, receiver: bool) {
    var inner := names + PatternBinders(a.pattern);
    (a.guard.Some? ==> FitsExpr(rules, a.guard.value, inner, receiver)) && FitsExpr(rules, a.body, inner, receiver)
  }

  ghost predicate FitsStmt(rules: Rules, s: Stmt, names: set<Name>, receiver: bool) {
    FreeStmt(rules, s, {}) <= names && !AnyStmt(s, Unfit(rules)) && (AnyStmt(s, NeedsReceiver) ==> receiver)
  }

  ghost predicate FitsBlock(rules: Rules, ss: seq<Stmt>, names: set<Name>, receiver: bool) {
    FreeBlock(rules, ss, {}) <= names && !AnyBlock(ss, Unfit(rules)) && (AnyBlock(ss, NeedsReceiver) ==> receiver)
  }

  lemma {:induction false} FreeAllMember(rules: Rules, es: seq<Expr>, e: Expr, bound: set<Name>)
    requires e in es
    ensures FreeExpr(rules, e, bound) <= FreeAll(rules, es, bound)
  {
    if e != es[0] {
      assert es == [es[0]] + es[1..];
      FreeAllMember(rules, es[1..], e, bound);
    }
  }

  lemma {:induction false} HolesFit(rules: Rules, parts: seq<Part>, e: Expr)
    requires e in Holes(parts)
    ensures FreeExpr(rules, e, {}) <= FreeParts(rules, parts, {})
    ensures exists q :: q in parts && q == Hole(e)
  {
    assert parts[0] in parts;
    if parts[0] != Hole(e) {
      assert e in Holes(parts[1..]);
      HolesFit(rules, parts[1..], e);
      var q :| q in parts[1..] && q == Hole(e);
      assert q in parts;
    }
  }

  lemma {:induction false} KeysAndValuesFit(rules: Rules, pairs: seq<Pair>, e: Expr)
    requires e in KeysAndValues(pairs)
    ensures FreeExpr(rules, e, {}) <= FreePairs(rules, pairs, {})
    ensures exists q :: q in pairs && (e == q.key || e == q.value)
  {
    if e == pairs[0].key || e == pairs[0].value {
      assert pairs[0] in pairs;
    } else {
      KeysAndValuesFit(rules, pairs[1..], e);
      var q :| q in pairs[1..] && (e == q.key || e == q.value);
      assert q in pairs;
    }
  }

  lemma {:induction false} FieldsFit(rules: Rules, fs: seq<Field>, i: nat)
    requires i < |fs|
    ensures FreeExpr(rules, fs[i].value, {}) <= FreeFields(rules, fs, {})
  {
    if i > 0 { FieldsFit(rules, fs[1..], i - 1); }
  }

  lemma OperandsFit(rules: Rules, e: Expr, names: set<Name>, receiver: bool)
    requires Strict(e) && FitsExpr(rules, e, names, receiver)
    ensures FitsAll(rules, Operands(e), names, receiver)
  {
    forall o | o in Operands(e) ensures FitsExpr(rules, o, names, receiver) {
      match e
      case Template(_, parts) =>
        HolesFit(rules, parts, o);
        var q :| q in parts && q == Hole(o);
        assert forall p :: AnyPart(q, p) == AnyExpr(o, p);
      case Items(_, items) => FreeAllMember(rules, items, o, {});
      case MapLit(pairs) =>
        KeysAndValuesFit(rules, pairs, o);
        var q :| q in pairs && (o == q.key || o == q.value);
        assert forall p :: AnyExpr(o, p) ==> AnyPair(q, p);
      case CloneWith(x, fields) =>
        if o != x {
          var i :| 0 <= i < |fields| && fields[i].value == o;
          FieldsFit(rules, fields, i);
          assert forall p :: AnyField(fields[i], p) == AnyExpr(o, p);
          assert fields[i] in fields;
        }
      case _ =>
    }
  }

  lemma ArgsFit(rules: Rules, es: seq<Expr>, names: set<Name>, receiver: bool)
    requires FreeAll(rules, es, {}) <= names
    requires forall x :: x in es ==> !AnyExpr(x, Unfit(rules))
    requires forall x :: x in es ==> (AnyExpr(x, NeedsReceiver) ==> receiver)
    ensures FitsAll(rules, es, names, receiver)
  {
    forall e | e in es ensures FitsExpr(rules, e, names, receiver) { FreeAllMember(rules, es, e, {}); }
  }

  /** What the evaluation of a form visits fits if the form does. */
  lemma PiecesFit(rules: Rules, x: Expr, names: set<Name>, receiver: bool)
    requires FitsExpr(rules, x, names, receiver)
    ensures x.Ident? ==> x.name in names
    ensures x.This? ==> receiver
    ensures x.If? ==> FitsExpr(rules, x.cond, names, receiver) && FitsExpr(rules, x.thenExpr, names, receiver)
                      && FitsExpr(rules, x.elseExpr, names, receiver)
    ensures x.Two? ==> FitsExpr(rules, x.lhs, names, receiver) && FitsExpr(rules, x.rhs, names, receiver)
    ensures x.One? ==> FitsExpr(rules, x.inner, names, receiver)
    ensures x.Match? ==> FitsExpr(rules, x.scrutinee, names, receiver)
    ensures x.ParentCall? ==> FitsAll(rules, x.args, names, receiver) && receiver
  {
    if x.ParentCall? {
      assert NeedsReceiver(x);
      ArgsFit(rules, x.args, names, receiver);
    }
  }

  lemma StmtPiecesFit(rules: Rules, s: Stmt, names: set<Name>, receiver: bool)
    requires FitsStmt(rules, s, names, receiver)
    ensures s.VarDecl? || s.Destructure? ==> FitsExpr(rules, s.init, names, receiver)
    ensures s.Return? && s.result.Some? ==> FitsExpr(rules, s.result.value, names, receiver)
    ensures s.ExprStmt? || s.Discard? ==> FitsExpr(rules, s.expr, names, receiver)
    ensures s.ThrowStmt? ==> FitsExpr(rules, s.value, names, receiver)
    ensures s.IfStmt? ==> FitsExpr(rules, s.cond, names, receiver)
    ensures (s.IfStmt? || s.Destructure?) && s.elseBlock.SomeBlock? ==> FitsBlock(rules, s.elseBlock.stmts, names, receiver)
    ensures s.For? ==> FitsExpr(rules, s.iter, names, receiver)
    ensures s.Try? ==> FitsBlock(rules, s.body, names, receiver)
    ensures s.Try? && s.finallyBlock.SomeBlock? ==> FitsBlock(rules, s.finallyBlock.stmts, names, receiver)
  {
    if s.Return? && s.result.Some? { OptFits(rules, s.result, names, receiver); }
    if (s.IfStmt? || s.Destructure?) && s.elseBlock.SomeBlock? { OptBlockFits(rules, s.elseBlock, names, receiver); }
    if s.Try? && s.finallyBlock.SomeBlock? { OptBlockFits(rules, s.finallyBlock, names, receiver); }
  }

  lemma CallFits(rules: Rules, x: Expr, names: set<Name>, receiver: bool)
    requires x.Call? && FitsExpr(rules, x, names, receiver)
    ensures FitsExpr(rules, x.callee, names, receiver) && FitsAll(rules, x.args, names, receiver)
  {
    ArgsFit(rules, x.args, names, receiver);
  }

  lemma {:induction false} ArmFree(rules: Rules, arms: seq<Arm>, a: Arm)
    requires a in arms
    ensures FreeArm(rules, a, {}) <= FreeArms(rules, arms, {})
  {
    if a != arms[0] {
      assert arms == [arms[0]] + arms[1..];
      ArmFree(rules, arms[1..], a);
    }
  }

  lemma ArmsFit(rules: Rules, e: Expr, names: set<Name>, receiver: bool)
    requires e.Match? && FitsExpr(rules, e, names, receiver)
    ensures forall a :: a in e.arms ==> FitsArm(rules, a, names, receiver)
  {
    forall a | a in e.arms ensures FitsArm(rules, a, names, receiver) {
      ArmFree(rules, e.arms, a);
      var bs := PatternBinders(a.pattern);
      assert {} + bs == bs;
      assert !AnyArm(a, Unfit(rules)) && (AnyArm(a, NeedsReceiver) ==> receiver);
      assert !AnyOpt(a.guard, Unfit(rules)) && (AnyOpt(a.guard, NeedsReceiver) ==> receiver);
      if a.guard.Some? { ExprMinus(rules, a.guard.value, {}, bs); }
      ExprMinus(rules, a.body, {}, bs);
    }
  }

  lemma BlockFits(rules: Rules, ss: seq<Stmt>, names: set<Name>, receiver: bool)
    requires FitsBlock(rules, ss, names, receiver) && ss != []
    ensures FitsStmt(rules, ss[0], names, receiver)
    ensures FitsBlock(rules, ss[1..], names + Declares(rules, ss[0]), receiver)
  {
    var d := Declares(rules, ss[0]);
    assert {} + d == d;
    PlainBlockMinus(rules, ss[1..], {}, d);
    assert forall s :: s in ss[1..] ==> s in ss;
  }

  lemma OptBlockFits(rules: Rules, b: OptBlock, names: set<Name>, receiver: bool)
    requires b.SomeBlock? && FreeOptBlock(rules, b, {}) <= names
    requires !AnyOptBlock(b, Unfit(rules)) && (AnyOptBlock(b, NeedsReceiver) ==> receiver)
    ensures FitsBlock(rules, b.stmts, names, receiver)
  {
  }

  lemma OptStmtFits(rules: Rules, s: Option<Stmt>, names: set<Name>, receiver: bool)
    requires s.Some? && FreeOptStmt(rules, s, {}) <= names
    requires !AnyOptStmt(s, Unfit(rules)) && (AnyOptStmt(s, NeedsReceiver) ==> receiver)
    ensures FitsStmt(rules, s.value, names, receiver)
  {
  }

  lemma OptFits(rules: Rules, e: Option<Expr>, names: set<Name>, receiver: bool)
    requires e.Some? && FreeOpt(rules, e, {}) <= names
    requires !AnyOpt(e, Unfit(rules)) && (AnyOpt(e, NeedsReceiver) ==> receiver)
    ensures FitsExpr(rules, e.value, names, receiver)
  {
  }

  /** A block in a scope that binds `vars` may read those as well. */
  lemma InnerFits(rules: Rules, ss: seq<Stmt>, vars: set<Name>, names: set<Name>, receiver: bool)
    requires FreeBlock(rules, ss, vars) <= names && !AnyBlock(ss, Unfit(rules)) && (AnyBlock(ss, NeedsReceiver) ==> receiver)
    ensures FitsBlock(rules, ss, names + vars, receiver)
  {
    assert {} + vars == vars;
    PlainBlockMinus(rules, ss, {}, vars);
  }

  // ----- The conclusions -----

  ghost predicate InStep(rules: Rules, r: (Out, World), s: (Out, World)) {
    SameOut(rules, r.0, s.0) && SameWorld(rules, r.1, s.1)
  }

  /** Also the environments agree, on the declared names too when the statement completes. */
  ghost predicate StepsTo(rules: Rules, r: (Out, World, Env), s: (Out, World, Env), l: Live, declared: set<Name>) {
    && SameOut(rules, r.0, s.0) && SameWorld(rules, r.1, s.1)
    && SameEnv(rules, r.2, s.2, if r.0.Ok? then Add(l, declared) else l)
  }

  ghost predicate Ready(rules: Rules, c: Cx, d: Cx, receiver: bool, e: Env, f: Env, l: Live, v: World, w: World) {
    SameCx(rules, c, d, receiver) && SameEnv(rules, e, f, l) && SameWorld(rules, v, w)
  }

  lemma AddNothing(l: Live)
    ensures Add(l, {}) == l
  {
    assert l.names + {} == l.names;
  }

  // ----- Outcomes -----

  /** How a loop leaves its body, and the outcomes the evaluator makes up, do not depend on the run. */
  lemma ExitSame(rules: Rules, o: Out, p: Out)
    requires SameOut(rules, o, p)
    ensures LoopExit(o).Some? <==> LoopExit(p).Some?
    ensures LoopExit(o).Some? ==> SameOut(rules, LoopExit(o).value, LoopExit(p).value)
  {
  }

  lemma FixedOuts(rules: Rules)
    ensures SameOut(rules, Ok(Unit), Ok(Unit)) && SameOut(rules, Stop(Timeout), Stop(Timeout)) &&
            SameOut(rules, Stop(Fault), Stop(Fault))
    ensures SameOut(rules, Ok(Null()), Ok(Null())) && SameOuts(rules, Stops(Timeout), Stops(Timeout)) &&
            SameOuts(rules, Oks([]), Oks([]))
  {
  }

  /** Outcomes alike take the same branches and carry values alike. */
  lemma TestSame(rules: Rules, o: Out, p: Out)
    requires SameOut(rules, o, p)
    ensures o.Ok? <==> p.Ok?
    ensures o.Ok? ==> Same(rules, o.value, p.value) && (o.value == Null() <==> p.value == Null())
    ensures o.Ok? ==> (IsBool(o.value) <==> IsBool(p.value)) && (IsTrue(o.value) <==> IsTrue(p.value))
  {
  }

  lemma KindSame(rules: Rules, a: Value, b: Value)
    requires Same(rules, a, b)
    ensures (a.Closure? <==> b.Closure?) && (a.Ref? || b.Ref? ==> a == b) && (a == Null() <==> b == Null())
    ensures a.ListV? <==> b.ListV?
    ensures SameOut(rules, Ok(a), Ok(b)) && SameOut(rules, Stop(ReturnSig(a)), Stop(ReturnSig(b)))
    ensures SameOut(rules, Stop(ThrowSig(a)), Stop(ThrowSig(b)))
  {
  }

  lemma OutsSame(rules: Rules, os: Outs, ps: Outs)
    requires SameOuts(rules, os, ps)
    ensures os.Oks? <==> ps.Oks?
    ensures os.Oks? ==> SameAll(rules, os.values, ps.values) && |os.values| == |ps.values|
    ensures os.Stops? ==> SameOut(rules, Stop(os.signal), Stop(ps.signal))
  {
  }

  lemma OutsCons(rules: Rules, o: Out, p: Out, os: Outs, ps: Outs)
    requires SameOut(rules, o, p) && (o.Ok? ==> SameOuts(rules, os, ps))
    ensures SameOuts(rules, if o.Stop? then Stops(o.signal) else if os.Stops? then os else Oks([o.value] + os.values),
                     if p.Stop? then Stops(p.signal) else if ps.Stops? then ps else Oks([p.value] + ps.values))
  {
    TestSame(rules, o, p);
    if o.Ok? && os.Oks? {
      var xs, ys := [o.value] + os.values, [p.value] + ps.values;
      forall i | 0 <= i < |xs| ensures Same(rules, xs[i], ys[i]) { }
    }
  }

  // ----- Expressions -----

  lemma AllUnfold(c: Cx, fuel: nat, es: seq<Expr>, e: Env, w: World)
    requires fuel > 0 && es != []
    ensures var (o, w1) := Eval(c, fuel - 1, es[0], e, w);
            var (os, w2) := EvalAll(c, fuel - 1, es[1..], e, w1);
            EvalAll(c, fuel, es, e, w)
            == (if o.Stop? then Stops(o.signal) else if os.Stops? then os else Oks([o.value] + os.values),
                if o.Stop? then w1 else w2)
  {
    hide Eval;
  }

  lemma AllNothing(c: Cx, fuel: nat, es: seq<Expr>, e: Env, w: World)
    requires fuel == 0 || es == []
    ensures EvalAll(c, fuel, es, e, w) == (if fuel == 0 then Stops(Timeout) else Oks([]), w)
  {
  }

  lemma AllFit(rules: Rules, es: seq<Expr>, names: set<Name>, receiver: bool)
    requires FitsAll(rules, es, names, receiver) && es != []
    ensures FitsExpr(rules, es[0], names, receiver) && FitsAll(rules, es[1..], names, receiver)
  {
    hide FitsExpr;
  }

  lemma {:induction false} EvalAllInStep(rules: Rules, c: Cx, d: Cx, fuel: nat, es: seq<Expr>, e: Env, f: Env, l: Live,
                                         v: World, w: World, receiver: bool)
    requires Ready(rules, c, d, receiver, e, f, l, v, w) && FitsAll(rules, es, l.names, receiver)
    ensures SameOuts(rules, EvalAll(c, fuel, es, e, v).0, EvalAll(d, fuel, es, f, w).0)
    ensures SameWorld(rules, EvalAll(c, fuel, es, e, v).1, EvalAll(d, fuel, es, f, w).1)
    decreases fuel, 0
  {
    hide EvalAll, Eval, SameOut, SameOuts, Same, SameEnv, SameWorld, SameCx, FitsAll, Unfit, NeedsReceiver;
    FixedOuts(rules);
    if fuel == 0 || es == [] {
      AllNothing(c, fuel, es, e, v);
      AllNothing(d, fuel, es, f, w);
    } else {
      AllFit(rules, es, l.names, receiver);
      EvalInStep(rules, c, d, fuel - 1, es[0], e, f, l, v, w, receiver);
      AllUnfold(c, fuel, es, e, v);
      AllUnfold(d, fuel, es, f, w);
      var (o, v1) := Eval(c, fuel - 1, es[0], e, v);
      var (p, w1) := Eval(d, fuel - 1, es[0], f, w);
      TestSame(rules, o, p);
      if o.Ok? { EvalAllInStep(rules, c, d, fuel - 1, es[1..], e, f, l, v1, w1, receiver); }
      OutsCons(rules, o, p, EvalAll(c, fuel - 1, es[1..], e, v1).0, EvalAll(d, fuel - 1, es[1..], f, w1).0);
    }
  }

  lemma {:induction false} EvalInStep(rules: Rules, c: Cx, d: Cx, fuel: nat, x: Expr, e: Env, f: Env, l: Live, v: World,
                                      w: World, receiver: bool)
    requires Ready(rules, c, d, receiver, e, f, l, v, w) && FitsExpr(rules, x, l.names, receiver)
    ensures InStep(rules, Eval(c, fuel, x, e, v), Eval(d, fuel, x, f, w))
    decreases fuel, 1
  {
    hide Ready, InStep, FitsExpr, Eval, Unfit, NeedsReceiver;
    if fuel == 0 {
      AtomInStep(rules, c, d, fuel, x, e, f, l, v, w, receiver);
    } else {
      match x
      case Ident(_) => AtomInStep(rules, c, d, fuel, x, e, f, l, v, w, receiver);
      case This => AtomInStep(rules, c, d, fuel, x, e, f, l, v, w, receiver);
      case Lambda(_, _) => AtomInStep(rules, c, d, fuel, x, e, f, l, v, w, receiver);
      case If(_, _, _) => ConditionalInStep(rules, c, d, fuel, x, e, f, l, v, w, receiver);
      case Match(_, _) => MatchInStep(rules, c, d, fuel, x, e, f, l, v, w, receiver);
      case ParentCall(_, _, _) => ParentInStep(rules, c, d, fuel, x, e, f, l, v, w, receiver);
      case Two(_, _, _) =>
        if Strict(x) { HandedOnInStep(rules, c, d, fuel, x, e, f, l, v, w, receiver); }
        else { ShortCircuitInStep(rules, c, d, fuel, x, e, f, l, v, w, receiver); }
      case _ => HandedOnInStep(rules, c, d, fuel, x, e, f, l, v, w, receiver);
    }
  }

  /** Calls, and forms that evaluate all their operands. */
  lemma {:induction false} HandedOnInStep(rules: Rules, c: Cx, d: Cx, fuel: nat, x: Expr, e: Env, f: Env, l: Live,
                                          v: World, w: World, receiver: bool)
    requires Ready(rules, c, d, receiver, e, f, l, v, w) && FitsExpr(rules, x, l.names, receiver)
    requires fuel > 0 && (x.Call? || Strict(x))
    ensures InStep(rules, Eval(c, fuel, x, e, v), Eval(d, fuel, x, f, w))
    decreases fuel, 0
  {
    hide Ready, InStep, FitsExpr, FitsAll, EvalCall, EvalStrict, Unfit, NeedsReceiver;
    if x.Call? {
      CallFits(rules, x, l.names, receiver);
      CallInStep(rules, c, d, fuel - 1, x.callee, x.args, e, f, l, v, w, receiver);
    } else {
      StrictInStep(rules, c, d, fuel - 1, x, e, f, l, v, w, receiver);
    }
  }

  /** Expressions that evaluate no other. */
  lemma IdentInStep(rules: Rules, c: Cx, d: Cx, fuel: nat, x: Expr, e: Env, f: Env, l: Live, v: World, w: World,
                    receiver: bool)
    requires Ready(rules, c, d, receiver, e, f, l, v, w) && x.Ident? && x.name in l.names && fuel > 0
    ensures InStep(rules, Eval(c, fuel, x, e, v), Eval(d, fuel, x, f, w))
  {
    hide SameWorld, Lookup, EvalAll, EvalStrict, EvalArms, EvalCall, RunFun, Unfit, NeedsReceiver;
    assert SameVisible(rules, e, f, x.name);
    LookupSame(rules, e, f, x.name);
  }

  lemma AtomInStep(rules: Rules, c: Cx, d: Cx, fuel: nat, x: Expr, e: Env, f: Env, l: Live, v: World, w: World,
                   receiver: bool)
    requires Ready(rules, c, d, receiver, e, f, l, v, w) && FitsExpr(rules, x, l.names, receiver)
    requires fuel == 0 || x.Ident? || x.This? || x.Lambda?
    ensures InStep(rules, Eval(c, fuel, x, e, v), Eval(d, fuel, x, f, w))
  {
    hide FitsExpr, SameWorld, SameEnv, Captured, EvalAll, EvalStrict, EvalArms, EvalCall, RunFun, Unfit, NeedsReceiver;
    PiecesFit(rules, x, l.names, receiver);
    if fuel > 0 {
      if x.Ident? {
        IdentInStep(rules, c, d, fuel, x, e, f, l, v, w, receiver);
      } else if x.Lambda? {
        LambdaInStep(rules, c, d, x.params, x.body, e, f, l, receiver);
      }
    }
  }

  lemma IfUnfold(c: Cx, fuel: nat, x: Expr, e: Env, w: World)
    requires fuel > 0 && x.If?
    ensures var (o, w1) := Eval(c, fuel - 1, x.cond, e, w);
            Eval(c, fuel, x, e, w)
            == if o.Stop? then (o, w1)
               else if !IsBool(o.value) then (Stop(Fault), w1)
               else Eval(c, fuel - 1, if IsTrue(o.value) then x.thenExpr else x.elseExpr, e, w1)
  {
    hide EvalAll, EvalStrict, EvalArms, EvalCall, RunFun;
  }

  lemma {:induction false} ConditionalInStep(rules: Rules, c: Cx, d: Cx, fuel: nat, x: Expr, e: Env, f: Env, l: Live,
                                             v: World, w: World, receiver: bool)
    requires Ready(rules, c, d, receiver, e, f, l, v, w) && FitsExpr(rules, x, l.names, receiver) && fuel > 0 && x.If?
    ensures InStep(rules, Eval(c, fuel, x, e, v), Eval(d, fuel, x, f, w))
    decreases fuel, 0
  {
    hide Eval, FitsExpr, SameEnv, SameWorld, SameCx, SameOut, Same, Unfit, NeedsReceiver;
    PiecesFit(rules, x, l.names, receiver);
    FixedOuts(rules);
    IfUnfold(c, fuel, x, e, v);
    IfUnfold(d, fuel, x, f, w);
    EvalInStep(rules, c, d, fuel - 1, x.cond, e, f, l, v, w, receiver);
    var (o, v1) := Eval(c, fuel - 1, x.cond, e, v);
    var (p, w1) := Eval(d, fuel - 1, x.cond, f, w);
    TestSame(rules, o, p);
    if o.Ok? && IsBool(o.value) {
      EvalInStep(rules, c, d, fuel - 1, if IsTrue(o.value) then x.thenExpr else x.elseExpr, e, f, l, v1, w1, receiver);
    }
  }

  lemma MatchUnfold(c: Cx, fuel: nat, x: Expr, e: Env, w: World)
    requires fuel > 0 && x.Match?
    ensures var (o, w1) := Eval(c, fuel - 1, x.scrutinee, e, w);
            Eval(c, fuel, x, e, w) == if o.Stop? then (o, w1) else EvalArms(c, fuel - 1, x.arms, o.value, e, w1)
  {
    hide EvalAll, EvalStrict, EvalArms, EvalCall, RunFun;
  }

  lemma {:induction false} MatchInStep(rules: Rules, c: Cx, d: Cx, fuel: nat, x: Expr, e: Env, f: Env, l: Live,
                                       v: World, w: World, receiver: bool)
    requires Ready(rules, c, d, receiver, e, f, l, v, w) && FitsExpr(rules, x, l.names, receiver) && fuel > 0 &&
             x.Match?
    ensures InStep(rules, Eval(c, fuel, x, e, v), Eval(d, fuel, x, f, w))
    decreases fuel, 0
  {
    hide Eval, EvalArms, FitsExpr, FitsArm, SameEnv, SameWorld, SameCx, SameOut, Same, Unfit, NeedsReceiver;
    PiecesFit(rules, x, l.names, receiver);
    MatchUnfold(c, fuel, x, e, v);
    MatchUnfold(d, fuel, x, f, w);
    EvalInStep(rules, c, d, fuel - 1, x.scrutinee, e, f, l, v, w, receiver);
    var (o, v1) := Eval(c, fuel - 1, x.scrutinee, e, v);
    var (p, w1) := Eval(d, fuel - 1, x.scrutinee, f, w);
    TestSame(rules, o, p);
    if o.Ok? {
      ArmsFit(rules, x, l.names, receiver);
      ArmsInStep(rules, c, d, fuel - 1, x.arms, o.value, p.value, e, f, l, v1, w1, receiver);
    }
  }

  lemma StrictUnfold(c: Cx, fuel: nat, x: Expr, e: Env, w: World)
    requires Strict(x)
    ensures EvalStrict(c, fuel, x, e, w)
         == if fuel == 0 then (Stop(Timeout), w)
            else
              var (os, w1) := EvalAll(c, fuel - 1, Operands(x), e, w);
              if os.Stops? then (Stop(os.signal), w1) else Apply(c.host, x, os.values, w1)
  {
    hide EvalAll, Apply;
  }

  lemma {:induction false} StrictInStep(rules: Rules, c: Cx, d: Cx, fuel: nat, x: Expr, e: Env, f: Env, l: Live,
                                        v: World, w: World, receiver: bool)
    requires Ready(rules, c, d, receiver, e, f, l, v, w) && FitsExpr(rules, x, l.names, receiver) && Strict(x)
    ensures InStep(rules, EvalStrict(c, fuel, x, e, v), EvalStrict(d, fuel, x, f, w))
    decreases fuel, 0
  {
    hide EvalStrict, EvalAll, Apply, Operands, Strict, SameOut, SameOuts, SameAll, SameEnv, SameWorld, FitsExpr;
    hide FitsAll, Unfit, NeedsReceiver;
    FixedOuts(rules);
    StrictUnfold(c, fuel, x, e, v);
    StrictUnfold(d, fuel, x, f, w);
    if fuel > 0 {
      OperandsFit(rules, x, l.names, receiver);
      EvalAllInStep(rules, c, d, fuel - 1, Operands(x), e, f, l, v, w, receiver);
      var (o, v1) := EvalAll(c, fuel - 1, Operands(x), e, v);
      var (p, w1) := EvalAll(d, fuel - 1, Operands(x), f, w);
      OutsSame(rules, o, p);
      if o.Oks? { ApplySame(rules, c.host, x, o.values, p.values, v1, w1); }
    }
  }

  /** The closures hold different environments, but agree on every name the body can read. */
  lemma LambdaInStep(rules: Rules, c: Cx, d: Cx, ps: seq<Name>, body: LambdaBody, e: Env, f: Env, l: Live,
                     receiver: bool)
    requires SameCx(rules, c, d, receiver) && SameEnv(rules, e, f, l) &&
             FitsExpr(rules, Lambda(ps, body), l.names, receiver)
    ensures Same(rules, Closure(ps, body, Captured(c.mode, ps, body, e), CapturedSelf(c.mode, body, c.self)),
                 Closure(ps, body, Captured(d.mode, ps, body, f), CapturedSelf(d.mode, body, d.self)))
  {
    assert {} + Elements(ps) == Elements(ps);
    assert Needs(rules, ps, body) <= l.names;
    forall x | x in Needs(rules, ps, body)
      ensures SameIn(rules, Captured(c.mode, ps, body, e), Captured(d.mode, ps, body, f), x)
    {
      assert SameVisible(rules, e, f, x);
      FlattenSame(rules, e, f, x);
    }
    assert !Unfit(rules)(Lambda(ps, body));
    if UsesThis(body) { ThisNeedsReceiver(body); }
  }

  lemma ThisNeedsReceiver(body: LambdaBody)
    requires UsesThis(body)
    ensures AnyBody(body, NeedsReceiver)
  {
    AnyBodyMonotone(body, IsThis, NeedsReceiver);
  }

  lemma TwoUnfold(c: Cx, fuel: nat, x: Expr, e: Env, w: World)
    requires fuel > 0 && x.Two? && !Strict(x)
    ensures var (o, w1) := Eval(c, fuel - 1, x.lhs, e, w);
            var (p, w2) := Eval(c, fuel - 1, x.rhs, e, w1);
            Eval(c, fuel, x, e, w)
            == if o.Stop? then (o, w1)
               else if x.two.Coalesce? then (if o.value == Null() then (p, w2) else (o, w1))
               else if !IsBool(o.value) then (Stop(Fault), w1)
               else if x.two.And? != IsTrue(o.value) then (o, w1)
               else (if p.Ok? && !IsBool(p.value) then Stop(Fault) else p, w2)
  {
    hide EvalAll, EvalStrict, EvalArms, EvalCall, RunFun;
  }

  lemma {:induction false} ShortCircuitInStep(rules: Rules, c: Cx, d: Cx, fuel: nat, x: Expr, e: Env, f: Env, l: Live,
                                              v: World, w: World, receiver: bool)
    requires Ready(rules, c, d, receiver, e, f, l, v, w) && FitsExpr(rules, x, l.names, receiver)
    requires fuel > 0 && x.Two? && !Strict(x)
    ensures InStep(rules, Eval(c, fuel, x, e, v), Eval(d, fuel, x, f, w))
    decreases fuel, 0
  {
    hide Eval, Strict, SameOut, Same, SameEnv, SameWorld, SameCx, FitsExpr, Unfit, NeedsReceiver;
    FixedOuts(rules);
    PiecesFit(rules, x, l.names, receiver);
    TwoUnfold(c, fuel, x, e, v);
    TwoUnfold(d, fuel, x, f, w);
    EvalInStep(rules, c, d, fuel - 1, x.lhs, e, f, l, v, w, receiver);
    var (o, v1) := Eval(c, fuel - 1, x.lhs, e, v);
    var (p, w1) := Eval(d, fuel - 1, x.lhs, f, w);
    TestSame(rules, o, p);
    if o.Ok? {
      EvalInStep(rules, c, d, fuel - 1, x.rhs, e, f, l, v1, w1, receiver);
      TestSame(rules, Eval(c, fuel - 1, x.rhs, e, v1).0, Eval(d, fuel - 1, x.rhs, f, w1).0);
    }
  }

  lemma ParentUnfold(c: Cx, fuel: nat, x: Expr, e: Env, w: World)
    requires fuel > 0 && x.ParentCall?
    ensures var (os, w1) := EvalAll(c, fuel - 1, x.args, e, w);
            Eval(c, fuel, x, e, w)
            == if os.Stops? then (Stop(os.signal), w1)
               else if c.self.None? || c.cls.None? || (c.cls.value, x.ancestor, x.method_) !in c.prog.parents then (Stop(Fault), w1)
               else
                 var (owner, f) := c.prog.parents[(c.cls.value, x.ancestor, x.method_)];
                 RunFun(c, fuel - 1, f, c.self, Some(owner), os.values, w1)
  {
    hide EvalAll, EvalStrict, EvalArms, EvalCall, RunFun;
  }

  lemma {:induction false} ParentInStep(rules: Rules, c: Cx, d: Cx, fuel: nat, x: Expr, e: Env, f: Env, l: Live,
                                        v: World, w: World, receiver: bool)
    requires Ready(rules, c, d, receiver, e, f, l, v, w) && FitsExpr(rules, x, l.names, receiver) && fuel > 0 &&
             x.ParentCall?
    ensures InStep(rules, Eval(c, fuel, x, e, v), Eval(d, fuel, x, f, w))
    decreases fuel, 0
  {
    hide Eval, EvalAll, RunFun, FitsExpr, FitsAll, SameEnv, SameWorld, SameOut, SameOuts, SameAll, Unfit, NeedsReceiver;
    PiecesFit(rules, x, l.names, receiver);
    FixedOuts(rules);
    ParentUnfold(c, fuel, x, e, v);
    ParentUnfold(d, fuel, x, f, w);
    EvalAllInStep(rules, c, d, fuel - 1, x.args, e, f, l, v, w, receiver);
    var (o, v1) := EvalAll(c, fuel - 1, x.args, e, v);
    var (p, w1) := EvalAll(d, fuel - 1, x.args, f, w);
    OutsSame(rules, o, p);
    if o.Oks? && c.self.Some? && c.cls.Some? && (c.cls.value, x.ancestor, x.method_) in c.prog.parents {
      var (owner, fun) := c.prog.parents[(c.cls.value, x.ancestor, x.method_)];
      RunInStep(rules, c, d, fuel - 1, fun, c.self, Some(owner), o.values, p.values, v1, w1, receiver);
    }
  }

  /** What happens once the pattern of the first arm has matched and bound `inner`. */
  function Chosen(c: Cx, fuel: nat, arms: seq<Arm>, a: Value, inner: Env, e: Env, w: World): (Out, World)
    requires arms != []
  {
    if arms[0].guard.None? then Eval(c, fuel, arms[0].body, inner, w)
    else
      var (o, w1) := Eval(c, fuel, arms[0].guard.value, inner, w);
      if o.Stop? then (o, w1)
      else if !IsBool(o.value) then (Stop(Fault), w1)
      else if IsTrue(o.value) then Eval(c, fuel, arms[0].body, inner, w1)
      else EvalArms(c, fuel, arms[1..], a, e, w1)
  }

  lemma ArmsUnfold(c: Cx, fuel: nat, arms: seq<Arm>, a: Value, e: Env, w: World)
    ensures EvalArms(c, fuel, arms, a, e, w)
         == if fuel == 0 then (Stop(Timeout), w)
            else if arms == [] then (Stop(Fault), w)
            else
              var bs := MatchPattern(c.host, arms[0].pattern, a, w);
              if bs.None? then EvalArms(c, fuel - 1, arms[1..], a, e, w)
              else Chosen(c, fuel - 1, arms, a, Nest(bs.value, e), e, w)
  {
    hide Eval, MatchPattern;
  }

  lemma {:induction false} ArmsInStep(rules: Rules, c: Cx, d: Cx, fuel: nat, arms: seq<Arm>, a: Value, b: Value, e: Env,
                                      f: Env, l: Live, v: World, w: World, receiver: bool)
    requires Ready(rules, c, d, receiver, e, f, l, v, w) && Same(rules, a, b)
    requires forall m :: m in arms ==> FitsArm(rules, m, l.names, receiver)
    ensures InStep(rules, EvalArms(c, fuel, arms, a, e, v), EvalArms(d, fuel, arms, b, f, w))
    decreases fuel, 3
  {
    hide EvalArms, Eval, SameEnv, SameWorld, SameOut, Same, FitsArm, Chosen, MatchPattern, Unfit, NeedsReceiver;
    FixedOuts(rules);
    ArmsUnfold(c, fuel, arms, a, e, v);
    ArmsUnfold(d, fuel, arms, b, f, w);
    if fuel > 0 && arms != [] {
      PatternSame(rules, c.host, arms[0].pattern, a, b, v, w);
      var bs, cs := MatchPattern(c.host, arms[0].pattern, a, v), MatchPattern(d.host, arms[0].pattern, b, w);
      if bs.None? {
        ArmsInStep(rules, c, d, fuel - 1, arms[1..], a, b, e, f, l, v, w, receiver);
      } else {
        PushSame(rules, e, f, l, bs.value, cs.value);
        ChosenInStep(rules, c, d, fuel - 1, arms, a, b, Nest(bs.value, e), Nest(cs.value, f), e, f, l, v, w, receiver);
      }
    }
  }

  lemma {:induction false} ChosenInStep(rules: Rules, c: Cx, d: Cx, fuel: nat, arms: seq<Arm>, a: Value, b: Value,
                                        e1: Env, f1: Env, e: Env, f: Env, l: Live, v: World, w: World, receiver: bool)
    requires Ready(rules, c, d, receiver, e, f, l, v, w) && Same(rules, a, b) && arms != []
    requires forall m :: m in arms ==> FitsArm(rules, m, l.names, receiver)
    requires SameEnv(rules, e1, f1, LiveNest(l.names + PatternBinders(arms[0].pattern), l))
    ensures InStep(rules, Chosen(c, fuel, arms, a, e1, e, v), Chosen(d, fuel, arms, b, f1, f, w))
    decreases fuel, 4
  {
    hide EvalArms, Eval, SameEnv, SameWorld, SameCx, SameOut, Same, FitsExpr, Unfit, NeedsReceiver;
    FixedOuts(rules);
    var m := arms[0];
    assert FitsArm(rules, m, l.names, receiver);
    var l1 := LiveNest(l.names + PatternBinders(m.pattern), l);
    if m.guard.None? {
      EvalInStep(rules, c, d, fuel, m.body, e1, f1, l1, v, w, receiver);
    } else {
      EvalInStep(rules, c, d, fuel, m.guard.value, e1, f1, l1, v, w, receiver);
      var (o, v1) := Eval(c, fuel, m.guard.value, e1, v);
      var (p, w1) := Eval(d, fuel, m.guard.value, f1, w);
      TestSame(rules, o, p);
      if o.Ok? && IsBool(o.value) {
        if IsTrue(o.value) {
          EvalInStep(rules, c, d, fuel, m.body, e1, f1, l1, v1, w1, receiver);
        } else {
          ArmsInStep(rules, c, d, fuel, arms[1..], a, b, e, f, l, v1, w1, receiver);
        }
      }
    }
  }

  // ----- Calls -----

  lemma CallUnfold(c: Cx, fuel: nat, callee: Expr, args: seq<Expr>, e: Env, w: World)
    requires fuel > 0 && !callee.Ident?
    ensures var member := callee.One? && callee.one.Member?;
            var (o, w1) := Eval(c, fuel - 1, if member then callee.inner else callee, e, w);
            var (os, w2) := EvalAll(c, fuel - 1, args, e, w1);
            EvalCall(c, fuel, callee, args, e, w)
            == if o.Stop? then (o, w1)
               else if member && callee.one.safe && o.value == Null() then (Ok(Null()), w1)
               else if os.Stops? then (Stop(os.signal), w2)
               else if member then CallMethod(c, fuel - 1, o.value, callee.one.field, os.values, w2)
               else CallValue(c, fuel - 1, o.value, os.values, w2)
  {
    hide EvalAll, Eval, CallMethod, CallValue, CallNamed;
  }

  lemma CallNameUnfold(c: Cx, fuel: nat, callee: Expr, args: seq<Expr>, e: Env, w: World)
    requires fuel == 0 || callee.Ident?
    ensures EvalCall(c, fuel, callee, args, e, w)
         == if fuel == 0 then (Stop(Timeout), w)
            else if callee.name in FAULT_INTRINSICS then (Stop(Fault), w)
            else
              var (os, w1) := EvalAll(c, fuel - 1, args, e, w);
              if os.Stops? then (Stop(os.signal), w1) else CallNamed(c, fuel - 1, callee.name, os.values, e, w1)
  {
    hide EvalAll, Eval, CallMethod, CallValue, CallNamed;
  }

  lemma {:induction false} CallInStep(rules: Rules, c: Cx, d: Cx, fuel: nat, callee: Expr, args: seq<Expr>, e: Env,
                                      f: Env, l: Live, v: World, w: World, receiver: bool)
    requires Ready(rules, c, d, receiver, e, f, l, v, w)
    requires FitsExpr(rules, callee, l.names, receiver) && FitsAll(rules, args, l.names, receiver)
    ensures InStep(rules, EvalCall(c, fuel, callee, args, e, v), EvalCall(d, fuel, callee, args, f, w))
    decreases fuel, 1
  {
    hide EvalCall, EvalAll, Eval, FitsExpr, FitsAll, Unfit, NeedsReceiver;
    if fuel == 0 || callee.Ident? {
      NameCallInStep(rules, c, d, fuel, callee, args, e, f, l, v, w, receiver);
    } else {
      hide CallMethod, CallValue, SameOut, SameOuts, SameAll, Same, SameEnv, SameWorld, SameScope;
      FixedOuts(rules);
      PiecesFit(rules, callee, l.names, receiver);
      CallUnfold(c, fuel, callee, args, e, v);
      CallUnfold(d, fuel, callee, args, f, w);
      var head := if callee.One? && callee.one.Member? then callee.inner else callee;
      EvalInStep(rules, c, d, fuel - 1, head, e, f, l, v, w, receiver);
      var (o, v1) := Eval(c, fuel - 1, head, e, v);
      var (p, w1) := Eval(d, fuel - 1, head, f, w);
      TestSame(rules, o, p);
      if o.Ok? {
        EvalAllInStep(rules, c, d, fuel - 1, args, e, f, l, v1, w1, receiver);
        var (os, v2) := EvalAll(c, fuel - 1, args, e, v1);
        var (qs, w2) := EvalAll(d, fuel - 1, args, f, w1);
        OutsSame(rules, os, qs);
        if os.Oks? {
          if callee.One? && callee.one.Member? {
            MethodInStep(rules, c, d, fuel - 1, o.value, p.value, callee.one.field, os.values, qs.values, v2, w2,
                         receiver);
          } else {
            ValueInStep(rules, c, d, fuel - 1, o.value, p.value, os.values, qs.values, v2, w2, receiver);
          }
        }
      }
    }
  }

  lemma {:induction false} NameCallInStep(rules: Rules, c: Cx, d: Cx, fuel: nat, callee: Expr, args: seq<Expr>, e: Env,
                                          f: Env, l: Live, v: World, w: World, receiver: bool)
    requires Ready(rules, c, d, receiver, e, f, l, v, w) && (fuel == 0 || callee.Ident?)
    requires FitsExpr(rules, callee, l.names, receiver) && FitsAll(rules, args, l.names, receiver)
    ensures InStep(rules, EvalCall(c, fuel, callee, args, e, v), EvalCall(d, fuel, callee, args, f, w))
    decreases fuel, 0
  {
    hide EvalCall, EvalAll, Eval, CallNamed, FitsExpr, FitsAll, SameOut, SameOuts, SameAll, SameVisible, SameWorld;
    hide SameCx, Unfit, NeedsReceiver;
    FixedOuts(rules);
    PiecesFit(rules, callee, l.names, receiver);
    CallNameUnfold(c, fuel, callee, args, e, v);
    CallNameUnfold(d, fuel, callee, args, f, w);
    if fuel > 0 && callee.name !in FAULT_INTRINSICS {
      EvalAllInStep(rules, c, d, fuel - 1, args, e, f, l, v, w, receiver);
      var (o, v1) := EvalAll(c, fuel - 1, args, e, v);
      var (p, w1) := EvalAll(d, fuel - 1, args, f, w);
      OutsSame(rules, o, p);
      if o.Oks? {
        assert SameVisible(rules, e, f, callee.name);
        NamedInStep(rules, c, d, fuel - 1, callee.name, o.values, p.values, e, f, l, v1, w1, receiver);
      }
    }
  }

  lemma NamedUnfold(c: Cx, fuel: nat, n: Name, vs: seq<Value>, e: Env, w: World)
    ensures CallNamed(c, fuel, n, vs, e, w)
         == if fuel == 0 then (Stop(Timeout), w)
            else if n in c.prog.funcs then RunFun(c, fuel - 1, c.prog.funcs[n], None, None, vs, w)
            else if n in c.prog.variants then (Ok(EnumV(c.prog.variants[n], n, vs)), w)
            else if n in c.prog.classes then Constructed(n, c.prog.classes[n], vs, w)
            else
              var v := Lookup(e, n);
              if v.Some? && v.value.Closure? then CallValue(c, fuel - 1, v.value, vs, w) else (Stop(Fault), w)
  {
    hide RunFun, CallValue;
  }

  function Constructed(n: Name, slots: seq<Name>, vs: seq<Value>, w: World): (Out, World) {
    if |slots| != |vs| then (Stop(Fault), w) else Allocate(Obj(n, DeclareAll(Root(map[]), slots, vs).vars), w)
  }

  lemma ConstructedSame(rules: Rules, n: Name, ty: Name, slots: seq<Name>, vs: seq<Value>, ws: seq<Value>, v: World,
                        w: World)
    requires SameAll(rules, vs, ws) && SameWorld(rules, v, w)
    ensures InStep(rules, Constructed(n, slots, vs, v), Constructed(n, slots, ws, w))
    ensures SameOut(rules, Ok(EnumV(ty, n, vs)), Ok(EnumV(ty, n, ws)))
  {
    if |slots| == |vs| {
      ObjSame(rules, n, slots, vs, ws);
      AllocateSame(rules, Obj(n, DeclareAll(Root(map[]), slots, vs).vars),
                   Obj(n, DeclareAll(Root(map[]), slots, ws).vars), v, w);
    }
  }

  lemma {:induction false} NamedInStep(rules: Rules, c: Cx, d: Cx, fuel: nat, n: Name, vs: seq<Value>, ws: seq<Value>,
                                       e: Env, f: Env, l: Live, v: World, w: World, receiver: bool)
    requires Ready(rules, c, d, receiver, e, f, l, v, w) && SameAll(rules, vs, ws) && SameVisible(rules, e, f, n)
    ensures InStep(rules, CallNamed(c, fuel, n, vs, e, v), CallNamed(d, fuel, n, ws, f, w))
    decreases fuel, 0
  {
    hide CallNamed, RunFun, CallValue, Constructed, Lookup, SameOut, Same, SameAll, SameVisible, SameEnv, SameWorld;
    hide Unfit, NeedsReceiver;
    FixedOuts(rules);
    NamedUnfold(c, fuel, n, vs, e, v);
    NamedUnfold(d, fuel, n, ws, f, w);
    if fuel > 0 {
      if n in c.prog.funcs {
        RunInStep(rules, c, d, fuel - 1, c.prog.funcs[n], None, None, vs, ws, v, w, receiver);
      } else if n in c.prog.variants {
        ConstructedSame(rules, n, c.prog.variants[n], [], vs, ws, v, w);
      } else if n in c.prog.classes {
        ConstructedSame(rules, n, n, c.prog.classes[n], vs, ws, v, w);
      } else {
        LookupSame(rules, e, f, n);
        var a, b := Lookup(e, n), Lookup(f, n);
        if a.Some? {
          KindSame(rules, a.value, b.value);
          if a.value.Closure? { ValueInStep(rules, c, d, fuel - 1, a.value, b.value, vs, ws, v, w, receiver); }
        }
      }
    }
  }

  lemma ObjSame(rules: Rules, n: Name, slots: seq<Name>, vs: seq<Value>, ws: seq<Value>)
    requires |slots| == |vs| && SameAll(rules, vs, ws)
    ensures SameObj(rules, Obj(n, DeclareAll(Root(map[]), slots, vs).vars), Obj(n, DeclareAll(Root(map[]), slots, ws).vars))
  {
    var e, f := DeclareAll(Root(map[]), slots, vs), DeclareAll(Root(map[]), slots, ws);
    forall x ensures SameIn(rules, e.vars, f.vars, x) {
      FrameSame(rules, slots, vs, ws, {x});
      assert SameVisible(rules, e, f, x);
    }
  }

  lemma {:induction false} RunInStep(rules: Rules, c: Cx, d: Cx, fuel: nat, fun: Fun, self: Option<nat>,
                                     cls: Option<Name>,
                                     vs: seq<Value>, ws: seq<Value>, v: World, w: World, receiver: bool)
    requires SameCx(rules, c, d, receiver) && SameWorld(rules, v, w) && SameAll(rules, vs, ws) &&
             !AnyBlock(fun.body, Unfit(rules))
    ensures InStep(rules, RunFun(c, fuel, fun, self, cls, vs, v), RunFun(d, fuel, fun, self, cls, ws, w))
    decreases fuel, 0
  {
    hide SameWorld, ExecBlock, FreeBlock, Unfit, NeedsReceiver;
    if fuel > 0 && |fun.params| == |vs| {
      var names := FreeBlock(rules, fun.body, {});
      FrameSame(rules, fun.params, vs, ws, names);
      var e, f := DeclareAll(Root(map[]), fun.params, vs), DeclareAll(Root(map[]), fun.params, ws);
      BlockInStep(rules, c.(self := self, cls := cls), d.(self := self, cls := cls), fuel - 1, fun.body, e, f,
                  LiveRoot(names), v, w, true);
    }
  }

  lemma {:induction false} MethodInStep(rules: Rules, c: Cx, d: Cx, fuel: nat, a: Value, b: Value, n: Name,
                                        vs: seq<Value>, ws: seq<Value>, v: World, w: World, receiver: bool)
    requires SameCx(rules, c, d, receiver) && SameWorld(rules, v, w) && Same(rules, a, b) && SameAll(rules, vs, ws)
    ensures InStep(rules, CallMethod(c, fuel, a, n, vs, v), CallMethod(d, fuel, b, n, ws, w))
    decreases fuel, 0
  {
    hide RunFun, Unfit, NeedsReceiver;
    if fuel > 0 && a.Ref? && a.id < |v.heap| {
      assert SameObj(rules, v.heap[a.id], w.heap[a.id]);
      var cls := v.heap[a.id].class_;
      var v1 := v.(trace := v.trace + [Invoked(a.id, n, vs)]);
      var w1 := w.(trace := w.trace + [Invoked(a.id, n, ws)]);
      assert SameEvent(rules, Invoked(a.id, n, vs), Invoked(a.id, n, ws));
      assert SameWorld(rules, v1, w1);
      if (cls, n) in c.prog.methods {
        RunInStep(rules, c, d, fuel - 1, c.prog.methods[(cls, n)], Some(a.id), Some(cls), vs, ws, v1, w1, receiver);
      }
    }
  }

  /** Calling closures that agree on the free names of their body. */
  lemma {:induction false} ValueInStep(rules: Rules, c: Cx, d: Cx, fuel: nat, a: Value, b: Value, vs: seq<Value>,
                                       ws: seq<Value>, v: World, w: World, receiver: bool)
    requires SameCx(rules, c, d, receiver) && SameWorld(rules, v, w) && Same(rules, a, b) && SameAll(rules, vs, ws)
    ensures InStep(rules, CallValue(c, fuel, a, vs, v), CallValue(d, fuel, b, ws, w))
    decreases fuel, 0
  {
    hide SameWorld, Eval, ExecBlock, RunFun, FitsExpr, FitsBlock, Unfit, NeedsReceiver;
    if fuel > 0 {
      match a
      case Closure(ps, body, s, self) =>
        if |ps| == |vs| {
          var names := Needs(rules, ps, body);
          assert SameEnv(rules, Root(s), Root(b.env), LiveRoot(names)) by {
            forall x | x in names ensures SameVisible(rules, Root(s), Root(b.env), x) { }
          }
          DeclareAllSame(rules, Root(s), Root(b.env), LiveRoot(names), ps, vs, ws);
          var l := Add(LiveRoot(names), Elements(ps));
          var e, f := DeclareAll(Root(s), ps, vs), DeclareAll(Root(b.env), ps, ws);
          BodyFits(rules, ps, body);
          match body
          case ExprBody(x) =>
            EvalInStep(rules, c.(self := self), d.(self := b.self), fuel - 1, x, e, f, l, v, w, UsesThis(body));
          case BlockBody(ss) =>
            BlockInStep(rules, c.(self := self), d.(self := b.self), fuel - 1, ss, e, f, l, v, w, UsesThis(body));
        }
      case Named(n) =>
        if n in c.prog.funcs { RunInStep(rules, c, d, fuel - 1, c.prog.funcs[n], None, None, vs, ws, v, w, receiver); }
      case _ =>
    }
  }

  lemma BodyFits(rules: Rules, ps: seq<Name>, body: LambdaBody)
    requires FitBody(rules, ps, body) && !AnyBody(body, Unfit(rules))
    ensures var names := Needs(rules, ps, body) + Elements(ps);
            match body
            case ExprBody(x) => FitsExpr(rules, x, names, UsesThis(body))
            case BlockBody(ss) => FitsBlock(rules, ss, names, UsesThis(body))
  {
    var p := Elements(ps);
    assert {} + p == p;
    match body
    case ExprBody(x) => ExprMinus(rules, x, {}, p);
    case BlockBody(ss) => PlainBlockMinus(rules, ss, {}, p);
  }

  // ----- Statements -----

  lemma {:induction false} BlockInStep(rules: Rules, c: Cx, d: Cx, fuel: nat, ss: seq<Stmt>, e: Env, f: Env, l: Live,
                                       v: World, w: World, receiver: bool)
    requires Ready(rules, c, d, receiver, e, f, l, v, w) && FitsBlock(rules, ss, l.names, receiver)
    ensures StepsTo(rules, ExecBlock(c, fuel, ss, e, v), ExecBlock(d, fuel, ss, f, w), l, {})
    decreases fuel, 0
  {
    hide FitsStmt, FitsBlock, SameEnv, SameWorld, SameCx, Exec, Unfit, NeedsReceiver;
    AddNothing(l);
    if fuel > 0 && ss != [] {
      BlockFits(rules, ss, l.names, receiver);
      ExecInStep(rules, c, d, fuel - 1, ss[0], e, f, l, v, w, receiver);
      var (o, v1, e1) := Exec(c, fuel - 1, ss[0], e, v);
      var (p, w1, f1) := Exec(d, fuel - 1, ss[0], f, w);
      if o.Ok? {
        var l1 := Add(l, Declares(rules, ss[0]));
        BlockInStep(rules, c, d, fuel - 1, ss[1..], e1, f1, l1, v1, w1, receiver);
        AddNothing(l1);
        NarrowEnv(rules, ExecBlock(c, fuel - 1, ss[1..], e1, v1).2, ExecBlock(d, fuel - 1, ss[1..], f1, w1).2, l1,
                  l.names);
      }
    }
  }

  lemma InUnfold(c: Cx, fuel: nat, s: Scope, ss: seq<Stmt>, e: Env, w: World)
    ensures ExecIn(c, fuel, s, ss, e, w)
         == if fuel == 0 then (Stop(Timeout), w, e)
            else var (o, w1, e1) := ExecBlock(c, fuel - 1, ss, Nest(s, e), w); (o, w1, Pop(e1))
  {
    hide ExecBlock;
  }

  lemma PopSame(rules: Rules, e: Env, f: Env, l: Live)
    requires SameEnv(rules, e, f, l) && l.LiveNest?
    ensures SameEnv(rules, Pop(e), Pop(f), l.outer)
  {
    hide SameVisible;
  }

  lemma {:induction false} InInStep(rules: Rules, c: Cx, d: Cx, fuel: nat, s: Scope, t: Scope, ss: seq<Stmt>, e: Env,
                                    f: Env, l: Live, v: World, w: World, receiver: bool)
    requires Ready(rules, c, d, receiver, e, f, l, v, w) && SameScope(rules, s, t) &&
             FitsBlock(rules, ss, l.names + s.Keys, receiver)
    ensures StepsTo(rules, ExecIn(c, fuel, s, ss, e, v), ExecIn(d, fuel, t, ss, f, w), l, {})
    decreases fuel, 1
  {
    hide ExecIn, ExecBlock, SameOut, SameEnv, SameWorld, SameCx, SameScope, FitsBlock, Pop, Unfit, NeedsReceiver;
    AddNothing(l);
    FixedOuts(rules);
    InUnfold(c, fuel, s, ss, e, v);
    InUnfold(d, fuel, t, ss, f, w);
    if fuel > 0 {
      PushSame(rules, e, f, l, s, t);
      var inner := LiveNest(l.names + s.Keys, l);
      BlockInStep(rules, c, d, fuel - 1, ss, Nest(s, e), Nest(t, f), inner, v, w, receiver);
      AddNothing(inner);
      PopSame(rules, ExecBlock(c, fuel - 1, ss, Nest(s, e), v).2, ExecBlock(d, fuel - 1, ss, Nest(t, f), w).2, inner);
    }
  }

  lemma SameEmpty(rules: Rules)
    ensures SameScope(rules, map[], map[])
  {
  }

  lemma SameOne(rules: Rules, n: Name, a: Value, b: Value)
    requires Same(rules, a, b)
    ensures SameScope(rules, map[n := a], map[n := b])
  {
    forall x ensures SameIn(rules, map[n := a], map[n := b], x) { }
  }

  /** A block that binds nothing of its own. */
  lemma {:induction false} PlainInStep(rules: Rules, c: Cx, d: Cx, fuel: nat, ss: seq<Stmt>, e: Env, f: Env, l: Live,
                                       v: World, w: World, receiver: bool)
    requires Ready(rules, c, d, receiver, e, f, l, v, w) && FitsBlock(rules, ss, l.names, receiver)
    ensures StepsTo(rules, ExecIn(c, fuel, map[], ss, e, v), ExecIn(d, fuel, map[], ss, f, w), l, {})
    decreases fuel, 2
  {
    hide ExecBlock, Unfit, NeedsReceiver;
    var none: Scope := map[];
    SameEmpty(rules);
    assert l.names + none.Keys == l.names;
    InInStep(rules, c, d, fuel, none, none, ss, e, f, l, v, w, receiver);
  }

  lemma {:induction false} ExecInStep(rules: Rules, c: Cx, d: Cx, fuel: nat, s: Stmt, e: Env, f: Env, l: Live, v: World,
                                      w: World, receiver: bool)
    requires Ready(rules, c, d, receiver, e, f, l, v, w) && FitsStmt(rules, s, l.names, receiver)
    ensures StepsTo(rules, Exec(c, fuel, s, e, v), Exec(d, fuel, s, f, w), l, Declares(rules, s))
    decreases fuel, 3
  {
    hide Ready, FitsStmt, Exec, StepsTo, Unfit, NeedsReceiver;
    if fuel == 0 {
      NothingInStep(rules, c, d, fuel, s, e, f, l, v, w, receiver);
    } else {
      match s
      case VarDecl(_, _) => DeclInStep(rules, c, d, fuel, s, e, f, l, v, w, receiver);
      case IfStmt(_, _, _, _) => IfInStep(rules, c, d, fuel, s, e, f, l, v, w, receiver);
      case For(_, _, _, _) => ForInStep(rules, c, d, fuel, s, e, f, l, v, w, receiver);
      case CFor(_, _, _, _) => CForInStep(rules, c, d, fuel, s, e, f, l, v, w, receiver);
      case Destructure(_, _, _) => DestructuringInStep(rules, c, d, fuel, s, e, f, l, v, w, receiver);
      case Try(_, _, _) => TryInStep(rules, c, d, fuel, s, e, f, l, v, w, receiver);
      case Break => NothingInStep(rules, c, d, fuel, s, e, f, l, v, w, receiver);
      case Continue => NothingInStep(rules, c, d, fuel, s, e, f, l, v, w, receiver);
      case Return(_) => LeafInStep(rules, c, d, fuel, s, e, f, l, v, w, receiver);
      case ExprStmt(_) => LeafInStep(rules, c, d, fuel, s, e, f, l, v, w, receiver);
      case Discard(_) => LeafInStep(rules, c, d, fuel, s, e, f, l, v, w, receiver);
      case ThrowStmt(_) => LeafInStep(rules, c, d, fuel, s, e, f, l, v, w, receiver);
      case Assign(_, _) => HandedOnStmtInStep(rules, c, d, fuel, s, e, f, l, v, w, receiver);
      case Using(_, _, _) => HandedOnStmtInStep(rules, c, d, fuel, s, e, f, l, v, w, receiver);
      case While(_, _, _) => HandedOnStmtInStep(rules, c, d, fuel, s, e, f, l, v, w, receiver);
      case Block(_) => HandedOnStmtInStep(rules, c, d, fuel, s, e, f, l, v, w, receiver);
    }
  }

  lemma HandedOnFits(rules: Rules, s: Stmt, names: set<Name>, receiver: bool)
    requires FitsStmt(rules, s, names, receiver)
    ensures s.Assign? ==> FitsExpr(rules, s.target, names, receiver) && FitsExpr(rules, s.value, names, receiver)
    ensures s.While? ==> FitsExpr(rules, s.cond, names, receiver) && FitsBlock(rules, s.body, names, receiver)
    ensures s.Block? ==> FitsBlock(rules, s.stmts, names, receiver)
  {
  }

  lemma {:induction false} HandedOnStmtInStep(rules: Rules, c: Cx, d: Cx, fuel: nat, s: Stmt, e: Env, f: Env, l: Live,
                                              v: World, w: World, receiver: bool)
    requires Ready(rules, c, d, receiver, e, f, l, v, w) && FitsStmt(rules, s, l.names, receiver)
    requires fuel > 0 && (s.Assign? || s.Using? || s.While? || s.Block?)
    ensures StepsTo(rules, Exec(c, fuel, s, e, v), Exec(d, fuel, s, f, w), l, {})
    decreases fuel, 0
  {
    hide Ready, StepsTo, FitsStmt, FitsExpr, FitsBlock, ExecAssign, WhileLoop, DoWhile, ExecIn, Eval, ExecCatches;
    hide ForEach, CForLoop, ExecDestructure, Unfit, NeedsReceiver;
    HandedOnFits(rules, s, l.names, receiver);
    match s
    case Assign(t, x) => AssignInStep(rules, c, d, fuel - 1, t, x, e, f, l, v, w, receiver);
    case Using(n, init, body) =>
      LoweredFits(rules, n, init, body, l.names, receiver);
      ExecInStep(rules, c, d, fuel - 1, Lower(n, init, body), e, f, l, v, w, receiver);
    case While(t, body, postCond) =>
      if postCond { DoWhileInStep(rules, c, d, fuel - 1, t, body, e, f, l, v, w, receiver); }
      else { WhileInStep(rules, c, d, fuel - 1, t, body, e, f, l, v, w, receiver); }
    case Block(ss) => PlainInStep(rules, c, d, fuel - 1, ss, e, f, l, v, w, receiver);
  }

  lemma NothingInStep(rules: Rules, c: Cx, d: Cx, fuel: nat, s: Stmt, e: Env, f: Env, l: Live, v: World, w: World,
                      receiver: bool)
    requires Ready(rules, c, d, receiver, e, f, l, v, w) && (fuel == 0 || s.Break? || s.Continue?)
    ensures StepsTo(rules, Exec(c, fuel, s, e, v), Exec(d, fuel, s, f, w), l, Declares(rules, s))
  {
    hide Eval, ExecIn, ExecCatches, ForEach, WhileLoop, DoWhile, CForLoop, ExecAssign, ExecDestructure, Unfit;
    hide NeedsReceiver;
  }

  lemma {:induction false} DeclInStep(rules: Rules, c: Cx, d: Cx, fuel: nat, s: Stmt, e: Env, f: Env, l: Live, v: World,
                                      w: World, receiver: bool)
    requires Ready(rules, c, d, receiver, e, f, l, v, w) && FitsStmt(rules, s, l.names, receiver) && fuel > 0 &&
             s.VarDecl?
    ensures StepsTo(rules, Exec(c, fuel, s, e, v), Exec(d, fuel, s, f, w), l, Declares(rules, s))
    decreases fuel, 0
  {
    hide FitsStmt, FitsExpr, SameEnv, SameWorld, SameCx, Eval, ExecIn, ExecCatches, ForEach, WhileLoop, DoWhile;
    hide CForLoop, ExecAssign, ExecDestructure, Unfit, NeedsReceiver;
    StmtPiecesFit(rules, s, l.names, receiver);
    EvalInStep(rules, c, d, fuel - 1, s.init, e, f, l, v, w, receiver);
    var o, p := Eval(c, fuel - 1, s.init, e, v).0, Eval(d, fuel - 1, s.init, f, w).0;
    if o.Ok? { DeclareSame(rules, e, f, l, s.name, o.value, p.value); }
  }

  /** Statements that evaluate one expression and leave the scopes alone. */
  lemma LeafUnfold(c: Cx, fuel: nat, s: Stmt, e: Env, w: World)
    requires fuel > 0 && (s.Return? || s.ExprStmt? || s.Discard? || s.ThrowStmt?)
    ensures s.Return? && s.result.None? ==> Exec(c, fuel, s, e, w) == (Stop(ReturnSig(Unit)), w, e)
    ensures s.Return? && s.result.Some? ==>
              var (o, w1) := Eval(c, fuel - 1, s.result.value, e, w);
              Exec(c, fuel, s, e, w) == (if o.Stop? then o else Stop(ReturnSig(o.value)), w1, e)
    ensures s.ThrowStmt? ==>
              var (o, w1) := Eval(c, fuel - 1, s.value, e, w);
              Exec(c, fuel, s, e, w) == (if o.Stop? then o else Stop(ThrowSig(o.value)), w1, e)
    ensures s.ExprStmt? || s.Discard? ==>
              var (o, w1) := Eval(c, fuel - 1, s.expr, e, w);
              Exec(c, fuel, s, e, w) == (if o.Stop? then o else Ok(Unit), w1, e)
  {
    hide Eval, ExecIn, ExecCatches, ForEach, WhileLoop, DoWhile, CForLoop, ExecAssign, ExecDestructure;
  }

  lemma {:induction false} LeafInStep(rules: Rules, c: Cx, d: Cx, fuel: nat, s: Stmt, e: Env, f: Env, l: Live,
                                      v: World, w: World, receiver: bool)
    requires Ready(rules, c, d, receiver, e, f, l, v, w) && FitsStmt(rules, s, l.names, receiver) && fuel > 0
    requires s.Return? || s.ExprStmt? || s.Discard? || s.ThrowStmt?
    ensures StepsTo(rules, Exec(c, fuel, s, e, v), Exec(d, fuel, s, f, w), l, {})
    decreases fuel, 0
  {
    hide Exec, Eval, SameOut, Same, SameEnv, SameWorld, SameCx, FitsStmt, FitsExpr, Unfit, NeedsReceiver;
    FixedOuts(rules);
    AddNothing(l);
    StmtPiecesFit(rules, s, l.names, receiver);
    LeafUnfold(c, fuel, s, e, v);
    LeafUnfold(d, fuel, s, f, w);
    if s.Return? && s.result.None? {
      UnitSame(rules);
    } else {
      var x := if s.Return? then s.result.value else if s.ThrowStmt? then s.value else s.expr;
      EvalInStep(rules, c, d, fuel - 1, x, e, f, l, v, w, receiver);
      var o, p := Eval(c, fuel - 1, x, e, v).0, Eval(d, fuel - 1, x, f, w).0;
      TestSame(rules, o, p);
      if o.Ok? { KindSame(rules, o.value, p.value); }
    }
  }

  lemma UnitSame(rules: Rules)
    ensures SameOut(rules, Stop(ReturnSig(Unit)), Stop(ReturnSig(Unit)))
  {
  }

  lemma {:induction false} DestructuringInStep(rules: Rules, c: Cx, d: Cx, fuel: nat, s: Stmt, e: Env, f: Env, l: Live,
                                               v: World, w: World, receiver: bool)
    requires Ready(rules, c, d, receiver, e, f, l, v, w) && FitsStmt(rules, s, l.names, receiver) && fuel > 0 &&
             s.Destructure?
    ensures StepsTo(rules, Exec(c, fuel, s, e, v), Exec(d, fuel, s, f, w), l, Declares(rules, s))
    decreases fuel, 0
  {
    hide FitsStmt, FitsExpr, FitsBlock, SameEnv, SameWorld, SameCx, Eval, ExecDestructure, ExecIn, ExecCatches;
    hide ForEach, WhileLoop, DoWhile, CForLoop, ExecAssign, Unfit, NeedsReceiver;
    StmtPiecesFit(rules, s, l.names, receiver);
    EvalInStep(rules, c, d, fuel - 1, s.init, e, f, l, v, w, receiver);
    var (o, v1) := Eval(c, fuel - 1, s.init, e, v);
    var (q, w1) := Eval(d, fuel - 1, s.init, f, w);
    if o.Ok? { DestructureInStep(rules, c, d, fuel - 1, s.pat, o.value, q.value, s.elseBlock, e, f, l, v1, w1, receiver); }
  }

  lemma LoweredFits(rules: Rules, n: Name, init: Expr, body: seq<Stmt>, names: set<Name>, receiver: bool)
    requires FitsStmt(rules, Using(n, init, body), names, receiver)
    ensures FitsStmt(rules, Lower(n, init, body), names, receiver) && Declares(rules, Lower(n, init, body)) == {}
  {
    LoweredFree(rules, n, init, body);
    if AnyStmt(Lower(n, init, body), Unfit(rules)) { LoweredAny(n, init, body, Unfit(rules)); }
    if AnyStmt(Lower(n, init, body), NeedsReceiver) { LoweredAny(n, init, body, NeedsReceiver); }
    var close, guarded, decl := CloseCall(n), Guarded(n, body), VarDecl(n, init);
  }

  lemma LoweredFree(rules: Rules, n: Name, init: Expr, body: seq<Stmt>)
    ensures FreeStmt(rules, Lower(n, init, body), {}) == FreeStmt(rules, Using(n, init, body), {})
  {
    var close, guarded, decl := CloseCall(n), Guarded(n, body), VarDecl(n, init);
    assert {} + {n} == {n} && {n} + {} == {n};
    assert FreeExpr(rules, close.expr.callee, {n}) == FreeExpr(rules, Ident(n), {n}) == {};
    assert FreeExpr(rules, close.expr, {n}) == FreeExpr(rules, close.expr.callee, {n}) + FreeAll(rules, [], {n}) == {};
    assert [close][1..] == [] && FreeBlock(rules, [close], {n}) == FreeStmt(rules, close, {n}) + FreeBlock(rules, [], {n}) == {};
    assert FreeOptBlock(rules, SomeBlock([close]), {n}) == {};
    assert FreeStmt(rules, guarded, {n}) == FreeBlock(rules, body, {n});
    assert [decl, guarded][1..] == [guarded] && [guarded][1..] == [];
    assert FreeBlock(rules, [guarded], {n}) == FreeStmt(rules, guarded, {n}) + FreeBlock(rules, [], {n});
    assert FreeBlock(rules, [decl, guarded], {}) == FreeStmt(rules, decl, {}) + FreeBlock(rules, [guarded], {n});
  }

  /** The lowering adds only the release call. */
  lemma LoweredAny(n: Name, init: Expr, body: seq<Stmt>, p: Expr -> bool)
    requires forall e: Expr :: e.Call? || e.One? || e.Ident? ==> !p(e)
    requires AnyStmt(Lower(n, init, body), p)
    ensures AnyStmt(Using(n, init, body), p)
  {
    var close, guarded, decl := CloseCall(n), Guarded(n, body), VarDecl(n, init);
    assert !AnyExpr(Ident(n), p);
    assert !AnyExpr(close.expr.callee, p);
    assert !AnyExpr(close.expr, p);
    assert !AnyStmt(close, p);
    assert !AnyBlock([close], p);
    assert !AnyOptBlock(SomeBlock([close]), p);
    assert AnyStmt(guarded, p) ==> AnyBlock(body, p);
    assert AnyBlock([decl, guarded], p) ==> AnyStmt(decl, p) || AnyStmt(guarded, p);
  }

  function ThenScope(s: Stmt, v: Value): Scope
    requires s.IfStmt?
  {
    if s.bind.Some? then map[s.bind.value := v] else map[]
  }

  lemma IfStmtUnfold(c: Cx, fuel: nat, s: Stmt, e: Env, w: World)
    requires fuel > 0 && s.IfStmt?
    ensures var (o, w1) := Eval(c, fuel - 1, s.cond, e, w);
            Exec(c, fuel, s, e, w)
            == if o.Stop? then (o, w1, e)
               else if s.bind.None? && !IsBool(o.value) then (Stop(Fault), w1, e)
               else if if s.bind.Some? then o.value != Null() else IsTrue(o.value)
               then ExecIn(c, fuel - 1, ThenScope(s, o.value), s.thenBlock, e, w1)
               else if s.elseBlock.SomeBlock? then ExecIn(c, fuel - 1, map[], s.elseBlock.stmts, e, w1)
               else (Ok(Unit), w1, e)
  {
    hide Eval, ExecIn, ExecCatches, ForEach, WhileLoop, DoWhile, CForLoop, ExecAssign, ExecDestructure;
  }

  lemma {:induction false} IfInStep(rules: Rules, c: Cx, d: Cx, fuel: nat, s: Stmt, e: Env, f: Env, l: Live, v: World,
                                    w: World, receiver: bool)
    requires Ready(rules, c, d, receiver, e, f, l, v, w) && FitsStmt(rules, s, l.names, receiver) && fuel > 0 &&
             s.IfStmt?
    ensures StepsTo(rules, Exec(c, fuel, s, e, v), Exec(d, fuel, s, f, w), l, {})
    decreases fuel, 0
  {
    hide Exec, Eval, ExecIn, ThenScope, FitsStmt, FitsExpr, FitsBlock, SameOut, Same, SameEnv, SameWorld, SameCx;
    hide Unfit, NeedsReceiver;
    StmtPiecesFit(rules, s, l.names, receiver);
    AddNothing(l);
    FixedOuts(rules);
    IfStmtUnfold(c, fuel, s, e, v);
    IfStmtUnfold(d, fuel, s, f, w);
    EvalInStep(rules, c, d, fuel - 1, s.cond, e, f, l, v, w, receiver);
    var (o, v1) := Eval(c, fuel - 1, s.cond, e, v);
    var (p, w1) := Eval(d, fuel - 1, s.cond, f, w);
    TestSame(rules, o, p);
    if o.Ok? {
      ThenInStep(rules, c, d, fuel - 1, s, o.value, p.value, e, f, l, v1, w1, receiver);
      if s.elseBlock.SomeBlock? {
        PlainInStep(rules, c, d, fuel - 1, s.elseBlock.stmts, e, f, l, v1, w1, receiver);
      }
    }
  }

  lemma {:induction false} ThenInStep(rules: Rules, c: Cx, d: Cx, fuel: nat, s: Stmt, a: Value, b: Value, e: Env,
                                      f: Env, l: Live, v: World, w: World, receiver: bool)
    requires Ready(rules, c, d, receiver, e, f, l, v, w) && FitsStmt(rules, s, l.names, receiver) && s.IfStmt? &&
             Same(rules, a, b)
    ensures StepsTo(rules, ExecIn(c, fuel, ThenScope(s, a), s.thenBlock, e, v),
                    ExecIn(d, fuel, ThenScope(s, b), s.thenBlock, f, w), l, {})
    decreases fuel, 2
  {
    hide FitsBlock, SameEnv, SameWorld, SameCx, ExecIn, Unfit, NeedsReceiver;
    var bound := if s.bind.Some? then {s.bind.value} else {};
    if s.bind.Some? { SameOne(rules, s.bind.value, a, b); } else { SameEmpty(rules); }
    assert {} + bound == bound && ThenScope(s, a).Keys == bound;
    InnerFits(rules, s.thenBlock, bound, l.names, receiver);
    InInStep(rules, c, d, fuel, ThenScope(s, a), ThenScope(s, b), s.thenBlock, e, f, l, v, w, receiver);
  }

  lemma ForUnfold(c: Cx, fuel: nat, s: Stmt, e: Env, w: World)
    requires fuel > 0 && s.For?
    ensures var (o, w1) := Eval(c, fuel - 1, s.iter, e, w);
            Exec(c, fuel, s, e, w)
            == if o.Stop? then (o, w1, e)
               else
                 var items := IterElements(o.value);
                 if items.None? || (s.val.Some? && !o.value.MapV?) then (Stop(Fault), w1, e)
                 else ForEach(c, fuel - 1, s.name, s.val, items.value, s.body, e, w1)
  {
    hide Eval, IterElements, ExecIn, ExecCatches, ForEach, WhileLoop, DoWhile, CForLoop, ExecAssign, ExecDestructure;
  }

  lemma IterSame(rules: Rules, a: Value, b: Value)
    requires Same(rules, a, b)
    ensures a.MapV? <==> b.MapV?
    ensures IterElements(a).Some? <==> IterElements(b).Some?
    ensures IterElements(a).Some? ==> SameAll(rules, IterElements(a).value, IterElements(b).value)
  {
    IterElementsSame(rules, a, b);
  }

  lemma ForBodyFits(rules: Rules, s: Stmt, names: set<Name>, receiver: bool)
    requires s.For? && FitsStmt(rules, s, names, receiver)
    ensures FitsExpr(rules, s.iter, names, receiver)
    ensures FreeBlock(rules, s.body, {s.name}) <= names && !AnyBlock(s.body, Unfit(rules))
    ensures AnyBlock(s.body, NeedsReceiver) ==> receiver
  {
    assert {} + {s.name} == {s.name};
  }

  lemma StopsInStep(rules: Rules, o: Out, p: Out, e: Env, f: Env, l: Live, v: World, w: World, declared: set<Name>)
    requires o.Stop? && SameOut(rules, o, p) && SameEnv(rules, e, f, l) && SameWorld(rules, v, w)
    ensures StepsTo(rules, (o, v, e), (p, w, f), l, declared)
  {
    hide SameOut, SameEnv, SameWorld;
  }

  lemma {:induction false} ForInStep(rules: Rules, c: Cx, d: Cx, fuel: nat, s: Stmt, e: Env, f: Env, l: Live, v: World,
                                     w: World, receiver: bool)
    requires Ready(rules, c, d, receiver, e, f, l, v, w) && FitsStmt(rules, s, l.names, receiver) && fuel > 0 && s.For?
    ensures StepsTo(rules, Exec(c, fuel, s, e, v), Exec(d, fuel, s, f, w), l, {})
    decreases fuel, 0
  {
    hide Exec, Eval, ForEach, IterElements, FitsExpr, FitsStmt, SameOut, Same, SameAll, SameEnv, SameWorld, SameCx;
    hide StepsTo, FreeBlock, AnyBlock, Unfit, NeedsReceiver;
    FixedOuts(rules);
    ForBodyFits(rules, s, l.names, receiver);
    ForUnfold(c, fuel, s, e, v);
    ForUnfold(d, fuel, s, f, w);
    EvalInStep(rules, c, d, fuel - 1, s.iter, e, f, l, v, w, receiver);
    var (o, v1) := Eval(c, fuel - 1, s.iter, e, v);
    var (p, w1) := Eval(d, fuel - 1, s.iter, f, w);
    TestSame(rules, o, p);
    if o.Stop? {
      StopsInStep(rules, o, p, e, f, l, v1, w1, {});
    } else {
      IterSame(rules, o.value, p.value);
      if IterElements(o.value).None? || (s.val.Some? && !o.value.MapV?) {
        StopsInStep(rules, Stop(Fault), Stop(Fault), e, f, l, v1, w1, {});
      } else {
        ForEachInStep(rules, c, d, fuel - 1, s.name, s.val, IterElements(o.value).value, IterElements(p.value).value, s.body,
                      e, f, l, v1, w1, receiver);
      }
    }
  }

  lemma ForEachUnfold(c: Cx, fuel: nat, n: Name, val: Option<Name>, xs: seq<Value>, body: seq<Stmt>, e: Env, w: World)
    ensures ForEach(c, fuel, n, val, xs, body, e, w)
         == if fuel == 0 then (Stop(Timeout), w, e)
            else if xs == [] then (Ok(Unit), w, e)
            else
              var (o, w1, e1) := ExecIn(c, fuel - 1, LoopScope(n, val, xs[0]), body, e, w);
              var exit := LoopExit(o);
              if exit.Some? then (exit.value, w1, e1) else ForEach(c, fuel - 1, n, val, xs[1..], body, e1, w1)
  {
    hide ExecIn, LoopExit, LoopScope;
  }

  lemma TailsSame(rules: Rules, xs: seq<Value>, ys: seq<Value>)
    requires SameAll(rules, xs, ys)
    ensures |xs| == |ys|
    ensures xs != [] ==> Same(rules, xs[0], ys[0]) && SameAll(rules, xs[1..], ys[1..])
  {
    hide Same;
  }

  lemma {:induction false} ForEachInStep(rules: Rules, c: Cx, d: Cx, fuel: nat, n: Name, val: Option<Name>,
                                         xs: seq<Value>, ys: seq<Value>,
                                         body: seq<Stmt>, e: Env, f: Env, l: Live, v: World, w: World, receiver: bool)
    requires Ready(rules, c, d, receiver, e, f, l, v, w) && SameAll(rules, xs, ys)
    requires FreeBlock(rules, body, {n}) <= l.names && !AnyBlock(body, Unfit(rules)) && (AnyBlock(body, NeedsReceiver) ==> receiver)
    ensures StepsTo(rules, ForEach(c, fuel, n, val, xs, body, e, v), ForEach(d, fuel, n, val, ys, body, f, w), l, {})
    decreases fuel, 0
  {
    hide ForEach, ExecIn, LoopExit, LoopScope, Same, SameAll, SameOut, SameEnv, SameWorld, SameCx, FreeBlock;
    hide AnyBlock, Unfit, NeedsReceiver;
    FixedOuts(rules);
    AddNothing(l);
    TailsSame(rules, xs, ys);
    ForEachUnfold(c, fuel, n, val, xs, body, e, v);
    ForEachUnfold(d, fuel, n, val, ys, body, f, w);
    if fuel > 0 && xs != [] {
      var s, t := LoopScope(n, val, xs[0]), LoopScope(n, val, ys[0]);
      LoopBodyFits(rules, body, n, val, xs[0], l.names, receiver);
      LoopScopeSame(rules, n, val, xs[0], ys[0]);
      InInStep(rules, c, d, fuel - 1, s, t, body, e, f, l, v, w, receiver);
      var (o, v1, e1) := ExecIn(c, fuel - 1, s, body, e, v);
      var (p, w1, f1) := ExecIn(d, fuel - 1, t, body, f, w);
      ExitSame(rules, o, p);
      if LoopExit(o).None? {
        ForEachInStep(rules, c, d, fuel - 1, n, val, xs[1..], ys[1..], body, e1, f1, l, v1, w1, receiver);
      } else {
        ExitStops(o);
      }
    }
  }

  lemma LoopBodyFits(rules: Rules, body: seq<Stmt>, n: Name, val: Option<Name>, x: Value, names: set<Name>,
                     receiver: bool)
    requires FreeBlock(rules, body, {n}) <= names && !AnyBlock(body, Unfit(rules)) && (AnyBlock(body, NeedsReceiver) ==> receiver)
    ensures FitsBlock(rules, body, names + LoopScope(n, val, x).Keys, receiver)
  {
    InnerFits(rules, body, {n}, names, receiver);
    assert n in LoopScope(n, val, x);
    assert names + {n} <= names + LoopScope(n, val, x).Keys;
  }

  lemma ExitStops(o: Out)
    ensures LoopExit(o).Some? ==> o.Stop?
  {
  }

  lemma WhileUnfold(c: Cx, fuel: nat, t: Expr, body: seq<Stmt>, e: Env, w: World)
    ensures WhileLoop(c, fuel, t, body, e, w)
         == if fuel == 0 then (Stop(Timeout), w, e)
            else
              var (o, w1) := Eval(c, fuel - 1, t, e, w);
              if o.Stop? then (o, w1, e)
              else if !IsBool(o.value) then (Stop(Fault), w1, e)
              else if !IsTrue(o.value) then (Ok(Unit), w1, e)
              else
                var (p, w2, e2) := ExecIn(c, fuel - 1, map[], body, e, w1);
                var exit := LoopExit(p);
                if exit.Some? then (exit.value, w2, e2) else WhileLoop(c, fuel - 1, t, body, e2, w2)
  {
    hide Eval, ExecIn, LoopExit;
  }

  lemma {:induction false} WhileInStep(rules: Rules, c: Cx, d: Cx, fuel: nat, t: Expr, body: seq<Stmt>, e: Env, f: Env,
                                       l: Live, v: World, w: World, receiver: bool)
    requires Ready(rules, c, d, receiver, e, f, l, v, w) && FitsExpr(rules, t, l.names, receiver) &&
             FitsBlock(rules, body, l.names, receiver)
    ensures StepsTo(rules, WhileLoop(c, fuel, t, body, e, v), WhileLoop(d, fuel, t, body, f, w), l, {})
    decreases fuel, 0
  {
    hide WhileLoop, Eval, ExecIn, LoopExit, SameOut, Same, SameEnv, SameWorld, SameCx, FitsExpr, FitsBlock, Unfit;
    hide NeedsReceiver;
    AddNothing(l);
    FixedOuts(rules);
    WhileUnfold(c, fuel, t, body, e, v);
    WhileUnfold(d, fuel, t, body, f, w);
    if fuel > 0 {
      EvalInStep(rules, c, d, fuel - 1, t, e, f, l, v, w, receiver);
      var (o, v1) := Eval(c, fuel - 1, t, e, v);
      var (p, w1) := Eval(d, fuel - 1, t, f, w);
      TestSame(rules, o, p);
      if o.Ok? && IsTrue(o.value) {
        PlainInStep(rules, c, d, fuel - 1, body, e, f, l, v1, w1, receiver);
        var (q, v2, e2) := ExecIn(c, fuel - 1, map[], body, e, v1);
        var (r, w2, f2) := ExecIn(d, fuel - 1, map[], body, f, w1);
        ExitSame(rules, q, r);
        WhileInStep(rules, c, d, fuel - 1, t, body, e2, f2, l, v2, w2, receiver);
      }
    }
  }

  lemma DoWhileUnfold(c: Cx, fuel: nat, t: Expr, body: seq<Stmt>, e: Env, w: World)
    ensures DoWhile(c, fuel, t, body, e, w)
         == if fuel == 0 then (Stop(Timeout), w, e)
            else
              var (p, w1, e1) := ExecIn(c, fuel - 1, map[], body, e, w);
              var exit := LoopExit(p);
              if exit.Some? then (exit.value, w1, e1)
              else
                var (o, w2) := Eval(c, fuel - 1, t, e1, w1);
                if o.Stop? then (o, w2, e1)
                else if !IsBool(o.value) then (Stop(Fault), w2, e1)
                else if !IsTrue(o.value) then (Ok(Unit), w2, e1)
                else DoWhile(c, fuel - 1, t, body, e1, w2)
  {
    hide Eval, ExecIn, LoopExit;
  }

  lemma {:induction false} DoWhileInStep(rules: Rules, c: Cx, d: Cx, fuel: nat, t: Expr, body: seq<Stmt>, e: Env,
                                         f: Env, l: Live, v: World, w: World, receiver: bool)
    requires Ready(rules, c, d, receiver, e, f, l, v, w) && FitsExpr(rules, t, l.names, receiver) &&
             FitsBlock(rules, body, l.names, receiver)
    ensures StepsTo(rules, DoWhile(c, fuel, t, body, e, v), DoWhile(d, fuel, t, body, f, w), l, {})
    decreases fuel, 0
  {
    hide DoWhile, Eval, ExecIn, LoopExit, SameOut, Same, SameEnv, SameWorld, SameCx, FitsExpr, FitsBlock, Unfit;
    hide NeedsReceiver;
    AddNothing(l);
    FixedOuts(rules);
    DoWhileUnfold(c, fuel, t, body, e, v);
    DoWhileUnfold(d, fuel, t, body, f, w);
    if fuel > 0 {
      PlainInStep(rules, c, d, fuel - 1, body, e, f, l, v, w, receiver);
      var (q, v1, e1) := ExecIn(c, fuel - 1, map[], body, e, v);
      var (r, w1, f1) := ExecIn(d, fuel - 1, map[], body, f, w);
      ExitSame(rules, q, r);
      EvalInStep(rules, c, d, fuel - 1, t, e1, f1, l, v1, w1, receiver);
      var (o, v2) := Eval(c, fuel - 1, t, e1, v1);
      var (p, w2) := Eval(d, fuel - 1, t, f1, w1);
      TestSame(rules, o, p);
      DoWhileInStep(rules, c, d, fuel - 1, t, body, e1, f1, l, v2, w2, receiver);
    }
  }

  lemma CForStmtUnfold(c: Cx, fuel: nat, s: Stmt, e: Env, w: World)
    requires fuel > 0 && s.CFor?
    ensures var (o, w1, e1) := if s.start.Some? then Exec(c, fuel - 1, s.start.value, Push(e), w) else (Ok(Unit), w, Push(e));
            var (p, w2, e2) := CForLoop(c, fuel - 1, s.test, s.step, s.body, e1, w1);
            Exec(c, fuel, s, e, w) == if o.Stop? then (o, w1, Pop(e1)) else (p, w2, Pop(e2))
  {
    hide Eval, ExecIn, ExecCatches, ForEach, WhileLoop, DoWhile, CForLoop, ExecAssign, ExecDestructure;
  }

  lemma CForStartFits(rules: Rules, s: Stmt, names: set<Name>, receiver: bool)
    requires s.CFor? && s.start.Some? && FitsStmt(rules, s, names, receiver)
    ensures FitsStmt(rules, s.start.value, names, receiver)
  {
    OptStmtFits(rules, s.start, names, receiver);
  }

  /** The scope a loop opens before its first clause. */
  lemma PushedSame(rules: Rules, e: Env, f: Env, l: Live)
    requires SameEnv(rules, e, f, l)
    ensures SameEnv(rules, Push(e), Push(f), LiveNest(l.names, l))
  {
    hide SameEnv;
    var none: Scope := map[];
    SameEmpty(rules);
    PushSame(rules, e, f, l, none, none);
    assert l.names + none.Keys == l.names;
  }

  lemma {:induction false} CForInStep(rules: Rules, c: Cx, d: Cx, fuel: nat, s: Stmt, e: Env, f: Env, l: Live, v: World,
                                      w: World, receiver: bool)
    requires Ready(rules, c, d, receiver, e, f, l, v, w) && FitsStmt(rules, s, l.names, receiver) && fuel > 0 && s.CFor?
    ensures StepsTo(rules, Exec(c, fuel, s, e, v), Exec(d, fuel, s, f, w), l, {})
    decreases fuel, 0
  {
    hide Exec, CForLoop, SameOut, SameEnv, SameWorld, FitsStmt, FitsExpr, FitsBlock, Declares, Pop, Push, Unfit;
    hide NeedsReceiver;
    AddNothing(l);
    FixedOuts(rules);
    PushedSame(rules, e, f, l);
    CForStmtUnfold(c, fuel, s, e, v);
    CForStmtUnfold(d, fuel, s, f, w);
    var inner := LiveNest(l.names, l);
    var declared := DeclaresOpt(rules, s.start);
    var l1 := Add(inner, declared);
    AddNothing(inner);
    var e1, f1, v1, w1 := Push(e), Push(f), v, w;
    var o, p := Ok(Unit), Ok(Unit);
    if s.start.Some? {
      CForStartFits(rules, s, l.names, receiver);
      ExecInStep(rules, c, d, fuel - 1, s.start.value, Push(e), Push(f), inner, v, w, receiver);
      var r, q := Exec(c, fuel - 1, s.start.value, Push(e), v), Exec(d, fuel - 1, s.start.value, Push(f), w);
      TestSame(rules, r.0, q.0);
      o, p, e1, f1, v1, w1 := r.0, q.0, r.2, q.2, r.1, q.1;
    }
    PopSame(rules, e1, f1, if o.Ok? then l1 else inner);
    if o.Ok? {
      CForFits(rules, s, l.names, receiver);
      CForLoopInStep(rules, c, d, fuel - 1, s.test, s.step, s.body, e1, f1, l1, v1, w1, receiver);
      AddNothing(l1);
      PopSame(rules, CForLoop(c, fuel - 1, s.test, s.step, s.body, e1, v1).2,
              CForLoop(d, fuel - 1, s.test, s.step, s.body, f1, w1).2, l1);
    }
  }

  lemma CForFits(rules: Rules, s: Stmt, names: set<Name>, receiver: bool)
    requires FitsStmt(rules, s, names, receiver) && s.CFor? && rules.Running?
    ensures var inner := names + DeclaresOpt(rules, s.start);
            && (s.test.Some? ==> FitsExpr(rules, s.test.value, inner, receiver))
            && (s.step.Some? ==> FitsStmt(rules, s.step.value, inner, receiver))
            && FitsBlock(rules, s.body, inner, receiver)
  {
    var d := DeclaresOpt(rules, s.start);
    assert {} + d == d && d + {} == d;
    assert !AnyOpt(s.test, Unfit(rules)) && (AnyOpt(s.test, NeedsReceiver) ==> receiver);
    assert !AnyOptStmt(s.step, Unfit(rules)) && (AnyOptStmt(s.step, NeedsReceiver) ==> receiver);
    assert FreeOpt(rules, s.test, d) <= names && FreeOptStmt(rules, s.step, d) <= names;
    OptMinus(rules, s.test, {}, d);
    OptStmtMinus(rules, s.step, {}, d);
    PlainBlockMinus(rules, s.body, {}, d);
    if s.test.Some? { OptFits(rules, s.test, names + d, receiver); }
    if s.step.Some? { OptStmtFits(rules, s.step, names + d, receiver); }
  }

  /** What a loop does once its body has not left it. */
  function Next(c: Cx, fuel: nat, test: Option<Expr>, step: Option<Stmt>, body: seq<Stmt>, e: Env, w: World): (Out,
                World, Env) {
    if step.None? then CForLoop(c, fuel, test, step, body, e, w)
    else
      var (q, w1, e1) := Exec(c, fuel, step.value, e, w);
      if q.Stop? then (q, w1, e1) else CForLoop(c, fuel, test, step, body, e1, w1)
  }

  lemma CForUnfold(c: Cx, fuel: nat, test: Option<Expr>, step: Option<Stmt>, body: seq<Stmt>, e: Env, w: World)
    ensures CForLoop(c, fuel, test, step, body, e, w)
         == if fuel == 0 then (Stop(Timeout), w, e)
            else
              var (o, w1) := if test.Some? then Eval(c, fuel - 1, test.value, e, w) else (Ok(Bool(true)), w);
              if o.Stop? then (o, w1, e)
              else if !IsBool(o.value) then (Stop(Fault), w1, e)
              else if !IsTrue(o.value) then (Ok(Unit), w1, e)
              else
                var (p, w2, e2) := ExecIn(c, fuel - 1, map[], body, e, w1);
                var exit := LoopExit(p);
                if exit.Some? then (exit.value, w2, e2) else Next(c, fuel - 1, test, step, body, e2, w2)
  {
    hide Eval, ExecIn, Exec, LoopExit;
  }

  lemma {:induction false} CForLoopInStep(rules: Rules, c: Cx, d: Cx, fuel: nat, test: Option<Expr>, step: Option<Stmt>,
                                          body: seq<Stmt>, e: Env, f: Env, l: Live, v: World, w: World, receiver: bool)
    requires Ready(rules, c, d, receiver, e, f, l, v, w)
    requires test.Some? ==> FitsExpr(rules, test.value, l.names, receiver)
    requires step.Some? ==> FitsStmt(rules, step.value, l.names, receiver)
    requires FitsBlock(rules, body, l.names, receiver)
    ensures StepsTo(rules, CForLoop(c, fuel, test, step, body, e, v), CForLoop(d, fuel, test, step, body, f, w), l, {})
    decreases fuel, 0
  {
    hide SameOut, LoopExit, SameEnv, SameWorld, SameCx, Eval, ExecIn, CForLoop, Next, FitsExpr, FitsStmt, FitsBlock;
    hide Unfit, NeedsReceiver;
    AddNothing(l);
    FixedOuts(rules);
    CForUnfold(c, fuel, test, step, body, e, v);
    CForUnfold(d, fuel, test, step, body, f, w);
    if fuel > 0 {
      if test.Some? { EvalInStep(rules, c, d, fuel - 1, test.value, e, f, l, v, w, receiver); }
      var (o, v1) := if test.Some? then Eval(c, fuel - 1, test.value, e, v) else (Ok(Bool(true)), v);
      var (p, w1) := if test.Some? then Eval(d, fuel - 1, test.value, f, w) else (Ok(Bool(true)), w);
      TestSame(rules, o, p);
      if o.Ok? && IsTrue(o.value) {
        PlainInStep(rules, c, d, fuel - 1, body, e, f, l, v1, w1, receiver);
        var (q, v2, e2) := ExecIn(c, fuel - 1, map[], body, e, v1);
        var (r, w2, f2) := ExecIn(d, fuel - 1, map[], body, f, w1);
        ExitSame(rules, q, r);
        CForNextInStep(rules, c, d, fuel - 1, test, step, body, e2, f2, l, v2, w2, receiver);
      }
    }
  }

  lemma {:induction false} CForNextInStep(rules: Rules, c: Cx, d: Cx, fuel: nat, test: Option<Expr>, step: Option<Stmt>,
                                          body: seq<Stmt>, e: Env, f: Env, l: Live, v: World, w: World, receiver: bool)
    requires Ready(rules, c, d, receiver, e, f, l, v, w)
    requires test.Some? ==> FitsExpr(rules, test.value, l.names, receiver)
    requires step.Some? ==> FitsStmt(rules, step.value, l.names, receiver)
    requires FitsBlock(rules, body, l.names, receiver)
    ensures StepsTo(rules, Next(c, fuel, test, step, body, e, v), Next(d, fuel, test, step, body, f, w), l, {})
    decreases fuel, 4
  {
    hide SameOut, SameEnv, SameWorld, SameCx, CForLoop, Exec, FitsExpr, FitsStmt, FitsBlock, Unfit, NeedsReceiver;
    AddNothing(l);
    if step.None? {
      CForLoopInStep(rules, c, d, fuel, test, step, body, e, f, l, v, w, receiver);
    } else {
      ExecInStep(rules, c, d, fuel, step.value, e, f, l, v, w, receiver);
      var (x, v1, e1) := Exec(c, fuel, step.value, e, v);
      var (y, w1, f1) := Exec(d, fuel, step.value, f, w);
      TestSame(rules, x, y);
      if x.Ok? {
        NarrowEnv(rules, e1, f1, Add(l, Declares(rules, step.value)), l.names);
        CForLoopInStep(rules, c, d, fuel, test, step, body, e1, f1, l, v1, w1, receiver);
      }
    }
  }

  lemma {:induction false} TryInStep(rules: Rules, c: Cx, d: Cx, fuel: nat, s: Stmt, e: Env, f: Env, l: Live, v: World,
                                     w: World, receiver: bool)
    requires Ready(rules, c, d, receiver, e, f, l, v, w) && FitsStmt(rules, s, l.names, receiver) && fuel > 0 && s.Try?
    ensures StepsTo(rules, Exec(c, fuel, s, e, v), Exec(d, fuel, s, f, w), l, {})
    decreases fuel, 0
  {
    hide Eval, FreeBlock, FitsStmt, FitsBlock, FitsCatch, SameEnv, SameWorld, SameCx, ExecIn, ExecCatches, ForEach;
    hide WhileLoop, DoWhile, CForLoop, ExecAssign, ExecDestructure, Unfit, NeedsReceiver;
    StmtPiecesFit(rules, s, l.names, receiver);
    AddNothing(l);
    PlainInStep(rules, c, d, fuel - 1, s.body, e, f, l, v, w, receiver);
    var (o, v1, e1) := ExecIn(c, fuel - 1, map[], s.body, e, v);
    var (p, w1, f1) := ExecIn(d, fuel - 1, map[], s.body, f, w);
    CatchesFit(rules, s, l.names, receiver);
    CatchesInStep(rules, c, d, fuel - 1, s.catches, o, p, e1, f1, l, v1, w1, receiver);
    var (x, v2, e2) := ExecCatches(c, fuel - 1, s.catches, o, e1, v1);
    var (y, w2, f2) := ExecCatches(d, fuel - 1, s.catches, p, f1, w1);
    if s.finallyBlock.SomeBlock? {
      PlainInStep(rules, c, d, fuel - 1, s.finallyBlock.stmts, e2, f2, l, v2, w2, receiver);
    }
  }

  ghost predicate FitsCatch(rules: Rules, k: Catch, names: set<Name>, receiver: bool) {
    FitsBlock(rules, k.body, names + {k.name}, receiver)
  }

  lemma {:induction false} CatchFree(rules: Rules, ks: seq<Catch>, k: Catch)
    requires k in ks
    ensures FreeBlock(rules, k.body, {k.name}) <= FreeCatches(rules, ks, {})
  {
    assert {} + {k.name} == {k.name};
    if k != ks[0] {
      assert ks == [ks[0]] + ks[1..];
      CatchFree(rules, ks[1..], k);
    }
  }

  lemma CatchesFit(rules: Rules, s: Stmt, names: set<Name>, receiver: bool)
    requires s.Try? && FitsStmt(rules, s, names, receiver)
    ensures forall k :: k in s.catches ==> FitsCatch(rules, k, names, receiver)
  {
    forall k | k in s.catches ensures FitsCatch(rules, k, names, receiver) {
      CatchFree(rules, s.catches, k);
      assert !AnyCatch(k, Unfit(rules)) && (AnyCatch(k, NeedsReceiver) ==> receiver);
      InnerFits(rules, k.body, {k.name}, names, receiver);
    }
  }

  lemma {:induction false} CatchesInStep(rules: Rules, c: Cx, d: Cx, fuel: nat, ks: seq<Catch>, o: Out, p: Out, e: Env,
                                         f: Env, l: Live, v: World, w: World, receiver: bool)
    requires Ready(rules, c, d, receiver, e, f, l, v, w) && SameOut(rules, o, p)
    requires forall k :: k in ks ==> FitsCatch(rules, k, l.names, receiver)
    ensures StepsTo(rules, ExecCatches(c, fuel, ks, o, e, v), ExecCatches(d, fuel, ks, p, f, w), l, {})
    decreases fuel, 0
  {
    hide FitsBlock, SameEnv, ExecIn, SameWorld, SameEnv, Unfit, NeedsReceiver;
    AddNothing(l);
    if fuel > 0 && o.Stop? && o.signal.ThrowSig? && ks != [] {
      var a, b := o.signal.value, p.signal.value;
      forall t ensures IsInstance(c.host, a, t, v) == IsInstance(d.host, b, t, w) { IsInstanceSame(rules, c.host, a, b, t, v, w); }
      if exists t :: t in ks[0].types && IsInstance(c.host, a, t, v) {
        SameOne(rules, ks[0].name, a, b);
        assert FitsCatch(rules, ks[0], l.names, receiver);
        assert (map[ks[0].name := a]).Keys == {ks[0].name};
        InInStep(rules, c, d, fuel - 1, map[ks[0].name := a], map[ks[0].name := b], ks[0].body, e, f, l, v, w,
                 receiver);
      } else {
        CatchesInStep(rules, c, d, fuel - 1, ks[1..], o, p, e, f, l, v, w, receiver);
      }
    }
  }

  // ----- Assignment and destructuring -----

  lemma {:induction false} IndexFits(rules: Rules, t: Expr, names: set<Name>, receiver: bool)
    requires FitsExpr(rules, t, names, receiver)
    ensures FitsAll(rules, IndexPath(t), names, receiver)
    ensures IndexRoot(t).Some? ==> IndexRoot(t).value in names
    decreases t
  {
    if t.Two? && t.two.Index? { IndexFits(rules, t.lhs, names, receiver); }
  }

  lemma {:induction false} AssignInStep(rules: Rules, c: Cx, d: Cx, fuel: nat, t: Expr, x: Expr, e: Env, f: Env,
                                        l: Live, v: World, w: World, receiver: bool)
    requires Ready(rules, c, d, receiver, e, f, l, v, w) && FitsExpr(rules, t, l.names, receiver) &&
             FitsExpr(rules, x, l.names, receiver)
    ensures StepsTo(rules, ExecAssign(c, fuel, t, x, e, v), ExecAssign(d, fuel, t, x, f, w), l, {})
    decreases fuel, 1
  {
    hide Eval, AnyExpr, FreeAll, FitsExpr;
    PiecesFit(rules, t, l.names, receiver);
    AddNothing(l);
    if fuel > 0 {
      if t.Ident? {
        EvalInStep(rules, c, d, fuel - 1, x, e, f, l, v, w, receiver);
        var o, p := Eval(c, fuel - 1, x, e, v).0, Eval(d, fuel - 1, x, f, w).0;
        assert SameVisible(rules, e, f, t.name);
        LookupSame(rules, e, f, t.name);
        if o.Ok? { ReassignSame(rules, e, f, l, t.name, o.value, p.value); }
      } else if t.Two? && t.two.Index? && IndexRoot(t).Some? {
        ElementInStep(rules, c, d, fuel, t, x, e, f, l, v, w, receiver);
      } else if t.One? && t.one.Member? {
        MemberInStep(rules, c, d, fuel, t, x, e, f, l, v, w, receiver);
      }
    }
  }

  lemma MemberUnfold(c: Cx, fuel: nat, t: Expr, x: Expr, e: Env, w: World)
    requires fuel > 0 && t.One? && t.one.Member?
    ensures var (os, w1) := EvalAll(c, fuel - 1, [t.inner, x], e, w);
            ExecAssign(c, fuel, t, x, e, w) == if os.Stops? then (Stop(os.signal), w1, e) else Stored(w1, t.one.field, os.values, e)
  {
    hide EvalAll, Eval;
  }

  function Stored(w: World, f: Name, vs: seq<Value>, e: Env): (Out, World, Env)
    requires |vs| == 2
  {
    if !vs[0].Ref? || vs[0].id >= |w.heap| then (Stop(Fault), w, e) else (Ok(Unit), SetField(w, vs[0].id, f, vs[1]), e)
  }

  lemma StoredSame(rules: Rules, v: World, w: World, n: Name, vs: seq<Value>, ws: seq<Value>, e: Env, f: Env)
    requires SameWorld(rules, v, w) && SameAll(rules, vs, ws) && |vs| == |ws| == 2
    ensures var r, s := Stored(v, n, vs, e), Stored(w, n, ws, f);
            SameOut(rules, r.0, s.0) && SameWorld(rules, r.1, s.1) && r.2 == e && s.2 == f
  {
    hide Same;
    FixedOuts(rules);
    ItemSame(rules, vs, ws, 0);
    ItemSame(rules, vs, ws, 1);
    KindSame(rules, vs[0], ws[0]);
    if vs[0].Ref? && vs[0].id < |v.heap| { SetFieldSame(rules, v, w, vs[0].id, n, vs[1], ws[1]); }
  }

  lemma {:induction false} MemberInStep(rules: Rules, c: Cx, d: Cx, fuel: nat, t: Expr, x: Expr, e: Env, f: Env,
                                        l: Live, v: World, w: World, receiver: bool)
    requires Ready(rules, c, d, receiver, e, f, l, v, w) && FitsExpr(rules, t, l.names, receiver) &&
             FitsExpr(rules, x, l.names, receiver)
    requires fuel > 0 && t.One? && t.one.Member?
    ensures StepsTo(rules, ExecAssign(c, fuel, t, x, e, v), ExecAssign(d, fuel, t, x, f, w), l, {})
    decreases fuel, 0
  {
    hide ExecAssign, EvalAll, Stored, SameOut, SameOuts, SameAll, SameEnv, SameWorld, SameCx, FitsExpr;
    AddNothing(l);
    PiecesFit(rules, t, l.names, receiver);
    MemberUnfold(c, fuel, t, x, e, v);
    MemberUnfold(d, fuel, t, x, f, w);
    EvalAllInStep(rules, c, d, fuel - 1, [t.inner, x], e, f, l, v, w, receiver);
    var (os, v1) := EvalAll(c, fuel - 1, [t.inner, x], e, v);
    var (ps, w1) := EvalAll(d, fuel - 1, [t.inner, x], f, w);
    OutsSame(rules, os, ps);
    if os.Oks? { StoredSame(rules, v1, w1, t.one.field, os.values, ps.values, e, f); }
  }

  lemma ElementUnfold(c: Cx, fuel: nat, t: Expr, x: Expr, e: Env, w: World)
    requires fuel > 0 && t.Two? && t.two.Index? && IndexRoot(t).Some?
    ensures var (os, w1) := EvalAll(c, fuel - 1, IndexPath(t) + [x], e, w);
            ExecAssign(c, fuel, t, x, e, w)
            == if os.Stops? then (Stop(os.signal), w1, e) else Placed(w1, IndexRoot(t).value, os.values, e)
  {
    hide EvalAll, Eval;
  }

  function Placed(w: World, root: Name, vs: seq<Value>, e: Env): (Out, World, Env)
    requires vs != []
  {
    if Lookup(e, root).None? then (Stop(Fault), w, e)
    else
      var n := |vs| - 1;
      var v := SetNested(Lookup(e, root).value, vs[..n], vs[n]);
      if v.None? then (Stop(Fault), w, e) else (Ok(Unit), w, Reassign(e, root, v.value))
  }

  lemma PlacedSame(rules: Rules, e: Env, f: Env, l: Live, root: Name, vs: seq<Value>, ws: seq<Value>, v: World,
                   w: World)
    requires SameEnv(rules, e, f, l) && root in l.names && SameAll(rules, vs, ws) && |vs| == |ws| > 0 &&
             SameWorld(rules, v, w)
    ensures StepsTo(rules, Placed(v, root, vs, e), Placed(w, root, ws, f), l, {})
  {
    hide SameWorld, SetNested, Reassign, Lookup, SameAll, SameOut, Same;
    AddNothing(l);
    FixedOuts(rules);
    assert SameVisible(rules, e, f, root);
    LookupSame(rules, e, f, root);
    if Lookup(e, root).Some? { ElementStored(rules, e, f, l, root, vs, ws); }
  }

  lemma {:induction false} ElementInStep(rules: Rules, c: Cx, d: Cx, fuel: nat, t: Expr, x: Expr, e: Env, f: Env,
                                         l: Live, v: World, w: World, receiver: bool)
    requires Ready(rules, c, d, receiver, e, f, l, v, w) && FitsExpr(rules, t, l.names, receiver) &&
             FitsExpr(rules, x, l.names, receiver)
    requires fuel > 0 && t.Two? && t.two.Index? && IndexRoot(t).Some?
    ensures StepsTo(rules, ExecAssign(c, fuel, t, x, e, v), ExecAssign(d, fuel, t, x, f, w), l, {})
    decreases fuel, 0
  {
    hide ExecAssign, EvalAll, Placed, IndexRoot, IndexPath, SameOut, SameOuts, SameAll, SameEnv, SameWorld, SameCx;
    hide FitsExpr;
    AddNothing(l);
    IndexFits(rules, t, l.names, receiver);
    ElementUnfold(c, fuel, t, x, e, v);
    ElementUnfold(d, fuel, t, x, f, w);
    EvalAllInStep(rules, c, d, fuel - 1, IndexPath(t) + [x], e, f, l, v, w, receiver);
    var (os, v1) := EvalAll(c, fuel - 1, IndexPath(t) + [x], e, v);
    var (ps, w1) := EvalAll(d, fuel - 1, IndexPath(t) + [x], f, w);
    OutsSame(rules, os, ps);
    if os.Oks? { PlacedSame(rules, e, f, l, IndexRoot(t).value, os.values, ps.values, v1, w1); }
  }

  lemma ElementStored(rules: Rules, e: Env, f: Env, l: Live, root: Name, vs: seq<Value>, ws: seq<Value>)
    requires SameEnv(rules, e, f, l) && SameVisible(rules, e, f, root) && SameAll(rules, vs, ws) && vs != []
    requires Lookup(e, root).Some? && Lookup(f, root).Some?
    ensures var n := |vs| - 1;
            var a, b := SetNested(Lookup(e, root).value, vs[..n], vs[n]), SetNested(Lookup(f, root).value, ws[..n], ws[n]);
            (a.Some? <==> b.Some?) && (a.Some? ==> SameEnv(rules, Reassign(e, root, a.value), Reassign(f, root, b.value), l))
  {
    var n := |vs| - 1;
    LookupSame(rules, e, f, root);
    SameSlice(rules, vs, ws, n);
    assert Same(rules, vs[n], ws[n]);
    SetNestedSame(rules, Lookup(e, root).value, Lookup(f, root).value, vs[..n], ws[..n], vs[n], ws[n]);
    var a, b := SetNested(Lookup(e, root).value, vs[..n], vs[n]), SetNested(Lookup(f, root).value, ws[..n], ws[n]);
    if a.Some? { ReassignSame(rules, e, f, l, root, a.value, b.value); }
  }

  lemma DestructureUnfold(c: Cx, fuel: nat, p: DestructurePat, a: Value, els: OptBlock, e: Env, w: World)
    ensures ExecDestructure(c, fuel, p, a, els, e, w)
         == if fuel == 0 then (Stop(Timeout), w, e)
            else
              var xs := TargetValues(p, a, w);
              if xs.Some? then (Ok(Unit), w, DeclareAll(e, p.Binders(), xs.value))
              else if p.ListTarget? && a.ListV? && els.SomeBlock? then ExecIn(c, fuel - 1, map[], els.stmts, e, w)
              else (Stop(Fault), w, e)
  {
    hide ExecIn;
  }

  lemma {:induction false} DestructureInStep(rules: Rules, c: Cx, d: Cx, fuel: nat, p: DestructurePat, a: Value,
                                             b: Value, els: OptBlock,
                                             e: Env, f: Env, l: Live, v: World, w: World, receiver: bool)
    requires Ready(rules, c, d, receiver, e, f, l, v, w) && Same(rules, a, b)
    requires els.SomeBlock? ==> FitsBlock(rules, els.stmts, l.names, receiver)
    ensures StepsTo(rules, ExecDestructure(c, fuel, p, a, els, e, v), ExecDestructure(d, fuel, p, b, els, f, w), l,
                    if ElseFalls(rules, p, els) then {} else Elements(p.Binders()))
    decreases fuel, 0
  {
    hide ExecDestructure, ExecIn, DeclareAll, TargetValues, SameOut, Same, SameEnv, SameWorld, SameCx, FitsBlock;
    hide ElseFalls, Unfit, NeedsReceiver;
    AddNothing(l);
    FixedOuts(rules);
    KindSame(rules, a, b);
    DestructureUnfold(c, fuel, p, a, els, e, v);
    DestructureUnfold(d, fuel, p, b, els, f, w);
    if fuel > 0 {
      TargetValuesSame(rules, p, a, b, v, w);
      var xs := TargetValues(p, a, v);
      if xs.Some? {
        BoundSame(rules, e, f, l, p.Binders(), xs.value, TargetValues(p, b, w).value);
      } else if els.SomeBlock? {
        PlainInStep(rules, c, d, fuel - 1, els.stmts, e, f, l, v, w, receiver);
        if p.ListTarget? && !ElseFalls(rules, p, els) { ElseStops(rules, c, d, fuel - 1, p, els, e, v, receiver); }
      }
    }
  }

  lemma BoundSame(rules: Rules, e: Env, f: Env, l: Live, ns: seq<Name>, vs: seq<Value>, ws: seq<Value>)
    requires SameEnv(rules, e, f, l) && |ns| == |vs| && SameAll(rules, vs, ws)
    ensures SameEnv(rules, DeclareAll(e, ns, vs), DeclareAll(f, ns, ws), Add(l, Elements(ns)))
    ensures SameEnv(rules, DeclareAll(e, ns, vs), DeclareAll(f, ns, ws), l)
  {
    DeclareAllSame(rules, e, f, l, ns, vs, ws);
    NarrowEnv(rules, DeclareAll(e, ns, vs), DeclareAll(f, ns, ws), Add(l, Elements(ns)), l.names);
  }

  lemma ElseStops(rules: Rules, c: Cx, d: Cx, fuel: nat, p: DestructurePat, els: OptBlock, e: Env, w: World,
                  receiver: bool)
    requires SameCx(rules, c, d, receiver) && p.ListTarget? && els.SomeBlock? && !ElseFalls(rules, p, els)
    ensures ExecIn(c, fuel, map[], els.stmts, e, w).0.Stop?
  {
    if fuel > 0 { assert !Completes(c, fuel - 1, els.stmts, Nest(map[], e), w); }
  }
}
