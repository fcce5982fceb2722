/** The child enumerator `push_subexprs` (src/ast/subexprs.rs) as a worklist, against the recursive walk
    of src/ast/walk.rs: both reach the same expressions. */
module Subexprs {
  import opened Ast
  import opened Walk
  import opened Capture

  // ----- One level of children -----

  function PartExprs(ps: seq<Part>): seq<Expr> {
    if ps == [] then [] else (if ps[0].Hole? then [ps[0].hole] else []) + PartExprs(ps[1..])
  }

  function PairExprs(ps: seq<Pair>): seq<Expr> {
    if ps == [] then [] else [ps[0].key, ps[0].value] + PairExprs(ps[1..])
  }

  function FieldExprs(fs: seq<Field>): seq<Expr> {
    if fs == [] then [] else [fs[0].value] + FieldExprs(fs[1..])
  }

  function OptExprs(e: Option<Expr>): seq<Expr> {
    if e.Some? then [e.value] else []
  }

  function ArmExprs(arms: seq<Arm>): seq<Expr> {
    if arms == [] then [] else OptExprs(arms[0].guard) + [arms[0].body] + ArmExprs(arms[1..])
  }

  /** The direct sub-expressions of `e`, including those held by a lambda's statements. */
  function Children(e: Expr): seq<Expr> {
    match e
    case Ident(_) => []
    case This => []
    case Lit(_) => []
    case Mark(_) => []
    case Template(_, parts) => PartExprs(parts)
    case Items(_, items) => items
    case MapLit(pairs) => PairExprs(pairs)
    case One(_, inner) => [inner]
    case Two(_, l, r) => [l, r]
    case Call(callee, args) => [callee] + args
    case ParentCall(_, _, args) => args
    case CloneWith(o, fields) => [o] + FieldExprs(fields)
    case Match(s, arms) => [s] + ArmExprs(arms)
    case If(c, t, f) => [c, t, f]
    case Lambda(_, body) => BodyExprs(body)
  }

  function BodyExprs(body: LambdaBody): seq<Expr> {
    match body
    case ExprBody(e) => [e]
    case BlockBody(ss) => BlockExprs(ss)
  }

  function BlockExprs(ss: seq<Stmt>): seq<Expr>
    decreases ss
  {
    if ss == [] then [] else StmtExprs(ss[0]) + BlockExprs(ss[1..])
  }

  function OptBlockExprs(b: OptBlock): seq<Expr>
    decreases b
  {
    if b.SomeBlock? then BlockExprs(b.stmts) else []
  }

  function OptStmtExprs(s: Option<Stmt>): seq<Expr>
    decreases s
  {
    if s.Some? then StmtExprs(s.value) else []
  }

  function CatchExprs(cs: seq<Catch>): seq<Expr>
    decreases cs
  {
    if cs == [] then [] else BlockExprs(cs[0].body) + CatchExprs(cs[1..])
  }

  /** The expressions a statement holds directly. */
  function StmtExprs(s: Stmt): seq<Expr>
    decreases s
  {
    match s
    case VarDecl(_, init) => [init]
    case Assign(t, v) => [t, v]
    case Return(e) => OptExprs(e)
    case IfStmt(c, _, t, f) => [c] + BlockExprs(t) + OptBlockExprs(f)
    case For(_, _, iter, body) => [iter] + BlockExprs(body)
    case Using(_, init, body) => [init] + BlockExprs(body)
    case While(c, body, _) => [c] + BlockExprs(body)
    case CFor(start, test, step, body) =>
      OptStmtExprs(start) + OptExprs(test) + OptStmtExprs(step) + BlockExprs(body)
    case Break => []
    case Continue => []
    case Block(ss) => BlockExprs(ss)
    case ExprStmt(e) => [e]
    case Discard(e) => [e]
    case ThrowStmt(e) => [e]
    case Destructure(_, init, f) => [init] + OptBlockExprs(f)
    case Try(body, catches, f) => BlockExprs(body) + CatchExprs(catches) + OptBlockExprs(f)
  }

  // ----- The pushing walk -----

  lemma Assoc2(out: seq<Expr>, a: seq<Expr>, b: seq<Expr>)
    ensures (out + a) + b == out + (a + b)
  {
  }

  lemma Assoc3(out: seq<Expr>, a: seq<Expr>, b: seq<Expr>, c: seq<Expr>)
    ensures ((out + a) + b) + c == out + (a + b + c)
  {
  }

  method PushSubexprs(e: Expr, out: seq<Expr>) returns (out': seq<Expr>)
    ensures out' == out + Children(e)
  {
    hide PartExprs, PairExprs, FieldExprs, ArmExprs, BlockExprs;
    out' := out;
    match e {
      case Ident(_) =>
      case This =>
      case Lit(_) =>
      case Mark(_) =>
      case Template(_, parts) => out' := PushParts(parts, out');
      case Items(_, items) => out' := out' + items;
      case MapLit(pairs) => out' := PushPairs(pairs, out');
      case One(_, inner) => out' := out' + [inner];
      case Two(_, l, r) =>
        out' := out' + [l];
        out' := out' + [r];
      case Call(callee, args) =>
        out' := out' + [callee];
        out' := out' + args;
        Assoc2(out, [callee], args);
      case ParentCall(_, _, args) => out' := out' + args;
      case CloneWith(o, fields) =>
        out' := out' + [o];
        out' := PushFields(fields, out');
        Assoc2(out, [o], FieldExprs(fields));
      case Match(s, arms) =>
        out' := out' + [s];
        out' := PushArms(arms, out');
        Assoc2(out, [s], ArmExprs(arms));
      case If(c, t, f) =>
        out' := out' + [c];
        out' := out' + [t];
        out' := out' + [f];
      case Lambda(_, body) =>
        match body {
          case ExprBody(x) => out' := out' + [x];
          case BlockBody(ss) => out' := PushStmtExprs(ss, out');
        }
    }
  }

  method PushParts(parts: seq<Part>, out: seq<Expr>) returns (out': seq<Expr>)
    ensures out' == out + PartExprs(parts)
  {
    out' := out;
    for i := 0 to |parts|
      invariant out' + PartExprs(parts[i..]) == out + PartExprs(parts)
    {
      assert parts[i..][0] == parts[i] && parts[i..][1..] == parts[i + 1..];
      if parts[i].Hole? {
        Assoc2(out', [parts[i].hole], PartExprs(parts[i + 1..]));
        out' := out' + [parts[i].hole];
      }
    }
  }

  method PushPairs(pairs: seq<Pair>, out: seq<Expr>) returns (out': seq<Expr>)
    ensures out' == out + PairExprs(pairs)
  {
    out' := out;
    for i := 0 to |pairs|
      invariant out' + PairExprs(pairs[i..]) == out + PairExprs(pairs)
    {
      assert pairs[i..][0] == pairs[i] && pairs[i..][1..] == pairs[i + 1..];
      Assoc2(out', [pairs[i].key, pairs[i].value], PairExprs(pairs[i + 1..]));
      Assoc2(out', [pairs[i].key], [pairs[i].value]);
      out' := out' + [pairs[i].key];
      out' := out' + [pairs[i].value];
    }
  }

  method PushFields(fields: seq<Field>, out: seq<Expr>) returns (out': seq<Expr>)
    ensures out' == out + FieldExprs(fields)
  {
    out' := out;
    for i := 0 to |fields|
      invariant out' + FieldExprs(fields[i..]) == out + FieldExprs(fields)
    {
      assert fields[i..][0] == fields[i] && fields[i..][1..] == fields[i + 1..];
      Assoc2(out', [fields[i].value], FieldExprs(fields[i + 1..]));
      out' := out' + [fields[i].value];
    }
  }

  method PushArms(arms: seq<Arm>, out: seq<Expr>) returns (out': seq<Expr>)
    ensures out' == out + ArmExprs(arms)
  {
    out' := out;
    for i := 0 to |arms|
      invariant out' + ArmExprs(arms[i..]) == out + ArmExprs(arms)
    {
      assert arms[i..][0] == arms[i] && arms[i..][1..] == arms[i + 1..];
      Assoc3(out', OptExprs(arms[i].guard), [arms[i].body], ArmExprs(arms[i + 1..]));
      if arms[i].guard.Some? {
        out' := out' + [arms[i].guard.value];
      } else {
        assert out' + OptExprs(arms[i].guard) == out';
      }
      out' := out' + [arms[i].body];
    }
  }

  method PushStmtExprs(ss: seq<Stmt>, out: seq<Expr>) returns (out': seq<Expr>)
    ensures out' == out + BlockExprs(ss)
    decreases ss
  {
    hide StmtExprs;
    out' := out;
    for i := 0 to |ss|
      invariant out' + BlockExprs(ss[i..]) == out + BlockExprs(ss)
    {
      assert ss[i..][0] == ss[i] && ss[i..][1..] == ss[i + 1..];
      Assoc2(out', StmtExprs(ss[i]), BlockExprs(ss[i + 1..]));
      out' := PushStmt(ss[i], out');
    }
  }

  method PushOptBlock(b: OptBlock, out: seq<Expr>) returns (out': seq<Expr>)
    ensures out' == out + OptBlockExprs(b)
    decreases b
  {
    out' := out;
    if b.SomeBlock? {
      out' := PushStmtExprs(b.stmts, out');
    }
  }

  method PushOptStmt(s: Option<Stmt>, out: seq<Expr>) returns (out': seq<Expr>)
    ensures out' == out + OptStmtExprs(s)
    decreases s
  {
    out' := out;
    if s.Some? {
      out' := PushStmt(s.value, out');
    }
  }

  /** One turn of the loop over statements. */
  method PushStmt(s: Stmt, out: seq<Expr>) returns (out': seq<Expr>)
    ensures out' == out + StmtExprs(s)
    decreases s, 1
  {
    hide BlockExprs, OptBlockExprs, OptStmtExprs, CatchExprs;
    out' := out;
    match s {
      case VarDecl(_, init) => out' := out' + [init];
      case Assign(t, v) =>
        out' := out' + [t];
        out' := out' + [v];
      case Return(e) =>
        if e.Some? { out' := out' + [e.value]; }
      case IfStmt(c, _, t, f) =>
        out' := out' + [c];
        out' := PushStmtExprs(t, out');
        out' := PushOptBlock(f, out');
        Assoc3(out, [c], BlockExprs(t), OptBlockExprs(f));
      case For(_, _, iter, body) =>
        out' := out' + [iter];
        out' := PushStmtExprs(body, out');
        Assoc2(out, [iter], BlockExprs(body));
      case Using(_, init, body) =>
        out' := out' + [init];
        out' := PushStmtExprs(body, out');
        Assoc2(out, [init], BlockExprs(body));
      case While(c, body, _) =>
        out' := out' + [c];
        out' := PushStmtExprs(body, out');
        Assoc2(out, [c], BlockExprs(body));
      case CFor(_, _, _, _) =>
        out' := PushCFor(s, out');
      case Break =>
      case Continue =>
      case Block(b) => out' := PushStmtExprs(b, out');
      case ExprStmt(e) => out' := out' + [e];
      case Discard(e) => out' := out' + [e];
      case ThrowStmt(e) => out' := out' + [e];
      case Destructure(_, init, f) =>
        out' := out' + [init];
        out' := PushOptBlock(f, out');
        Assoc2(out, [init], OptBlockExprs(f));
      case Try(body, catches, f) =>
        out' := PushStmtExprs(body, out');
        out' := PushCatches(catches, out');
        out' := PushOptBlock(f, out');
        Assoc3(out, BlockExprs(body), CatchExprs(catches), OptBlockExprs(f));
    }
  }

  method PushCFor(s: Stmt, out: seq<Expr>) returns (out': seq<Expr>)
    requires s.CFor?
    ensures out' == out + (OptStmtExprs(s.start) + OptExprs(s.test) + OptStmtExprs(s.step) + BlockExprs(s.body))
    decreases s, 0
  {
    hide BlockExprs, OptStmtExprs;
    out' := PushOptStmt(s.start, out);
    if s.test.Some? {
      out' := out' + [s.test.value];
    }
    assert out' == out + OptStmtExprs(s.start) + OptExprs(s.test);
    out' := PushOptStmt(s.step, out');
    out' := PushStmtExprs(s.body, out');
    Assoc3(out, OptStmtExprs(s.start) + OptExprs(s.test), OptStmtExprs(s.step), BlockExprs(s.body));
    Assoc2(out, OptStmtExprs(s.start), OptExprs(s.test));
  }

  method PushCatches(cs: seq<Catch>, out: seq<Expr>) returns (out': seq<Expr>)
    ensures out' == out + CatchExprs(cs)
    decreases cs
  {
    out' := out;
    for i := 0 to |cs|
      invariant out' + CatchExprs(cs[i..]) == out + CatchExprs(cs)
    {
      assert cs[i..][0] == cs[i] && cs[i..][1..] == cs[i + 1..];
      Assoc2(out', BlockExprs(cs[i].body), CatchExprs(cs[i + 1..]));
      out' := PushStmtExprs(cs[i].body, out');
    }
  }

  // ----- What one level preserves -----

  predicate AnyOf(xs: seq<Expr>, p: Expr -> bool) {
    exists x :: x in xs && AnyExpr(x, p)
  }

  function Free(e: Expr): set<Name> {
    FreeExpr(Walked, e, {})
  }

  /** The names free in some expression of the list. */
  function FreeOf(xs: seq<Expr>): set<Name> {
    set x, n | x in xs && n in Free(x) :: n
  }

  /** The number of nodes, counting each expression and the statements between expressions as one. */
  function Size(e: Expr): nat
    decreases e
  {
    match e
    case Template(_, parts) => 1 + PartsSize(parts)
    case Items(_, items) => 1 + ListSize(items)
    case MapLit(pairs) => 1 + PairsSize(pairs)
    case One(_, inner) => 1 + Size(inner)
    case Two(_, l, r) => 1 + Size(l) + Size(r)
    case Call(callee, args) => 1 + Size(callee) + ListSize(args)
    case ParentCall(_, _, args) => 1 + ListSize(args)
    case CloneWith(o, fields) => 1 + Size(o) + FieldsSize(fields)
    case Match(s, arms) => 1 + Size(s) + ArmsSize(arms)
    case If(c, t, f) => 1 + Size(c) + Size(t) + Size(f)
    case Lambda(_, body) => 1 + BodySize(body)
    case _ => 1
  }

  function ListSize(xs: seq<Expr>): nat
    decreases xs
  {
    if xs == [] then 0 else Size(xs[0]) + ListSize(xs[1..])
  }

  function PartSize(p: Part): nat
    decreases p
  {
    if p.Hole? then Size(p.hole) else 0
  }

  function PartsSize(ps: seq<Part>): nat
    decreases ps
  {
    if ps == [] then 0 else PartSize(ps[0]) + PartsSize(ps[1..])
  }

  function PairSize(p: Pair): nat
    decreases p
  {
    Size(p.key) + Size(p.value)
  }

  function PairsSize(ps: seq<Pair>): nat
    decreases ps
  {
    if ps == [] then 0 else PairSize(ps[0]) + PairsSize(ps[1..])
  }

  function FieldsSize(fs: seq<Field>): nat
    decreases fs
  {
    if fs == [] then 0 else Size(fs[0].value) + FieldsSize(fs[1..])
  }

  function OptSize(e: Option<Expr>): nat
    decreases e
  {
    if e.Some? then Size(e.value) else 0
  }

  function ArmSize(a: Arm): nat
    decreases a
  {
    OptSize(a.guard) + Size(a.body)
  }

  function ArmsSize(arms: seq<Arm>): nat
    decreases arms
  {
    if arms == [] then 0 else ArmSize(arms[0]) + ArmsSize(arms[1..])
  }

  function BodySize(body: LambdaBody): nat
    decreases body
  {
    match body
    case ExprBody(e) => Size(e)
    case BlockBody(ss) => BlockSize(ss)
  }

  function BlockSize(ss: seq<Stmt>): nat
    decreases ss
  {
    if ss == [] then 0 else StmtSize(ss[0]) + BlockSize(ss[1..])
  }

  function OptBlockSize(b: OptBlock): nat
    decreases b
  {
    if b.SomeBlock? then BlockSize(b.stmts) else 0
  }

  function OptStmtSize(s: Option<Stmt>): nat
    decreases s
  {
    if s.Some? then StmtSize(s.value) else 0
  }

  function CatchesSize(cs: seq<Catch>): nat
    decreases cs
  {
    if cs == [] then 0 else BlockSize(cs[0].body) + CatchesSize(cs[1..])
  }

  function StmtSize(s: Stmt): nat
    decreases s
  {
    match s
    case VarDecl(_, init) => Size(init)
    case Assign(t, v) => Size(t) + Size(v)
    case Return(e) => OptSize(e)
    case IfStmt(c, _, t, f) => Size(c) + BlockSize(t) + OptBlockSize(f)
    case For(_, _, iter, body) => Size(iter) + BlockSize(body)
    case Using(_, init, body) => Size(init) + BlockSize(body)
    case While(c, body, _) => Size(c) + BlockSize(body)
    case CFor(start, test, step, body) => OptStmtSize(start) + OptSize(test) + OptStmtSize(step) + BlockSize(body)
    case Block(ss) => BlockSize(ss)
    case ExprStmt(e) => Size(e)
    case Discard(e) => Size(e)
    case ThrowStmt(e) => Size(e)
    case Destructure(_, init, f) => Size(init) + OptBlockSize(f)
    case Try(body, catches, f) => BlockSize(body) + CatchesSize(catches) + OptBlockSize(f)
    case _ => 0
  }

  lemma {:induction false} ListSizeConcat(xs: seq<Expr>, ys: seq<Expr>)
    ensures ListSize(xs + ys) == ListSize(xs) + ListSize(ys)
  {
    if xs == [] {
      assert xs + ys == ys;
    } else {
      ListSizeConcat(xs[1..], ys);
      assert (xs + ys)[1..] == xs[1..] + ys;
    }
  }

  /** What a list of children says about the node they were taken from. */
  ghost predicate Represents(xs: seq<Expr>, size: nat, any: bool, free: set<Name>, p: Expr -> bool) {
    ListSize(xs) == size && (AnyOf(xs, p) <==> any) && free <= FreeOf(xs)
  }

  lemma RepresentsConcat(xs: seq<Expr>, ys: seq<Expr>, m: nat, n: nat, a: bool, b: bool, f: set<Name>, g: set<Name>,
                         p: Expr -> bool)
    requires Represents(xs, m, a, f, p) && Represents(ys, n, b, g, p)
    ensures Represents(xs + ys, m + n, a || b, f + g, p)
  {
    ListSizeConcat(xs, ys);
    if AnyOf(xs, p) {
      var x :| x in xs && AnyExpr(x, p);
      assert x in xs + ys;
    }
    if AnyOf(ys, p) {
      var y :| y in ys && AnyExpr(y, p);
      assert y in xs + ys;
    }
    forall n | n in FreeOf(xs) + FreeOf(ys) ensures n in FreeOf(xs + ys) {
      var x :| x in xs + ys && n in Free(x);
    }
  }

  lemma RepresentsOne(x: Expr, p: Expr -> bool)
    ensures Represents([x], Size(x), AnyExpr(x, p), Free(x), p)
  {
    hide Size, AnyExpr, FreeExpr;
    assert [x][1..] == [] && ListSize([x]) == Size(x) + ListSize([]);
    assert x in [x];
    forall n | n in Free(x) ensures n in FreeOf([x]) {
    }
  }

  lemma RepresentsNone(p: Expr -> bool)
    ensures Represents([], 0, false, {}, p)
  {
  }

  lemma RepresentsLess(xs: seq<Expr>, size: nat, any: bool, free: set<Name>, less: set<Name>, p: Expr -> bool)
    requires Represents(xs, size, any, free, p) && less <= free
    ensures Represents(xs, size, any, less, p)
  {
  }

  lemma ExprShrinks(e: Expr, b: set<Name>)
    ensures FreeExpr(Walked, e, b) <= Free(e)
  {
    hide FreeExpr;
    ExprMinus(Walked, e, {}, b);
    assert {} + b == b;
  }

  lemma BlockShrinks(ss: seq<Stmt>, b: set<Name>)
    ensures FreeBlock(Walked, ss, b) <= FreeBlock(Walked, ss, {})
  {
    hide FreeBlock;
    PlainBlockMinus(Walked, ss, {}, b);
    assert {} + b == b;
  }

  lemma {:induction false} ListRep(xs: seq<Expr>, p: Expr -> bool)
    ensures Represents(xs, ListSize(xs), AnyOf(xs, p), FreeAll(Walked, xs, {}), p)
  {
    hide FreeExpr, AnyExpr;
    if xs != [] {
      ListRep(xs[1..], p);
      forall n | n in FreeAll(Walked, xs, {}) ensures n in FreeOf(xs) {
        if n !in Free(xs[0]) {
          var x :| x in xs[1..] && n in Free(x);
        }
      }
    }
  }

  predicate AnyParts(ps: seq<Part>, p: Expr -> bool) {
    exists q :: q in ps && AnyPart(q, p)
  }

  lemma {:induction false} PartsRep(ps: seq<Part>, p: Expr -> bool)
    ensures Represents(PartExprs(ps), PartsSize(ps), AnyParts(ps, p), FreeParts(Walked, ps, {}), p)
  {
    hide Represents, FreeExpr, AnyExpr, Size;
    if ps == [] {
      RepresentsNone(p);
    } else {
      PartsRep(ps[1..], p);
      var first := if ps[0].Hole? then [ps[0].hole] else [];
      if ps[0].Hole? { RepresentsOne(ps[0].hole, p); } else { RepresentsNone(p); }
      RepresentsConcat(first, PartExprs(ps[1..]), PartSize(ps[0]), PartsSize(ps[1..]), AnyPart(ps[0], p), AnyParts(ps[1..], p),
                       FreePart(Walked, ps[0], {}), FreeParts(Walked, ps[1..], {}), p);
      assert AnyParts(ps, p) <==> AnyPart(ps[0], p) || AnyParts(ps[1..], p);
    }
  }

  predicate AnyPairs(ps: seq<Pair>, p: Expr -> bool) {
    exists q :: q in ps && AnyPair(q, p)
  }

  lemma {:induction false} PairsRep(ps: seq<Pair>, p: Expr -> bool)
    ensures Represents(PairExprs(ps), PairsSize(ps), AnyPairs(ps, p), FreePairs(Walked, ps, {}), p)
  {
    hide Represents, FreeExpr, AnyExpr, Size;
    if ps == [] {
      RepresentsNone(p);
    } else {
      PairsRep(ps[1..], p);
      TwoRep(ps[0].key, ps[0].value, p);
      RepresentsConcat([ps[0].key, ps[0].value], PairExprs(ps[1..]), PairSize(ps[0]), PairsSize(ps[1..]),
                       AnyPair(ps[0], p), AnyPairs(ps[1..], p), FreePair(Walked, ps[0], {}), FreePairs(Walked, ps[1..], {}), p);
      assert AnyPairs(ps, p) <==> AnyPair(ps[0], p) || AnyPairs(ps[1..], p);
    }
  }

  lemma TwoRep(x: Expr, y: Expr, p: Expr -> bool)
    ensures Represents([x, y], Size(x) + Size(y), AnyExpr(x, p) || AnyExpr(y, p), Free(x) + Free(y), p)
  {
    hide Represents, FreeExpr, AnyExpr, Size;
    RepresentsOne(x, p);
    RepresentsOne(y, p);
    RepresentsConcat([x], [y], Size(x), Size(y), AnyExpr(x, p), AnyExpr(y, p), Free(x), Free(y), p);
    assert [x] + [y] == [x, y];
  }

  predicate AnyFields(fs: seq<Field>, p: Expr -> bool) {
    exists f :: f in fs && AnyField(f, p)
  }

  lemma {:induction false} FieldsRep(fs: seq<Field>, p: Expr -> bool)
    ensures Represents(FieldExprs(fs), FieldsSize(fs), AnyFields(fs, p), FreeFields(Walked, fs, {}), p)
  {
    hide Represents, FreeExpr, AnyExpr, Size;
    if fs == [] {
      RepresentsNone(p);
    } else {
      FieldsRep(fs[1..], p);
      RepresentsOne(fs[0].value, p);
      RepresentsConcat([fs[0].value], FieldExprs(fs[1..]), Size(fs[0].value), FieldsSize(fs[1..]),
                       AnyField(fs[0], p), AnyFields(fs[1..], p), Free(fs[0].value), FreeFields(Walked, fs[1..], {}), p);
      assert AnyFields(fs, p) <==> AnyField(fs[0], p) || AnyFields(fs[1..], p);
    }
  }

  lemma OptRep(e: Option<Expr>, p: Expr -> bool)
    ensures Represents(OptExprs(e), OptSize(e), AnyOpt(e, p), FreeOpt(Walked, e, {}), p)
  {
    hide Represents, FreeExpr, AnyExpr, Size;
    if e.Some? { RepresentsOne(e.value, p); } else { RepresentsNone(p); }
  }

  predicate AnyArms(arms: seq<Arm>, p: Expr -> bool) {
    exists a :: a in arms && AnyArm(a, p)
  }

  lemma ArmRep(a: Arm, p: Expr -> bool)
    ensures Represents(OptExprs(a.guard) + [a.body], ArmSize(a), AnyArm(a, p), FreeArm(Walked, a, {}), p)
  {
    hide Represents, FreeExpr, AnyExpr, Size;
    OptRep(a.guard, p);
    RepresentsOne(a.body, p);
    RepresentsConcat(OptExprs(a.guard), [a.body], OptSize(a.guard), Size(a.body), AnyOpt(a.guard, p), AnyExpr(a.body, p),
                     FreeOpt(Walked, a.guard, {}), Free(a.body), p);
    var inner := {} + PatternBinders(a.pattern);
    ExprShrinks(a.body, inner);
    if a.guard.Some? { ExprShrinks(a.guard.value, inner); }
    RepresentsLess(OptExprs(a.guard) + [a.body], ArmSize(a), AnyArm(a, p), FreeOpt(Walked, a.guard, {}) + Free(a.body),
                   FreeArm(Walked, a, {}), p);
  }

  lemma {:induction false} ArmsRep(arms: seq<Arm>, p: Expr -> bool)
    ensures Represents(ArmExprs(arms), ArmsSize(arms), AnyArms(arms, p), FreeArms(Walked, arms, {}), p)
  {
    hide Represents, FreeArm, AnyArm, ArmSize;
    if arms == [] {
      RepresentsNone(p);
    } else {
      ArmsRep(arms[1..], p);
      ArmRep(arms[0], p);
      RepresentsConcat(OptExprs(arms[0].guard) + [arms[0].body], ArmExprs(arms[1..]), ArmSize(arms[0]), ArmsSize(arms[1..]),
                       AnyArm(arms[0], p), AnyArms(arms[1..], p), FreeArm(Walked, arms[0], {}), FreeArms(Walked, arms[1..], {}), p);
      assert AnyArms(arms, p) <==> AnyArm(arms[0], p) || AnyArms(arms[1..], p);
    }
  }

  lemma {:induction false} BlockRep(ss: seq<Stmt>, p: Expr -> bool)
    ensures Represents(BlockExprs(ss), BlockSize(ss), AnyBlock(ss, p), FreeBlock(Walked, ss, {}), p)
    decreases ss, 0
  {
    hide Represents, FreeStmt, AnyStmt, StmtSize, StmtExprs;
    if ss == [] {
      RepresentsNone(p);
    } else {
      BlockRep(ss[1..], p);
      StmtRep(ss[0], p);
      BlockShrinks(ss[1..], {} + Declares(Walked, ss[0]));
      RepresentsConcat(StmtExprs(ss[0]), BlockExprs(ss[1..]), StmtSize(ss[0]), BlockSize(ss[1..]),
                       AnyStmt(ss[0], p), AnyBlock(ss[1..], p), FreeStmt(Walked, ss[0], {}), FreeBlock(Walked, ss[1..], {}), p);
      assert AnyBlock(ss, p) <==> AnyStmt(ss[0], p) || AnyBlock(ss[1..], p);
      RepresentsLess(BlockExprs(ss), BlockSize(ss), AnyBlock(ss, p),
                     FreeStmt(Walked, ss[0], {}) + FreeBlock(Walked, ss[1..], {}), FreeBlock(Walked, ss, {}), p);
    }
  }

  lemma {:induction false} OptBlockRep(b: OptBlock, p: Expr -> bool)
    ensures Represents(OptBlockExprs(b), OptBlockSize(b), AnyOptBlock(b, p), FreeOptBlock(Walked, b, {}), p)
    decreases b
  {
    hide Represents, FreeBlock, AnyBlock, BlockSize, BlockExprs;
    if b.SomeBlock? { BlockRep(b.stmts, p); } else { RepresentsNone(p); }
  }

  lemma {:induction false} OptStmtRep(s: Option<Stmt>, p: Expr -> bool)
    ensures Represents(OptStmtExprs(s), OptStmtSize(s), AnyOptStmt(s, p), FreeOptStmt(Walked, s, {}), p)
    decreases s
  {
    hide Represents, FreeStmt, AnyStmt, StmtSize, StmtExprs;
    if s.Some? { StmtRep(s.value, p); } else { RepresentsNone(p); }
  }

  predicate AnyCatches(cs: seq<Catch>, p: Expr -> bool) {
    exists c :: c in cs && AnyCatch(c, p)
  }

  lemma {:induction false} CatchesRep(cs: seq<Catch>, p: Expr -> bool)
    ensures Represents(CatchExprs(cs), CatchesSize(cs), AnyCatches(cs, p), FreeCatches(Walked, cs, {}), p)
    decreases cs
  {
    hide Represents, FreeBlock, AnyBlock, BlockSize, BlockExprs;
    if cs == [] {
      RepresentsNone(p);
    } else {
      CatchesRep(cs[1..], p);
      BlockRep(cs[0].body, p);
      BlockShrinks(cs[0].body, {} + {cs[0].name});
      RepresentsConcat(BlockExprs(cs[0].body), CatchExprs(cs[1..]), BlockSize(cs[0].body), CatchesSize(cs[1..]),
                       AnyCatch(cs[0], p), AnyCatches(cs[1..], p), FreeBlock(Walked, cs[0].body, {}), FreeCatches(Walked, cs[1..], {}), p);
      assert AnyCatches(cs, p) <==> AnyCatch(cs[0], p) || AnyCatches(cs[1..], p);
      RepresentsLess(CatchExprs(cs), CatchesSize(cs), AnyCatches(cs, p),
                     FreeBlock(Walked, cs[0].body, {}) + FreeCatches(Walked, cs[1..], {}), FreeCatches(Walked, cs, {}), p);
    }
  }

  /** One expression before something already represented. */
  lemma ThenRep(x: Expr, ys: seq<Expr>, n: nat, b: bool, g: set<Name>, p: Expr -> bool)
    requires Represents(ys, n, b, g, p)
    ensures Represents([x] + ys, Size(x) + n, AnyExpr(x, p) || b, Free(x) + g, p)
  {
    hide Represents, FreeExpr, AnyExpr, Size;
    RepresentsOne(x, p);
    RepresentsConcat([x], ys, Size(x), n, AnyExpr(x, p), b, Free(x), g, p);
  }

  /** An expression and a block whose scope binds some names. */
  lemma HeadedRep(x: Expr, body: seq<Stmt>, bound: set<Name>, p: Expr -> bool)
    ensures Represents([x] + BlockExprs(body), Size(x) + BlockSize(body), AnyExpr(x, p) || AnyBlock(body, p),
                       Free(x) + FreeBlock(Walked, body, bound), p)
    decreases body, 1
  {
    hide Represents, FreeExpr, AnyExpr, Size, FreeBlock, AnyBlock, BlockSize, BlockExprs;
    BlockRep(body, p);
    BlockShrinks(body, bound);
    ThenRep(x, BlockExprs(body), BlockSize(body), AnyBlock(body, p), FreeBlock(Walked, body, {}), p);
    RepresentsLess([x] + BlockExprs(body), Size(x) + BlockSize(body), AnyExpr(x, p) || AnyBlock(body, p),
                   Free(x) + FreeBlock(Walked, body, {}), Free(x) + FreeBlock(Walked, body, bound), p);
  }

  lemma {:induction false} StmtRep(s: Stmt, p: Expr -> bool)
    ensures Represents(StmtExprs(s), StmtSize(s), AnyStmt(s, p), FreeStmt(Walked, s, {}), p)
    decreases s, 1
  {
    hide Represents, FreeExpr, AnyExpr, Size, FreeBlock, AnyBlock, BlockSize, BlockExprs, OptBlockExprs, OptStmtExprs,
      OptBlockSize, OptStmtSize, AnyOptBlock, AnyOptStmt, FreeOptBlock, FreeOptStmt, FreeOpt, AnyOpt, OptSize, OptExprs;
    match s
    case VarDecl(_, init) => RepresentsOne(init, p);
    case Assign(t, v) => TwoRep(t, v, p);
    case Return(e) => OptRep(e, p);
    case IfStmt(c, bind, t, f) => IfRep(s, p);
    case For(n, _, iter, body) => HeadedRep(iter, body, {} + {n}, p);
    case Using(n, init, body) => HeadedRep(init, body, {} + {n}, p);
    case While(c, body, _) => HeadedRep(c, body, {}, p);
    case CFor(_, _, _, _) => CForRep(s, p);
    case Block(ss) => BlockRep(ss, p);
    case ExprStmt(e) => RepresentsOne(e, p);
    case Discard(e) => RepresentsOne(e, p);
    case ThrowStmt(e) => RepresentsOne(e, p);
    case Destructure(_, init, f) =>
      OptBlockRep(f, p);
      ThenRep(init, OptBlockExprs(f), OptBlockSize(f), AnyOptBlock(f, p), FreeOptBlock(Walked, f, {}), p);
    case Try(_, _, _) => TryRep(s, p);
    case _ => RepresentsNone(p);
  }

  lemma {:induction false} IfRep(s: Stmt, p: Expr -> bool)
    requires s.IfStmt?
    ensures Represents(StmtExprs(s), StmtSize(s), AnyStmt(s, p), FreeStmt(Walked, s, {}), p)
    decreases s, 0
  {
    hide Represents, FreeExpr, AnyExpr, Size, FreeBlock, AnyBlock, BlockSize, BlockExprs, OptBlockExprs, OptBlockSize,
      AnyOptBlock, FreeOptBlock;
    var bound := {} + if s.bind.Some? then {s.bind.value} else {};
    HeadedRep(s.cond, s.thenBlock, bound, p);
    OptBlockRep(s.elseBlock, p);
    RepresentsConcat([s.cond] + BlockExprs(s.thenBlock), OptBlockExprs(s.elseBlock),
                     Size(s.cond) + BlockSize(s.thenBlock), OptBlockSize(s.elseBlock),
                     AnyExpr(s.cond, p) || AnyBlock(s.thenBlock, p), AnyOptBlock(s.elseBlock, p),
                     Free(s.cond) + FreeBlock(Walked, s.thenBlock, bound), FreeOptBlock(Walked, s.elseBlock, {}), p);
  }

  lemma OptStmtShrinks(s: Option<Stmt>, b: set<Name>)
    ensures FreeOptStmt(Walked, s, b) <= FreeOptStmt(Walked, s, {})
  {
    hide FreeOptStmt;
    OptStmtMinus(Walked, s, {}, b);
    assert {} + b == b;
  }

  lemma OptShrinks(e: Option<Expr>, b: set<Name>)
    ensures FreeOpt(Walked, e, b) <= FreeOpt(Walked, e, {})
  {
    hide FreeOpt;
    OptMinus(Walked, e, {}, b);
    assert {} + b == b;
  }

  lemma {:induction false} CForRep(s: Stmt, p: Expr -> bool)
    requires s.CFor?
    ensures Represents(StmtExprs(s), StmtSize(s), AnyStmt(s, p), FreeStmt(Walked, s, {}), p)
    decreases s, 0
  {
    hide Represents, FreeExpr, AnyExpr, Size, FreeBlock, AnyBlock, BlockSize, BlockExprs, OptStmtExprs, OptStmtSize,
      AnyOptStmt, FreeOptStmt, FreeOpt, AnyOpt, OptSize, OptExprs;
    var a, b, c, d := OptStmtExprs(s.start), OptExprs(s.test), OptStmtExprs(s.step), BlockExprs(s.body);
    OptStmtRep(s.start, p);
    OptRep(s.test, p);
    OptStmtRep(s.step, p);
    BlockRep(s.body, p);
    var fa, fb, fc, fd := FreeOptStmt(Walked, s.start, {}), FreeOpt(Walked, s.test, {}), FreeOptStmt(Walked, s.step, {}), FreeBlock(Walked, s.body, {});
    RepresentsConcat(a, b, OptStmtSize(s.start), OptSize(s.test), AnyOptStmt(s.start, p), AnyOpt(s.test, p), fa, fb, p);
    RepresentsConcat(a + b, c, OptStmtSize(s.start) + OptSize(s.test), OptStmtSize(s.step),
                     AnyOptStmt(s.start, p) || AnyOpt(s.test, p), AnyOptStmt(s.step, p), fa + fb, fc, p);
    RepresentsConcat(a + b + c, d, OptStmtSize(s.start) + OptSize(s.test) + OptStmtSize(s.step), BlockSize(s.body),
                     AnyOptStmt(s.start, p) || AnyOpt(s.test, p) || AnyOptStmt(s.step, p), AnyBlock(s.body, p),
                     fa + fb + fc, fd, p);
    var loopBound := {} + DeclaresOpt(Walked, s.start);
    OptShrinks(s.test, loopBound);
    OptStmtShrinks(s.step, loopBound);
    BlockShrinks(s.body, loopBound + DeclaresOpt(Walked, s.step));
    RepresentsLess(a + b + c + d, StmtSize(s), AnyStmt(s, p), fa + fb + fc + fd, FreeStmt(Walked, s, {}), p);
  }

  lemma {:induction false} TryRep(s: Stmt, p: Expr -> bool)
    requires s.Try?
    ensures Represents(StmtExprs(s), StmtSize(s), AnyStmt(s, p), FreeStmt(Walked, s, {}), p)
    decreases s, 0
  {
    hide Represents, FreeExpr, AnyExpr, Size, FreeBlock, AnyBlock, BlockSize, BlockExprs, OptBlockExprs, OptBlockSize,
      AnyOptBlock, FreeOptBlock, CatchExprs, CatchesSize, FreeCatches;
    BlockRep(s.body, p);
    CatchesRep(s.catches, p);
    OptBlockRep(s.finallyBlock, p);
    RepresentsConcat(BlockExprs(s.body), CatchExprs(s.catches), BlockSize(s.body), CatchesSize(s.catches),
                     AnyBlock(s.body, p), AnyCatches(s.catches, p), FreeBlock(Walked, s.body, {}), FreeCatches(Walked, s.catches, {}), p);
    RepresentsConcat(BlockExprs(s.body) + CatchExprs(s.catches), OptBlockExprs(s.finallyBlock),
                     BlockSize(s.body) + CatchesSize(s.catches), OptBlockSize(s.finallyBlock),
                     AnyBlock(s.body, p) || AnyCatches(s.catches, p), AnyOptBlock(s.finallyBlock, p),
                     FreeBlock(Walked, s.body, {}) + FreeCatches(Walked, s.catches, {}), FreeOptBlock(Walked, s.finallyBlock, {}), p);
  }

  // ----- One level, for expressions -----

  function IdentName(e: Expr): set<Name> {
    if e.Ident? then {e.name} else {}
  }

  /** One step of the walk: the children are smaller, they are what the recursive test descends into, and
      only an identifier adds a free name of its own. */
  ghost predicate OneLevel(e: Expr, p: Expr -> bool) {
    && ListSize(Children(e)) + 1 == Size(e)
    && (AnyExpr(e, p) <==> p(e) || AnyOf(Children(e), p))
    && Free(e) <= FreeOf(Children(e)) + IdentName(e)
  }

  /** A representation of the children that fits the node. */
  lemma Fits(e: Expr, size: nat, any: bool, free: set<Name>, p: Expr -> bool)
    requires Represents(Children(e), size, any, free, p)
    requires Size(e) == 1 + size && (AnyExpr(e, p) <==> p(e) || any) && Free(e) <= free + IdentName(e)
    ensures OneLevel(e, p)
  {
    hide Size, AnyExpr, FreeExpr, Children;
  }

  lemma LeafFits(e: Expr, p: Expr -> bool)
    requires e.Ident? || e.This? || e.Lit? || e.Mark?
    ensures OneLevel(e, p)
  {
    RepresentsNone(p);
    Fits(e, 0, false, {}, p);
  }

  lemma OperandsFit(e: Expr, p: Expr -> bool)
    requires e.One? || e.Two?
    ensures OneLevel(e, p)
  {
    hide Represents, OneLevel;
    match e
    case One(_, x) =>
      RepresentsOne(x, p);
      Fits(e, Size(x), AnyExpr(x, p), Free(x), p);
    case Two(_, l, r) =>
      TwoRep(l, r, p);
      Fits(e, Size(l) + Size(r), AnyExpr(l, p) || AnyExpr(r, p), Free(l) + Free(r), p);
  }

  lemma IfFits(e: Expr, p: Expr -> bool)
    requires e.If?
    ensures OneLevel(e, p)
  {
    hide Represents, OneLevel, FreeBlock, AnyBlock;
    var c, t, f := e.cond, e.thenExpr, e.elseExpr;
    TwoRep(t, f, p);
    ThenRep(c, [t, f], Size(t) + Size(f), AnyExpr(t, p) || AnyExpr(f, p), Free(t) + Free(f), p);
    assert [c] + [t, f] == [c, t, f];
    Fits(e, Size(c) + (Size(t) + Size(f)), AnyExpr(c, p) || AnyExpr(t, p) || AnyExpr(f, p),
         Free(c) + (Free(t) + Free(f)), p);
  }

  lemma ListsFit(e: Expr, p: Expr -> bool)
    requires e.Items? || e.Call? || e.ParentCall?
    ensures OneLevel(e, p)
  {
    hide Represents, OneLevel;
    match e
    case Items(_, items) =>
      ListRep(items, p);
      Fits(e, ListSize(items), AnyOf(items, p), FreeAll(Walked, items, {}), p);
    case Call(callee, args) =>
      ListRep(args, p);
      ThenRep(callee, args, ListSize(args), AnyOf(args, p), FreeAll(Walked, args, {}), p);
      Fits(e, Size(callee) + ListSize(args), AnyExpr(callee, p) || AnyOf(args, p),
           Free(callee) + FreeAll(Walked, args, {}), p);
    case ParentCall(_, _, args) =>
      ListRep(args, p);
      Fits(e, ListSize(args), AnyOf(args, p), FreeAll(Walked, args, {}), p);
  }

  lemma PartsFit(e: Expr, p: Expr -> bool)
    requires e.Template? || e.MapLit?
    ensures OneLevel(e, p)
  {
    hide Represents, OneLevel, PartsSize, PairsSize, FreeParts, FreePairs;
    match e
    case Template(_, parts) =>
      PartsRep(parts, p);
      Fits(e, PartsSize(parts), AnyParts(parts, p), FreeParts(Walked, parts, {}), p);
    case MapLit(pairs) =>
      PairsRep(pairs, p);
      Fits(e, PairsSize(pairs), AnyPairs(pairs, p), FreePairs(Walked, pairs, {}), p);
  }

  lemma HeadsFit(e: Expr, p: Expr -> bool)
    requires e.CloneWith? || e.Match? || e.Lambda?
    ensures OneLevel(e, p)
  {
    hide Represents, OneLevel, FieldsSize, ArmsSize, FreeFields, FreeArms, BodySize, FreeBody, AnyBody;
    match e
    case CloneWith(o, fields) =>
      FieldsRep(fields, p);
      ThenRep(o, FieldExprs(fields), FieldsSize(fields), AnyFields(fields, p), FreeFields(Walked, fields, {}), p);
      Fits(e, Size(o) + FieldsSize(fields), AnyExpr(o, p) || AnyFields(fields, p),
           Free(o) + FreeFields(Walked, fields, {}), p);
    case Match(s, arms) =>
      ArmsRep(arms, p);
      ThenRep(s, ArmExprs(arms), ArmsSize(arms), AnyArms(arms, p), FreeArms(Walked, arms, {}), p);
      Fits(e, Size(s) + ArmsSize(arms), AnyExpr(s, p) || AnyArms(arms, p), Free(s) + FreeArms(Walked, arms, {}), p);
    case Lambda(ps, body) =>
      BodyRep(body, {} + Elements(ps), p);
      Fits(e, BodySize(body), AnyBody(body, p), FreeBody(Walked, body, {} + Elements(ps)), p);
  }

  lemma ChildrenOneLevel(e: Expr, p: Expr -> bool)
    ensures OneLevel(e, p)
  {
    hide OneLevel;
    match e
    case Ident(_) => LeafFits(e, p);
    case This => LeafFits(e, p);
    case Lit(_) => LeafFits(e, p);
    case Mark(_) => LeafFits(e, p);
    case Template(_, _) => PartsFit(e, p);
    case MapLit(_) => PartsFit(e, p);
    case Items(_, _) => ListsFit(e, p);
    case Call(_, _) => ListsFit(e, p);
    case ParentCall(_, _, _) => ListsFit(e, p);
    case One(_, _) => OperandsFit(e, p);
    case Two(_, _, _) => OperandsFit(e, p);
    case If(_, _, _) => IfFits(e, p);
    case CloneWith(_, _) => HeadsFit(e, p);
    case Match(_, _) => HeadsFit(e, p);
    case Lambda(_, _) => HeadsFit(e, p);
  }

  lemma BodyRep(body: LambdaBody, bound: set<Name>, p: Expr -> bool)
    ensures Represents(BodyExprs(body), BodySize(body), AnyBody(body, p), FreeBody(Walked, body, bound), p)
  {
    match body
    case ExprBody(e) =>
      RepresentsOne(e, p);
      ExprShrinks(e, bound);
    case BlockBody(ss) =>
      BlockRep(ss, p);
      BlockShrinks(ss, bound);
  }

  // ----- A disjunction is found where one of its sides is -----

  function Or(p: Expr -> bool, q: Expr -> bool): Expr -> bool {
    (e: Expr) => p(e) || q(e)
  }

  lemma {:induction false} AnyOr(e: Expr, p: Expr -> bool, q: Expr -> bool)
    ensures AnyExpr(e, Or(p, q)) <==> AnyExpr(e, p) || AnyExpr(e, q)
    decreases Size(e), 0
  {
    hide AnyExpr, Children, Size, FreeExpr;
    ChildrenOneLevel(e, p);
    ChildrenOneLevel(e, q);
    ChildrenOneLevel(e, Or(p, q));
    AnyOfOr(Children(e), p, q);
  }

  lemma {:induction false} AnyOfOr(xs: seq<Expr>, p: Expr -> bool, q: Expr -> bool)
    ensures AnyOf(xs, Or(p, q)) <==> AnyOf(xs, p) || AnyOf(xs, q)
    decreases ListSize(xs), 1
  {
    hide AnyExpr, Size;
    forall x | x in xs ensures AnyExpr(x, Or(p, q)) <==> AnyExpr(x, p) || AnyExpr(x, q) {
      MemberSize(xs, x);
      AnyOr(x, p, q);
    }
  }

  lemma {:induction false} MemberSize(xs: seq<Expr>, x: Expr)
    requires x in xs
    ensures Size(x) <= ListSize(xs)
  {
    if x != xs[0] { MemberSize(xs[1..], x); }
  }

  // ----- The worklist -----

  /** What a worklist has still to find: visited nodes that satisfy `p`, or pending ones that hold one. */
  ghost predicate Covers(e: Expr, visited: seq<Expr>, work: seq<Expr>, p: Expr -> bool) {
    AnyExpr(e, p) <==> (exists x :: x in visited && p(x)) || AnyOf(work, p)
  }

  /** Every name free in `e` has been visited as an identifier or is free in a pending expression. */
  ghost predicate NamesCovered(e: Expr, visited: seq<Expr>, work: seq<Expr>) {
    forall n :: n in Free(e) ==> Ident(n) in visited || n in FreeOf(work)
  }

  lemma CoversStep(e: Expr, visited: seq<Expr>, rest: seq<Expr>, x: Expr, p: Expr -> bool)
    requires Covers(e, visited, rest + [x], p)
    ensures Covers(e, visited + [x], rest + Children(x), p)
  {
    hide AnyExpr, Children;
    ChildrenOneLevel(x, p);
    AnyOfConcat(rest, [x], p);
    AnyOfConcat(rest, Children(x), p);
    AnyOfOne(x, p);
    if y :| y in visited && p(y) {
      assert y in visited + [x];
    }
    if p(x) {
      assert x in visited + [x];
    }
  }

  lemma AnyOfOne(x: Expr, p: Expr -> bool)
    ensures AnyOf([x], p) <==> AnyExpr(x, p)
  {
    hide AnyExpr;
    assert x in [x];
  }

  lemma AnyOfConcat(xs: seq<Expr>, ys: seq<Expr>, p: Expr -> bool)
    ensures AnyOf(xs + ys, p) <==> AnyOf(xs, p) || AnyOf(ys, p)
  {
    hide AnyExpr;
    if x :| x in xs && AnyExpr(x, p) { assert x in xs + ys; }
    if y :| y in ys && AnyExpr(y, p) { assert y in xs + ys; }
  }

  lemma NamesStep(e: Expr, visited: seq<Expr>, rest: seq<Expr>, x: Expr)
    requires NamesCovered(e, visited, rest + [x])
    ensures NamesCovered(e, visited + [x], rest + Children(x))
  {
    hide FreeExpr, Children;
    ChildrenOneLevel(x, _ => false);
    forall n | n in Free(e) ensures Ident(n) in visited + [x] || n in FreeOf(rest + Children(x)) {
      if Ident(n) !in visited {
        var y :| y in rest + [x] && n in Free(y);
        if y in rest {
          assert y in rest + Children(x);
        } else if n in FreeOf(Children(x)) {
          var z :| z in Children(x) && n in Free(z);
          assert z in rest + Children(x);
        } else {
          assert x == Ident(n);
        }
      }
    }
  }

  /** Iterating the enumerator as a worklist visits exactly what the recursive walk tests, and every name
      the capture list mentions as an identifier. */
  method Worklist(e: Expr) returns (visited: seq<Expr>)
    ensures forall p :: AnyExpr(e, p) <==> exists x :: x in visited && p(x)
    ensures forall n :: n in Free(e) ==> Ident(n) in visited
  {
    hide AnyExpr, FreeExpr, Children, Size;
    visited := [];
    var work := [e];
    forall p ensures Covers(e, [], work, p) {
      AnyOfOne(e, p);
    }
    assert e in work && NamesCovered(e, visited, work);
    while work != []
      invariant forall p :: Covers(e, visited, work, p)
      invariant NamesCovered(e, visited, work)
      decreases ListSize(work)
    {
      var x := work[|work| - 1];
      ghost var rest := work[..|work| - 1];
      assert work == rest + [x];
      forall p ensures Covers(e, visited + [x], rest + Children(x), p) {
        CoversStep(e, visited, rest, x, p);
      }
      NamesStep(e, visited, rest, x);
      PopShrinks(rest, x);
      work := work[..|work| - 1];
      work := PushSubexprs(x, work);
      visited := visited + [x];
    }
    forall p ensures AnyExpr(e, p) <==> exists x :: x in visited && p(x) {
      assert Covers(e, visited, work, p);
    }
  }

  lemma PopShrinks(rest: seq<Expr>, x: Expr)
    ensures ListSize(rest + Children(x)) < ListSize(rest + [x])
  {
    hide Size, Children, AnyExpr, FreeExpr;
    ChildrenOneLevel(x, _ => false);
    ListSizeConcat(rest, Children(x));
    ListSizeConcat(rest, [x]);
    assert [x][1..] == [] && ListSize([x]) == Size(x) + ListSize([]);
  }

  /** A lambda uses `this` exactly when the worklist over it meets a `this`. */
  lemma UsesThisIffReached(params: seq<Name>, body: LambdaBody, visited: seq<Expr>)
    requires forall p :: AnyExpr(Lambda(params, body), p) <==> exists x :: x in visited && p(x)
    ensures UsesThis(body) <==> This in visited
  {
    hide AnyBody;
    assert AnyExpr(Lambda(params, body), IsThis) <==> AnyBody(body, IsThis);
    if This in visited {
      assert IsThis(This);
    }
  }

  /** Every name a lambda captures is reached as an identifier. */
  lemma CapturedNamesReached(params: seq<Name>, body: LambdaBody, visited: seq<Expr>)
    requires forall n :: n in Free(Lambda(params, body)) ==> Ident(n) in visited
    ensures forall n :: n in FreeVars(params, body) ==> Ident(n) in visited
  {
    assert {} + Elements(params) == Elements(params);
  }
}
