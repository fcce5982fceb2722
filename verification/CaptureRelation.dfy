/** When two runs that capture differently are in step: the relation that `CaptureSound` maintains. */
module CaptureRelation {
  import opened Ast
  import opened Walk
  import opened Interp
  import opened Capture

  /** Equal up to the captured names a closure's body cannot read. */
  ghost predicate Same(rules: Rules, a: Value, b: Value)
    decreases a
  {
    match a
    case ListV(xs) => b.ListV? && SameAll(rules, xs, b.items)
    case MapV(ks, vs) => b.MapV? && ks == b.keys && SameAll(rules, vs, b.values)
    case EnumV(ty, n, p) => b.EnumV? && ty == b.ty && n == b.variant && SameAll(rules, p, b.payload)
    case Closure(ps, body, env, self) =>
      && b.Closure? && ps == b.params && body == b.body
      && FitBody(rules, ps, body) && !AnyBody(body, Unfit(rules))
      && (UsesThis(body) ==> self == b.self)
      && forall x :: x in Needs(rules, ps, body) ==> (x in env <==> x in b.env) && (x in env ==> Same(rules, env[x], b.env[x]))
    case _ => a == b
  }

  ghost predicate SameAll(rules: Rules, xs: seq<Value>, ys: seq<Value>)
    decreases xs
  {
    |xs| == |ys| && forall i :: 0 <= i < |xs| ==> Same(rules, xs[i], ys[i])
  }

  ghost predicate SameIn(rules: Rules, s: Scope, t: Scope, x: Name) {
    (x in s <==> x in t) && (x in s ==> Same(rules, s[x], t[x]))
  }

  /** The same names, bound to the same values. */
  ghost predicate SameScope(rules: Rules, s: Scope, t: Scope) {
    forall x {:trigger SameIn(rules, s, t, x)} :: SameIn(rules, s, t, x)
  }

  /** Both stacks find `x` at the same level with the same value, or at no level. */
  ghost predicate SameVisible(rules: Rules, e: Env, f: Env, x: Name) {
    if x in e.vars || x in f.vars then SameIn(rules, e.vars, f.vars, x)
    else match e
      case Root(_) => f.Root?
      case Nest(_, outer) => f.Nest? && SameVisible(rules, outer, f.outer, x)
  }

  /** For each level of the stack, the names the code running there may still read. */
  datatype Live = LiveRoot(names: set<Name>) | LiveNest(names: set<Name>, outer: Live)

  ghost predicate SameEnv(rules: Rules, e: Env, f: Env, l: Live)
    decreases l
  {
    && (forall x {:trigger SameVisible(rules, e, f, x)} :: x in l.names ==> SameVisible(rules, e, f, x))
    && match l
       case LiveRoot(_) => e.Root? && f.Root?
       case LiveNest(_, outer) => e.Nest? && f.Nest? && SameEnv(rules, e.outer, f.outer, outer)
  }

  ghost predicate SameObj(rules: Rules, a: Obj, b: Obj) {
    a.class_ == b.class_ && SameScope(rules, a.fields, b.fields)
  }

  ghost predicate SameEvent(rules: Rules, a: Event, b: Event) {
    a.recv == b.recv && a.name == b.name && SameAll(rules, a.args, b.args)
  }

  ghost predicate SameWorld(rules: Rules, v: World, w: World) {
    && |v.heap| == |w.heap| && (forall i :: 0 <= i < |v.heap| ==> SameObj(rules, v.heap[i], w.heap[i]))
    && |v.trace| == |w.trace| && (forall i :: 0 <= i < |v.trace| ==> SameEvent(rules, v.trace[i], w.trace[i]))
  }

  ghost predicate SameSignal(rules: Rules, a: Signal, b: Signal) {
    match a
    case ReturnSig(v) => b.ReturnSig? && Same(rules, v, b.value)
    case ThrowSig(v) => b.ThrowSig? && Same(rules, v, b.value)
    case _ => a == b
  }

  ghost predicate SameOut(rules: Rules, a: Out, b: Out) {
    match a
    case Ok(v) => b.Ok? && Same(rules, v, b.value)
    case Stop(s) => b.Stop? && SameSignal(rules, s, b.signal)
  }

  ghost predicate SameOuts(rules: Rules, a: Outs, b: Outs) {
    match a
    case Oks(vs) => b.Oks? && SameAll(rules, vs, b.values)
    case Stops(s) => b.Stops? && SameSignal(rules, s, b.signal)
  }

  /** The runs differ at most in what closures capture and in a receiver that nothing reads. */
  ghost predicate SameCx(rules: Rules, c: Cx, d: Cx, receiver: bool) {
    && c.prog == d.prog && c.host == d.host && c.cls == d.cls
    && FitProgram(rules, c.prog) && RightAbout(rules, c.prog)
    && (receiver ==> c.self == d.self)
  }

  // ----- Environments -----

  lemma {:induction false} LookupIsFlatten(e: Env, x: Name)
    ensures Lookup(e, x) == if x in Flatten(e) then Some(Flatten(e)[x]) else None
  {
    if e.Nest? { LookupIsFlatten(e.outer, x); }
  }

  lemma {:induction false} LookupSame(rules: Rules, e: Env, f: Env, x: Name)
    requires SameVisible(rules, e, f, x)
    ensures Lookup(e, x).Some? <==> Lookup(f, x).Some?
    ensures Lookup(e, x).Some? ==> Same(rules, Lookup(e, x).value, Lookup(f, x).value)
  {
    if !(x in e.vars || x in f.vars) && e.Nest? { LookupSame(rules, e.outer, f.outer, x); }
  }

  lemma {:induction false} FlattenSame(rules: Rules, e: Env, f: Env, x: Name)
    requires SameVisible(rules, e, f, x)
    ensures SameIn(rules, Flatten(e), Flatten(f), x)
  {
    LookupSame(rules, e, f, x);
    LookupIsFlatten(e, x);
    LookupIsFlatten(f, x);
  }

  lemma {:induction false} NarrowEnv(rules: Rules, e: Env, f: Env, l: Live, names: set<Name>)
    requires SameEnv(rules, e, f, l) && names <= l.names
    ensures SameEnv(rules, e, f, l.(names := names))
  {
  }

  function Add(l: Live, names: set<Name>): Live { l.(names := l.names + names) }

  lemma DeclareSame(rules: Rules, e: Env, f: Env, l: Live, x: Name, v: Value, w: Value)
    requires SameEnv(rules, e, f, l) && Same(rules, v, w)
    ensures SameEnv(rules, Declare(e, x, v), Declare(f, x, w), Add(l, {x}))
  {
    var e1, f1 := Declare(e, x, v), Declare(f, x, w);
    forall y | y in l.names + {x} ensures SameVisible(rules, e1, f1, y) {
      if y != x {
        assert SameVisible(rules, e, f, y);
        assert SameIn(rules, e.vars, f.vars, y) ==> SameIn(rules, e1.vars, f1.vars, y);
      } else {
        assert SameIn(rules, e1.vars, f1.vars, x);
      }
    }
  }

  lemma {:induction false} DeclareAllSame(rules: Rules, e: Env, f: Env, l: Live, xs: seq<Name>, vs: seq<Value>,
                                          ws: seq<Value>)
    requires SameEnv(rules, e, f, l) && |xs| == |vs| && SameAll(rules, vs, ws)
    ensures SameEnv(rules, DeclareAll(e, xs, vs), DeclareAll(f, xs, ws), Add(l, Elements(xs)))
    decreases |xs|
  {
    if xs != [] {
      DeclareSame(rules, e, f, l, xs[0], vs[0], ws[0]);
      DeclareAllSame(rules, Declare(e, xs[0], vs[0]), Declare(f, xs[0], ws[0]), Add(l, {xs[0]}), xs[1..], vs[1..],
                     ws[1..]);
      assert Add(Add(l, {xs[0]}), Elements(xs[1..])) == Add(l, Elements(xs)) by {
        assert xs == [xs[0]] + xs[1..];
        assert l.names + {xs[0]} + Elements(xs[1..]) == l.names + Elements(xs);
      }
    } else {
      assert l.names + {} == l.names;
    }
  }

  lemma {:induction false} ReassignVisible(rules: Rules, e: Env, f: Env, x: Name, v: Value, w: Value, y: Name)
    requires SameVisible(rules, e, f, x) && SameVisible(rules, e, f, y) && Same(rules, v, w)
    ensures SameVisible(rules, Reassign(e, x, v), Reassign(f, x, w), y)
  {
    if x in e.vars {
      var e1, f1 := Declare(e, x, v), Declare(f, x, w);
      if y == x {
        assert SameIn(rules, e1.vars, f1.vars, y);
      } else {
        assert SameIn(rules, e.vars, f.vars, y) ==> SameIn(rules, e1.vars, f1.vars, y);
      }
    } else if e.Nest? && !(y in e.vars || y in f.vars) {
      ReassignVisible(rules, e.outer, f.outer, x, v, w, y);
    }
  }

  lemma {:induction false} ReassignSame(rules: Rules, e: Env, f: Env, l: Live, x: Name, v: Value, w: Value)
    requires SameEnv(rules, e, f, l) && SameVisible(rules, e, f, x) && Same(rules, v, w)
    ensures SameEnv(rules, Reassign(e, x, v), Reassign(f, x, w), l)
    decreases l
  {
    forall y | y in l.names ensures SameVisible(rules, Reassign(e, x, v), Reassign(f, x, w), y) {
      ReassignVisible(rules, e, f, x, v, w, y);
    }
    if l.LiveNest? && x !in e.vars { ReassignSame(rules, e.outer, f.outer, l.outer, x, v, w); }
  }

  lemma PushSame(rules: Rules, e: Env, f: Env, l: Live, s: Scope, t: Scope)
    requires SameEnv(rules, e, f, l) && SameScope(rules, s, t)
    ensures SameEnv(rules, Nest(s, e), Nest(t, f), LiveNest(l.names + s.Keys, l))
  {
    forall x | x in l.names + s.Keys ensures SameVisible(rules, Nest(s, e), Nest(t, f), x) {
      assert SameIn(rules, s, t, x);
      if x !in s { assert SameVisible(rules, e, f, x); }
    }
  }

  lemma FrameSame(rules: Rules, ps: seq<Name>, vs: seq<Value>, ws: seq<Value>, names: set<Name>)
    requires |ps| == |vs| && SameAll(rules, vs, ws)
    ensures SameEnv(rules, DeclareAll(Root(map[]), ps, vs), DeclareAll(Root(map[]), ps, ws), LiveRoot(names))
  {
    assert SameEnv(rules, Root(map[]), Root(map[]), LiveRoot(names));
    DeclareAllSame(rules, Root(map[]), Root(map[]), LiveRoot(names), ps, vs, ws);
    NarrowEnv(rules, DeclareAll(Root(map[]), ps, vs), DeclareAll(Root(map[]), ps, ws),
              Add(LiveRoot(names), Elements(ps)), names);
  }

  // ----- Operators -----

  lemma SameSlice(rules: Rules, xs: seq<Value>, ys: seq<Value>, i: nat)
    requires SameAll(rules, xs, ys) && i <= |xs|
    ensures SameAll(rules, xs[i..], ys[i..]) && SameAll(rules, xs[..i], ys[..i])
  {
  }

  lemma {:induction false} RenderSame(rules: Rules, host: Host, parts: seq<Part>, vs: seq<Value>, ws: seq<Value>)
    requires SameAll(rules, vs, ws)
    ensures Render(host, parts, vs) == Render(host, parts, ws)
    decreases |parts|
  {
    if parts != [] {
      if parts[0].Text? {
        RenderSame(rules, host, parts[1..], vs, ws);
      } else if vs != [] {
        assert Same(rules, vs[0], ws[0]);
        RenderSame(rules, host, parts[1..], vs[1..], ws[1..]);
      }
    }
  }

  lemma PutKeySame(rules: Rules, m: Value, n: Value, k: Literal, v: Value, w: Value)
    requires m.MapV? && |m.keys| == |m.values| && Same(rules, m, n) && Same(rules, v, w)
    requires n.MapV? && |n.keys| == |n.values|
    ensures Same(rules, PutKey(m, k, v), PutKey(n, k, w))
  {
  }

  lemma {:induction false} BuildMapSame(rules: Rules, vs: seq<Value>, ws: seq<Value>, m: Value, n: Value)
    requires SameAll(rules, vs, ws) && m.MapV? && |m.keys| == |m.values| && Same(rules, m, n)
    requires n.MapV? && |n.keys| == |n.values|
    ensures SameOut(rules, BuildMap(vs, m), BuildMap(ws, n))
    decreases |vs|
  {
    if |vs| >= 2 {
      assert Same(rules, vs[0], ws[0]) && Same(rules, vs[1], ws[1]);
      if IsKey(vs[0]) {
        PutKeySame(rules, m, n, vs[0].lit, vs[1], ws[1]);
        BuildMapSame(rules, vs[2..], ws[2..], PutKey(m, vs[0].lit, vs[1]), PutKey(n, vs[0].lit, ws[1]));
      }
    }
  }

  lemma IsInstanceSame(rules: Rules, host: Host, a: Value, b: Value, ty: Name, v: World, w: World)
    requires Same(rules, a, b) && SameWorld(rules, v, w)
    ensures IsInstance(host, a, ty, v) == IsInstance(host, b, ty, w)
    ensures IsA(host, a, ty, v) == IsA(host, b, ty, w)
  {
    if a.Ref? && a.id < |v.heap| { assert SameObj(rules, v.heap[a.id], w.heap[a.id]); }
  }

  lemma GetFieldSame(rules: Rules, a: Value, b: Value, f: Name, v: World, w: World)
    requires Same(rules, a, b) && SameWorld(rules, v, w)
    ensures GetField(a, f, v).Some? <==> GetField(b, f, w).Some?
    ensures GetField(a, f, v).Some? ==> Same(rules, GetField(a, f, v).value, GetField(b, f, w).value)
  {
    if a.Ref? && a.id < |v.heap| {
      assert SameObj(rules, v.heap[a.id], w.heap[a.id]);
      assert SameIn(rules, v.heap[a.id].fields, w.heap[a.id].fields, f);
    }
  }

  lemma ApplyOneSame(rules: Rules, host: Host, k: OneKind, a: Value, b: Value, v: World, w: World)
    requires Same(rules, a, b) && SameWorld(rules, v, w)
    ensures SameOut(rules, ApplyOne(host, k, a, v), ApplyOne(host, k, b, w))
  {
    match k
    case InstanceOf(ty) => IsInstanceSame(rules, host, a, b, ty, v, w);
    case Cast(ty) => IsInstanceSame(rules, host, a, b, ty, v, w);
    case Member(f, _) => GetFieldSame(rules, a, b, f, v, w);
    case Spawn => assert SameAll(rules, [a], [b]);
    case _ =>
  }

  lemma {:induction false} RangeListSame(rules: Rules, lo: int, hi: int)
    ensures SameAll(rules, RangeList(lo, hi), RangeList(lo, hi))
    decreases hi - lo
  {
    if lo < hi { RangeListSame(rules, lo + 1, hi); }
  }

  lemma ScalarSame(rules: Rules, a: Value, b: Value)
    requires Same(rules, a, b)
    ensures a.Scalar? || b.Scalar? ==> a == b
  {
  }

  lemma KeySame(rules: Rules, a: Value, b: Value, x: Value, y: Value)
    requires Same(rules, a, b) && Same(rules, x, y)
    ensures SameOut(rules, FromOption(IndexValue(a, x)), FromOption(IndexValue(b, y)))
  {
    ScalarSame(rules, x, y);
  }

  lemma PlainOuts(rules: Rules, l: Option<Literal>, lo: int, hi: int)
    ensures SameOut(rules, FromLit(l), FromLit(l)) && SameOut(rules, Stop(Fault), Stop(Fault))
    ensures SameOut(rules, Ok(ListV(RangeList(lo, hi))), Ok(ListV(RangeList(lo, hi))))
  {
    RangeListSame(rules, lo, hi);
  }

  lemma ApplyTwoSame(rules: Rules, host: Host, k: TwoKind, a: Value, b: Value, x: Value, y: Value)
    requires Same(rules, a, b) && Same(rules, x, y)
    ensures SameOut(rules, ApplyTwo(host, k, a, x), ApplyTwo(host, k, b, y))
  {
    hide Same, SameOut, RangeList, FromLit, IndexValue;
    ScalarSame(rules, a, b);
    ScalarSame(rules, x, y);
    PlainOuts(rules, None, 0, 0);
    match k
    case Binary(op) => if a.Scalar? && x.Scalar? { PlainOuts(rules, host.binary(op, a.lit, x.lit), 0, 0); }
    case Range(inclusive) =>
      if a.Scalar? && a.lit.IntLit? && x.Scalar? && x.lit.IntLit? {
        PlainOuts(rules, None, a.lit.i, x.lit.i + if inclusive then 1 else 0);
      }
    case Index => KeySame(rules, a, b, x, y);
    case _ =>
  }

  lemma {:induction false} OverwriteSame(rules: Rules, o: Scope, p: Scope, fs: seq<Field>, vs: seq<Value>,
                                         ws: seq<Value>)
    requires SameScope(rules, o, p) && |fs| == |vs| && SameAll(rules, vs, ws)
    ensures SameScope(rules, Overwrite(o, fs, vs), Overwrite(p, fs, ws))
  {
    if fs != [] {
      var n := fs[0].name;
      assert SameIn(rules, o, p, n);
      var o1 := if n in o then o[n := vs[0]] else o;
      var p1 := if n in p then p[n := ws[0]] else p;
      forall x ensures SameIn(rules, o1, p1, x) { assert SameIn(rules, o, p, x); }
      OverwriteSame(rules, o1, p1, fs[1..], vs[1..], ws[1..]);
    }
  }

  lemma AllocateSame(rules: Rules, a: Obj, b: Obj, v: World, w: World)
    requires SameObj(rules, a, b) && SameWorld(rules, v, w)
    ensures SameOut(rules, Allocate(a, v).0, Allocate(b, w).0) && SameWorld(rules, Allocate(a, v).1, Allocate(b, w).1)
  {
  }

  lemma ApplySame(rules: Rules, host: Host, e: Expr, vs: seq<Value>, ws: seq<Value>, v: World, w: World)
    requires Strict(e) && |vs| == |Operands(e)| && SameAll(rules, vs, ws) && SameWorld(rules, v, w)
    ensures SameOut(rules, Apply(host, e, vs, v).0, Apply(host, e, ws, w).0)
    ensures SameWorld(rules, Apply(host, e, vs, v).1, Apply(host, e, ws, w).1)
  {
    match e
    case Template(_, parts) => RenderSame(rules, host, parts, vs, ws);
    case MapLit(_) => BuildMapSame(rules, vs, ws, MapV([], []), MapV([], []));
    case One(k, _) => ApplyOneSame(rules, host, k, vs[0], ws[0], v, w);
    case Two(k, _, _) => ApplyTwoSame(rules, host, k, vs[0], ws[0], vs[1], ws[1]);
    case CloneWith(_, fields) =>
      assert Same(rules, vs[0], ws[0]);
      if vs[0].Ref? && vs[0].id < |v.heap| {
        var a, b := v.heap[vs[0].id], w.heap[vs[0].id];
        assert SameObj(rules, a, b);
        SameSlice(rules, vs, ws, 1);
        OverwriteSame(rules, a.fields, b.fields, fields, vs[1..], ws[1..]);
        AllocateSame(rules, a.(fields := Overwrite(a.fields, fields, vs[1..])),
                     b.(fields := Overwrite(b.fields, fields, ws[1..])), v, w);
      }
    case _ =>
  }

  // ----- Patterns -----

  /** Both fail, or both bind exactly the pattern's names to the same values. */
  ghost predicate SameMatch(rules: Rules, a: Option<Scope>, b: Option<Scope>, names: set<Name>) {
    (a.Some? <==> b.Some?) && (a.Some? ==> SameScope(rules, a.value, b.value) && a.value.Keys == names)
  }

  lemma JoinSame(rules: Rules, a: Scope, b: Scope, x: Scope, y: Scope)
    requires SameScope(rules, a, b) && SameScope(rules, x, y)
    ensures SameScope(rules, a + x, b + y)
  {
    forall n ensures SameIn(rules, a + x, b + y, n) { assert SameIn(rules, a, b, n) && SameIn(rules, x, y, n); }
  }

  lemma {:induction false} PatternSame(rules: Rules, host: Host, p: Pattern, a: Value, b: Value, v: World, w: World)
    requires Same(rules, a, b) && SameWorld(rules, v, w)
    ensures SameMatch(rules, MatchPattern(host, p, a, v), MatchPattern(host, p, b, w), PatternBinders(p))
    decreases p
  {
    match p
    case Variant(n, subs) =>
      if a.EnumV? && a.variant == n && |subs| == |a.payload| {
        AllPatternsSame(rules, host, subs, a.payload, b.payload, v, w);
      }
    case TypePattern(ty, _) => IsInstanceSame(rules, host, a, b, ty, v, w);
    case Struct(ty, fs) =>
      IsInstanceSame(rules, host, a, b, ty, v, w);
      FieldPatternsSame(rules, host, fs, a, b, v, w);
    case _ =>
  }

  lemma {:induction false} AllPatternsSame(rules: Rules, host: Host, ps: seq<Pattern>, xs: seq<Value>, ys: seq<Value>,
                                           v: World, w: World)
    requires |ps| == |xs| && SameAll(rules, xs, ys) && SameWorld(rules, v, w)
    ensures SameMatch(rules, MatchAll(host, ps, xs, v), MatchAll(host, ps, ys, w), SubBinders(ps))
    decreases ps
  {
    if ps != [] {
      PatternSame(rules, host, ps[0], xs[0], ys[0], v, w);
      AllPatternsSame(rules, host, ps[1..], xs[1..], ys[1..], v, w);
      var h, t := MatchPattern(host, ps[0], xs[0], v), MatchAll(host, ps[1..], xs[1..], v);
      if h.Some? && t.Some? {
        JoinSame(rules, h.value, MatchPattern(host, ps[0], ys[0], w).value, t.value,
                 MatchAll(host, ps[1..], ys[1..], w).value);
      }
    }
  }

  lemma {:induction false} FieldPatternsSame(rules: Rules, host: Host, fs: seq<FieldPat>, a: Value, b: Value, v: World,
                                             w: World)
    requires Same(rules, a, b) && SameWorld(rules, v, w)
    ensures SameMatch(rules, MatchFields(host, fs, a, v), MatchFields(host, fs, b, w), FieldBinders(fs))
    decreases fs
  {
    if fs != [] {
      GetFieldSame(rules, a, b, fs[0].field, v, w);
      var x, y := GetField(a, fs[0].field, v), GetField(b, fs[0].field, w);
      if x.Some? {
        PatternSame(rules, host, fs[0].pat, x.value, y.value, v, w);
        FieldPatternsSame(rules, host, fs[1..], a, b, v, w);
        var h, t := MatchPattern(host, fs[0].pat, x.value, v), MatchFields(host, fs[1..], a, v);
        if h.Some? && t.Some? {
          JoinSame(rules, h.value, MatchPattern(host, fs[0].pat, y.value, w).value, t.value,
                   MatchFields(host, fs[1..], b, w).value);
        }
      }
    }
  }

  // ----- Assignment and destructuring -----

  lemma StoreSame(rules: Rules, xs: seq<Value>, ys: seq<Value>, i: nat, x: Value, y: Value)
    requires SameAll(rules, xs, ys) && i < |xs| && Same(rules, x, y)
    ensures SameAll(rules, xs[i := x], ys[i := y])
  {
  }

  lemma ItemSame(rules: Rules, xs: seq<Value>, ys: seq<Value>, i: nat)
    requires SameAll(rules, xs, ys) && i < |xs|
    ensures |ys| == |xs| && Same(rules, xs[i], ys[i])
  {
  }

  /** The parts of containers alike are alike, and containers with parts alike are alike. */
  lemma ContainersSame(rules: Rules, a: Value, b: Value)
    ensures a.ListV? && b.ListV? ==> (Same(rules, a, b) <==> SameAll(rules, a.items, b.items))
    ensures a.MapV? && b.MapV? ==> (Same(rules, a, b) <==> a.keys == b.keys && SameAll(rules, a.values, b.values))
    ensures Same(rules, a, b) ==> (a.ListV? <==> b.ListV?) && (a.MapV? <==> b.MapV?)
  {
  }

  lemma NestUnfold(v: Value, path: seq<Value>, x: Value)
    requires path != [] && path[0].Scalar?
    ensures v.ListV? && path[0].lit.IntLit? && 0 <= path[0].lit.i < |v.items| ==>
              var i := path[0].lit.i;
              var sub := SetNested(v.items[i], path[1..], x);
              SetNested(v, path, x) == if sub.None? then None else Some(ListV(v.items[i := sub.value]))
    ensures v.MapV? && |v.keys| == |v.values| && |path| == 1 && IsKey(path[0]) ==>
              SetNested(v, path, x) == Some(PutKey(v, path[0].lit, x))
    ensures v.MapV? && |v.keys| == |v.values| && !(|path| == 1 && IsKey(path[0])) && KeyIndex(v.keys, path[0].lit) < |v.keys| ==>
              var i := KeyIndex(v.keys, path[0].lit);
              var sub := SetNested(v.values[i], path[1..], x);
              SetNested(v, path, x) == if sub.None? then None else Some(v.(values := v.values[i := sub.value]))
  {
  }

  lemma NestFails(v: Value, path: seq<Value>, x: Value)
    requires path != []
    ensures !path[0].Scalar? || !(v.ListV? || v.MapV?) ==> SetNested(v, path, x).None?
    ensures v.ListV? && !(path[0].Scalar? && path[0].lit.IntLit? && 0 <= path[0].lit.i < |v.items|) ==> SetNested(v, path, x).None?
    ensures v.MapV? && |v.keys| != |v.values| ==> SetNested(v, path, x).None?
    ensures v.MapV? && path[0].Scalar? && !(|path| == 1 && IsKey(path[0])) && KeyIndex(v.keys, path[0].lit) >= |v.keys| ==>
              SetNested(v, path, x).None?
  {
  }

  lemma {:induction false} SetNestedSame(rules: Rules, a: Value, b: Value, ps: seq<Value>, qs: seq<Value>, x: Value,
                                         y: Value)
    requires Same(rules, a, b) && SameAll(rules, ps, qs) && Same(rules, x, y)
    ensures SetNested(a, ps, x).Some? <==> SetNested(b, qs, y).Some?
    ensures SetNested(a, ps, x).Some? ==> Same(rules, SetNested(a, ps, x).value, SetNested(b, qs, y).value)
    decreases |ps|, 1
  {
    if ps == [] {
      assert qs == [];
    } else {
      hide Same, SameAll, SetNested;
      NestFails(a, ps, x);
      NestFails(b, qs, y);
      SameLength(rules, ps, qs);
      ItemSame(rules, ps, qs, 0);
      ScalarSame(rules, ps[0], qs[0]);
      ContainersSame(rules, a, b);
      SameSlice(rules, ps, qs, 1);
      if a.ListV? {
        ListNestedSame(rules, a, b, ps, qs, x, y);
      } else if a.MapV? && ps[0].Scalar? {
        MapNestedSame(rules, a, b, ps, qs, x, y);
      }
    }
  }

  lemma {:induction false} ListNestedSame(rules: Rules, a: Value, b: Value, ps: seq<Value>, qs: seq<Value>, x: Value,
                                          y: Value)
    requires a.ListV? && b.ListV? && SameAll(rules, a.items, b.items) && Same(rules, x, y)
    requires |ps| == |qs| > 0 && (ps[0].Scalar? || qs[0].Scalar? ==> ps[0] == qs[0]) && SameAll(rules, ps[1..], qs[1..])
    ensures SetNested(a, ps, x).Some? <==> SetNested(b, qs, y).Some?
    ensures SetNested(a, ps, x).Some? ==> Same(rules, SetNested(a, ps, x).value, SetNested(b, qs, y).value)
    decreases |ps|, 0
  {
    hide Same, SameAll, SetNested;
    NestFails(a, ps, x);
    NestFails(b, qs, y);
    SameLength(rules, a.items, b.items);
    if ps[0].Scalar? && ps[0].lit.IntLit? && 0 <= ps[0].lit.i < |a.items| {
      var i := ps[0].lit.i;
      ItemSame(rules, a.items, b.items, i);
      NestUnfold(a, ps, x);
      NestUnfold(b, qs, y);
      SetNestedSame(rules, a.items[i], b.items[i], ps[1..], qs[1..], x, y);
      var s, t := SetNested(a.items[i], ps[1..], x), SetNested(b.items[i], qs[1..], y);
      if s.Some? {
        StoreSame(rules, a.items, b.items, i, s.value, t.value);
        ContainersSame(rules, ListV(a.items[i := s.value]), ListV(b.items[i := t.value]));
      }
    }
  }

  lemma SameLength(rules: Rules, xs: seq<Value>, ys: seq<Value>)
    requires SameAll(rules, xs, ys)
    ensures |xs| == |ys|
  {
  }

  lemma {:induction false} MapNestedSame(rules: Rules, a: Value, b: Value, ps: seq<Value>, qs: seq<Value>, x: Value,
                                         y: Value)
    requires a.MapV? && b.MapV? && a.keys == b.keys && SameAll(rules, a.values, b.values) && Same(rules, a, b) &&
             Same(rules, x, y)
    requires |ps| == |qs| > 0 && ps[0].Scalar? && ps[0] == qs[0] && SameAll(rules, ps[1..], qs[1..])
    ensures SetNested(a, ps, x).Some? <==> SetNested(b, qs, y).Some?
    ensures SetNested(a, ps, x).Some? ==> Same(rules, SetNested(a, ps, x).value, SetNested(b, qs, y).value)
    decreases |ps|, 0
  {
    hide Same, SameAll, PutKey, SetNested;
    NestFails(a, ps, x);
    NestFails(b, qs, y);
    NestUnfold(a, ps, x);
    NestUnfold(b, qs, y);
    SameLength(rules, a.values, b.values);
    if |a.keys| == |a.values| {
      if |ps| == 1 && IsKey(ps[0]) {
        PutKeySame(rules, a, b, ps[0].lit, x, y);
      } else if KeyIndex(a.keys, ps[0].lit) < |a.keys| {
        var i := KeyIndex(a.keys, ps[0].lit);
        ItemSame(rules, a.values, b.values, i);
        SetNestedSame(rules, a.values[i], b.values[i], ps[1..], qs[1..], x, y);
        var s, t := SetNested(a.values[i], ps[1..], x), SetNested(b.values[i], qs[1..], y);
        if s.Some? {
          StoreSame(rules, a.values, b.values, i, s.value, t.value);
          ContainersSame(rules, a.(values := a.values[i := s.value]), b.(values := b.values[i := t.value]));
        }
      }
    }
  }

  lemma SetFieldSame(rules: Rules, v: World, w: World, id: nat, f: Name, a: Value, b: Value)
    requires SameWorld(rules, v, w) && id < |v.heap| && Same(rules, a, b)
    ensures SameWorld(rules, SetField(v, id, f, a), SetField(w, id, f, b))
  {
    var x, y := v.heap[id], w.heap[id];
    assert SameObj(rules, x, y) && SameIn(rules, x.fields, y.fields, f);
    if f in x.fields {
      var s, t := x.fields[f := a], y.fields[f := b];
      forall n ensures SameIn(rules, s, t, n) { assert SameIn(rules, x.fields, y.fields, n); }
      assert SameObj(rules, x.(fields := s), y.(fields := t));
    }
  }

  lemma TargetValuesSame(rules: Rules, p: DestructurePat, a: Value, b: Value, v: World, w: World)
    requires Same(rules, a, b) && SameWorld(rules, v, w)
    ensures TargetValues(p, a, v).Some? <==> TargetValues(p, b, w).Some?
    ensures TargetValues(p, a, v).Some? ==> SameAll(rules, TargetValues(p, a, v).value, TargetValues(p, b, w).value)
  {
    if p.StructTarget? {
      forall i | 0 <= i < |p.bindings|
        ensures var f := p.bindings[i].field;
                (GetField(a, f, v).Some? <==> GetField(b, f, w).Some?)
                && (GetField(a, f, v).Some? ==> Same(rules, GetField(a, f, v).value, GetField(b, f, w).value))
      {
        GetFieldSame(rules, a, b, p.bindings[i].field, v, w);
      }
    }
  }

  lemma IterElementsSame(rules: Rules, a: Value, b: Value)
    requires Same(rules, a, b)
    ensures IterElements(a).Some? <==> IterElements(b).Some?
    ensures IterElements(a).Some? ==> SameAll(rules, IterElements(a).value, IterElements(b).value)
  {
    if a.MapV? && |a.keys| == |a.values| {
      forall i | 0 <= i < |a.keys|
        ensures Same(rules, ListV([Scalar(a.keys[i]), a.values[i]]), ListV([Scalar(b.keys[i]), b.values[i]]))
      {
        assert SameAll(rules, [Scalar(a.keys[i]), a.values[i]], [Scalar(b.keys[i]), b.values[i]]);
      }
    }
  }

  lemma LoopScopeSame(rules: Rules, n: Name, val: Option<Name>, a: Value, b: Value)
    requires Same(rules, a, b)
    ensures SameScope(rules, LoopScope(n, val, a), LoopScope(n, val, b))
  {
    forall x ensures SameIn(rules, LoopScope(n, val, a), LoopScope(n, val, b), x) { }
  }
}
