/** A fuel-indexed evaluator with the scoping rules of the tree-walking interpreter
    (src/interpreter/stmt.rs, expr.rs, expr_leaves.rs, call.rs). It is what "the same behaviour" means
    for closure capture and for the lowering of `using`. */
module Interp {
  import opened Ast
  import opened Walk
  import opened LowerUsing

  // ----- Values and state -----

  type Scope = map<Name, Value>

  datatype Value =
    | Scalar(lit: Literal)
    | Unit
    | ListV(items: seq<Value>)
    | MapV(keys: seq<Literal>, values: seq<Value>)
    | EnumV(ty: Name, variant: Name, payload: seq<Value>)
    | Ref(id: nat)
    | Named(fn: Name)
    | Closure(params: seq<Name>, body: LambdaBody, env: Scope, self: Option<nat>)

  /** The scope stack of the running call. */
  datatype Env = Root(vars: Scope) | Nest(vars: Scope, outer: Env)

  datatype Obj = Obj(class_: Name, fields: Scope)
  datatype Event = Invoked(recv: nat, name: Name, args: seq<Value>)

  /** Instances are shared handles into `heap`; `trace` lists the method calls in order. */
  datatype World = World(heap: seq<Obj>, trace: seq<Event>)

  datatype Signal = ReturnSig(value: Value) | ThrowSig(value: Value) | BreakSig | ContinueSig | Fault | Timeout
  datatype Out = Ok(value: Value) | Stop(signal: Signal)
  datatype Outs = Oks(values: seq<Value>) | Stops(signal: Signal)

  datatype Fun = Fun(params: seq<Name>, body: seq<Stmt>)

  datatype Program = Program(
    funcs: map<Name, Fun>,
    classes: map<Name, seq<Name>>,
    methods: map<(Name, Name), Fun>,
    variants: map<Name, Name>,
    parents: map<(Name, Option<Name>, Name), (Name, Fun)>)

  /** Operators on scalars and the `instanceof` table. */
  datatype Host = Host(
    unary: (string, Literal) -> Option<Literal>,
    binary: (string, Literal, Literal) -> Option<Literal>,
    display: Literal -> Option<string>,
    isA: (Name, Name) -> bool)

  /** What a lambda captures: only its free names, as the interpreter does, or its whole environment. */
  datatype Mode = FreeNames | Everything

  datatype Cx = Cx(prog: Program, host: Host, mode: Mode, self: Option<nat>, cls: Option<Name>)

  // ----- Scopes -----

  function Lookup(env: Env, x: Name): Option<Value> {
    if x in env.vars then Some(env.vars[x])
    else match env
      case Root(_) => None
      case Nest(_, outer) => Lookup(outer, x)
  }

  function Declare(env: Env, x: Name, v: Value): Env {
    env.(vars := env.vars[x := v])
  }

  function DeclareAll(env: Env, xs: seq<Name>, vs: seq<Value>): Env
    requires |xs| == |vs|
    decreases |xs|
  {
    if xs == [] then env else DeclareAll(Declare(env, xs[0], vs[0]), xs[1..], vs[1..])
  }

  /** Overwrites the innermost binding of `x`; the scope stack is unchanged when there is none. */
  function Reassign(env: Env, x: Name, v: Value): Env {
    if x in env.vars then Declare(env, x, v)
    else match env
      case Root(_) => env
      case Nest(_, outer) => env.(outer := Reassign(outer, x, v))
  }

  /** The visible bindings. */
  function Flatten(env: Env): Scope {
    match env
    case Root(vars) => vars
    case Nest(vars, outer) => Flatten(outer) + vars
  }

  function Pop(env: Env): Env {
    match env
    case Root(_) => env
    case Nest(_, outer) => outer
  }

  function Push(env: Env): Env {
    Nest(map[], env)
  }

  function Null(): Value { Scalar(NullLit) }
  function Bool(b: bool): Value { Scalar(BoolLit(b)) }

  predicate IsTrue(v: Value) { v == Bool(true) }
  predicate IsBool(v: Value) { v.Scalar? && v.lit.BoolLit? }

  // ----- Operators -----

  /** The operands of a form that evaluates all of them, left to right, before it acts. */
  function Operands(e: Expr): seq<Expr> {
    match e
    case Template(_, parts) => Holes(parts)
    case Items(_, items) => items
    case MapLit(pairs) => KeysAndValues(pairs)
    case One(_, inner) => [inner]
    case Two(_, l, r) => [l, r]
    case CloneWith(o, fields) => [o] + seq(|fields|, i requires 0 <= i < |fields| => fields[i].value)
    case _ => []
  }

  function Holes(parts: seq<Part>): seq<Expr> {
    if parts == [] then [] else (if parts[0].Hole? then [parts[0].hole] else []) + Holes(parts[1..])
  }

  function KeysAndValues(pairs: seq<Pair>): seq<Expr> {
    if pairs == [] then [] else [pairs[0].key, pairs[0].value] + KeysAndValues(pairs[1..])
  }

  predicate Strict(e: Expr) {
    match e
    case Two(k, _, _) => !k.And? && !k.Or? && !k.Coalesce?
    case Ident(_) => false
    case This => false
    case Call(_, _) => false
    case ParentCall(_, _, _) => false
    case Match(_, _) => false
    case If(_, _, _) => false
    case Lambda(_, _) => false
    case _ => true
  }

  function Render(host: Host, parts: seq<Part>, vs: seq<Value>): Option<string> {
    if parts == [] then Some("")
    else if parts[0].Text? then
      var rest := Render(host, parts[1..], vs);
      if rest.Some? then Some(parts[0].text + rest.value) else None
    else if vs == [] || !vs[0].Scalar? || host.display(vs[0].lit).None? then None
    else
      var rest := Render(host, parts[1..], vs[1..]);
      if rest.Some? then Some(host.display(vs[0].lit).value + rest.value) else None
  }

  predicate IsKey(v: Value) {
    v.Scalar? && (v.lit.IntLit? || v.lit.BoolLit? || v.lit.TextLit?)
  }

  function PutKey(m: Value, k: Literal, v: Value): Value
    requires m.MapV? && |m.keys| == |m.values|
    ensures PutKey(m, k, v).MapV? && |PutKey(m, k, v).keys| == |PutKey(m, k, v).values|
  {
    var i := KeyIndex(m.keys, k);
    if i < |m.keys| then m.(values := m.values[i := v]) else MapV(m.keys + [k], m.values + [v])
  }

  function KeyIndex(ks: seq<Literal>, k: Literal): (i: nat)
    ensures i <= |ks|
  {
    if ks == [] || ks[0] == k then 0 else 1 + KeyIndex(ks[1..], k)
  }

  function BuildMap(vs: seq<Value>, m: Value): Out
    requires m.MapV? && |m.keys| == |m.values|
  {
    if |vs| < 2 then Ok(m)
    else if !IsKey(vs[0]) then Stop(Fault)
    else BuildMap(vs[2..], PutKey(m, vs[0].lit, vs[1]))
  }

  predicate IsPrimitive(ty: Name) {
    ty in {"int", "float", "string", "bool", "decimal"}
  }

  predicate IsA(host: Host, v: Value, ty: Name, w: World) {
    if ty == "int" then v.Scalar? && v.lit.IntLit?
    else if ty == "float" then v.Scalar? && v.lit.FloatLit?
    else if ty == "string" then v.Scalar? && v.lit.TextLit?
    else if ty == "bool" then v.Scalar? && v.lit.BoolLit?
    else if ty == "null" then v == Null()
    else IsInstance(host, v, ty, w)
  }

  predicate IsInstance(host: Host, v: Value, ty: Name, w: World) {
    v.Ref? && v.id < |w.heap| && (w.heap[v.id].class_ == ty || host.isA(w.heap[v.id].class_, ty))
  }

  function GetField(v: Value, f: Name, w: World): Option<Value> {
    if v.Ref? && v.id < |w.heap| && f in w.heap[v.id].fields then Some(w.heap[v.id].fields[f]) else None
  }

  function FromOption(v: Option<Value>): Out {
    if v.Some? then Ok(v.value) else Stop(Fault)
  }

  function FromLit(l: Option<Literal>): Out {
    if l.Some? then Ok(Scalar(l.value)) else Stop(Fault)
  }

  function ApplyOne(host: Host, k: OneKind, v: Value, w: World): Out {
    match k
    case Unary(op) => if v.Scalar? then FromLit(host.unary(op, v.lit)) else Stop(Fault)
    case InstanceOf(ty) => Ok(Bool(IsA(host, v, ty, w)))
    case Cast(ty) => if IsPrimitive(ty) then Ok(v) else Ok(if IsInstance(host, v, ty, w) then v else Null())
    case Member(f, safe) => if safe && v == Null() then Ok(Null()) else FromOption(GetField(v, f, w))
    case Force => if v == Null() then Stop(Fault) else Ok(v)
    case Propagate =>
      if v.EnumV? && v.variant == "Success" && v.payload != [] then Ok(v.payload[0])
      else if v.EnumV? && v.variant == "Failure" then Stop(ReturnSig(v))
      else Stop(Fault)
    case Throw => Stop(ThrowSig(v))
    case Spawn => Ok(EnumV("Task", "Done", [v]))
    case _ => Stop(Fault)
  }

  function RangeList(lo: int, hi: int): seq<Value>
    decreases hi - lo
  {
    if lo >= hi then [] else [Scalar(IntLit(lo))] + RangeList(lo + 1, hi)
  }

  function ApplyTwo(host: Host, k: TwoKind, l: Value, r: Value): Out {
    match k
    case Binary(op) => if l.Scalar? && r.Scalar? then FromLit(host.binary(op, l.lit, r.lit)) else Stop(Fault)
    case Index => FromOption(IndexValue(l, r))
    case Range(inclusive) =>
      if l.Scalar? && l.lit.IntLit? && r.Scalar? && r.lit.IntLit?
      then Ok(ListV(RangeList(l.lit.i, r.lit.i + if inclusive then 1 else 0)))
      else Stop(Fault)
    case _ => Stop(Fault)
  }

  function IndexValue(l: Value, r: Value): Option<Value> {
    if l.ListV? && r.Scalar? && r.lit.IntLit? && 0 <= r.lit.i < |l.items| then Some(l.items[r.lit.i])
    else if l.MapV? && r.Scalar? && KeyIndex(l.keys, r.lit) < |l.keys| && KeyIndex(l.keys, r.lit) < |l.values|
    then Some(l.values[KeyIndex(l.keys, r.lit)])
    else None
  }

  /** The fields of `obj`, overwritten by those of `fields` that name a slot. */
  function Overwrite(obj: Scope, fields: seq<Field>, vs: seq<Value>): Scope
    requires |fields| == |vs|
  {
    if fields == [] then obj
    else Overwrite(if fields[0].name in obj then obj[fields[0].name := vs[0]] else obj, fields[1..], vs[1..])
  }

  function Apply(host: Host, e: Expr, vs: seq<Value>, w: World): (Out, World)
    requires Strict(e) && |vs| == |Operands(e)|
  {
    match e
    case Lit(l) => (Ok(Scalar(l)), w)
    case Mark(NewList) => (Ok(ListV([])), w)
    case Mark(NewMap) => (Ok(MapV([], [])), w)
    case Template(k, parts) =>
      var text := Render(host, parts, vs);
      (if k.Str? && text.Some? then Ok(Scalar(TextLit(text.value))) else Stop(Fault), w)
    case Items(k, _) => (if k.List? then Ok(ListV(vs)) else Stop(Fault), w)
    case MapLit(_) => (BuildMap(vs, MapV([], [])), w)
    case One(k, _) => (ApplyOne(host, k, vs[0], w), w)
    case Two(k, _, _) => (ApplyTwo(host, k, vs[0], vs[1]), w)
    case CloneWith(_, fields) =>
      if vs[0].Ref? && vs[0].id < |w.heap| then
        var base := w.heap[vs[0].id];
        Allocate(base.(fields := Overwrite(base.fields, fields, vs[1..])), w)
      else (Stop(Fault), w)
    case _ => (Stop(Fault), w)
  }

  function Allocate(obj: Obj, w: World): (Out, World) {
    (Ok(Ref(|w.heap|)), w.(heap := w.heap + [obj]))
  }

  // ----- Patterns -----

  /** The bindings of a successful match, in order. */
  function MatchPattern(host: Host, p: Pattern, v: Value, w: World): Option<Scope>
    decreases p
  {
    match p
    case Wildcard => Some(map[])
    case Binding(n) => Some(map[n := v])
    case LitPattern(l) => if v == Scalar(l) then Some(map[]) else None
    case Variant(n, subs) => if v.EnumV? && v.variant == n && |subs| == |v.payload|
      then MatchAll(host, subs, v.payload, w) else None
    case TypePattern(ty, b) =>
      if IsA(host, v, ty, w) then Some(if b.Some? then map[b.value := v] else map[]) else None
    case Struct(ty, fs) => if IsInstance(host, v, ty, w) then MatchFields(host, fs, v, w) else None
  }

  function MatchAll(host: Host, ps: seq<Pattern>, vs: seq<Value>, w: World): Option<Scope>
    requires |ps| == |vs|
    decreases ps
  {
    if ps == [] then Some(map[])
    else
      var head := MatchPattern(host, ps[0], vs[0], w);
      var tail := MatchAll(host, ps[1..], vs[1..], w);
      if head.Some? && tail.Some? then Some(head.value + tail.value) else None
  }

  function MatchFields(host: Host, fs: seq<FieldPat>, v: Value, w: World): Option<Scope>
    decreases fs
  {
    if fs == [] then Some(map[])
    else
      var field := GetField(v, fs[0].field, w);
      if field.None? then None
      else
        var head := MatchPattern(host, fs[0].pat, field.value, w);
        var tail := MatchFields(host, fs[1..], v, w);
        if head.Some? && tail.Some? then Some(head.value + tail.value) else None
  }

  // ----- Capture -----

  function Captured(mode: Mode, params: seq<Name>, body: LambdaBody, env: Env): Scope {
    var all := Flatten(env);
    match mode
    case Everything => all
    case FreeNames => map x | x in all && x in FreeVars(params, body) :: all[x]
  }

  function CapturedSelf(mode: Mode, body: LambdaBody, self: Option<nat>): Option<nat> {
    if mode.Everything? || UsesThis(body) then self else None
  }

  // ----- Expressions -----

  function EvalAll(c: Cx, fuel: nat, es: seq<Expr>, env: Env, w: World): (r: (Outs, World))
    ensures r.0.Oks? ==> |r.0.values| == |es|
    decreases fuel
  {
    if fuel == 0 then (Stops(Timeout), w)
    else if es == [] then (Oks([]), w)
    else
      var (o, w1) := Eval(c, fuel - 1, es[0], env, w);
      if o.Stop? then (Stops(o.signal), w1)
      else
        var (os, w2) := EvalAll(c, fuel - 1, es[1..], env, w1);
        (if os.Stops? then os else Oks([o.value] + os.values), w2)
  }

  function Eval(c: Cx, fuel: nat, e: Expr, env: Env, w: World): (Out, World)
    decreases fuel
  {
    if fuel == 0 then (Stop(Timeout), w)
    else match e
      case Ident(n) =>
        var v := Lookup(env, n);
        (if v.Some? then Ok(v.value) else if n in c.prog.funcs then Ok(Named(n)) else Stop(Fault), w)
      case This => (if c.self.Some? then Ok(Ref(c.self.value)) else Stop(Fault), w)
      case Lambda(ps, body) =>
        (Ok(Closure(ps, body, Captured(c.mode, ps, body, env), CapturedSelf(c.mode, body, c.self))), w)
      case If(t, a, b) =>
        var (o, w1) := Eval(c, fuel - 1, t, env, w);
        if o.Stop? then (o, w1)
        else if !IsBool(o.value) then (Stop(Fault), w1)
        else Eval(c, fuel - 1, if IsTrue(o.value) then a else b, env, w1)
      case Match(s, arms) =>
        var (o, w1) := Eval(c, fuel - 1, s, env, w);
        if o.Stop? then (o, w1) else EvalArms(c, fuel - 1, arms, o.value, env, w1)
      case Call(callee, args) => EvalCall(c, fuel - 1, callee, args, env, w)
      case ParentCall(ancestor, m, args) =>
        var (os, w1) := EvalAll(c, fuel - 1, args, env, w);
        if os.Stops? then (Stop(os.signal), w1)
        else if c.self.None? || c.cls.None? || (c.cls.value, ancestor, m) !in c.prog.parents then (Stop(Fault), w1)
        else
          var (owner, f) := c.prog.parents[(c.cls.value, ancestor, m)];
          RunFun(c, fuel - 1, f, c.self, Some(owner), os.values, w1)
      case Two(k, l, r) =>
        if Strict(e) then EvalStrict(c, fuel - 1, e, env, w)
        else
          var (o, w1) := Eval(c, fuel - 1, l, env, w);
          if o.Stop? then (o, w1)
          else if k.Coalesce? then (if o.value == Null() then Eval(c, fuel - 1, r, env, w1) else (o, w1))
          else if !IsBool(o.value) then (Stop(Fault), w1)
          else if k.And? != IsTrue(o.value) then (o, w1)
          else
            var (p, w2) := Eval(c, fuel - 1, r, env, w1);
            (if p.Ok? && !IsBool(p.value) then Stop(Fault) else p, w2)
      case _ => EvalStrict(c, fuel - 1, e, env, w)
  }

  function EvalStrict(c: Cx, fuel: nat, e: Expr, env: Env, w: World): (Out, World)
    requires Strict(e)
    decreases fuel
  {
    if fuel == 0 then (Stop(Timeout), w)
    else
      var (os, w1) := EvalAll(c, fuel - 1, Operands(e), env, w);
      if os.Stops? then (Stop(os.signal), w1) else Apply(c.host, e, os.values, w1)
  }

  /** The first arm whose pattern matches and whose guard, seeing the bindings, is true. */
  function EvalArms(c: Cx, fuel: nat, arms: seq<Arm>, v: Value, env: Env, w: World): (Out, World)
    decreases fuel
  {
    if fuel == 0 then (Stop(Timeout), w)
    else if arms == [] then (Stop(Fault), w)
    else
      var bs := MatchPattern(c.host, arms[0].pattern, v, w);
      if bs.None? then EvalArms(c, fuel - 1, arms[1..], v, env, w)
      else
        var inner := Nest(bs.value, env);
        if arms[0].guard.None? then Eval(c, fuel - 1, arms[0].body, inner, w)
        else
          var (o, w1) := Eval(c, fuel - 1, arms[0].guard.value, inner, w);
          if o.Stop? then (o, w1)
          else if !IsBool(o.value) then (Stop(Fault), w1)
          else if IsTrue(o.value) then Eval(c, fuel - 1, arms[0].body, inner, w1)
          else EvalArms(c, fuel - 1, arms[1..], v, env, w1)
  }

  /** The intrinsics that always fault; their arguments are not evaluated. */
  const FAULT_INTRINSICS: set<Name> := {"panic", "todo", "unreachable"}

  function EvalCall(c: Cx, fuel: nat, callee: Expr, args: seq<Expr>, env: Env, w: World): (Out, World)
    decreases fuel
  {
    if fuel == 0 then (Stop(Timeout), w)
    else if callee.One? && callee.one.Member? then
      var (o, w1) := Eval(c, fuel - 1, callee.inner, env, w);
      if o.Stop? then (o, w1)
      else if callee.one.safe && o.value == Null() then (Ok(Null()), w1)
      else
        var (os, w2) := EvalAll(c, fuel - 1, args, env, w1);
        if os.Stops? then (Stop(os.signal), w2)
        else CallMethod(c, fuel - 1, o.value, callee.one.field, os.values, w2)
    else if callee.Ident? && callee.name in FAULT_INTRINSICS then (Stop(Fault), w)
    else if callee.Ident? then
      var (os, w1) := EvalAll(c, fuel - 1, args, env, w);
      if os.Stops? then (Stop(os.signal), w1)
      else CallNamed(c, fuel - 1, callee.name, os.values, env, w1)
    else
      var (o, w1) := Eval(c, fuel - 1, callee, env, w);
      if o.Stop? then (o, w1)
      else
        var (os, w2) := EvalAll(c, fuel - 1, args, env, w1);
        if os.Stops? then (Stop(os.signal), w2) else CallValue(c, fuel - 1, o.value, os.values, w2)
  }

  /** A bare name: a function, then a variant, then a class, then a local holding a closure. */
  function CallNamed(c: Cx, fuel: nat, n: Name, vs: seq<Value>, env: Env, w: World): (Out, World)
    decreases fuel
  {
    if fuel == 0 then (Stop(Timeout), w)
    else if n in c.prog.funcs then RunFun(c, fuel - 1, c.prog.funcs[n], None, None, vs, w)
    else if n in c.prog.variants then (Ok(EnumV(c.prog.variants[n], n, vs)), w)
    else if n in c.prog.classes then
      var slots := c.prog.classes[n];
      if |slots| != |vs| then (Stop(Fault), w) else Allocate(Obj(n, DeclareAll(Root(map[]), slots, vs).vars), w)
    else
      var v := Lookup(env, n);
      if v.Some? && v.value.Closure? then CallValue(c, fuel - 1, v.value, vs, w) else (Stop(Fault), w)
  }

  function CallValue(c: Cx, fuel: nat, f: Value, vs: seq<Value>, w: World): (Out, World)
    decreases fuel
  {
    if fuel == 0 then (Stop(Timeout), w)
    else match f
      case Closure(ps, body, scope, self) =>
        if |ps| != |vs| then (Stop(Fault), w)
        else
          var inner := c.(self := self);
          var frame := DeclareAll(Root(scope), ps, vs);
          (match body
           case ExprBody(e) => Eval(inner, fuel - 1, e, frame, w)
           case BlockBody(ss) =>
             var (o, w1, _) := ExecBlock(inner, fuel - 1, ss, frame, w);
             (Finish(o), w1))
      case Named(n) =>
        if n in c.prog.funcs then RunFun(c, fuel - 1, c.prog.funcs[n], None, None, vs, w) else (Stop(Fault), w)
      case _ => (Stop(Fault), w)
  }

  /** A call returns the value of `return`, or unit when its body falls off the end. A `break` or `continue`
      outside any loop, which the type checker rejects, is a fault. */
  function Finish(o: Out): Out {
    match o
    case Ok(_) => Ok(Unit)
    case Stop(ReturnSig(v)) => Ok(v)
    case Stop(BreakSig) => Stop(Fault)
    case Stop(ContinueSig) => Stop(Fault)
    case _ => o
  }

  function RunFun(c: Cx, fuel: nat, f: Fun, self: Option<nat>, cls: Option<Name>, vs: seq<Value>, w: World): (Out,
                  World)
    decreases fuel
  {
    if fuel == 0 then (Stop(Timeout), w)
    else if |f.params| != |vs| then (Stop(Fault), w)
    else
      var frame := DeclareAll(Root(map[]), f.params, vs);
      var (o, w1, _) := ExecBlock(c.(self := self, cls := cls), fuel - 1, f.body, frame, w);
      (Finish(o), w1)
  }

  /** Every method call is recorded, then runs the body its receiver's class maps the name to. */
  function CallMethod(c: Cx, fuel: nat, recv: Value, name: Name, vs: seq<Value>, w: World): (Out, World)
    decreases fuel
  {
    if fuel == 0 then (Stop(Timeout), w)
    else if !recv.Ref? || recv.id >= |w.heap| then (Stop(Fault), w)
    else
      var cls := w.heap[recv.id].class_;
      var w1 := w.(trace := w.trace + [Invoked(recv.id, name, vs)]);
      if (cls, name) !in c.prog.methods then (Stop(Fault), w1)
      else RunFun(c, fuel - 1, c.prog.methods[(cls, name)], Some(recv.id), Some(cls), vs, w1)
  }

  // ----- Statements -----

  function ExecBlock(c: Cx, fuel: nat, ss: seq<Stmt>, env: Env, w: World): (Out, World, Env)
    decreases fuel
  {
    if fuel == 0 then (Stop(Timeout), w, env)
    else if ss == [] then (Ok(Unit), w, env)
    else
      var (o, w1, env1) := Exec(c, fuel - 1, ss[0], env, w);
      if o.Stop? then (o, w1, env1) else ExecBlock(c, fuel - 1, ss[1..], env1, w1)
  }

  /** A block in a scope of its own, which starts out holding `vars`. */
  function ExecIn(c: Cx, fuel: nat, vars: Scope, ss: seq<Stmt>, env: Env, w: World): (Out, World, Env)
    decreases fuel
  {
    if fuel == 0 then (Stop(Timeout), w, env)
    else
      var (o, w1, env1) := ExecBlock(c, fuel - 1, ss, Nest(vars, env), w);
      (o, w1, Pop(env1))
  }

  function Exec(c: Cx, fuel: nat, s: Stmt, env: Env, w: World): (Out, World, Env)
    decreases fuel
  {
    if fuel == 0 then (Stop(Timeout), w, env)
    else match s
      case VarDecl(n, init) =>
        var (o, w1) := Eval(c, fuel - 1, init, env, w);
        if o.Stop? then (o, w1, env) else (Ok(Unit), w1, Declare(env, n, o.value))
      case Assign(target, value) => ExecAssign(c, fuel - 1, target, value, env, w)
      case Return(e) =>
        if e.None? then (Stop(ReturnSig(Unit)), w, env)
        else
          var (o, w1) := Eval(c, fuel - 1, e.value, env, w);
          (if o.Stop? then o else Stop(ReturnSig(o.value)), w1, env)
      case IfStmt(t, bind, a, b) =>
        var (o, w1) := Eval(c, fuel - 1, t, env, w);
        if o.Stop? then (o, w1, env)
        else if bind.None? && !IsBool(o.value) then (Stop(Fault), w1, env)
        else if if bind.Some? then o.value != Null() else IsTrue(o.value) then
          ExecIn(c, fuel - 1, if bind.Some? then map[bind.value := o.value] else map[], a, env, w1)
        else if b.SomeBlock? then ExecIn(c, fuel - 1, map[], b.stmts, env, w1)
        else (Ok(Unit), w1, env)
      case For(n, val, iter, body) =>
        var (o, w1) := Eval(c, fuel - 1, iter, env, w);
        if o.Stop? then (o, w1, env)
        else
          var items := IterElements(o.value);
          if items.None? || (val.Some? && !o.value.MapV?) then (Stop(Fault), w1, env) else ForEach(c, fuel - 1, n, val, items.value, body, env, w1)
      case Using(n, init, body) => Exec(c, fuel - 1, Lower(n, init, body), env, w)
      case While(t, body, postCond) =>
        if postCond then DoWhile(c, fuel - 1, t, body, env, w) else WhileLoop(c, fuel - 1, t, body, env, w)
      case CFor(start, test, step, body) =>
        if start.None? then
          var (o, w1, env1) := CForLoop(c, fuel - 1, test, step, body, Push(env), w);
          (o, w1, Pop(env1))
        else
          var (o, w1, env1) := Exec(c, fuel - 1, start.value, Push(env), w);
          if o.Stop? then (o, w1, Pop(env1))
          else
            var (p, w2, env2) := CForLoop(c, fuel - 1, test, step, body, env1, w1);
            (p, w2, Pop(env2))
      case Break => (Stop(BreakSig), w, env)
      case Continue => (Stop(ContinueSig), w, env)
      case Block(ss) => ExecIn(c, fuel - 1, map[], ss, env, w)
      case ExprStmt(e) =>
        var (o, w1) := Eval(c, fuel - 1, e, env, w);
        (if o.Stop? then o else Ok(Unit), w1, env)
      case Discard(e) =>
        var (o, w1) := Eval(c, fuel - 1, e, env, w);
        (if o.Stop? then o else Ok(Unit), w1, env)
      case ThrowStmt(e) =>
        var (o, w1) := Eval(c, fuel - 1, e, env, w);
        (if o.Stop? then o else Stop(ThrowSig(o.value)), w1, env)
      case Destructure(p, init, b) =>
        var (o, w1) := Eval(c, fuel - 1, init, env, w);
        if o.Stop? then (o, w1, env) else ExecDestructure(c, fuel - 1, p, o.value, b, env, w1)
      case Try(body, catches, f) =>
        var (o, w1, env1) := ExecIn(c, fuel - 1, map[], body, env, w);
        var (p, w2, env2) := ExecCatches(c, fuel - 1, catches, o, env1, w1);
        if f.NoBlock? || p == Stop(Timeout) then (p, w2, env2)
        else
          var (q, w3, env3) := ExecIn(c, fuel - 1, map[], f.stmts, env2, w2);
          (if q.Stop? then q else p, w3, env3)
  }

  /** A throw runs the first clause whose type it is; every other outcome passes through. */
  function ExecCatches(c: Cx, fuel: nat, catches: seq<Catch>, o: Out, env: Env, w: World): (Out, World, Env)
    decreases fuel
  {
    if fuel == 0 then (Stop(Timeout), w, env)
    else if !(o.Stop? && o.signal.ThrowSig?) || catches == [] then (o, w, env)
    else if exists t :: t in catches[0].types && IsInstance(c.host, o.signal.value, t, w) then
      ExecIn(c, fuel - 1, map[catches[0].name := o.signal.value], catches[0].body, env, w)
    else ExecCatches(c, fuel - 1, catches[1..], o, env, w)
  }

  function IterElements(v: Value): Option<seq<Value>> {
    match v
    case ListV(items) => Some(items)
    case MapV(ks, vs) =>
      if |ks| == |vs| then Some(seq(|ks|, i requires 0 <= i < |ks| => ListV([Scalar(ks[i]), vs[i]]))) else None
    case Scalar(TextLit(s)) => Some(seq(|s|, i requires 0 <= i < |s| => Scalar(TextLit([s[i]]))))
    case _ => None
  }

  /** Two names take a map entry apart: the checker admits them only over a map, whose elements are pairs. */
  function LoopScope(n: Name, val: Option<Name>, item: Value): Scope {
    if val.Some? && item.ListV? && |item.items| >= 2 then map[n := item.items[0]][val.value := item.items[1]]
    else map[n := item]
  }

  /** How a loop takes its body's outcome: `None` to go on, `Some` to leave with that outcome. */
  function LoopExit(o: Out): Option<Out> {
    match o
    case Ok(_) => None
    case Stop(ContinueSig) => None
    case Stop(BreakSig) => Some(Ok(Unit))
    case Stop(_) => Some(o)
  }

  function ForEach(c: Cx, fuel: nat, n: Name, val: Option<Name>, items: seq<Value>, body: seq<Stmt>, env: Env, w: World)
    : (Out, World, Env)
    decreases fuel
  {
    if fuel == 0 then (Stop(Timeout), w, env)
    else if items == [] then (Ok(Unit), w, env)
    else
      var (o, w1, env1) := ExecIn(c, fuel - 1, LoopScope(n, val, items[0]), body, env, w);
      var exit := LoopExit(o);
      if exit.Some? then (exit.value, w1, env1) else ForEach(c, fuel - 1, n, val, items[1..], body, env1, w1)
  }

  function WhileLoop(c: Cx, fuel: nat, t: Expr, body: seq<Stmt>, env: Env, w: World): (Out, World, Env)
    decreases fuel
  {
    if fuel == 0 then (Stop(Timeout), w, env)
    else
      var (o, w1) := Eval(c, fuel - 1, t, env, w);
      if o.Stop? then (o, w1, env)
      else if !IsBool(o.value) then (Stop(Fault), w1, env)
      else if !IsTrue(o.value) then (Ok(Unit), w1, env)
      else
        var (p, w2, env2) := ExecIn(c, fuel - 1, map[], body, env, w1);
        var exit := LoopExit(p);
        if exit.Some? then (exit.value, w2, env2) else WhileLoop(c, fuel - 1, t, body, env2, w2)
  }

  function DoWhile(c: Cx, fuel: nat, t: Expr, body: seq<Stmt>, env: Env, w: World): (Out, World, Env)
    decreases fuel
  {
    if fuel == 0 then (Stop(Timeout), w, env)
    else
      var (p, w1, env1) := ExecIn(c, fuel - 1, map[], body, env, w);
      var exit := LoopExit(p);
      if exit.Some? then (exit.value, w1, env1)
      else
        var (o, w2) := Eval(c, fuel - 1, t, env1, w1);
        if o.Stop? then (o, w2, env1)
        else if !IsBool(o.value) then (Stop(Fault), w2, env1)
        else if !IsTrue(o.value) then (Ok(Unit), w2, env1)
        else DoWhile(c, fuel - 1, t, body, env1, w2)
  }

  function CForLoop(c: Cx, fuel: nat, test: Option<Expr>, step: Option<Stmt>, body: seq<Stmt>, env: Env, w: World)
    : (Out, World, Env)
    decreases fuel
  {
    if fuel == 0 then (Stop(Timeout), w, env)
    else
      var (o, w1) := if test.Some? then Eval(c, fuel - 1, test.value, env, w) else (Ok(Bool(true)), w);
      if o.Stop? then (o, w1, env)
      else if !IsBool(o.value) then (Stop(Fault), w1, env)
      else if !IsTrue(o.value) then (Ok(Unit), w1, env)
      else
        var (p, w2, env2) := ExecIn(c, fuel - 1, map[], body, env, w1);
        var exit := LoopExit(p);
        if exit.Some? then (exit.value, w2, env2)
        else if step.None? then CForLoop(c, fuel - 1, test, step, body, env2, w2)
        else
          var (q, w3, env3) := Exec(c, fuel - 1, step.value, env2, w2);
          if q.Stop? then (q, w3, env3) else CForLoop(c, fuel - 1, test, step, body, env3, w3)
  }

  // ----- Assignment and destructuring -----

  function IndexRoot(e: Expr): Option<Name>
    decreases e
  {
    match e
    case Two(Index, l, _) => IndexRoot(l)
    case Ident(n) => Some(n)
    case _ => None
  }

  function IndexPath(e: Expr): seq<Expr>
    decreases e
  {
    match e
    case Two(Index, l, r) => IndexPath(l) + [r]
    case _ => []
  }

  /** Replaces the element that `path` leads to. */
  function SetNested(v: Value, path: seq<Value>, x: Value): Option<Value>
    decreases |path|
  {
    if path == [] then Some(x)
    else if !path[0].Scalar? then None
    else if v.ListV? && path[0].lit.IntLit? && 0 <= path[0].lit.i < |v.items| then
      var sub := SetNested(v.items[path[0].lit.i], path[1..], x);
      if sub.None? then None else Some(ListV(v.items[path[0].lit.i := sub.value]))
    else if v.MapV? && |v.keys| == |v.values| && |path| == 1 && IsKey(path[0]) then Some(PutKey(v, path[0].lit, x))
    else if v.MapV? && |v.keys| == |v.values| && KeyIndex(v.keys, path[0].lit) < |v.keys| then
      var i := KeyIndex(v.keys, path[0].lit);
      var sub := SetNested(v.values[i], path[1..], x);
      if sub.None? then None else Some(v.(values := v.values[i := sub.value]))
    else None
  }

  function ExecAssign(c: Cx, fuel: nat, target: Expr, value: Expr, env: Env, w: World): (Out, World, Env)
    decreases fuel
  {
    if fuel == 0 then (Stop(Timeout), w, env)
    else if target.Ident? then
      var (o, w1) := Eval(c, fuel - 1, value, env, w);
      if o.Stop? then (o, w1, env)
      else if Lookup(env, target.name).None? then (Stop(Fault), w1, env)
      else (Ok(Unit), w1, Reassign(env, target.name, o.value))
    else if target.Two? && target.two.Index? && IndexRoot(target).Some? then
      var root := IndexRoot(target).value;
      var (os, w1) := EvalAll(c, fuel - 1, IndexPath(target) + [value], env, w);
      if os.Stops? then (Stop(os.signal), w1, env)
      else if Lookup(env, root).None? then (Stop(Fault), w1, env)
      else
        var n := |os.values| - 1;
        var v := SetNested(Lookup(env, root).value, os.values[..n], os.values[n]);
        if v.None? then (Stop(Fault), w1, env) else (Ok(Unit), w1, Reassign(env, root, v.value))
    else if target.One? && target.one.Member? then
      var (os, w1) := EvalAll(c, fuel - 1, [target.inner, value], env, w);
      if os.Stops? then (Stop(os.signal), w1, env)
      else if !os.values[0].Ref? || os.values[0].id >= |w1.heap| then (Stop(Fault), w1, env)
      else (Ok(Unit), SetField(w1, os.values[0].id, target.one.field, os.values[1]), env)
    else (Stop(Fault), w, env)
  }

  function SetField(w: World, id: nat, f: Name, v: Value): World
    requires id < |w.heap|
  {
    var obj := w.heap[id];
    if f in obj.fields then w.(heap := w.heap[id := obj.(fields := obj.fields[f := v])]) else w
  }

  /** The values a target binds, or `None` when the value has the wrong shape. */
  function TargetValues(p: DestructurePat, v: Value, w: World): Option<seq<Value>>
    ensures TargetValues(p, v, w).Some? ==> |TargetValues(p, v, w).value| == |p.Binders()|
  {
    match p
    case StructTarget(_, bs) =>
      if forall i :: 0 <= i < |bs| ==> GetField(v, bs[i].field, w).Some?
      then Some(seq(|bs|, i requires 0 <= i < |bs| => GetField(v, bs[i].field, w).value)) else None
    case ListTarget(ns) => if v.ListV? && |v.items| == |ns| then Some(v.items) else None
    case TupleTarget(ns) => if v.ListV? && |v.items| >= |ns| then Some(v.items[..|ns|]) else None
  }

  /** A list of the wrong length runs the `else` block, which binds nothing. */
  function ExecDestructure(c: Cx, fuel: nat, p: DestructurePat, v: Value, b: OptBlock, env: Env, w: World): (Out, World,
                           Env)
    decreases fuel
  {
    if fuel == 0 then (Stop(Timeout), w, env)
    else
      var vs := TargetValues(p, v, w);
      if vs.Some? then (Ok(Unit), w, DeclareAll(env, p.Binders(), vs.value))
      else if p.ListTarget? && v.ListV? && b.SomeBlock? then ExecIn(c, fuel - 1, map[], b.stmts, env, w)
      else (Stop(Fault), w, env)
  }
}
