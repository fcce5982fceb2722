/** The syntax tree (src/ast/exprs.rs, stmts.rs, types_core.rs). Variants that every walker treats alike
    share a constructor that keeps the variant as its `kind`; spans and static types are dropped. */
module Ast {
  type Name = string

  datatype Option<T> = None | Some(value: T)

  datatype Literal =
    | IntLit(i: int) | FloatLit(r: real) | DecimalLit(unscaled: int, scale: nat) | BoolLit(b: bool)
    | NullLit | TextLit(s: string) | BytesLit(octets: seq<nat>)

  /** Forms that carry no expression and never reach a backend, and the empty collections. */
  datatype Marker = Inject | PipePlaceholder | NewList | NewMap

  datatype TemplateKind = Str | Html | Tagged(tag: Name)
  datatype ItemsKind = List | Tuple

  /** One operand. */
  datatype OneKind =
    | Unary(op: string) | NamedArg(arg: Name) | InstanceOf(ty: Name) | Cast(ty: Name)
    | Member(field: Name, safe: bool) | Force | Propagate | OverloadSelect | New | Spawn | Throw

  /** Two operands, left before right. */
  datatype TwoKind = Binary(op: string) | And | Or | Coalesce | Index | Range(inclusive: bool) | Pipe

  datatype Expr =
    | Lit(lit: Literal)
    | Mark(marker: Marker)
    | Ident(name: Name)
    | This
    | Template(template: TemplateKind, parts: seq<Part>)
    | Items(list: ItemsKind, items: seq<Expr>)
    | MapLit(pairs: seq<Pair>)
    | One(one: OneKind, inner: Expr)
    | Two(two: TwoKind, lhs: Expr, rhs: Expr)
    | Call(callee: Expr, args: seq<Expr>)
    | ParentCall(ancestor: Option<Name>, method_: Name, args: seq<Expr>)
    | CloneWith(object_: Expr, fields: seq<Field>)
    | Match(scrutinee: Expr, arms: seq<Arm>)
    | If(cond: Expr, thenExpr: Expr, elseExpr: Expr)
    | Lambda(params: seq<Name>, body: LambdaBody)

  datatype Part = Text(text: string) | Hole(hole: Expr)
  datatype Pair = Pair(key: Expr, value: Expr)
  datatype Field = Field(name: Name, value: Expr)
  datatype Arm = Arm(pattern: Pattern, guard: Option<Expr>, body: Expr)
  datatype LambdaBody = ExprBody(expr: Expr) | BlockBody(stmts: seq<Stmt>)

  datatype Pattern =
    | Wildcard
    | Binding(name: Name)
    | LitPattern(lit: Literal)
    | Variant(variant: Name, subs: seq<Pattern>)
    | TypePattern(ty: Name, binding: Option<Name>)
    | Struct(ty: Name, fieldPats: seq<FieldPat>)

  datatype FieldPat = FieldPat(field: Name, pat: Pattern)

  datatype Stmt =
    | VarDecl(name: Name, init: Expr)
    | Assign(target: Expr, value: Expr)
    | Return(result: Option<Expr>)
    | IfStmt(cond: Expr, bind: Option<Name>, thenBlock: seq<Stmt>, elseBlock: OptBlock)
    | For(name: Name, val: Option<Name>, iter: Expr, body: seq<Stmt>)
    | Using(name: Name, init: Expr, body: seq<Stmt>)
    | While(cond: Expr, body: seq<Stmt>, postCond: bool)
    | CFor(start: Option<Stmt>, test: Option<Expr>, step: Option<Stmt>, body: seq<Stmt>)
    | Break
    | Continue
    | Block(stmts: seq<Stmt>)
    | ExprStmt(expr: Expr)
    | Discard(expr: Expr)
    | ThrowStmt(value: Expr)
    | Destructure(pat: DestructurePat, init: Expr, elseBlock: OptBlock)
    | Try(body: seq<Stmt>, catches: seq<Catch>, finallyBlock: OptBlock)

  datatype OptBlock = NoBlock | SomeBlock(stmts: seq<Stmt>)

  datatype Catch = Catch(types: seq<Name>, name: Name, body: seq<Stmt>)

  datatype DestructurePat =
    | StructTarget(ty: Name, bindings: seq<FieldBinding>)
    | ListTarget(names: seq<Name>)
    | TupleTarget(names: seq<Name>)
  {
    /** The names this pattern binds, in source order. */
    function Binders(): seq<Name> {
      match this
      case StructTarget(_, bs) => seq(|bs|, i requires 0 <= i < |bs| => bs[i].binding)
      case ListTarget(ns) => ns
      case TupleTarget(ns) => ns
    }
  }

  datatype FieldBinding = FieldBinding(field: Name, binding: Name)

  function Elements(xs: seq<Name>): (s: set<Name>)
    ensures forall x :: x in s <==> x in xs
  {
    set x | x in xs
  }
}
