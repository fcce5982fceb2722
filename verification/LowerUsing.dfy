/** `lower_using` (src/ast/lower_using.rs). */
module LowerUsing {
  import opened Ast

  /** The method every `Closable` provides. */
  const CLOSE_METHOD: Name := "close"

  /** `using (h = init) body` becomes `{ h = init; try body finally { h.close(); } }`, with the
      declaration outside the `try`. */
  function Lower(name: Name, init: Expr, body: seq<Stmt>): Stmt {
    Block([VarDecl(name, init), Guarded(name, body)])
  }

  function Guarded(name: Name, body: seq<Stmt>): Stmt {
    Try(body, [], SomeBlock([CloseCall(name)]))
  }

  function CloseCall(name: Name): Stmt {
    ExprStmt(Call(One(Member(CLOSE_METHOD, false), Ident(name)), []))
  }
}
