/** The declarations the hierarchy analyses read (src/ast/decls), and the tables each analysis first
    collects from them. A later declaration of the same name replaces an earlier one, as inserting into
    a `BTreeMap` does; `FirstClass` is the lookup of the analyses that search the items instead. */
module Declarations {
  import Ast

  type Name = string

  datatype CtorParam = CtorParam(name: Name, promoted: bool)

  datatype Member =
    | Field(name: Name, isStatic: bool, isConst: bool, init: Ast.Option<Ast.Expr>)
    | Constructor(params: seq<CtorParam>, body: seq<Ast.Stmt>)
    | Method(name: Name)
    | Hook(name: Name)

  datatype Resolution =
    | Use(parent: Name, method_: Name)
    | Rename(parent: Name, method_: Name, asName: Name)
    | Exclude(parent: Name, method_: Name)

  datatype Item =
    | ClassItem(name: Name, extends_: seq<Name>, implements_: seq<Name>, uses: seq<Name>,
                members: seq<Member>, resolutions: seq<Resolution>)
    | InterfaceItem(name: Name, extends_: seq<Name>)
    | TraitItem(name: Name, members: seq<Member>)
    | OtherItem

  type Program = seq<Item>

  function ClassExtends(p: Program): map<Name, seq<Name>> {
    if p == [] then map[]
    else
      var rest := ClassExtends(p[..|p| - 1]);
      var item := p[|p| - 1];
      if item.ClassItem? then rest[item.name := item.extends_] else rest
  }

  function ClassOwnImplements(p: Program): map<Name, seq<Name>> {
    if p == [] then map[]
    else
      var rest := ClassOwnImplements(p[..|p| - 1]);
      var item := p[|p| - 1];
      if item.ClassItem? then rest[item.name := item.implements_] else rest
  }

  function ClassUses(p: Program): map<Name, seq<Name>> {
    if p == [] then map[]
    else
      var rest := ClassUses(p[..|p| - 1]);
      var item := p[|p| - 1];
      if item.ClassItem? then rest[item.name := item.uses] else rest
  }

  function InterfaceExtends(p: Program): map<Name, seq<Name>> {
    if p == [] then map[]
    else
      var rest := InterfaceExtends(p[..|p| - 1]);
      var item := p[|p| - 1];
      if item.InterfaceItem? then rest[item.name := item.extends_] else rest
  }

  predicate IsClass(p: Program, c: Name) {
    exists i :: 0 <= i < |p| && p[i].ClassItem? && p[i].name == c
  }

  /** No class is declared twice, as the checker requires. */
  predicate UniqueClasses(p: Program) {
    forall i, j :: 0 <= i < j < |p| && p[i].ClassItem? && p[j].ClassItem? ==> p[i].name != p[j].name
  }

  /** Nothing a class uses is itself a class: traits have neither parents nor traits of their own. */
  predicate TraitsAreLeaves(p: Program) {
    forall c, u :: c in ClassUses(p) && u in ClassUses(p)[c] ==> u !in ClassExtends(p)
  }

  lemma {:induction false} ClassExtendsKeys(p: Program)
    ensures ClassOwnImplements(p).Keys == ClassUses(p).Keys == ClassExtends(p).Keys
    ensures forall c :: c in ClassExtends(p) <==> IsClass(p, c)
  {
    if p != [] {
      var q := p[..|p| - 1];
      ClassExtendsKeys(q);
      forall c ensures IsClass(p, c) <==> IsClass(q, c) || (p[|p| - 1].ClassItem? && p[|p| - 1].name == c) {
        if IsClass(q, c) {
          var i :| 0 <= i < |q| && q[i].ClassItem? && q[i].name == c;
          assert p[i] == q[i];
        }
        if IsClass(p, c) {
          var i :| 0 <= i < |p| && p[i].ClassItem? && p[i].name == c;
          assert i < |q| ==> q[i] == p[i];
        }
      }
    }
  }
}
