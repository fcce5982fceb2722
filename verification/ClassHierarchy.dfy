/** The transitive tables over classes and interfaces (src/ast/class_hierarchy.rs): closures built by
    depth-first search with a visited set, and the breadth-first resolution order. */
module ClassHierarchy {
  import opened Declarations
  import opened Graph
  import Order
  import Types

  // ----- Collecting the edge tables -----

  method CollectEdges(p: Program)
    returns (classExtends: Edges, ownImplements: Edges, interfaceExtends: Edges)
    ensures classExtends == ClassExtends(p) && ownImplements == ClassOwnImplements(p)
    ensures interfaceExtends == InterfaceExtends(p)
  {
    classExtends, ownImplements, interfaceExtends := map[], map[], map[];
    for i := 0 to |p|
      invariant classExtends == ClassExtends(p[..i]) && ownImplements == ClassOwnImplements(p[..i])
      invariant interfaceExtends == InterfaceExtends(p[..i])
    {
      assert p[..i + 1][..i] == p[..i];
      match p[i] {
        case ClassItem(name, exts, impls, _, _, _) =>
          classExtends := classExtends[name := exts];
          ownImplements := ownImplements[name := impls];
        case InterfaceItem(name, exts) =>
          interfaceExtends := interfaceExtends[name := exts];
        case _ =>
      }
    }
    assert p[..|p|] == p;
  }

  // ----- Depth-first closures -----

  /** What one closure call adds to the visited set: everything added is reached from `name`, and the
      successors of everything added are visited too. */
  ghost predicate Extends(g: Edges, before: set<Name>, after: set<Name>) {
    before <= after && forall x, y :: x in after - before && y in Next(g, x) ==> y in after
  }

  /** `name` and everything it reaches, skipping what `acc` already holds. */
  method Closure(name: Name, edges: Edges, acc: set<Name>, ghost universe: set<Name>) returns (out: set<Name>)
    requires name in universe && Targets(edges) <= universe
    ensures Extends(edges, acc, out) && name in out
    ensures forall x :: x in out - acc ==> Reaches(edges, name, x) && x in universe
    decreases universe - acc, 1
  {
    if name in acc {
      return acc;
    }
    out := acc + {name};
    ReachesSelf(edges, name);
    if name in edges {
      var parents := edges[name];
      for i := 0 to |parents|
        invariant acc + {name} <= out
        invariant forall x, y :: x in out - acc - {name} && y in Next(edges, x) ==> y in out
        invariant forall k :: 0 <= k < i ==> parents[k] in out
        invariant forall x :: x in out - acc ==> Reaches(edges, name, x) && x in universe
      {
        ghost var before := out;
        NextInTargets(edges, name);
        out := Closure(parents[i], edges, out, universe);
        forall x | x in out - before ensures Reaches(edges, name, x) {
          EdgeThenReaches(edges, name, parents[i], x);
        }
      }
    }
  }

  /** Everything strictly above `name`: `name` itself is added only when a cycle leads back to it. */
  method Ancestors(name: Name, edges: Edges, acc: set<Name>) returns (out: set<Name>)
    ensures Extends(edges, acc, out)
    ensures forall y :: y in Next(edges, name) ==> y in out
    ensures forall x :: x in out - acc ==> Above(edges, name, x)
    decreases Targets(edges) - acc
  {
    out := acc;
    if name in edges {
      var parents := edges[name];
      for i := 0 to |parents|
        invariant Extends(edges, acc, out)
        invariant forall k :: 0 <= k < i ==> parents[k] in out
        invariant forall x :: x in out - acc ==> Above(edges, name, x)
      {
        var p := parents[i];
        assert p in Next(edges, name);
        NextInTargets(edges, name);
        ReachesSelf(edges, p);
        EdgeThenReaches(edges, name, p, p);
        if p !in out {
          ghost var before := out;
          out := Ancestors(p, edges, out + {p});
          forall x | x in out - before - {p} ensures Above(edges, name, x) {
            AboveIsStrictReach(edges, p, x);
            EdgeThenReaches(edges, name, p, x);
          }
        }
      }
    }
  }

  /** `x` is above `c` exactly when it is in a closed set of names above `c` that holds `c`'s parents. */
  lemma ClosedIsAbove(g: Edges, c: Name, s: set<Name>)
    requires Extends(g, {}, s) && (forall y :: y in Next(g, c) ==> y in s)
    requires forall x :: x in s ==> Above(g, c, x)
    ensures forall x :: x in s <==> Above(g, c, x)
  {
    forall x | Above(g, c, x) ensures x in s {
      var p := AboveFirstEdge(g, c, x);
      assert forall a, b :: a in s && b in Next(g, a) ==> b in s;
      ClosedHoldsReached(g, s, p, x);
    }
  }

  /** A sorted list of exactly the names with the property. */
  ghost predicate Lists(xs: seq<Name>, property: Name -> bool) {
    Order.StrictlySorted(xs) && forall x :: x in xs <==> property(x)
  }

  method ClassSupertypes(p: Program) returns (out: map<Name, seq<Name>>)
    ensures forall c :: c in out <==> IsClass(p, c)
    ensures forall c :: c in out ==> Lists(out[c], x => Above(ClassExtends(p), c, x))
  {
    var edges, _, _ := CollectEdges(p);
    out := map[];
    for i := 0 to |p|
      invariant forall c :: c in out <==> IsClass(p[..i], c)
      invariant forall c :: c in out ==> Lists(out[c], x => Above(edges, c, x))
    {
      assert p[..i + 1] == p[..i] + [p[i]];
      PrefixClasses(p, i);
      if p[i].ClassItem? {
        var c := p[i].name;
        var found := Ancestors(c, edges, {});
        ClosedIsAbove(edges, c, found);
        var listed := Order.Sorted(found);
        out := out[c := listed];
      }
    }
    assert p[..|p|] == p;
  }

  lemma PrefixClasses(p: Program, i: nat)
    requires i < |p|
    ensures forall c :: IsClass(p[..i + 1], c) <==> IsClass(p[..i], c) || (p[i].ClassItem? && p[i].name == c)
  {
    var q, r := p[..i], p[..i + 1];
    forall c ensures IsClass(r, c) <==> IsClass(q, c) || (p[i].ClassItem? && p[i].name == c) {
      if IsClass(q, c) {
        var k :| 0 <= k < |q| && q[k].ClassItem? && q[k].name == c;
        assert r[k] == q[k];
      }
      if p[i].ClassItem? && p[i].name == c {
        assert r[i] == p[i];
      }
      if IsClass(r, c) {
        var k :| 0 <= k < |r| && r[k].ClassItem? && r[k].name == c;
        assert k < i ==> q[k] == r[k];
      }
    }
  }

  // ----- Interfaces -----

  /** `c` or an ancestor lists an interface that is, or extends, `i`. */
  ghost predicate Implements(p: Program, c: Name, i: Name) {
    exists cls, d :: ImplementsVia(p, c, cls, d, i)
  }

  ghost predicate ImplementsVia(p: Program, c: Name, cls: Name, d: Name, i: Name) {
    && Reaches(ClassExtends(p), c, cls) && d in Next(ClassOwnImplements(p), cls)
    && Reaches(InterfaceExtends(p), d, i)
  }

  method ClassImplements(p: Program) returns (out: map<Name, seq<Name>>)
    ensures forall c :: c in out <==> IsClass(p, c)
    ensures forall c :: c in out ==> Lists(out[c], i => Implements(p, c, i))
  {
    var classExtends, ownImplements, interfaceExtends := CollectEdges(p);
    out := map[];
    for i := 0 to |p|
      invariant forall c :: c in out <==> IsClass(p[..i], c)
      invariant forall c :: c in out ==> Lists(out[c], x => Implements(p, c, x))
    {
      assert p[..i + 1] == p[..i] + [p[i]];
      PrefixClasses(p, i);
      if p[i].ClassItem? {
        var c := p[i].name;
        var family := Closure(c, classExtends, {}, Targets(classExtends) + {c});
        forall x ensures x in family <==> Reaches(classExtends, c, x) {
          if Reaches(classExtends, c, x) {
            ClosedHoldsReached(classExtends, family, c, x);
          }
        }
        var interfaces := InterfacesOf(p, c, family, ownImplements, interfaceExtends);
        var listed := Order.Sorted(interfaces);
        out := out[c := listed];
      }
    }
    assert p[..|p|] == p;
  }

  method InterfacesOf(p: Program, c: Name, family: set<Name>, ownImplements: Edges, interfaceExtends: Edges)
    returns (interfaces: set<Name>)
    requires forall x :: x in family <==> Reaches(ClassExtends(p), c, x)
    requires ownImplements == ClassOwnImplements(p) && interfaceExtends == InterfaceExtends(p)
    ensures forall x :: x in interfaces <==> Implements(p, c, x)
  {
    interfaces := {};
    var todo := family;
    while todo != {}
      invariant todo <= family
      invariant Extends(interfaceExtends, {}, interfaces)
      invariant forall cls, d :: cls in family - todo && d in Next(ownImplements, cls) ==> d in interfaces
      invariant forall x :: x in interfaces ==> Implements(p, c, x)
      decreases todo
    {
      var cls :| cls in todo;
      if cls in ownImplements {
        var own := ownImplements[cls];
        for k := 0 to |own|
          invariant Extends(interfaceExtends, {}, interfaces)
          invariant forall a, d :: a in family - todo && d in Next(ownImplements, a) ==> d in interfaces
          invariant forall j :: 0 <= j < k ==> own[j] in interfaces
          invariant forall x :: x in interfaces ==> Implements(p, c, x)
        {
          ghost var before := interfaces;
          interfaces := Closure(own[k], interfaceExtends, interfaces, Targets(interfaceExtends) + {own[k]});
          forall x | x in interfaces - before ensures Implements(p, c, x) {
            assert ImplementsVia(p, c, cls, own[k], x);
          }
        }
      }
      todo := todo - {cls};
    }
    forall x | Implements(p, c, x) ensures x in interfaces {
      var cls, d :| ImplementsVia(p, c, cls, d, x);
      ClosedHoldsReached(interfaceExtends, interfaces, d, x);
    }
  }

  // ----- The runtime subtype oracle -----

  ghost predicate InstanceOf(p: Program, c: Name, t: Name) {
    Implements(p, c, t) || Above(ClassExtends(p), c, t)
  }

  method InstanceofTable(p: Program) returns (table: map<Name, seq<Name>>)
    ensures forall c :: c in table <==> IsClass(p, c)
    ensures forall c :: c in table ==> Lists(table[c], t => InstanceOf(p, c, t))
  {
    table := ClassImplements(p);
    var supertypes := ClassSupertypes(p);
    var todo := supertypes.Keys;
    while todo != {}
      invariant todo <= supertypes.Keys && (forall c :: c in table <==> IsClass(p, c))
      invariant forall c :: c in todo ==> Lists(table[c], i => Implements(p, c, i))
      invariant forall c :: c in table && c !in todo ==> Lists(table[c], t => InstanceOf(p, c, t))
      decreases todo
    {
      var cls :| cls in todo;
      var entry := Merge(table[cls], supertypes[cls]);
      table := table[cls := entry];
      todo := todo - {cls};
    }
  }

  /** Pushes what is missing, then sorts and removes repeats. */
  method Merge(entry: seq<Name>, more: seq<Name>) returns (out: seq<Name>)
    ensures Order.StrictlySorted(out) && forall x :: x in out <==> x in entry || x in more
  {
    var all := entry;
    for i := 0 to |more|
      invariant forall x :: x in all <==> x in entry || x in more[..i]
    {
      if more[i] !in all {
        all := all + [more[i]];
      }
    }
    out := Order.Sorted(set x | x in all);
  }

  /** Classes and interfaces do not share names where it matters: nothing implemented is a class. */
  ghost predicate NoClassIsImplemented(p: Program) {
    forall c, i :: Implements(p, c, i) ==> !IsClass(p, i)
  }

  lemma ImplementsDownward(p: Program, c: Name, d: Name, i: Name)
    requires Above(ClassExtends(p), c, d) && Implements(p, d, i)
    ensures Implements(p, c, i)
  {
    var cls, e :| ImplementsVia(p, d, cls, e, i);
    AboveIsStrictReach(ClassExtends(p), c, d);
    ReachesTransitive(ClassExtends(p), c, d, cls);
    assert ImplementsVia(p, c, cls, e, i);
  }

  /** What an ancestor class is an instance of, its descendants are instances of. */
  lemma InstanceOfTransitive(p: Program, c: Name, d: Name, e: Name)
    requires NoClassIsImplemented(p) && IsClass(p, d)
    requires InstanceOf(p, c, d) && InstanceOf(p, d, e)
    ensures InstanceOf(p, c, e)
  {
    if Implements(p, d, e) {
      ImplementsDownward(p, c, d, e);
    } else {
      AboveIsStrictReach(ClassExtends(p), d, e);
      AboveThenReaches(ClassExtends(p), c, d, e);
    }
  }

  /** The oracle the table gives: only classes have entries. */
  ghost function TableOracle(p: Program): Types.Oracle {
    (a, b) => a == b || (IsClass(p, a) && InstanceOf(p, a, b))
  }

  /** On an acyclic class graph the table is the nominal order that assignability and overload
      dispatch ask for. */
  lemma TableOracleIsNominalOrder(p: Program)
    requires Acyclic(ClassExtends(p)) && NoClassIsImplemented(p)
    ensures Types.NominalOrder(TableOracle(p))
  {
    var sub := TableOracle(p);
    forall a, b, c | sub(a, b) && sub(b, c) ensures sub(a, c) {
      if a != b && b != c {
        InstanceOfTransitive(p, a, b, c);
      }
    }
    forall a, b | sub(a, b) && sub(b, a) ensures a == b {
      if a != b {
        InstanceOfTransitive(p, a, b, a);
      }
    }
  }
}
