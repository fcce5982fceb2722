/** The dispatch table, the breadth-first order and the depth-first order name the same method, and
    `parent` calls climb (src/ast/class_hierarchy.rs, src/ast/static_owners.rs). */
module MethodAgreement {
  import opened Declarations
  import opened Graph
  import opened MethodTables
  import opened SearchOrders
  import MethodOrigins
  import Ast

  // ----- Where a table entry comes from -----

  /** Around `c`, nothing but `extends` touches the name `m`: no used trait declares it, and no clause
      mentions it. */
  ghost predicate Untouched(t: Tables, c: Name, m: Name) {
    forall d :: Reaches(t.extends_, c, d) ==> UntouchedAt(t, d, m)
  }

  predicate UntouchedAt(t: Tables, d: Name, m: Name) {
    && (forall u :: u in Next(t.uses, d) ==> m !in TraitMethods(t, u))
    && (forall r :: r in Clauses(t, d) ==> !Mentions(r, m))
  }

  predicate Mentions(r: Resolution, m: Name) {
    r.method_ == m || (r.Rename? && r.asName == m)
  }

  ghost predicate NoConflict(t: Tables, c: Name, m: Name)
    requires Acyclic(t.extends_)
  {
    forall d :: Reaches(t.extends_, c, d) ==> !Conflicted(t, d, m)
  }

  lemma {:induction false} ClausesSkip(rs: seq<Resolution>, s: set<Arrival>, m: Name)
    requires forall r :: r in rs ==> !Mentions(r, m)
    ensures forall a: Arrival :: a.name == m ==> (a in ApplyAll(rs, s) <==> a in s)
  {
    if rs != [] {
      assert rs[0] in rs && forall r :: r in rs[1..] ==> r in rs;
      ClausesSkip(rs[1..], Apply(rs[0], s), m);
      forall a: Arrival | a.name == m ensures a in Apply(rs[0], s) <==> a in s {
        if rs[0].Rename? {
          MethodOrigins.RenameMember(rs[0], s, a);
        }
      }
    }
  }

  /** The arrivals of an untouched name are exactly the parents' entries. */
  lemma ArrivalsFromParents(t: Tables, c: Name, m: Name)
    requires Acyclic(t.extends_) && UntouchedAt(t, c, m) && m !in Own(t, c)
    ensures forall a :: a in Survivors(t, c) && a.name == m ==>
              a.via in Next(t.extends_, c) && m in Table(t, a.via) && a.origin == Table(t, a.via)[m]
    ensures forall p :: p in Next(t.extends_, c) && m in Table(t, p) ==>
              Arrival(m, p, Table(t, p)[m]) in Survivors(t, c)
  {
    ClausesSkip(Clauses(t, c), Incoming(t, c), m);
  }

  lemma UntouchedAbove(t: Tables, c: Name, p: Name, m: Name)
    requires Untouched(t, c, m) && p in Next(t.extends_, c)
    ensures Untouched(t, p, m) && UntouchedAt(t, c, m)
  {
    ReachesSelf(t.extends_, c);
    forall d | Reaches(t.extends_, p, d) ensures UntouchedAt(t, d, m) {
      EdgeThenReaches(t.extends_, c, p, d);
    }
  }

  /** The origin of an untouched name declares that very name, at the class or an ancestor. */
  lemma {:induction false} OriginDeclares(t: Tables, c: Name, m: Name)
    requires Acyclic(t.extends_) && Untouched(t, c, m) && m in Table(t, c)
    ensures Table(t, c)[m].1 == m && m in Own(t, Table(t, c)[m].0) && Reaches(t.extends_, c, Table(t, c)[m].0)
    decreases Height(t.extends_, c)
  {
    ReachesSelf(t.extends_, c);
    if m !in Own(t, c) {
      ArrivalsFromParents(t, c, m);
      SomeOrigin(Survivors(t, c), m);
      var a :| a in Survivors(t, c) && a.name == m && a.origin == Table(t, c)[m];
      UntouchedAbove(t, c, a.via, m);
      HeightsDrop(t.extends_, c);
      OriginDeclares(t, a.via, m);
      EdgeThenReaches(t.extends_, c, a.via, Table(t, c)[m].0);
    }
  }

  /** Whatever the shape of the hierarchy, a method only one class declares never conflicts. */
  lemma DiamondNeverConflicts(t: Tables, c: Name, m: Name, base: Name)
    requires Acyclic(t.extends_) && Untouched(t, c, m)
    requires forall d :: Reaches(t.extends_, c, d) && m in Own(t, d) ==> d == base
    ensures !Conflicted(t, c, m)
    ensures m in Table(t, c) ==> Table(t, c)[m] == (base, m)
  {
    ReachesSelf(t.extends_, c);
    if m in Table(t, c) {
      OriginDeclares(t, c, m);
    }
    if m !in Own(t, c) {
      ArrivalsFromParents(t, c, m);
      forall a | a in Survivors(t, c) && a.name == m ensures a.origin == (base, m) {
        UntouchedAbove(t, c, a.via, m);
        OriginDeclares(t, a.via, m);
        EdgeThenReaches(t.extends_, c, a.via, a.origin.0);
      }
    }
  }

  // ----- The first declarer on a path -----

  /** A path of `k` edges from `c` to `x` on which nothing before `x` declares `m`. */
  ghost predicate Quiet(t: Tables, m: Name, c: Name, x: Name, k: nat)
    decreases k
  {
    if k == 0 then c == x
    else m !in Own(t, c) && exists p :: p in Next(t.extends_, c) && Quiet(t, m, p, x, k - 1)
  }

  lemma {:induction false} QuietThenEdge(t: Tables, m: Name, c: Name, x: Name, y: Name, k: nat)
    requires Quiet(t, m, c, x, k) && m !in Own(t, x) && y in Next(t.extends_, x)
    ensures Quiet(t, m, c, y, k + 1)
    decreases k
  {
    if k == 0 {
      assert Quiet(t, m, y, y, 0);
    } else {
      var p :| p in Next(t.extends_, c) && Quiet(t, m, p, x, k - 1);
      QuietThenEdge(t, m, p, x, y, k - 1);
    }
  }

  /** Without conflicts, the declarer at the end of a quiet path is the table's answer. */
  lemma {:induction false} QuietDeclarerWins(t: Tables, m: Name, c: Name, x: Name, k: nat)
    requires Acyclic(t.extends_) && Untouched(t, c, m) && NoConflict(t, c, m)
    requires Quiet(t, m, c, x, k) && m in Own(t, x)
    ensures m in Table(t, c) && Table(t, c)[m] == (x, m)
    decreases k
  {
    if k > 0 {
      var p :| p in Next(t.extends_, c) && Quiet(t, m, p, x, k - 1);
      UntouchedAbove(t, c, p, m);
      NoConflictAbove(t, c, p, m);
      QuietDeclarerWins(t, m, p, x, k - 1);
      ArrivalsFromParents(t, c, m);
      var a := Arrival(m, p, (x, m));
      assert a in Survivors(t, c) && a.name in Names(Survivors(t, c));
      ReachesSelf(t.extends_, c);
      SomeOrigin(Survivors(t, c), m);
      var b :| b in Survivors(t, c) && b.name == m && b.origin == Table(t, c)[m];
      assert a.origin == b.origin;
    }
  }

  lemma NoConflictAbove(t: Tables, c: Name, p: Name, m: Name)
    requires Acyclic(t.extends_) && NoConflict(t, c, m) && p in Next(t.extends_, c)
    ensures NoConflict(t, p, m)
  {
    forall d | Reaches(t.extends_, p, d) ensures !Conflicted(t, d, m) {
      EdgeThenReaches(t.extends_, c, p, d);
    }
  }

  // ----- Searching an order -----

  /** The first class of the list that declares `m`. */
  function FirstDeclarer(t: Tables, m: Name, xs: seq<Name>): (r: Ast.Option<Origin>)
    ensures r.Some? ==> exists j :: 0 <= j < |xs| && m in Own(t, xs[j]) && r.value == (xs[j], m)
                                    && forall i :: 0 <= i < j ==> m !in Own(t, xs[i])
    ensures r.None? ==> forall j :: 0 <= j < |xs| ==> m !in Own(t, xs[j])
  {
    if xs == [] then Ast.None
    else if m in Own(t, xs[0]) then Ast.Some((xs[0], m))
    else FirstDeclarer(t, m, xs[1..])
  }

  /** In a search from several names, everything up to the first declarer lies on a quiet path from one
      of them. */
  lemma {:induction false} SearchIsQuiet(t: Tables, m: Name, start: seq<Name>, xs: seq<Name>, j: nat)
    returns (s: Name, k: nat)
    requires Rooted(t.extends_, start, xs) && j < |xs|
    requires forall i :: 0 <= i < j ==> m !in Own(t, xs[i])
    ensures s in start && Quiet(t, m, s, xs[j], k)
    decreases j
  {
    assert xs[j] in start || HasEarlierPredecessor(t.extends_, xs, j);
    if xs[j] in start {
      s, k := xs[j], 0;
    } else {
      var i :| 0 <= i < j && xs[j] in Next(t.extends_, xs[i]);
      s, k := SearchIsQuiet(t, m, start, xs, i);
      QuietThenEdge(t, m, s, xs[i], xs[j], k);
      k := k + 1;
    }
  }

  /** Any search order finds the table's answer. */
  lemma SearchFindsTable(t: Tables, m: Name, c: Name, xs: seq<Name>)
    requires Acyclic(t.extends_) && Untouched(t, c, m) && NoConflict(t, c, m) && SearchOrder(t.extends_, c, xs)
    ensures FirstDeclarer(t, m, xs) == if m in Table(t, c) then Ast.Some(Table(t, c)[m]) else Ast.None
  {
    var r := FirstDeclarer(t, m, xs);
    if r.Some? {
      var j :| 0 <= j < |xs| && m in Own(t, xs[j]) && r.value == (xs[j], m)
               && forall i :: 0 <= i < j ==> m !in Own(t, xs[i]);
      assert Rooted(t.extends_, [c], xs);
      var s, k := SearchIsQuiet(t, m, [c], xs, j);
      QuietDeclarerWins(t, m, c, xs[j], k);
    } else if m in Table(t, c) {
      OriginDeclares(t, c, m);
    }
  }

  function Lookup(origins: map<(Name, Name), Origin>, c: Name, m: Name): Ast.Option<Origin> {
    if (c, m) in origins then Ast.Some(origins[(c, m)]) else Ast.None
  }

  /** The dispatch table, the class followed by its breadth-first order, and the depth-first lookup
      order all answer alike. */
  lemma OrdersAgree(p: Program, origins: map<(Name, Name), Origin>, c: Name, m: Name, mro: seq<Name>, lookup: seq<Name>)
    requires Collect(p).extends_ == ClassExtends(p) && Acyclic(ClassExtends(p))
    requires MethodOrigins.IsDispatchTable(Collect(p), origins)
    requires BreadthFirst(ClassExtends(p), Next(ClassExtends(p), c), mro)
    requires SearchOrder(ClassExtends(p), c, lookup)
    requires Untouched(Collect(p), c, m) && NoConflict(Collect(p), c, m)
    ensures Lookup(origins, c, m) == FirstDeclarer(Collect(p), m, [c] + mro) == FirstDeclarer(Collect(p), m, lookup)
  {
    MroIsSearchOrder(ClassExtends(p), c, mro);
    SearchFindsTable(Collect(p), m, c, [c] + mro);
    SearchFindsTable(Collect(p), m, c, lookup);
  }

  // ----- `parent` calls -----

  datatype ParentResult = Resolved(origin: Origin) | NoParent | NotAncestor | NoMethod | Ambiguous

  /** What the direct parents resolve `m` to. */
  function DirectOrigins(origins: map<(Name, Name), Origin>, direct: seq<Name>, m: Name): set<Origin> {
    set p | p in direct && (p, m) in origins :: origins[(p, m)]
  }

  method ResolveParentMethod(parents: Edges, mro: map<Name, seq<Name>>, origins: map<(Name, Name), Origin>,
                             lexical: Name, ancestor: Ast.Option<Name>, m: Name) returns (r: ParentResult)
    ensures r.NoParent? <==> Next(parents, lexical) == []
    ensures r.NotAncestor? <==>
              Next(parents, lexical) != [] && ancestor.Some? && ancestor.value !in Next(mro, lexical)
    ensures r.Resolved? && ancestor.Some? ==>
              ancestor.value in Next(mro, lexical) && Lookup(origins, ancestor.value, m) == Ast.Some(r.origin)
    ensures r.Resolved? && ancestor.None? ==> DirectOrigins(origins, Next(parents, lexical), m) == {r.origin}
    ensures r.NoMethod? && ancestor.Some? ==> Lookup(origins, ancestor.value, m).None?
    ensures r.NoMethod? && ancestor.None? ==> DirectOrigins(origins, Next(parents, lexical), m) == {}
    ensures r.Ambiguous? ==> ancestor.None? && exists x, y ::
              x in DirectOrigins(origins, Next(parents, lexical), m)
              && y in DirectOrigins(origins, Next(parents, lexical), m) && x != y
  {
    var direct := Next(parents, lexical);
    if direct == [] {
      return NoParent;
    }
    match ancestor {
      case Some(a) =>
        if a !in Next(mro, lexical) {
          return NotAncestor;
        }
        return if (a, m) in origins then Resolved(origins[(a, m)]) else NoMethod;
      case None =>
        var found: seq<Origin> := [];
        for i := 0 to |direct|
          invariant forall j, k :: 0 <= j < k < |found| ==> found[j] != found[k]
          invariant forall x :: x in found <==> x in DirectOrigins(origins, direct[..i], m)
        {
          assert direct[..i + 1] == direct[..i] + [direct[i]];
          if (direct[i], m) in origins && origins[(direct[i], m)] !in found {
            found := found + [origins[(direct[i], m)]];
          }
        }
        assert direct[..|direct|] == direct;
        if |found| == 0 {
          return NoMethod;
        } else if |found| == 1 {
          assert found[0] in found && forall x :: x in found ==> x == found[0];
          return Resolved(found[0]);
        } else {
          assert found[0] in found && found[1] in found;
          return Ambiguous;
        }
    }
  }

  /** A bare `parent.m()` that resolves, resolves to the first declarer in the resolution order. Only
      the parents' side must be free of conflicts on `m`; the calling class may have any. */
  lemma BareParentIsNearest(p: Program, origins: map<(Name, Name), Origin>, c: Name, m: Name, mro: seq<Name>, o: Origin)
    requires Collect(p).extends_ == ClassExtends(p) && Acyclic(ClassExtends(p))
    requires MethodOrigins.IsDispatchTable(Collect(p), origins)
    requires BreadthFirst(ClassExtends(p), Next(ClassExtends(p), c), mro)
    requires forall q :: q in Next(ClassExtends(p), c) ==> Untouched(Collect(p), q, m) && NoConflict(Collect(p), q, m)
    requires DirectOrigins(origins, Next(ClassExtends(p), c), m) == {o}
    ensures FirstDeclarer(Collect(p), m, mro) == Ast.Some(o)
    ensures Above(ClassExtends(p), c, o.0)
  {
    var t := Collect(p);
    var direct := Next(ClassExtends(p), c);
    DirectOriginIsAbove(p, origins, c, m, o);
    MroIsAbove(ClassExtends(p), c, mro);
    var j := FirstAt(t, m, mro);
    var s, k := SearchIsQuiet(t, m, direct, mro, j);
    QuietDeclarerWins(t, m, s, mro[j], k);
    assert origins[(s, m)] in DirectOrigins(origins, direct, m);
  }

  lemma DirectOriginIsAbove(p: Program, origins: map<(Name, Name), Origin>, c: Name, m: Name, o: Origin)
    requires Collect(p).extends_ == ClassExtends(p) && Acyclic(ClassExtends(p))
    requires MethodOrigins.IsDispatchTable(Collect(p), origins)
    requires forall q :: q in Next(ClassExtends(p), c) ==> Untouched(Collect(p), q, m)
    requires o in DirectOrigins(origins, Next(ClassExtends(p), c), m)
    ensures Above(ClassExtends(p), c, o.0) && m in Own(Collect(p), o.0)
  {
    var q :| q in Next(ClassExtends(p), c) && (q, m) in origins && origins[(q, m)] == o;
    OriginDeclares(Collect(p), q, m);
    EdgeThenReaches(ClassExtends(p), c, q, o.0);
  }

  /** Where the first declarer stands in the list. */
  lemma FirstAt(t: Tables, m: Name, xs: seq<Name>) returns (j: nat)
    requires exists x :: x in xs && m in Own(t, x)
    ensures j < |xs| && m in Own(t, xs[j]) && FirstDeclarer(t, m, xs) == Ast.Some((xs[j], m))
    ensures forall i :: 0 <= i < j ==> m !in Own(t, xs[i])
  {
    var r := FirstDeclarer(t, m, xs);
    j :| 0 <= j < |xs| && m in Own(t, xs[j]) && r.value == (xs[j], m) && forall i :: 0 <= i < j ==> m !in Own(t, xs[i]);
  }

  /** The class whose body runs after one `parent` call from `c`, with or without a named ancestor. */
  ghost predicate ParentCallReaches(p: Program, origins: map<(Name, Name), Origin>, c: Name, a: Name, m: Name,
                                    d: Name) {
    && Above(ClassExtends(p), c, a) && (a, m) in origins
    && Reaches(ClassExtends(p), a, d) && Supplies(Collect(p), d, origins[(a, m)])
  }

  /** Both kinds of `parent` call run a body supplied strictly above the calling class. */
  lemma ParentTargetIsAbove(p: Program, origins: map<(Name, Name), Origin>, c: Name, a: Name, m: Name)
    requires forall x, n :: (x, n) in origins ==> Sound(Collect(p), x, origins[(x, n)])
    requires Collect(p).extends_ == ClassExtends(p)
    requires Above(ClassExtends(p), c, a) && (a, m) in origins
    ensures exists d :: ParentCallReaches(p, origins, c, a, m, d) && Above(ClassExtends(p), c, d)
  {
    var d :| Reaches(ClassExtends(p), a, d) && Supplies(Collect(p), d, origins[(a, m)]);
    AboveThenReaches(ClassExtends(p), c, a, d);
    assert ParentCallReaches(p, origins, c, a, m, d);
  }

  /** A chain of classes each reached from the one before by a `parent` call. */
  ghost predicate ParentChain(p: Program, origins: map<(Name, Name), Origin>, chain: seq<Name>) {
    forall i, j :: 0 <= i && j == i + 1 < |chain| ==> ParentStep(p, origins, chain[i], chain[j])
  }

  ghost predicate ParentStep(p: Program, origins: map<(Name, Name), Origin>, c: Name, d: Name) {
    exists a, m :: ParentCallReaches(p, origins, c, a, m, d)
  }

  /** Chains of `parent` calls are finite: no longer than the number of ancestors. */
  lemma {:induction false} ParentChainIsFinite(p: Program, origins: map<(Name, Name), Origin>, chain: seq<Name>)
    requires Acyclic(ClassExtends(p)) && ParentChain(p, origins, chain) && chain != []
    ensures |chain| <= 1 + |AboveSet(ClassExtends(p), chain[0])|
    decreases |chain|
  {
    if |chain| > 1 {
      assert ParentStep(p, origins, chain[0], chain[1]);
      var a, m :| ParentCallReaches(p, origins, chain[0], a, m, chain[1]);
      AboveThenReaches(ClassExtends(p), chain[0], a, chain[1]);
      HeightDrops(ClassExtends(p), chain[0], chain[1]);
      ParentChainIsFinite(p, origins, chain[1..]);
    }
  }
}
