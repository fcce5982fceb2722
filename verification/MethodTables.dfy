/** What `class_method_origins` (src/ast/class_hierarchy.rs) is meant to compute, as a plain recursion
    over an acyclic hierarchy: own methods win; each parent contributes its table and each used trait
    its methods; the resolution clauses then act on the set of arrivals in order. */
module MethodTables {
  import opened Declarations
  import opened Graph
  import Order

  /** The declaring class (or trait) and the method it declares. */
  type Origin = (Name, Name)

  /** One inherited method: the name it goes by, the parent or trait it comes through, its origin. */
  datatype Arrival = Arrival(name: Name, via: Name, origin: Origin)

  datatype Tables = Tables(
    decl: map<Name, set<Name>>,
    extends_: Edges,
    uses: Edges,
    traitDecl: map<Name, set<Name>>,
    resolutions: map<Name, seq<Resolution>>)

  function MethodNames(members: seq<Member>): set<Name> {
    set m | m in members && m.Method? :: m.name
  }

  function Collect(p: Program): Tables {
    if p == [] then Tables(map[], map[], map[], map[], map[])
    else
      var t := Collect(p[..|p| - 1]);
      match p[|p| - 1]
      case ClassItem(name, exts, _, uses, members, resolutions) =>
        t.(decl := t.decl[name := MethodNames(members)], extends_ := t.extends_[name := exts],
           uses := t.uses[name := uses], resolutions := t.resolutions[name := resolutions])
      case TraitItem(name, members) => t.(traitDecl := t.traitDecl[name := MethodNames(members)])
      case _ => t
  }

  function Own(t: Tables, c: Name): set<Name> {
    if c in t.decl then t.decl[c] else {}
  }

  function TraitMethods(t: Tables, name: Name): set<Name> {
    if name in t.traitDecl then t.traitDecl[name] else {}
  }

  function Clauses(t: Tables, c: Name): seq<Resolution> {
    if c in t.resolutions then t.resolutions[c] else []
  }

  // ----- Resolution clauses -----

  function Apply(r: Resolution, s: set<Arrival>): set<Arrival> {
    match r
    case Use(p, m) => set a | a in s && (a.name == m ==> a.via == p)
    case Exclude(p, m) => set a | a in s && (a.name == m ==> a.via != p)
    case Rename(p, m, asName) => set a | a in s :: if a.name == m && a.via == p then a.(name := asName) else a
  }

  function ApplyAll(rs: seq<Resolution>, s: set<Arrival>): set<Arrival> {
    if rs == [] then s else ApplyAll(rs[1..], Apply(rs[0], s))
  }

  /** Clauses only filter and rename: no arrival changes where it comes from. */
  lemma {:induction false} ClausesKeepOrigins(rs: seq<Resolution>, s: set<Arrival>, a: Arrival) returns (b: Arrival)
    requires a in ApplyAll(rs, s)
    ensures b in s && b.via == a.via && b.origin == a.origin
    ensures (forall r :: r in rs ==> !r.Rename?) ==> b == a
    decreases rs
  {
    if rs == [] {
      b := a;
    } else {
      var mid := ClausesKeepOrigins(rs[1..], Apply(rs[0], s), a);
      assert forall r :: r in rs[1..] ==> r in rs;
      if rs[0].Rename? {
        b :| b in s && mid == (if b.name == rs[0].method_ && b.via == rs[0].parent then b.(name := rs[0].asName) else b);
      } else {
        b := mid;
      }
    }
  }

  // ----- The pick among origins: the least pair -----

  predicate OriginLe(a: Origin, b: Origin) {
    Order.StrLt(a.0, b.0) || (a.0 == b.0 && Order.StrLe(a.1, b.1))
  }

  lemma OriginLeTotal(a: Origin, b: Origin)
    ensures OriginLe(a, b) || OriginLe(b, a)
  {
    Order.StrLeTotal(a.0, b.0);
    Order.StrLeTotal(a.1, b.1);
  }

  lemma OriginLeTransitive(a: Origin, b: Origin, c: Origin)
    requires OriginLe(a, b) && OriginLe(b, c)
    ensures OriginLe(a, c)
  {
    if a.0 == b.0 == c.0 {
      Order.StrLeTransitive(a.1, b.1, c.1);
    } else {
      assert Order.StrLe(a.0, b.0) && Order.StrLe(b.0, c.0) by {
        Order.StrLeReflexive(b.0);
      }
      Order.StrLeTransitive(a.0, b.0, c.0);
      if a.0 == c.0 {
        Order.StrLeAntisymmetric(a.0, b.0);
      }
    }
  }

  lemma OriginLeAntisymmetric(a: Origin, b: Origin)
    requires OriginLe(a, b) && OriginLe(b, a)
    ensures a == b
  {
    if a.0 == b.0 {
      Order.StrLeAntisymmetric(a.1, b.1);
    } else {
      Order.StrLeAntisymmetric(a.0, b.0);
    }
  }

  ghost predicate IsLeast(s: set<Origin>, o: Origin) {
    o in s && forall x :: x in s ==> OriginLe(o, x)
  }

  lemma {:induction false} LeastExists(s: set<Origin>)
    requires s != {}
    ensures exists o :: IsLeast(s, o)
    decreases |s|
  {
    var x :| x in s;
    OriginLeTotal(x, x);
    if s == {x} {
      assert IsLeast(s, x);
    } else {
      LeastExists(s - {x});
      var o :| IsLeast(s - {x}, o);
      OriginLeTotal(x, o);
      if OriginLe(o, x) {
        assert IsLeast(s, o);
      } else {
        forall y | y in s ensures OriginLe(x, y) {
          if y != x { OriginLeTransitive(x, o, y); }
        }
        assert IsLeast(s, x);
      }
    }
  }

  ghost function Least(s: set<Origin>): (o: Origin)
    requires s != {}
    ensures IsLeast(s, o)
  {
    LeastExists(s);
    var o :| IsLeast(s, o);
    o
  }

  lemma LeastUnique(s: set<Origin>, o: Origin)
    requires s != {} && IsLeast(s, o)
    ensures o == Least(s)
  {
    OriginLeAntisymmetric(o, Least(s));
  }

  // ----- The table -----

  function OriginsOf(s: set<Arrival>, n: Name): set<Origin> {
    set a | a in s && a.name == n :: a.origin
  }

  function Names(s: set<Arrival>): set<Name> {
    set a | a in s :: a.name
  }

  /** What reaches `c` before its clauses: its own methods are never inherited. */
  ghost function Incoming(t: Tables, c: Name): set<Arrival>
    requires Acyclic(t.extends_)
    decreases Height(t.extends_, c), 0
  {
    HeightsDrop(t.extends_, c);
    (set p, n | p in Next(t.extends_, c) && n in Table(t, p) && n !in Own(t, c) :: Arrival(n, p, Table(t, p)[n]))
    + FromTraits(t, c)
  }

  function FromTraits(t: Tables, c: Name): set<Arrival> {
    set u, n | u in Next(t.uses, c) && n in TraitMethods(t, u) && n !in Own(t, c) :: Arrival(n, u, (u, n))
  }

  ghost function Survivors(t: Tables, c: Name): set<Arrival>
    requires Acyclic(t.extends_)
    decreases Height(t.extends_, c), 1
  {
    ApplyAll(Clauses(t, c), Incoming(t, c))
  }

  /** The methods of `c`: its own, and for each surviving name the least origin. */
  ghost function Table(t: Tables, c: Name): map<Name, Origin>
    requires Acyclic(t.extends_)
    decreases Height(t.extends_, c), 2
  {
    Finish(c, Own(t, c), Survivors(t, c))
  }

  ghost function Finish(c: Name, own: set<Name>, s: set<Arrival>): map<Name, Origin> {
    map n | n in own + Names(s) :: Pick(c, own, s, n)
  }

  ghost function Pick(c: Name, own: set<Name>, s: set<Arrival>, n: Name): Origin
    requires n in own + Names(s)
  {
    if n in own then (c, n)
    else
      SomeOrigin(s, n);
      Least(OriginsOf(s, n))
  }

  /** `n` arrives at `c` from two distinct origins and `c` does not declare it. */
  ghost predicate Conflicted(t: Tables, c: Name, n: Name)
    requires Acyclic(t.extends_)
  {
    Clashes(Own(t, c), Survivors(t, c), n)
  }

  predicate Clashes(own: set<Name>, s: set<Arrival>, n: Name) {
    n !in own && exists a, b :: a in s && b in s && a.name == b.name == n && a.origin != b.origin
  }

  lemma SomeOrigin(s: set<Arrival>, n: Name)
    requires n in Names(s)
    ensures OriginsOf(s, n) != {}
  {
    var a :| a in s && a.name == n;
    assert a.origin in OriginsOf(s, n);
  }

  // ----- Where origins come from, on any hierarchy -----

  /** `d` itself declares the method, or a trait `d` uses does. */
  predicate Supplies(t: Tables, d: Name, o: Origin) {
    (o.0 == d && o.1 in Own(t, d)) || (o.0 in Next(t.uses, d) && o.1 in TraitMethods(t, o.0))
  }

  /** The origin is the class itself, an ancestor, or a trait used by one of these, and declares it. */
  ghost predicate Sound(t: Tables, c: Name, o: Origin) {
    exists d :: Reaches(t.extends_, c, d) && Supplies(t, d, o)
  }

  ghost predicate SoundTable(t: Tables, c: Name, table: map<Name, Origin>) {
    forall n :: n in table ==> Sound(t, c, table[n])
  }

  ghost predicate SoundArrivals(t: Tables, c: Name, s: set<Arrival>) {
    forall a :: a in s ==> Sound(t, c, a.origin)
  }

  lemma SoundUpward(t: Tables, c: Name, p: Name, o: Origin)
    requires p in Next(t.extends_, c) && Sound(t, p, o)
    ensures Sound(t, c, o)
  {
    var d :| Reaches(t.extends_, p, d) && Supplies(t, d, o);
    EdgeThenReaches(t.extends_, c, p, d);
  }

  lemma SoundHere(t: Tables, c: Name, o: Origin)
    requires Supplies(t, c, o)
    ensures Sound(t, c, o)
  {
    ReachesSelf(t.extends_, c);
  }

  lemma ClausesKeepSound(t: Tables, c: Name, rs: seq<Resolution>, s: set<Arrival>)
    requires SoundArrivals(t, c, s)
    ensures SoundArrivals(t, c, ApplyAll(rs, s))
  {
    forall a | a in ApplyAll(rs, s) ensures Sound(t, c, a.origin) {
      var b := ClausesKeepOrigins(rs, s, a);
    }
  }

  lemma FinishSound(t: Tables, c: Name, s: set<Arrival>)
    requires SoundArrivals(t, c, s)
    ensures SoundTable(t, c, Finish(c, Own(t, c), s))
  {
    var table := Finish(c, Own(t, c), s);
    forall n | n in table ensures Sound(t, c, table[n]) {
      if n in Own(t, c) {
        SoundHere(t, c, (c, n));
      } else {
        SomeOrigin(s, n);
        var a :| a in s && a.name == n && a.origin == Least(OriginsOf(s, n));
      }
    }
  }
}
