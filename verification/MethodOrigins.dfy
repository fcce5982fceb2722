/** `class_method_origins` (src/ast/class_hierarchy.rs): the memoised, cycle-guarded resolution of every
    class's methods, against the plain recursion of `MethodTables`. */
module MethodOrigins {
  import opened Declarations
  import opened Graph
  import opened MethodTables
  import ClassHierarchy
  import Order

  /** The contributions as the source holds them: per name, who supplies it, in order. */
  type Contributions = map<Name, seq<(Name, Origin)>>

  ghost function Flat(contrib: Contributions): set<Arrival> {
    set n, e | n in contrib && e in contrib[n] :: Arrival(n, e.0, e.1)
  }

  lemma InFlat(contrib: Contributions, a: Arrival)
    ensures a in Flat(contrib) <==> a.name in contrib && (a.via, a.origin) in contrib[a.name]
  {
    if a in Flat(contrib) {
      var n, e :| n in contrib && e in contrib[n] && a == Arrival(n, e.0, e.1);
      assert e == (a.via, a.origin);
    }
    if a.name in contrib && (a.via, a.origin) in contrib[a.name] {
      var e := (a.via, a.origin);
      assert a == Arrival(a.name, e.0, e.1);
    }
  }

  /** Adds one contribution, as `entry(name).or_default().push(..)` does. */
  method Push(contrib: Contributions, name: Name, via: Name, origin: Origin) returns (out: Contributions)
    ensures Flat(out) == Flat(contrib) + {Arrival(name, via, origin)}
  {
    var v := if name in contrib then contrib[name] else [];
    out := contrib[name := v + [(via, origin)]];
    forall a ensures a in Flat(out) <==> a in Flat(contrib) + {Arrival(name, via, origin)} {
      InFlat(out, a);
      InFlat(contrib, a);
    }
  }

  /** Splits a list by whether an entry comes through `parent`, keeping the order. */
  method Partition(v: seq<(Name, Origin)>, parent: Name) returns (from: seq<(Name, Origin)>,
                   others: seq<(Name, Origin)>)
    ensures forall e :: e in from <==> e in v && e.0 == parent
    ensures forall e :: e in others <==> e in v && e.0 != parent
  {
    from, others := [], [];
    for i := 0 to |v|
      invariant forall e :: e in from <==> e in v[..i] && e.0 == parent
      invariant forall e :: e in others <==> e in v[..i] && e.0 != parent
    {
      assert v[..i + 1] == v[..i] + [v[i]];
      if v[i].0 == parent {
        from := from + [v[i]];
      } else {
        others := others + [v[i]];
      }
    }
    assert v[..|v|] == v;
  }

  method ApplyClause(contrib: Contributions, r: Resolution) returns (out: Contributions)
    ensures Flat(out) == Apply(r, Flat(contrib))
  {
    out := contrib;
    ghost var before := Flat(contrib);
    if r.method_ in contrib {
      var from, others := Partition(contrib[r.method_], r.parent);
      match r {
        case Use(_, m) => out := contrib[m := from];
        case Exclude(_, m) => out := contrib[m := others];
        case Rename(_, m, asName) =>
          out := contrib[m := others];
          if from != [] {
            var v := if asName in out then out[asName] else [];
            out := out[asName := v + from];
          }
      }
      forall a ensures a in Flat(out) <==> a in Apply(r, before) {
        InFlat(out, a);
        InFlat(contrib, a);
        if r.Rename? {
          InFlat(contrib, a.(name := r.method_));
          RenameMember(r, before, a);
        }
      }
    } else {
      forall a | a in before ensures a.name != r.method_ {
        InFlat(contrib, a);
      }
      assert r.Rename? ==> Apply(r, before) == before;
    }
  }

  lemma RenameMember(r: Resolution, s: set<Arrival>, a: Arrival)
    requires r.Rename?
    ensures a in Apply(r, s) <==>
              (a in s && !(a.name == r.method_ && a.via == r.parent))
              || (a.name == r.asName && a.via == r.parent && a.(name := r.method_) in s)
  {
    if a.name == r.asName && a.via == r.parent && a.(name := r.method_) in s {
      var b := a.(name := r.method_);
      assert a == b.(name := r.asName);
    }
  }

  method ApplyClauses(contrib: Contributions, rs: seq<Resolution>) returns (out: Contributions)
    ensures Flat(out) == ApplyAll(rs, Flat(contrib))
  {
    out := contrib;
    for i := 0 to |rs|
      invariant ApplyAll(rs[i..], Flat(out)) == ApplyAll(rs, Flat(contrib))
    {
      assert rs[i..][1..] == rs[i + 1..];
      out := ApplyClause(out, rs[i]);
    }
  }

  method LeastOrigin(s: set<Origin>) returns (least: Origin)
    requires s != {}
    ensures least == Least(s)
  {
    least :| least in s;
    OriginLeTotal(least, least);
    var todo := s - {least};
    while todo != {}
      invariant todo <= s && IsLeast(s - todo, least)
      decreases todo
    {
      var x :| x in todo;
      todo := todo - {x};
      OriginLeTotal(least, x);
      OriginLeTotal(x, x);
      if !OriginLe(least, x) {
        forall y | y in s - todo ensures OriginLe(x, y) {
          if y != x { OriginLeTransitive(x, least, y); }
        }
        least := x;
      }
    }
    assert s - todo == s;
    LeastUnique(s, least);
  }

  /** Memo entries stay as they are. */
  ghost predicate Grows(before: map<Name, map<Name, Origin>>, after: map<Name, map<Name, Origin>>) {
    forall x :: x in before ==> x in after && after[x] == before[x]
  }

  ghost function FromParents(t: Tables, c: Name, parents: seq<Name>): set<Arrival>
    requires Acyclic(t.extends_)
  {
    set p, n | p in parents && n in Table(t, p) && n !in Own(t, c) :: Arrival(n, p, Table(t, p)[n])
  }

  lemma FromOneMoreParent(t: Tables, c: Name, parents: seq<Name>, i: nat)
    requires Acyclic(t.extends_) && i < |parents|
    ensures FromParents(t, c, parents[..i + 1])
         == FromParents(t, c, parents[..i])
            + set n | n in Table(t, parents[i]) && n !in Own(t, c) :: Arrival(n, parents[i], Table(t, parents[i])[n])
  {
    assert parents[..i + 1] == parents[..i] + [parents[i]];
  }

  ghost function FromTraitList(t: Tables, own: set<Name>, uses: seq<Name>): set<Arrival> {
    set u, n | u in uses && n in TraitMethods(t, u) && n !in own :: Arrival(n, u, (u, n))
  }

  /** A parent's table contributes every name the class does not declare itself. */
  method AddTable(contrib: Contributions, own: set<Name>, parent: Name, table: map<Name, Origin>)
    returns (out: Contributions)
    ensures Flat(out) == Flat(contrib) + set n | n in table && n !in own :: Arrival(n, parent, table[n])
  {
    out := contrib;
    var todo := table.Keys;
    while todo != {}
      invariant todo <= table.Keys
      invariant Flat(out) == Flat(contrib) + set n | n in table.Keys - todo && n !in own :: Arrival(n, parent, table[n])
      decreases todo
    {
      var name :| name in todo;
      todo := todo - {name};
      if name !in own {
        out := Push(out, name, parent, table[name]);
      }
    }
  }

  class Ctx {
    const t: Tables
    var memo: map<Name, map<Name, Origin>>
    var conflicts: seq<(Name, Name)>
    var inProgress: set<Name>

    constructor (t: Tables)
      ensures this.t == t && memo == map[] && conflicts == [] && inProgress == {}
    {
      this.t := t;
      memo := map[];
      conflicts := [];
      inProgress := {};
    }

    ghost function Universe(): set<Name> {
      t.extends_.Keys + Targets(t.extends_)
    }

    /** What holds between calls, on any hierarchy. */
    ghost predicate Valid()
      reads this
    {
      && memo.Keys !! inProgress
      && (forall c :: c in memo ==> SoundTable(t, c, memo[c]))
      && Distinct(conflicts)
      && (forall e :: e in conflicts ==> e.0 in memo)
      && (Acyclic(t.extends_) ==> Exact())
    }

    /** What holds between calls on an acyclic hierarchy: every finished class has its table, and the
        recorded conflicts are those of the finished classes. */
    ghost predicate Exact()
      requires Acyclic(t.extends_)
      reads this
    {
      && (forall c :: c in memo ==> memo[c] == Table(t, c))
      && (forall c, n :: (c, n) in conflicts <==> c in memo && Conflicted(t, c, n))
    }

    /** The methods of `c`. Classes in progress are those whose resolution led here. */
    method Resolve(c: Name) returns (table: map<Name, Origin>)
      requires Valid() && c in Universe()
      requires forall x :: x in inProgress ==> Above(t.extends_, x, c)
      modifies this
      ensures Valid() && inProgress == old(inProgress)
      ensures Grows(old(memo), memo)
      ensures SoundTable(t, c, table)
      ensures Acyclic(t.extends_) ==> c in memo && table == Table(t, c)
      decreases Universe() - inProgress, 1
    {
      if c in memo {
        return memo[c];
      }
      if c in inProgress {
        return map[];
      }
      inProgress := inProgress + {c};
      var own := Own(t, c);
      var contrib := Gather(c, own);
      ClausesKeepSound(t, c, Clauses(t, c), Flat(contrib));
      contrib := ApplyClauses(contrib, Clauses(t, c));
      ghost var survivors := Flat(contrib);
      table := Finalize(c, own, contrib);
      FinishSound(t, c, survivors);
      inProgress := inProgress - {c};
      memo := memo[c := table];
    }

    /** What each parent's table and each used trait contribute to `c`. */
    method Gather(c: Name, own: set<Name>) returns (contrib: Contributions)
      requires Valid() && c in Universe() && c in inProgress && own == Own(t, c)
      requires forall x :: x in inProgress - {c} ==> Above(t.extends_, x, c)
      modifies this
      ensures Valid() && inProgress == old(inProgress)
      ensures Grows(old(memo), memo)
      ensures SoundArrivals(t, c, Flat(contrib))
      ensures Acyclic(t.extends_) ==> Flat(contrib) == Incoming(t, c)
      decreases Universe() - inProgress, 2, 1
    {
      contrib := GatherParents(c, own);
      ghost var inherited := Flat(contrib);
      contrib := AddTraits(contrib, c, own);
      forall a | a in Flat(contrib) - inherited ensures Sound(t, c, a.origin) {
        SoundHere(t, c, a.origin);
      }
    }

    method GatherParents(c: Name, own: set<Name>) returns (contrib: Contributions)
      requires Valid() && c in Universe() && c in inProgress && own == Own(t, c)
      requires forall x :: x in inProgress - {c} ==> Above(t.extends_, x, c)
      modifies this
      ensures Valid() && inProgress == old(inProgress)
      ensures Grows(old(memo), memo)
      ensures SoundArrivals(t, c, Flat(contrib))
      ensures Acyclic(t.extends_) ==> Flat(contrib) == FromParents(t, c, Next(t.extends_, c))
      decreases Universe() - inProgress, 2, 0
    {
      hide Valid;
      contrib := map[];
      assert Flat(contrib) == {};
      var parents := Next(t.extends_, c);
      NextInTargets(t.extends_, c);
      for i := 0 to |parents|
        invariant Valid() && inProgress == old(inProgress)
        invariant Grows(old(memo), memo)
        invariant SoundArrivals(t, c, Flat(contrib))
        invariant Acyclic(t.extends_) ==> Flat(contrib) == FromParents(t, c, parents[..i])
      {
        InProgressAbove(c, parents[i]);
        var parentTable := Resolve(parents[i]);
        ghost var before := Flat(contrib);
        contrib := AddTable(contrib, own, parents[i], parentTable);
        forall a | a in Flat(contrib) - before ensures Sound(t, c, a.origin) {
          SoundUpward(t, c, parents[i], a.origin);
        }
        if Acyclic(t.extends_) {
          FromOneMoreParent(t, c, parents, i);
        }
      }
      assert parents[..|parents|] == parents;
    }

    lemma InProgressAbove(c: Name, p: Name)
      requires p in Next(t.extends_, c)
      requires forall x :: x in inProgress - {c} ==> Above(t.extends_, x, c)
      ensures forall x :: x in inProgress ==> Above(t.extends_, x, p)
    {
      forall x | x in inProgress ensures Above(t.extends_, x, p) {
        ReachesSelf(t.extends_, c);
        ReachesThenEdge(t.extends_, c, c, p);
        if x != c {
          AboveThenReaches(t.extends_, x, c, p);
        }
      }
    }

    method AddTraits(contrib: Contributions, c: Name, own: set<Name>) returns (out: Contributions)
      requires own == Own(t, c)
      ensures Flat(out) == Flat(contrib) + FromTraits(t, c)
    {
      out := contrib;
      var uses := Next(t.uses, c);
      for i := 0 to |uses|
        invariant Flat(out) == Flat(contrib) + FromTraitList(t, own, uses[..i])
      {
        assert uses[..i + 1] == uses[..i] + [uses[i]];
        ghost var before := Flat(out);
        var u := uses[i];
        var names := TraitMethods(t, u);
        var todo := names;
        while todo != {}
          invariant todo <= names
          invariant Flat(out) == before + set n | n in names - todo && n !in own :: Arrival(n, u, (u, n))
          decreases todo
        {
          var name :| name in todo;
          todo := todo - {name};
          if name !in own {
            out := Push(out, name, u, (u, name));
          }
        }
      }
      assert uses[..|uses|] == uses;
    }

    /** Enters one inherited name: the least of its distinct origins, recording a conflict when there
        is more than one. */
    method Settle(c: Name, own: set<Name>, contrib: Contributions, name: Name, table: map<Name, Origin>)
      returns (out: map<Name, Origin>)
      requires name in contrib && name !in own
      modifies this`conflicts
      ensures out == if name in Names(Flat(contrib)) then table[name := Pick(c, own, Flat(contrib), name)] else table
      ensures conflicts == old(conflicts) + if Clashes(own, Flat(contrib), name) then [(c, name)] else []
    {
      out := table;
      var distinct := set e | e in contrib[name] :: e.1;
      DistinctOrigins(contrib, name, distinct);
      ghost var clashes := Clashes(own, Flat(contrib), name);
      if distinct != {} {
        var first := LeastOrigin(distinct);
        var rest := distinct - {first};
        if rest != {} {
          assert exists x, y :: x in distinct && y in distinct && x != y by {
            var y :| y in rest;
            assert first in distinct && y in distinct && first != y;
          }
          conflicts := conflicts + [(c, name)];
        } else {
          assert distinct <= rest + {first};
          assert !clashes;
        }
        out := table[name := first];
      }
    }

    method Finalize(c: Name, own: set<Name>, contrib: Contributions) returns (table: map<Name, Origin>)
      requires c !in memo && (forall e :: e in conflicts ==> e.0 != c)
      requires Distinct(conflicts)
      modifies this`conflicts
      ensures table == Finish(c, own, Flat(contrib))
      ensures Distinct(conflicts)
      ensures forall d, n :: (d, n) in conflicts <==>
                (d, n) in old(conflicts) || (d == c && Clashes(own, Flat(contrib), n))
    {
      table := map n | n in own :: (c, n);
      var names := Order.Sorted(contrib.Keys);
      ghost var s := Flat(contrib);
      for i := 0 to |names|
        invariant table == Entered(c, own, s, names[..i])
        invariant conflicts == old(conflicts) + Recorded(c, own, s, names[..i])
      {
        OneMoreName(c, own, s, names, i);
        assert names[i] in contrib;
        if names[i] !in table {
          table := Settle(c, own, contrib, names[i], table);
        }
      }
      assert names[..|names|] == names;
      AllNamesEntered(c, own, contrib, names);
      AllRecorded(c, own, contrib, names, old(conflicts));
    }

    /** Resolves every class, in name order. */
    method ResolveAll()
      requires Valid() && inProgress == {}
      modifies this
      ensures Valid() && inProgress == {}
      ensures Acyclic(t.extends_) ==> t.extends_.Keys <= memo.Keys
    {
      var names := Order.Sorted(t.extends_.Keys);
      for i := 0 to |names|
        invariant Valid() && inProgress == {}
        invariant Acyclic(t.extends_) ==> forall j :: 0 <= j < i ==> names[j] in memo
      {
        assert names[i] in t.extends_;
        var table := Resolve(names[i]);
      }
      assert forall c :: c in t.extends_ ==> c in names;
    }
  }

  ghost predicate Distinct(conflicts: seq<(Name, Name)>) {
    forall i, j :: 0 <= i < j < |conflicts| ==> conflicts[i] != conflicts[j]
  }

  lemma RecordingMore(c: Name, before: seq<(Name, Name)>, more: seq<(Name, Name)>)
    requires Distinct(before) && Distinct(more)
    requires (forall e :: e in before ==> e.0 != c) && (forall e :: e in more ==> e.0 == c)
    ensures Distinct(before + more)
    ensures forall e :: e in before + more <==> e in before || e in more
  {
    forall i, j | 0 <= i < j < |before + more| ensures (before + more)[i] != (before + more)[j] {
      if i < |before| <= j {
        assert before[i] in before && more[j - |before|] in more;
      }
    }
  }

  /** The table once the names of the list have been entered. */
  ghost function Entered(c: Name, own: set<Name>, s: set<Arrival>, names: seq<Name>): map<Name, Origin> {
    map n | n in own + (Names(s) * Visited(names)) :: Pick(c, own, s, n)
  }

  lemma OneMoreName(c: Name, own: set<Name>, s: set<Arrival>, names: seq<Name>, i: nat)
    requires i < |names| && Order.StrictlySorted(names)
    ensures names[i] in Entered(c, own, s, names[..i]) <==> names[i] in own
    ensures Entered(c, own, s, names[..i + 1]) ==
            if names[i] in Names(s) && names[i] !in own
            then Entered(c, own, s, names[..i])[names[i] := Pick(c, own, s, names[i])]
            else Entered(c, own, s, names[..i])
    ensures Recorded(c, own, s, names[..i + 1]) ==
            Recorded(c, own, s, names[..i]) + if Clashes(own, s, names[i]) then [(c, names[i])] else []
  {
    assert names[..i + 1][..i] == names[..i];
    assert Visited(names[..i + 1]) == Visited(names[..i]) + {names[i]} by {
      assert names[..i + 1] == names[..i] + [names[i]];
    }
    Order.StrictlySortedDistinct(names);
    assert names[i] !in names[..i];
  }

  lemma AllNamesEntered(c: Name, own: set<Name>, contrib: Contributions, names: seq<Name>)
    requires forall n :: n in names <==> n in contrib
    ensures Entered(c, own, Flat(contrib), names) == Finish(c, own, Flat(contrib))
  {
    var s := Flat(contrib);
    forall n | n in Names(s) ensures n in Visited(names) {
      var a :| a in s && a.name == n;
      InFlat(contrib, a);
    }
  }

  lemma AllRecorded(c: Name, own: set<Name>, contrib: Contributions, names: seq<Name>, before: seq<(Name, Name)>)
    requires Order.StrictlySorted(names) && forall n :: n in names <==> n in contrib
    requires Distinct(before) && forall e :: e in before ==> e.0 != c
    ensures Distinct(before + Recorded(c, own, Flat(contrib), names))
    ensures forall d, n :: (d, n) in before + Recorded(c, own, Flat(contrib), names) <==>
              (d, n) in before || (d == c && Clashes(own, Flat(contrib), n))
  {
    var s := Flat(contrib);
    Order.StrictlySortedDistinct(names);
    RecordedOnce(c, own, s, names);
    RecordingMore(c, before, Recorded(c, own, s, names));
    forall n | Clashes(own, s, n) ensures n in names {
      var a :| a in s && a.name == n;
      InFlat(contrib, a);
    }
  }

  /** The conflicts one class records, in name order. */
  function Recorded(c: Name, own: set<Name>, s: set<Arrival>, names: seq<Name>): seq<(Name, Name)> {
    if names == [] then []
    else
      var n := names[|names| - 1];
      Recorded(c, own, s, names[..|names| - 1]) + if Clashes(own, s, n) then [(c, n)] else []
  }

  lemma {:induction false} RecordedOnce(c: Name, own: set<Name>, s: set<Arrival>, names: seq<Name>)
    requires forall i, j :: 0 <= i < j < |names| ==> names[i] != names[j]
    ensures Distinct(Recorded(c, own, s, names))
    ensures forall d, n :: (d, n) in Recorded(c, own, s, names) <==> d == c && n in names && Clashes(own, s, n)
    decreases |names|
  {
    if names != [] {
      RecordedOnce(c, own, s, names[..|names| - 1]);
      assert names == names[..|names| - 1] + [names[|names| - 1]];
    }
  }

  lemma ClashesIff(s: set<Arrival>, name: Name, own: set<Name>)
    ensures Clashes(own, s, name) <==>
              name !in own && exists x, y :: x in OriginsOf(s, name) && y in OriginsOf(s, name) && x != y
  {
    if x, y :| x in OriginsOf(s, name) && y in OriginsOf(s, name) && x != y {
      var a :| a in s && a.name == name && a.origin == x;
      var b :| b in s && b.name == name && b.origin == y;
    }
    if a, b :| a in s && b in s && a.name == b.name == name && a.origin != b.origin {
      assert a.origin in OriginsOf(s, name) && b.origin in OriginsOf(s, name);
    }
  }

  lemma DistinctOrigins(contrib: Contributions, name: Name, distinct: set<Origin>)
    requires name in contrib && distinct == set e | e in contrib[name] :: e.1
    ensures distinct == OriginsOf(Flat(contrib), name)
    ensures distinct != {} <==> name in Names(Flat(contrib))
    ensures forall own :: Clashes(own, Flat(contrib), name) <==>
              name !in own && exists x, y :: x in distinct && y in distinct && x != y
  {
    var s := Flat(contrib);
    forall o ensures o in distinct <==> o in OriginsOf(s, name) {
      if o in distinct {
        var e :| e in contrib[name] && e.1 == o;
        InFlat(contrib, Arrival(name, e.0, o));
      }
      if o in OriginsOf(s, name) {
        var a :| a in s && a.name == name && a.origin == o;
        InFlat(contrib, a);
        assert (a.via, o) in contrib[name];
      }
    }
    if x :| x in distinct {
      var a :| a in s && a.name == name && a.origin == x;
    }
    if a :| a in s && a.name == name {
      assert a.origin in OriginsOf(s, name);
    }
    forall own ensures Clashes(own, s, name) <==>
              name !in own && exists x, y :: x in distinct && y in distinct && x != y
    {
      ClashesIff(s, name, own);
    }
  }

  // ----- The whole program -----

  method CollectTables(p: Program) returns (t: Tables)
    ensures t == Collect(p)
  {
    t := Tables(map[], map[], map[], map[], map[]);
    for i := 0 to |p|
      invariant t == Collect(p[..i])
    {
      assert p[..i + 1][..i] == p[..i];
      match p[i] {
        case ClassItem(name, exts, _, uses, members, resolutions) =>
          t := t.(decl := t.decl[name := MethodNames(members)], extends_ := t.extends_[name := exts],
                  uses := t.uses[name := uses], resolutions := t.resolutions[name := resolutions]);
        case TraitItem(name, members) =>
          t := t.(traitDecl := t.traitDecl[name := MethodNames(members)]);
        case _ =>
      }
    }
    assert p[..|p|] == p;
  }

  lemma {:induction false} CollectKeys(p: Program)
    ensures Collect(p).extends_ == ClassExtends(p)
    ensures Collect(p).decl.Keys == Collect(p).uses.Keys == Collect(p).resolutions.Keys == ClassExtends(p).Keys
  {
    if p != [] {
      CollectKeys(p[..|p| - 1]);
    }
  }

  lemma {:induction false} NothingFromNothing(rs: seq<Resolution>)
    ensures ApplyAll(rs, {}) == {}
  {
    if rs != [] {
      NothingFromNothing(rs[1..]);
      assert Apply(rs[0], {}) == {};
    }
  }

  /** A name that is not a class has no methods and no conflicts. */
  lemma UndeclaredIsEmpty(p: Program, c: Name)
    requires Acyclic(ClassExtends(p)) && c !in ClassExtends(p)
    ensures Collect(p).extends_ == ClassExtends(p)
    ensures Table(Collect(p), c) == map[] && forall n :: !Conflicted(Collect(p), c, n)
  {
    CollectKeys(p);
    NothingFromNothing(Clauses(Collect(p), c));
    assert Incoming(Collect(p), c) == {};
  }

  /** The memo read out as one table keyed by class and method. */
  function ReadOut(memo: map<Name, map<Name, Origin>>): map<(Name, Name), Origin> {
    map c, n | c in memo && n in memo[c] :: (c, n) := memo[c][n]
  }

  /** The dispatch table holds exactly the plain recursion's entries. */
  ghost predicate IsDispatchTable(t: Tables, origins: map<(Name, Name), Origin>)
    requires Acyclic(t.extends_)
  {
    forall c, n :: ((c, n) in origins <==> n in Table(t, c)) && ((c, n) in origins ==> origins[(c, n)] == Table(t, c)[n])
  }

  lemma ReadOutExact(p: Program, memo: map<Name, map<Name, Origin>>)
    requires Collect(p).extends_ == ClassExtends(p) && Acyclic(ClassExtends(p))
    requires ClassExtends(p).Keys <= memo.Keys && forall c :: c in memo ==> memo[c] == Table(Collect(p), c)
    ensures IsDispatchTable(Collect(p), ReadOut(memo))
  {
    forall c, n
      ensures (c, n) in ReadOut(memo) <==> n in Table(Collect(p), c)
      ensures (c, n) in ReadOut(memo) ==> ReadOut(memo)[(c, n)] == Table(Collect(p), c)[n]
    {
      if c !in memo {
        UndeclaredIsEmpty(p, c);
      }
    }
  }

  /** The dispatch table and the conflicts. On every hierarchy each entry is sound and no conflict is
      recorded twice; on an acyclic one both are exactly what the plain recursion says. */
  method ClassMethodOrigins(p: Program)
    returns (origins: map<(Name, Name), Origin>, conflicts: seq<(Name, Name)>)
    ensures forall c, n :: (c, n) in origins ==> Sound(Collect(p), c, origins[(c, n)])
    ensures Distinct(conflicts)
    ensures Collect(p).extends_ == ClassExtends(p)
    ensures Acyclic(ClassExtends(p)) ==> IsDispatchTable(Collect(p), origins)
    ensures Acyclic(ClassExtends(p)) ==> forall c, n :: (c, n) in conflicts <==> Conflicted(Collect(p), c, n)
  {
    var t := CollectTables(p);
    CollectKeys(p);
    var ctx := new Ctx(t);
    ctx.ResolveAll();
    origins := ReadOut(ctx.memo);
    conflicts := ctx.conflicts;
    assert forall c :: c in ctx.memo ==> SoundTable(t, c, ctx.memo[c]);
    if Acyclic(t.extends_) {
      ReadOutExact(p, ctx.memo);
      forall c, n ensures (c, n) in conflicts <==> Conflicted(t, c, n) {
        if c !in ctx.memo {
          UndeclaredIsEmpty(p, c);
        }
      }
    }
  }
}
