/** `class_consts` (src/ast/class_layout.rs) and `static_field_owners` (src/ast/static_owners.rs). */
module ClassStatics {
  import opened Ast
  import opened Graph
  import opened SearchOrders
  import opened MemberLookup
  import D = Declarations
  import ClassHierarchy

  /** What a constant's declaration initialises it to. */
  type ConstInit = Option<Expr>

  // ----- Constants -----

  function OwnConsts(members: seq<D.Member>): Bindings<ConstInit> {
    if members == [] then map[]
    else
      var rest := OwnConsts(members[..|members| - 1]);
      var m := members[|members| - 1];
      if m.Field? && m.isConst then rest[m.name := m.init] else rest
  }

  /** The constants each class and trait declares. */
  function DeclaredConsts(p: D.Program): map<Name, Bindings<ConstInit>> {
    if p == [] then map[]
    else
      var rest := DeclaredConsts(p[..|p| - 1]);
      var item := p[|p| - 1];
      if item.ClassItem? || item.TraitItem? then rest[item.name := OwnConsts(item.members)] else rest
  }

  /** The constants of the used traits; the first trait to declare one wins. */
  function TraitConsts(own: map<Name, Bindings<ConstInit>>, uses: seq<Name>): Bindings<ConstInit> {
    if uses == [] then map[]
    else Here(own, uses[|uses| - 1]) + TraitConsts(own, uses[..|uses| - 1])
  }

  datatype ConstTables = ConstTables(own: map<Name, Bindings<ConstInit>>, extends_: Edges, uses: Edges) {
    predicate Valid() {
      uses.Keys == extends_.Keys <= own.Keys
    }

    /** A class's constants over its traits'. */
    function ConstsHere(): map<Name, Bindings<ConstInit>> {
      map c | c in own :: TraitConsts(own, Next(uses, c)) + own[c]
    }

    /** Nothing a class uses is itself a class. */
    predicate TraitsAreLeaves() {
      forall c, u :: c in uses && u in uses[c] ==> u !in extends_
    }
  }

  function TablesOf(p: D.Program): ConstTables {
    ConstTables(DeclaredConsts(p), D.ClassExtends(p), D.ClassUses(p))
  }

  lemma {:induction false} TablesValid(p: D.Program)
    ensures TablesOf(p).Valid()
  {
    if p != [] {
      TablesValid(p[..|p| - 1]);
    }
  }

  method CollectConsts(p: D.Program) returns (t: ConstTables)
    ensures t == TablesOf(p)
  {
    t := ConstTables(map[], map[], map[]);
    for i := 0 to |p|
      invariant t == TablesOf(p[..i])
    {
      assert p[..i + 1][..i] == p[..i];
      if p[i].ClassItem? || p[i].TraitItem? {
        var consts := CollectOwn(p[i].members);
        t := t.(own := t.own[p[i].name := consts]);
      }
      if p[i].ClassItem? {
        t := t.(extends_ := t.extends_[p[i].name := p[i].extends_], uses := t.uses[p[i].name := p[i].uses]);
      }
    }
    assert p[..|p|] == p;
  }

  method CollectOwn(members: seq<D.Member>) returns (consts: Bindings<ConstInit>)
    ensures consts == OwnConsts(members)
  {
    consts := map[];
    for i := 0 to |members|
      invariant consts == OwnConsts(members[..i])
    {
      assert members[..i + 1][..i] == members[..i];
      if members[i].Field? && members[i].isConst {
        consts := consts[members[i].name := members[i].init];
      }
    }
    assert members[..|members|] == members;
  }

  /** Adds only what is not bound yet, entry by entry. */
  method FillFrom(acc: Bindings<ConstInit>, more: Bindings<ConstInit>) returns (out: Bindings<ConstInit>)
    ensures out == more + acc
  {
    out := acc;
    var todo := more.Keys;
    while todo != {}
      invariant todo <= more.Keys
      invariant out == (map k | k in more && k !in todo :: more[k]) + acc
      decreases todo
    {
      var k :| k in todo;
      todo := todo - {k};
      if k !in out {
        out := out[k := more[k]];
      }
    }
  }

  /** What exactness needs: no cycle, no trait that is a class, and a walk that came down from `seen`. */
  ghost predicate Regular(t: ConstTables, seen: set<Name>, c: Name) {
    t.Valid() && Acyclic(t.extends_) && t.TraitsAreLeaves() && forall x :: x in seen ==> Above(t.extends_, x, c)
  }

  /** The constants of `c`; `seen` holds the names being flattened, those this call was reached from. */
  method Flatten(t: ConstTables, c: Name, seen: set<Name>, ghost universe: set<Name>) returns (acc: Bindings<ConstInit>)
    requires c in universe && Targets(t.extends_) + Targets(t.uses) <= universe
    ensures c !in t.extends_ && c !in t.uses && c !in seen ==> acc == Here(t.own, c)
    ensures Regular(t, seen, c) ==> acc == Flattened(t.extends_, t.ConstsHere(), c)
    decreases universe - seen, 0
  {
    acc := map[];
    if c in seen {
      return;
    }
    if Regular(t, seen, c) {
      RegularBelow(t, seen, c);
    }
    acc := Here(t.own, c);
    acc := FillTraits(t, c, acc, seen, universe);
    acc := FillParents(t, c, acc, seen, universe);
  }

  lemma MergeAssociates(a: Bindings<ConstInit>, b: Bindings<ConstInit>, c: Bindings<ConstInit>)
    ensures a + (b + c) == (a + b) + c
  {
  }

  /** Names that are neither classes nor being flattened: each contributes only what it declares. */
  predicate Leaves(t: ConstTables, us: seq<Name>, seen: set<Name>) {
    forall u :: u in us ==> u !in t.extends_ && u !in t.uses && u !in seen
  }

  method FillTraits(t: ConstTables, c: Name, acc: Bindings<ConstInit>, seen: set<Name>, ghost universe: set<Name>)
    returns (out: Bindings<ConstInit>)
    requires c in universe && c !in seen && Targets(t.extends_) + Targets(t.uses) <= universe
    ensures Next(t.uses, c) == [] ==> out == acc
    ensures Leaves(t, Next(t.uses, c), seen + {c}) ==> out == TraitConsts(t.own, Next(t.uses, c)) + acc
    decreases universe - seen - {c}, 1
  {
    out := acc;
    var traits := Next(t.uses, c);
    NextInTargets(t.uses, c);
    for i := 0 to |traits|
      invariant i == 0 ==> out == acc
      invariant Leaves(t, traits, seen + {c}) ==> out == TraitConsts(t.own, traits[..i]) + acc
    {
      assert traits[..i + 1][..i] == traits[..i];
      assert traits[i] in traits;
      var more := Flatten(t, traits[i], seen + {c}, universe);
      MergeAssociates(more, TraitConsts(t.own, traits[..i]), acc);
      out := FillFrom(out, more);
    }
    assert traits[..|traits|] == traits;
  }

  lemma OneMoreParent(t: ConstTables, parents: seq<Name>, i: nat, h: nat, acc: Bindings<ConstInit>)
    requires Acyclic(t.extends_) && i < |parents| && forall p :: p in parents ==> Height(t.extends_, p) < h
    ensures Flattened(t.extends_, t.ConstsHere(), parents[i])
            + (FlattenedAll(t.extends_, t.ConstsHere(), parents[..i], h) + acc)
         == FlattenedAll(t.extends_, t.ConstsHere(), parents[..i + 1], h) + acc
  {
    assert parents[..i + 1][..i] == parents[..i];
    MergeAssociates(Flattened(t.extends_, t.ConstsHere(), parents[i]),
                    FlattenedAll(t.extends_, t.ConstsHere(), parents[..i], h), acc);
  }

  /** Parents that can each be flattened exactly. */
  ghost predicate ParentsReady(t: ConstTables, ps: seq<Name>, seen: set<Name>, h: nat) {
    Acyclic(t.extends_) && forall p :: p in ps ==> Height(t.extends_, p) < h && Regular(t, seen, p)
  }

  method FillParents(t: ConstTables, c: Name, acc: Bindings<ConstInit>, seen: set<Name>, ghost universe: set<Name>)
    returns (out: Bindings<ConstInit>)
    requires c in universe && c !in seen && Targets(t.extends_) + Targets(t.uses) <= universe
    ensures Next(t.extends_, c) == [] ==> out == acc
    ensures ParentsReady(t, Next(t.extends_, c), seen + {c}, Height(t.extends_, c)) ==>
              out == FlattenedAll(t.extends_, t.ConstsHere(), Next(t.extends_, c), Height(t.extends_, c)) + acc
    decreases universe - seen - {c}, 1
  {
    out := acc;
    var parents := Next(t.extends_, c);
    NextInTargets(t.extends_, c);
    for i := 0 to |parents|
      invariant i == 0 ==> out == acc
      invariant ParentsReady(t, parents, seen + {c}, Height(t.extends_, c)) ==>
                  out == FlattenedAll(t.extends_, t.ConstsHere(), parents[..i], Height(t.extends_, c)) + acc
    {
      assert parents[i] in parents;
      var more := Flatten(t, parents[i], seen + {c}, universe);
      if ParentsReady(t, parents, seen + {c}, Height(t.extends_, c)) {
        OneMoreParent(t, parents, i, Height(t.extends_, c), acc);
      }
      out := FillFrom(out, more);
    }
    assert parents[..|parents|] == parents;
  }

  lemma RegularBelow(t: ConstTables, seen: set<Name>, c: Name)
    requires Regular(t, seen, c)
    ensures Leaves(t, Next(t.uses, c), seen + {c})
    ensures ParentsReady(t, Next(t.extends_, c), seen + {c}, Height(t.extends_, c))
    ensures c !in seen
  {
    forall u | u in Next(t.uses, c) ensures u !in seen + {c} && u !in t.extends_ && u !in t.uses {
      LeafNotSeen(t, c, u, seen);
    }
    HeightsDrop(t.extends_, c);
    forall q | q in Next(t.extends_, c) ensures Regular(t, seen + {c}, q) {
      RegularNext(t, seen, c, q);
    }
  }

  lemma RegularNext(t: ConstTables, seen: set<Name>, c: Name, q: Name)
    requires Regular(t, seen, c) && q in Next(t.extends_, c)
    ensures Regular(t, seen + {c}, q)
  {
    ReachesSelf(t.extends_, c);
    ReachesThenEdge(t.extends_, c, c, q);
    forall x | x in seen ensures Above(t.extends_, x, q) {
      AboveThenReaches(t.extends_, x, c, q);
    }
  }

  lemma LeafNotSeen(t: ConstTables, c: Name, u: Name, seen: set<Name>)
    requires Regular(t, seen, c) && u in Next(t.uses, c)
    ensures u !in seen + {c} && u !in t.extends_ && u !in t.uses
  {
    if u in seen {
      var q := AboveFirstEdge(t.extends_, u, c);
    }
  }

  /** Every constant binds to the first hit along the depth-first lookup order, each class before its
      traits. */
  method ClassConsts(p: D.Program) returns (out: map<(Name, Name), ConstInit>)
    ensures forall c, n :: (c, n) in out ==> D.IsClass(p, c)
    ensures Acyclic(D.ClassExtends(p)) && TablesOf(p).TraitsAreLeaves() ==>
              forall c, n :: D.IsClass(p, c) ==>
                At(out, (c, n)) == FirstHit(TablesOf(p).ConstsHere(), n, DepthFirst(D.ClassExtends(p), c, []))
  {
    var t := CollectConsts(p);
    TablesValid(p);
    out := map[];
    ghost var regular := Acyclic(t.extends_) && t.TraitsAreLeaves();
    for i := 0 to |p|
      invariant forall c, n :: (c, n) in out ==> D.IsClass(p[..i], c)
      invariant regular ==> forall c, n {:trigger At(out, (c, n))} :: D.IsClass(p[..i], c) ==>
                  At(out, (c, n)) == At(Flattened(t.extends_, t.ConstsHere(), c), n)
    {
      ClassHierarchy.PrefixClasses(p, i);
      if p[i].ClassItem? {
        var c := p[i].name;
        var flat := Flatten(t, c, {}, Targets(t.extends_) + Targets(t.uses) + {c});
        assert regular ==> Regular(t, {}, c);
        out := BindAll(out, c, flat);
      }
    }
    assert p[..|p|] == p;
    if regular {
      forall c, n | D.IsClass(p, c)
        ensures At(out, (c, n)) == FirstHit(t.ConstsHere(), n, DepthFirst(t.extends_, c, []))
      {
        FlattenedIsFirstHit(t.extends_, t.ConstsHere(), n, c);
      }
    }
  }

  /** Enters one class's constants. */
  method BindAll(before: map<(Name, Name), ConstInit>, c: Name, flat: Bindings<ConstInit>)
    returns (out: map<(Name, Name), ConstInit>)
    ensures forall n :: At(out, (c, n)) == OrElse(At(flat, n), At(before, (c, n)))
    ensures forall d, n :: d != c ==> At(out, (d, n)) == At(before, (d, n))
  {
    out := before + map n | n in flat :: (c, n) := flat[n];
  }

  // ----- Static fields -----

  function StaticNames(members: seq<D.Member>): set<Name> {
    set m | m in members && m.Field? && m.isStatic :: m.name
  }

  function TraitStatics(p: D.Program): map<Name, set<Name>> {
    if p == [] then map[]
    else
      var rest := TraitStatics(p[..|p| - 1]);
      var item := p[|p| - 1];
      if item.TraitItem? then rest[item.name := StaticNames(item.members)] else rest
  }

  /** A class owns the statics it declares and its own copy of those of the traits it uses. */
  function OwnStatics(p: D.Program, traits: map<Name, set<Name>>): map<Name, set<Name>> {
    if p == [] then map[]
    else
      var rest := OwnStatics(p[..|p| - 1], traits);
      var item := p[|p| - 1];
      if item.ClassItem? then rest[item.name := StaticNames(item.members) + UsedStatics(traits, item.uses)] else rest
  }

  function UsedStatics(traits: map<Name, set<Name>>, uses: seq<Name>): set<Name> {
    set u, f | u in uses && u in traits && f in traits[u] :: f
  }

  function OwnersHere(own: map<Name, set<Name>>): map<Name, Bindings<Name>> {
    map c | c in own :: map f | f in own[c] :: c
  }

  function Owners(p: D.Program): map<Name, Bindings<Name>> {
    OwnersHere(OwnStatics(p, TraitStatics(p)))
  }

  method CollectStatics(p: D.Program) returns (own: map<Name, set<Name>>)
    ensures own == OwnStatics(p, TraitStatics(p))
  {
    var traits: map<Name, set<Name>> := map[];
    for i := 0 to |p|
      invariant traits == TraitStatics(p[..i])
    {
      assert p[..i + 1][..i] == p[..i];
      if p[i].TraitItem? {
        traits := traits[p[i].name := StaticNames(p[i].members)];
      }
    }
    assert p[..|p|] == p;
    own := map[];
    for i := 0 to |p|
      invariant own == OwnStatics(p[..i], traits)
    {
      assert p[..i + 1][..i] == p[..i];
      if p[i].ClassItem? {
        var fields := StaticNames(p[i].members);
        var uses := p[i].uses;
        for j := 0 to |uses|
          invariant fields == StaticNames(p[i].members) + UsedStatics(traits, uses[..j])
        {
          assert uses[..j + 1] == uses[..j] + [uses[j]];
          if uses[j] in traits {
            fields := fields + traits[uses[j]];
          }
        }
        assert uses[..|uses|] == uses;
        own := own[p[i].name := fields];
      }
    }
  }

  /** The owners of everything `c` can name are the first hits along a search of its ancestors. */
  ghost predicate OwnedAlong(p: D.Program, out: map<(Name, Name), Name>, c: Name, order: seq<Name>) {
    && SearchOrder(D.ClassExtends(p), c, order)
    && (Acyclic(D.ClassExtends(p)) ==> order == DepthFirst(D.ClassExtends(p), c, []))
    && forall f :: At(out, (c, f)) == FirstHit(Owners(p), f, order)
  }

  ghost predicate Owned(p: D.Program, out: map<(Name, Name), Name>, c: Name) {
    exists order :: OwnedAlong(p, out, c, order)
  }

  method StaticFieldOwners(p: D.Program) returns (out: map<(Name, Name), Name>)
    requires D.UniqueClasses(p)
    ensures forall c, f :: (c, f) in out ==> D.IsClass(p, c)
    ensures forall c :: D.IsClass(p, c) ==> Owned(p, out, c)
  {
    var own := CollectStatics(p);
    out := map[];
    for i := 0 to |p|
      invariant forall c, f :: (c, f) in out ==> D.IsClass(p[..i], c)
      invariant forall c :: D.IsClass(p[..i], c) ==> Owned(p, out, c)
    {
      ClassHierarchy.PrefixClasses(p, i);
      if p[i].ClassItem? {
        var c := p[i].name;
        assert !D.IsClass(p[..i], c);
        ghost var before := out;
        var order := ClassLookupOrder(p, c);
        out := BindOwners(out, c, own, order);
        assert OwnedAlong(p, out, c, order);
        forall d | D.IsClass(p[..i], d) ensures Owned(p, out, d) {
          var o :| OwnedAlong(p, before, d, o);
          forall f ensures At(out, (d, f)) == FirstHit(Owners(p), f, o) {
            assert At(out, (d, f)) == At(before, (d, f));
          }
          assert OwnedAlong(p, out, d, o);
        }
      }
    }
    assert p[..|p|] == p;
  }

  /** Walks one lookup order, binding each field that is not bound yet to the class it is met on. */
  method BindOwners(before: map<(Name, Name), Name>, c: Name, own: map<Name, set<Name>>, order: seq<Name>)
    returns (out: map<(Name, Name), Name>)
    requires forall f :: (c, f) !in before
    ensures forall f :: At(out, (c, f)) == FirstHit(OwnersHere(own), f, order)
    ensures forall d, f :: d != c ==> At(out, (d, f)) == At(before, (d, f))
  {
    out := before;
    ghost var here := OwnersHere(own);
    for j := 0 to |order|
      invariant forall f :: At(out, (c, f)) == FirstHit(here, f, order[..j])
      invariant forall d, f :: d != c ==> At(out, (d, f)) == At(before, (d, f))
    {
      assert order[..j + 1][..j] == order[..j];
      var owner := order[j];
      if owner in own {
        ghost var start := out;
        var todo := own[owner];
        while todo != {}
          invariant todo <= own[owner]
          invariant forall f :: At(out, (c, f)) ==
                      if f in own[owner] - todo then OrElse(At(start, (c, f)), Some(owner)) else At(start, (c, f))
          invariant forall d, f :: d != c ==> At(out, (d, f)) == At(before, (d, f))
          decreases todo
        {
          var field :| field in todo;
          todo := todo - {field};
          if (c, field) !in out {
            out := out[(c, field) := owner];
          }
        }
      }
    }
    assert order[..|order|] == order;
  }

  lemma {:induction false} FirstHitAtHead<V>(here: map<Name, Bindings<V>>, n: Name, xs: seq<Name>)
    requires xs != [] && n in Here(here, xs[0])
    ensures FirstHit(here, n, xs) == Some(Here(here, xs[0])[n])
    decreases |xs|
  {
    if |xs| > 1 {
      FirstHitAtHead(here, n, xs[..|xs| - 1]);
    }
  }

  lemma {:induction false} OwnerDeclares(own: map<Name, set<Name>>, f: Name, xs: seq<Name>)
    requires FirstHit(OwnersHere(own), f, xs).Some?
    ensures var d := FirstHit(OwnersHere(own), f, xs).value; d in xs && d in own && f in own[d]
    decreases |xs|
  {
    if xs != [] && FirstHit(OwnersHere(own), f, xs[..|xs| - 1]).Some? {
      OwnerDeclares(own, f, xs[..|xs| - 1]);
    }
  }

  /** The owner of an inherited static is an ancestor that owns it in its own name: everyone who
      inherits it shares that one slot. */
  lemma OwnerOwnsItself(p: D.Program, out: map<(Name, Name), Name>, c: Name, f: Name)
    requires forall d :: D.IsClass(p, d) ==> Owned(p, out, d)
    requires D.IsClass(p, c) && (c, f) in out && D.IsClass(p, out[(c, f)])
    ensures Reaches(D.ClassExtends(p), c, out[(c, f)])
    ensures At(out, (out[(c, f)], f)) == Some(out[(c, f)])
  {
    var own := OwnStatics(p, TraitStatics(p));
    var order :| OwnedAlong(p, out, c, order);
    assert At(out, (c, f)) == Some(out[(c, f)]);
    OwnerDeclares(own, f, order);
    var d := out[(c, f)];
    var again :| OwnedAlong(p, out, d, again);
    FirstHitAtHead(Owners(p), f, again);
  }

  /** On an acyclic hierarchy the owner is also what merging each class over its parents gives: the
      walk with a visited list and the plain recursion agree, as they do for constants. */
  lemma OwnersAreMerged(p: D.Program, out: map<(Name, Name), Name>, c: Name, f: Name)
    requires Acyclic(D.ClassExtends(p)) && Owned(p, out, c)
    ensures At(out, (c, f)) == At(Flattened(D.ClassExtends(p), Owners(p), c), f)
  {
    FlattenedIsFirstHit(D.ClassExtends(p), Owners(p), f, c);
  }
}
