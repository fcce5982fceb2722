/** Instance storage: `class_field_layout` and `ctor_plan` (src/ast/class_layout.rs) and
    `field_initializers` (src/ast/field_inits.rs). Whatever construction populates has a slot. */
module ClassLayout {
  import opened Ast
  import opened Graph
  import D = Declarations
  import ClassHierarchy
  import SearchOrders
  import Order

  // ----- The layout -----

  /** Names of instance storage: plain fields and promoted constructor parameters. */
  function StorageNames(members: seq<D.Member>): set<Name> {
    (set m | m in members && m.Field? && !m.isStatic && !m.isConst :: m.name)
    + (set m, q | m in members && m.Constructor? && q in m.params && q.promoted :: q.name)
  }

  function OwnFields(p: D.Program): map<Name, set<Name>> {
    if p == [] then map[]
    else
      var rest := OwnFields(p[..|p| - 1]);
      var item := p[|p| - 1];
      if item.ClassItem? || item.TraitItem? then rest[item.name := StorageNames(item.members)] else rest
  }

  /** What a class is composed of: its traits, then its parents. */
  function Parts(p: D.Program): Edges {
    map c | c in D.ClassExtends(p) :: Next(D.ClassUses(p), c) + D.ClassExtends(p)[c]
  }

  ghost predicate HasSlot(p: D.Program, c: Name, f: Name) {
    exists d :: Reaches(Parts(p), c, d) && d in OwnFields(p) && f in OwnFields(p)[d]
  }

  function FieldsOf(own: map<Name, set<Name>>, names: set<Name>): set<Name> {
    set d, f | d in names && d in own && f in own[d] :: f
  }

  method CollectLayout(p: D.Program) returns (own: map<Name, set<Name>>, extends_: Edges, uses: Edges)
    ensures own == OwnFields(p) && extends_ == D.ClassExtends(p) && uses == D.ClassUses(p)
  {
    own, extends_, uses := map[], map[], map[];
    for i := 0 to |p|
      invariant own == OwnFields(p[..i]) && extends_ == D.ClassExtends(p[..i]) && uses == D.ClassUses(p[..i])
    {
      assert p[..i + 1][..i] == p[..i];
      if p[i].ClassItem? || p[i].TraitItem? {
        own := own[p[i].name := StorageNames(p[i].members)];
      }
      if p[i].ClassItem? {
        extends_ := extends_[p[i].name := p[i].extends_];
        uses := uses[p[i].name := p[i].uses];
      }
    }
    assert p[..|p|] == p;
  }

  /** One visited set and one result set, shared by the whole walk. */
  ghost predicate Gathered(g: Edges, own: map<Name, set<Name>>, name: Name, seen: set<Name>, out: set<Name>,
                           seen': set<Name>, out': set<Name>) {
    && ClassHierarchy.Extends(g, seen, seen') && name in seen'
    && (forall x :: x in seen' - seen ==> Reaches(g, name, x))
    && out' == out + FieldsOf(own, seen' - seen)
  }

  method Gather(p: D.Program, name: Name, own: map<Name, set<Name>>, extends_: Edges, uses: Edges,
                seen: set<Name>, out: set<Name>, ghost universe: set<Name>)
    returns (seen': set<Name>, out': set<Name>)
    requires extends_ == D.ClassExtends(p) && uses == D.ClassUses(p)
    requires name in universe && Targets(Parts(p)) <= universe
    ensures Gathered(Parts(p), own, name, seen, out, seen', out')
    decreases universe - seen, 1
  {
    seen', out' := seen, out;
    if name in seen {
      return;
    }
    seen' := seen' + {name};
    out' := out' + if name in own then own[name] else {};
    D.ClassExtendsKeys(p);
    NextInTargets(Parts(p), name);
    seen', out' := GatherAll(p, name, Next(uses, name), own, extends_, uses, seen', out', universe);
    ghost var mid := seen';
    seen', out' := GatherAll(p, name, Next(extends_, name), own, extends_, uses, seen', out', universe);
    GatherJoins(Parts(p), own, name, seen, out, mid, seen');
  }

  /** What the walk has done once `name` and both lists of its components are visited. */
  lemma GatherJoins(g: Edges, own: map<Name, set<Name>>, name: Name, seen: set<Name>, out: set<Name>, mid: set<Name>,
                    last: set<Name>)
    requires name !in seen && forall y :: y in Next(g, name) ==> y in last
    requires ClassHierarchy.Extends(g, seen + {name}, mid) && ClassHierarchy.Extends(g, mid, last)
    requires forall x :: x in mid - (seen + {name}) ==> Reaches(g, name, x)
    requires forall x :: x in last - mid ==> Reaches(g, name, x)
    ensures Gathered(g, own, name, seen, out, last,
                     out + (if name in own then own[name] else {}) + FieldsOf(own, mid - (seen + {name})) + FieldsOf(own, last - mid))
  {
    ReachesSelf(g, name);
    FieldsCollect(own, name, seen, mid, last);
    assert FieldsOf(own, {name}) == if name in own then own[name] else {};
  }

  /** The fields of `name`, of what its first components brought in, and of what the others did. */
  lemma FieldsCollect(own: map<Name, set<Name>>, name: Name, seen: set<Name>, mid: set<Name>, last: set<Name>)
    requires name !in seen && seen + {name} <= mid <= last
    ensures FieldsOf(own, last - seen)
         == FieldsOf(own, {name}) + FieldsOf(own, mid - (seen + {name})) + FieldsOf(own, last - mid)
  {
    FieldsAdd(own, {name}, mid - (seen + {name}));
    assert {name} + (mid - (seen + {name})) == mid - seen;
    FieldsAdd(own, mid - seen, last - mid);
    assert (mid - seen) + (last - mid) == last - seen;
  }

  /** The same for each of some components of `c`, in order. */
  method GatherAll(p: D.Program, c: Name, names: seq<Name>, own: map<Name, set<Name>>, extends_: Edges, uses: Edges,
                   seen: set<Name>, out: set<Name>, ghost universe: set<Name>)
    returns (seen': set<Name>, out': set<Name>)
    requires extends_ == D.ClassExtends(p) && uses == D.ClassUses(p)
    requires Targets(Parts(p)) <= universe && forall n :: n in names ==> n in Next(Parts(p), c) && n in universe
    ensures ClassHierarchy.Extends(Parts(p), seen, seen')
    ensures forall n :: n in names ==> n in seen'
    ensures forall x :: x in seen' - seen ==> Reaches(Parts(p), c, x)
    ensures out' == out + FieldsOf(own, seen' - seen)
    decreases universe - seen, 2
  {
    seen', out' := seen, out;
    for i := 0 to |names|
      invariant ClassHierarchy.Extends(Parts(p), seen, seen')
      invariant forall n :: n in names[..i] ==> n in seen'
      invariant forall x :: x in seen' - seen ==> Reaches(Parts(p), c, x)
      invariant out' == out + FieldsOf(own, seen' - seen)
    {
      assert names[..i + 1] == names[..i] + [names[i]];
      ghost var before := seen';
      seen', out' := Gather(p, names[i], own, extends_, uses, seen', out', universe);
      FieldsAdd(own, before - seen, seen' - before);
      assert (before - seen) + (seen' - before) == seen' - seen;
      forall x | x in seen' - before ensures Reaches(Parts(p), c, x) {
        EdgeThenReaches(Parts(p), c, names[i], x);
      }
    }
    assert names[..|names|] == names;
  }

  lemma FieldsAdd(own: map<Name, set<Name>>, a: set<Name>, b: set<Name>)
    ensures FieldsOf(own, a + b) == FieldsOf(own, a) + FieldsOf(own, b)
  {
  }

  method ClassFieldLayout(p: D.Program) returns (layout: map<Name, seq<Name>>)
    ensures forall c :: c in layout <==> D.IsClass(p, c)
    ensures forall c :: c in layout ==> ClassHierarchy.Lists(layout[c], f => HasSlot(p, c, f))
  {
    var own, extends_, uses := CollectLayout(p);
    D.ClassExtendsKeys(p);
    layout := map[];
    var todo := extends_.Keys;
    while todo != {}
      invariant todo <= extends_.Keys && layout.Keys == extends_.Keys - todo
      invariant forall c :: c in layout ==> ClassHierarchy.Lists(layout[c], f => HasSlot(p, c, f))
      decreases todo
    {
      var c :| c in todo;
      todo := todo - {c};
      var seen, fields := Gather(p, c, own, extends_, uses, {}, {}, Targets(Parts(p)) + {c});
      SlotsAreGathered(p, c, seen, fields);
      var listed := Order.Sorted(fields);
      layout := layout[c := listed];
    }
  }

  lemma SlotsAreGathered(p: D.Program, c: Name, seen: set<Name>, fields: set<Name>)
    requires Gathered(Parts(p), OwnFields(p), c, {}, {}, seen, fields)
    ensures forall f :: f in fields <==> HasSlot(p, c, f)
  {
    assert seen - {} == seen;
    forall f ensures f in fields <==> HasSlot(p, c, f) {
      if HasSlot(p, c, f) {
        var d :| Reaches(Parts(p), c, d) && d in OwnFields(p) && f in OwnFields(p)[d];
        ClosedHoldsReached(Parts(p), seen, c, d);
      }
      if f in fields {
        var d :| d in seen && d in OwnFields(p) && f in OwnFields(p)[d];
      }
    }
  }

  /** A class's layout contains the layout of everything it is composed of. */
  lemma PartSlots(p: D.Program, c: Name, q: Name, f: Name)
    requires q in Next(Parts(p), c) && HasSlot(p, q, f)
    ensures HasSlot(p, c, f)
  {
    var d :| Reaches(Parts(p), q, d) && d in OwnFields(p) && f in OwnFields(p)[d];
    EdgeThenReaches(Parts(p), c, q, d);
  }

  // ----- Constructor plans -----

  datatype CtorEntry = CtorEntry(params: seq<D.CtorParam>, body: seq<Stmt>)

  /** Classes and traits all have different names. */
  predicate UniqueNames(p: D.Program) {
    forall i, j :: 0 <= i < j < |p| && Composable(p[i]) && Composable(p[j]) ==> p[i].name != p[j].name
  }

  predicate Composable(item: D.Item) {
    item.ClassItem? || item.TraitItem?
  }

  function FindClass(p: D.Program, c: Name): (r: Option<D.Item>)
    ensures r.Some? ==> r.value in p && r.value.ClassItem? && r.value.name == c
  {
    if p == [] then None
    else if p[0].ClassItem? && p[0].name == c then Some(p[0])
    else FindClass(p[1..], c)
  }

  function FindCtor(members: seq<D.Member>): (r: Option<CtorEntry>)
    ensures r.Some? ==> D.Constructor(r.value.params, r.value.body) in members
  {
    if members == [] then None
    else if members[0].Constructor? then Some(CtorEntry(members[0].params, members[0].body))
    else FindCtor(members[1..])
  }

  /** The constructor of the first trait item of that name that has one. */
  function FindTraitCtor(p: D.Program, name: Name): (r: Option<CtorEntry>)
    ensures r.Some? ==> exists t :: t in p && t.TraitItem? && t.name == name
                                    && D.Constructor(r.value.params, r.value.body) in t.members
  {
    if p == [] then None
    else if p[0].TraitItem? && p[0].name == name && FindCtor(p[0].members).Some? then FindCtor(p[0].members)
    else FindTraitCtor(p[1..], name)
  }

  function FirstTraitCtor(p: D.Program, uses: seq<Name>): (r: Option<CtorEntry>)
    ensures r.Some? ==> exists u :: u in uses && FindTraitCtor(p, u) == r
  {
    if uses == [] then None
    else if FindTraitCtor(p, uses[0]).Some? then FindTraitCtor(p, uses[0])
    else FirstTraitCtor(p, uses[1..])
  }

  lemma FoundExtends(p: D.Program, c: Name)
    requires D.UniqueClasses(p) && FindClass(p, c).Some?
    ensures FindClass(p, c).value.extends_ == Next(D.ClassExtends(p), c)
  {
    var i :| 0 <= i < |p| && p[i] == FindClass(p, c).value;
    SearchOrders.UniqueClassExtends(p, i);
  }

  /** The constructors a construction runs, in order. There is no cycle guard: an acyclic hierarchy is
      what the code relies on. */
  function CtorPlan(p: D.Program, c: Name): seq<CtorEntry>
    requires D.UniqueClasses(p) && Acyclic(D.ClassExtends(p))
    decreases Height(D.ClassExtends(p), c), 1, 0
  {
    var found := FindClass(p, c);
    if found.None? then []
    else
      var decl := found.value;
      var own := FindCtor(decl.members);
      if own.Some? then [own.value]
      else
        var fromTrait := FirstTraitCtor(p, decl.uses);
        if fromTrait.Some? then [fromTrait.value]
        else
          FoundExtends(p, c);
          HeightsDrop(D.ClassExtends(p), c);
          CtorPlans(p, decl.extends_, Height(D.ClassExtends(p), c))
  }

  function CtorPlans(p: D.Program, parents: seq<Name>, ghost h: nat): seq<CtorEntry>
    requires D.UniqueClasses(p) && Acyclic(D.ClassExtends(p))
    requires forall q :: q in parents ==> Height(D.ClassExtends(p), q) < h
    decreases h, 0, |parents|
  {
    if parents == [] then [] else CtorPlan(p, parents[0]) + CtorPlans(p, parents[1..], h)
  }

  lemma {:induction false} DeclaredFields(p: D.Program, item: D.Item)
    requires UniqueNames(p) && item in p && Composable(item)
    ensures item.name in OwnFields(p) && OwnFields(p)[item.name] == StorageNames(item.members)
    decreases |p|
  {
    var last, q := p[|p| - 1], p[..|p| - 1];
    if item != last {
      var i :| 0 <= i < |p| && p[i] == item;
      assert q[i] == item;
      DeclaredFields(q, item);
    }
  }

  /** What a component declares has a slot in the class composed of it. */
  lemma DeclaredSlots(p: D.Program, c: Name, item: D.Item, f: Name)
    requires UniqueNames(p) && item in p && Composable(item) && f in StorageNames(item.members)
    requires item.name == c || item.name in Next(Parts(p), c)
    ensures HasSlot(p, c, f)
  {
    DeclaredFields(p, item);
    ReachesSelf(Parts(p), c);
    if item.name != c {
      ReachesThenEdge(Parts(p), c, c, item.name);
    }
  }

  lemma FoundParts(p: D.Program, c: Name)
    requires D.UniqueClasses(p) && FindClass(p, c).Some?
    ensures Next(Parts(p), c) == FindClass(p, c).value.uses + FindClass(p, c).value.extends_
  {
    var i :| 0 <= i < |p| && p[i] == FindClass(p, c).value;
    SearchOrders.UniqueClassExtends(p, i);
    UniqueClassUses(p, i);
  }

  lemma {:induction false} UniqueClassUses(p: D.Program, i: nat)
    requires D.UniqueClasses(p) && i < |p| && p[i].ClassItem?
    ensures p[i].name in D.ClassUses(p) && D.ClassUses(p)[p[i].name] == p[i].uses
    decreases |p|
  {
    if i < |p| - 1 {
      UniqueClassUses(p[..|p| - 1], i);
    }
  }

  /** Every promoted parameter of every constructor that runs has a slot. */
  lemma {:induction false} PlanHasSlots(p: D.Program, c: Name, e: CtorEntry, q: D.CtorParam)
    requires UniqueNames(p) && Acyclic(D.ClassExtends(p))
    requires e in CtorPlan(p, c) && q in e.params && q.promoted
    ensures HasSlot(p, c, q.name)
    decreases Height(D.ClassExtends(p), c), 1, 0
  {
    var decl := FindClass(p, c).value;
    FoundParts(p, c);
    if FindCtor(decl.members).Some? {
      assert D.Constructor(e.params, e.body) in decl.members;
      DeclaredSlots(p, c, decl, q.name);
    } else if FirstTraitCtor(p, decl.uses).Some? {
      var u :| u in decl.uses && FindTraitCtor(p, u) == Some(e);
      var t :| t in p && t.TraitItem? && t.name == u && D.Constructor(e.params, e.body) in t.members;
      DeclaredSlots(p, c, t, q.name);
    } else {
      FoundExtends(p, c);
      HeightsDrop(D.ClassExtends(p), c);
      PlansHaveSlots(p, c, decl.extends_, Height(D.ClassExtends(p), c), e, q);
    }
  }

  lemma {:induction false} PlansHaveSlots(p: D.Program, c: Name, parents: seq<Name>, h: nat, e: CtorEntry,
                                          q: D.CtorParam)
    requires UniqueNames(p) && Acyclic(D.ClassExtends(p))
    requires forall r :: r in parents ==> Height(D.ClassExtends(p), r) < h && r in Next(Parts(p), c)
    requires e in CtorPlans(p, parents, h) && q in e.params && q.promoted
    ensures HasSlot(p, c, q.name)
    decreases h, 0, |parents|
  {
    if e in CtorPlan(p, parents[0]) {
      PlanHasSlots(p, parents[0], e, q);
      PartSlots(p, c, parents[0], q.name);
    } else {
      PlansHaveSlots(p, c, parents[1..], h, e, q);
    }
  }

  // ----- Field initializers -----

  type Initializer = (Name, Expr)

  /** Plain instance fields carrying an initializer, in declaration order. */
  function OwnInitializers(members: seq<D.Member>): (r: seq<Initializer>)
    ensures forall e :: e in r ==> e.0 in StorageNames(members)
  {
    if members == [] then []
    else
      var m := members[0];
      assert forall x :: x in members[1..] ==> x in members;
      (if m.Field? && !m.isStatic && !m.isConst && m.init.Some? then [(m.name, m.init.value)] else [])
      + OwnInitializers(members[1..])
  }

  function FindTrait(p: D.Program, name: Name): (r: Option<D.Item>)
    ensures r.Some? ==> r.value in p && r.value.TraitItem? && r.value.name == name
  {
    if p == [] then None
    else if p[0].TraitItem? && p[0].name == name then Some(p[0])
    else FindTrait(p[1..], name)
  }

  function TraitInitializers(p: D.Program, uses: seq<Name>): seq<Initializer> {
    if uses == [] then []
    else
      var before := TraitInitializers(p, uses[..|uses| - 1]);
      var t := FindTrait(p, uses[|uses| - 1]);
      if t.Some? then before + OwnInitializers(t.value.members) else before
  }

  method OwnWithTraits(p: D.Program, decl: D.Item) returns (out: seq<Initializer>)
    requires decl.ClassItem?
    ensures out == TraitInitializers(p, decl.uses) + OwnInitializers(decl.members)
  {
    out := [];
    for i := 0 to |decl.uses|
      invariant out == TraitInitializers(p, decl.uses[..i])
    {
      assert decl.uses[..i + 1][..i] == decl.uses[..i];
      var t := FindTrait(p, decl.uses[i]);
      if t.Some? {
        out := out + OwnInitializers(t.value.members);
      }
    }
    assert decl.uses[..|decl.uses|] == decl.uses;
    out := out + OwnInitializers(decl.members);
  }

  predicate UsesTraitCtor(p: D.Program, decl: D.Item)
    requires decl.ClassItem?
  {
    exists u :: u in decl.uses && FindTrait(p, u).Some? && FindCtor(FindTrait(p, u).value.members).Some?
  }

  /** The class that owns its construction owns its initializers; otherwise the parents' run in order. */
  ghost function Initializers(p: D.Program, c: Name): seq<Initializer>
    requires D.UniqueClasses(p) && Acyclic(D.ClassExtends(p))
    decreases Height(D.ClassExtends(p), c), 1, 0
  {
    var found := FindClass(p, c);
    if found.None? then []
    else
      var decl := found.value;
      var own := TraitInitializers(p, decl.uses) + OwnInitializers(decl.members);
      if FindCtor(decl.members).Some? || UsesTraitCtor(p, decl) || own != [] then own
      else
        FoundExtends(p, c);
        HeightsDrop(D.ClassExtends(p), c);
        AllInitializers(p, decl.extends_, Height(D.ClassExtends(p), c))
  }

  ghost function AllInitializers(p: D.Program, parents: seq<Name>, h: nat): seq<Initializer>
    requires D.UniqueClasses(p) && Acyclic(D.ClassExtends(p))
    requires forall q :: q in parents ==> Height(D.ClassExtends(p), q) < h
    decreases h, 0, |parents|
  {
    if parents == [] then []
    else AllInitializers(p, parents[..|parents| - 1], h) + Initializers(p, parents[|parents| - 1])
  }

  ghost predicate AllHaveSlots(p: D.Program, c: Name, inits: seq<Initializer>) {
    forall e :: e in inits ==> HasSlot(p, c, e.0)
  }

  lemma {:induction false} TraitInitializersHaveSlots(p: D.Program, c: Name, uses: seq<Name>)
    requires UniqueNames(p) && forall u :: u in uses ==> u in Next(Parts(p), c)
    ensures AllHaveSlots(p, c, TraitInitializers(p, uses))
    decreases |uses|
  {
    if uses != [] {
      var last := uses[|uses| - 1];
      TraitInitializersHaveSlots(p, c, uses[..|uses| - 1]);
      var t := FindTrait(p, last);
      if t.Some? {
        forall e | e in OwnInitializers(t.value.members) ensures HasSlot(p, c, e.0) {
          DeclaredSlots(p, c, t.value, e.0);
        }
      }
    }
  }

  lemma OwnHaveSlots(p: D.Program, c: Name)
    requires UniqueNames(p) && FindClass(p, c).Some?
    ensures AllHaveSlots(p, c, TraitInitializers(p, FindClass(p, c).value.uses) + OwnInitializers(FindClass(p, c).value.members))
  {
    var decl := FindClass(p, c).value;
    FoundParts(p, c);
    TraitInitializersHaveSlots(p, c, decl.uses);
    forall e | e in OwnInitializers(decl.members) ensures HasSlot(p, c, e.0) {
      DeclaredSlots(p, c, decl, e.0);
    }
  }

  /** What exactness needs of the path walked so far. */
  ghost predicate CameDown(p: D.Program, seen: seq<Name>, c: Name) {
    Acyclic(D.ClassExtends(p)) && forall x :: x in seen ==> Above(D.ClassExtends(p), x, c)
  }

  /** The initializers a construction of `c` runs. On any hierarchy each has a slot; on an acyclic one
      the path guard never cuts anything off. */
  method FieldInitializers(p: D.Program, c: Name, seen: seq<Name>,
                           ghost universe: set<Name>) returns (out: seq<Initializer>)
    requires UniqueNames(p)
    requires c in universe && Targets(D.ClassExtends(p)) <= universe
    ensures AllHaveSlots(p, c, out)
    ensures CameDown(p, seen, c) ==> out == Initializers(p, c)
    decreases universe - Visited(seen), 0
  {
    if c in seen {
      return [];
    }
    var found := FindClass(p, c);
    if found.None? {
      return [];
    }
    var decl := found.value;
    var own := OwnWithTraits(p, decl);
    if FindCtor(decl.members).Some? || UsesTraitCtor(p, decl) || own != [] {
      OwnHaveSlots(p, c);
      return own;
    }
    FoundExtends(p, c);
    FoundParts(p, c);
    NextInTargets(D.ClassExtends(p), c);
    assert c in Visited(seen + [c]) && Visited(seen) <= Visited(seen + [c]);
    out := ParentInitializers(p, c, decl.extends_, seen + [c], universe);
    if CameDown(p, seen, c) {
      PathsComeDown(p, seen, c);
    }
  }

  ghost predicate ParentsReady(p: D.Program, parents: seq<Name>, seen: seq<Name>, h: nat) {
    Acyclic(D.ClassExtends(p))
    && forall q :: q in parents ==> Height(D.ClassExtends(p), q) < h && CameDown(p, seen, q)
  }

  method ParentInitializers(p: D.Program, c: Name, parents: seq<Name>, seen: seq<Name>, ghost universe: set<Name>)
    returns (out: seq<Initializer>)
    requires UniqueNames(p)
    requires Targets(D.ClassExtends(p)) <= universe
    requires forall q :: q in parents ==> q in universe && q in Next(Parts(p), c)
    ensures AllHaveSlots(p, c, out)
    ensures ParentsReady(p, parents, seen, Height(D.ClassExtends(p), c)) ==>
              out == AllInitializers(p, parents, Height(D.ClassExtends(p), c))
    decreases universe - Visited(seen), 1
  {
    out := [];
    for i := 0 to |parents|
      invariant AllHaveSlots(p, c, out)
      invariant ParentsReady(p, parents, seen, Height(D.ClassExtends(p), c)) ==>
                  out == AllInitializers(p, parents[..i], Height(D.ClassExtends(p), c))
    {
      assert parents[..i + 1][..i] == parents[..i];
      assert parents[i] in parents;
      var more := FieldInitializers(p, parents[i], seen, universe);
      forall e | e in more ensures HasSlot(p, c, e.0) {
        PartSlots(p, c, parents[i], e.0);
      }
      out := out + more;
    }
    assert parents[..|parents|] == parents;
  }

  lemma PathsComeDown(p: D.Program, seen: seq<Name>, c: Name)
    requires CameDown(p, seen, c)
    ensures ParentsReady(p, Next(D.ClassExtends(p), c), seen + [c], Height(D.ClassExtends(p), c))
    ensures c !in seen
  {
    var g := D.ClassExtends(p);
    HeightsDrop(g, c);
    ReachesSelf(g, c);
    forall q, x | q in Next(g, c) && x in seen + [c] ensures Above(g, x, q) {
      ReachesThenEdge(g, c, c, q);
      if x in seen {
        AboveThenReaches(g, x, c, q);
      }
    }
  }
}
