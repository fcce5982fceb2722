/** `Ty`'s `Display` and the two normalizers `Ty::union_of` and `Ty::intersection_of` (src/types.rs). */
module TypeNormalForm {
  import opened Order
  import opened Types

  // ----- Rendering -----

  function Digits(n: nat): (s: string)
    ensures s != []
  {
    if n < 10 then ["0123456789"[n]] else Digits(n / 10) + ["0123456789"[n % 10]]
  }

  function Join(parts: seq<string>, sep: string): string {
    if parts == [] then "" else if |parts| == 1 then parts[0] else parts[0] + sep + Join(parts[1..], sep)
  }

  function DisplayAll(ts: seq<Ty>): (r: seq<string>)
    ensures |r| == |ts|
    decreases ts, 0
  {
    if ts == [] then [] else [Display(ts[0])] + DisplayAll(ts[1..])
  }

  /** A labelled position renders as `label: T`; positions past the labels render bare. */
  function WithLabels(ts: seq<string>, labels: Option<seq<string>>): seq<string> {
    seq(|ts|, i requires 0 <= i < |ts| =>
      if labels.Some? && i < |labels.value| then labels.value[i] + ": " + ts[i] else ts[i])
  }

  function Display(t: Ty): string
    decreases t, 1
  {
    match t
    case Int => "int"
    case Float => "float"
    case Decimal => "decimal"
    case Bool => "bool"
    case String => "string"
    case Bytes => "bytes"
    case Html => "Html"
    case Attr => "Attr"
    case Void => "void"
    case Empty => "empty"
    case Never => "never"
    case Named(n, args) => if args == [] then n else n + "<" + Join(DisplayAll(args), ", ") + ">"
    case List(e) => "List<" + Display(e) + ">"
    case FixedList(e, n) => "[" + Display(e) + "; " + Digits(n) + "]"
    case Map(k, v) => "Map<" + Display(k) + ", " + Display(v) + ">"
    case Set(e) => "Set<" + Display(e) + ">"
    case Tuple(ts, ls) => "(" + Join(WithLabels(DisplayAll(ts), ls), ", ") + ")"
    case Optional(e) =>
      if e.Union? || e.Intersection? || e.Function? then "(" + Display(e) + ")?" else Display(e) + "?"
    case Null => "null"
    case Param(n) => n
    case Union(ms) => Join(DisplayAll(ms), " | ")
    case Intersection(ms) => Join(DisplayAll(ms), " & ")
    case Error => "<error>"
    case Function(ps, r, es) =>
      var head := "(" + Join(DisplayAll(ps), ", ") + ") -> " + Display(r);
      if es == [] then head else head + " throws " + Join(DisplayAll(es), ", ")
  }

  // ----- A stable sort by rendering -----

  ghost predicate SortedByDisplay(xs: seq<Ty>) {
    forall i, j :: 0 <= i < j < |xs| ==> StrLe(Display(xs[i]), Display(xs[j]))
  }

  ghost predicate Distinct<T>(xs: seq<T>) {
    forall i, j :: 0 <= i < j < |xs| ==> xs[i] != xs[j]
  }

  /** Inserts `x` before the first element that does not render strictly below it. */
  function Insert(x: Ty, xs: seq<Ty>): (r: seq<Ty>)
    ensures multiset(r) == multiset(xs) + multiset{x}
  {
    if xs == [] then [x]
    else
      assert xs == [xs[0]] + xs[1..];
      if StrLe(Display(x), Display(xs[0])) then [x] + xs
      else [xs[0]] + Insert(x, xs[1..])
  }

  /** `sort_by_key(to_string)`: equal keys keep their order. */
  function SortByDisplay(xs: seq<Ty>): (r: seq<Ty>)
    ensures multiset(r) == multiset(xs)
  {
    if xs == [] then [] else
      assert xs == [xs[0]] + xs[1..];
      Insert(xs[0], SortByDisplay(xs[1..]))
  }

  lemma {:induction false} InsertSorted(x: Ty, xs: seq<Ty>)
    requires SortedByDisplay(xs)
    ensures SortedByDisplay(Insert(x, xs))
  {
    if xs == [] {
    } else if StrLe(Display(x), Display(xs[0])) {
      forall j | 0 <= j < |xs| ensures StrLe(Display(x), Display(xs[j])) {
        if j > 0 { StrLeTransitive(Display(x), Display(xs[0]), Display(xs[j])); }
      }
    } else {
      InsertSorted(x, xs[1..]);
      var r := Insert(x, xs[1..]);
      StrLeTotal(Display(x), Display(xs[0]));
      forall j | 0 <= j < |r| ensures StrLe(Display(xs[0]), Display(r[j])) {
        assert r[j] in multiset(r);
        if r[j] != x {
          assert r[j] in multiset(xs[1..]);
          var k :| 0 <= k < |xs[1..]| && xs[1..][k] == r[j];
          assert xs[k + 1] == r[j];
        }
      }
    }
  }

  lemma {:induction false} SortSorts(xs: seq<Ty>)
    ensures SortedByDisplay(SortByDisplay(xs))
  {
    if xs != [] {
      SortSorts(xs[1..]);
      InsertSorted(xs[0], SortByDisplay(xs[1..]));
    }
  }

  /** Sorting what is already sorted changes nothing. */
  lemma {:induction false} SortIdempotent(xs: seq<Ty>)
    requires SortedByDisplay(xs)
    ensures SortByDisplay(xs) == xs
  {
    if xs != [] {
      SortIdempotent(xs[1..]);
      if |xs| > 1 { assert xs[1..][0] == xs[1]; }
      assert xs == [xs[0]] + xs[1..];
    }
  }

  /** With an injective rendering there is one sorted list for each set. */
  lemma {:induction false} SortedDistinctUnique(xs: seq<Ty>, ys: seq<Ty>)
    requires SortedByDisplay(xs) && SortedByDisplay(ys) && Distinct(xs) && Distinct(ys)
    requires forall x :: x in xs <==> x in ys
    requires InjectiveOn(set x | x in xs)
    ensures xs == ys
  {
    assert xs != [] ==> xs[0] in ys;
    assert ys != [] ==> ys[0] in xs;
    if xs != [] {
      var x, y := xs[0], ys[0];
      var i :| 0 <= i < |xs| && xs[i] == y;
      var j :| 0 <= j < |ys| && ys[j] == x;
      StrLeReflexive(Display(x));
      StrLeAntisymmetric(Display(x), Display(y));
      assert x == y;
      forall z ensures z in xs[1..] <==> z in ys[1..] {
        InTail(xs, z);
        InTail(ys, z);
      }
      SortedDistinctUnique(xs[1..], ys[1..]);
    }
  }

  lemma InTail(xs: seq<Ty>, z: Ty)
    requires Distinct(xs) && xs != []
    ensures z in xs[1..] <==> z in xs && z != xs[0]
  {
    if z in xs[1..] {
      var k :| 0 <= k < |xs[1..]| && xs[1..][k] == z;
      assert xs[k + 1] == z;
    }
    if z in xs && z != xs[0] {
      var k :| 0 <= k < |xs| && xs[k] == z;
      assert xs[1..][k - 1] == z;
    }
  }

  /** No two members of `s` render alike. */
  ghost predicate InjectiveOn(s: set<Ty>) {
    forall x, y :: x in s && y in s && Display(x) == Display(y) ==> x == y
  }

  // ----- The normalizers -----

  /** A union and an intersection are built by one algorithm. */
  datatype Lattice = Upper | Lower

  /** One level of flattening: the members of a nested type of the same kind, else the type itself. */
  function Parts(k: Lattice, m: Ty): seq<Ty> {
    if k.Upper? && m.Union? then m.members
    else if k.Lower? && m.Intersection? then m.members
    else [m]
  }

  function FlatSet(k: Lattice, members: seq<Ty>): (s: set<Ty>)
    ensures forall x :: x in s <==> exists m :: m in members && x in Parts(k, m)
  {
    set m, x | m in members && x in Parts(k, m) :: x
  }

  /** Appends the parts of `members` to `flat`, skipping those already present. */
  function Collect(k: Lattice, members: seq<Ty>, flat: seq<Ty>): seq<Ty> {
    if members == [] then flat else Collect(k, members[1..], Extend(Parts(k, members[0]), flat))
  }

  function Extend(parts: seq<Ty>, flat: seq<Ty>): seq<Ty> {
    if parts == [] then flat
    else Extend(parts[1..], if parts[0] in flat then flat else flat + [parts[0]])
  }

  /** No member is `Error`, one member is itself, and two or more make the composite. */
  function Close(k: Lattice, flat: seq<Ty>): Ty {
    if flat == [] then Error
    else if |flat| == 1 then flat[0]
    else if k.Upper? then Union(flat) else Intersection(flat)
  }

  function Normalized(k: Lattice, members: seq<Ty>): Ty {
    Close(k, SortByDisplay(Collect(k, members, [])))
  }

  /** `Ty::union_of` (for `Upper`) and `Ty::intersection_of` (for `Lower`). */
  method Normalize(k: Lattice, members: seq<Ty>) returns (r: Ty)
    ensures r == Normalized(k, members)
  {
    var flat: seq<Ty> := [];
    for i := 0 to |members|
      invariant Collect(k, members[i..], flat) == Collect(k, members, [])
    {
      assert members[i..][0] == members[i] && members[i..][1..] == members[i + 1..];
      var parts := Parts(k, members[i]);
      ghost var before := flat;
      for j := 0 to |parts|
        invariant Extend(parts[j..], flat) == Extend(parts, before)
      {
        assert parts[j..][0] == parts[j] && parts[j..][1..] == parts[j + 1..];
        if parts[j] !in flat {
          flat := flat + [parts[j]];
        }
      }
    }
    flat := SortByDisplay(flat);
    r := Close(k, flat);
  }

  lemma {:induction false} ExtendProperties(parts: seq<Ty>, flat: seq<Ty>)
    requires Distinct(flat)
    ensures Distinct(Extend(parts, flat))
    ensures forall x :: x in Extend(parts, flat) <==> x in flat || x in parts
  {
    if parts != [] {
      var next := if parts[0] in flat then flat else flat + [parts[0]];
      ExtendProperties(parts[1..], next);
      assert parts == [parts[0]] + parts[1..];
    }
  }

  lemma {:induction false} CollectProperties(k: Lattice, members: seq<Ty>, flat: seq<Ty>)
    requires Distinct(flat)
    ensures Distinct(Collect(k, members, flat))
    ensures forall x :: x in Collect(k, members, flat) <==> x in flat || x in FlatSet(k, members)
  {
    if members != [] {
      ExtendProperties(Parts(k, members[0]), flat);
      CollectProperties(k, members[1..], Extend(Parts(k, members[0]), flat));
      assert members == [members[0]] + members[1..];
    }
  }

  lemma DistinctPermutation(xs: seq<Ty>, ys: seq<Ty>)
    requires multiset(xs) == multiset(ys) && Distinct(xs)
    ensures Distinct(ys) && |xs| == |ys|
    ensures forall x :: x in ys <==> x in xs
  {
    forall i, j | 0 <= i < j < |ys| ensures ys[i] != ys[j] {
      if ys[i] == ys[j] {
        MultiplicityTwo(ys, i, j);
        MultiplicityOne(xs, ys[i]);
      }
    }
    forall x ensures x in ys <==> x in xs {
      assert x in ys <==> x in multiset(ys);
      assert x in xs <==> x in multiset(xs);
    }
    assert |multiset(xs)| == |xs| && |multiset(ys)| == |ys|;
  }

  lemma MultiplicityTwo(ys: seq<Ty>, i: nat, j: nat)
    requires i < j < |ys| && ys[i] == ys[j]
    ensures multiset(ys)[ys[i]] >= 2
  {
    assert ys == ys[..j] + [ys[j]] + ys[j + 1..];
    assert ys[..j][i] in multiset(ys[..j]);
  }

  lemma {:induction false} MultiplicityOne(xs: seq<Ty>, x: Ty)
    requires Distinct(xs)
    ensures multiset(xs)[x] <= 1
  {
    if xs != [] {
      assert xs == [xs[0]] + xs[1..];
      MultiplicityOne(xs[1..], x);
      if x == xs[0] {
        InTail(xs, x);
        assert x !in multiset(xs[1..]);
      }
    }
  }

  /** The member list a normalizer builds: sorted, free of duplicates, and exactly the flattened set. */
  ghost function NormalList(k: Lattice, members: seq<Ty>): (flat: seq<Ty>)
    ensures SortedByDisplay(flat) && Distinct(flat)
    ensures forall x :: x in flat <==> x in FlatSet(k, members)
    ensures Normalized(k, members) == Close(k, flat)
  {
    CollectProperties(k, members, []);
    var c := Collect(k, members, []);
    SortSorts(c);
    DistinctPermutation(c, SortByDisplay(c));
    SortByDisplay(c)
  }

  /** Neither the order, nor the repetition, nor the nesting of the members matters. */
  lemma NormalizedOrderIndependent(k: Lattice, ms: seq<Ty>, ns: seq<Ty>)
    requires FlatSet(k, ms) == FlatSet(k, ns) && InjectiveOn(FlatSet(k, ms))
    ensures Normalized(k, ms) == Normalized(k, ns)
  {
    var xs, ys := NormalList(k, ms), NormalList(k, ns);
    assert (set x | x in xs) == FlatSet(k, ms);
    SortedDistinctUnique(xs, ys);
  }

  /** For two members the condition is exact: a type parameter `T` and a class `T` render alike, and
      then `T | T` written in the two orders gives two different types. */
  lemma PairOrderIndependentIff(k: Lattice, x: Ty, y: Ty)
    requires Parts(k, x) == [x] && Parts(k, y) == [y]
    ensures Normalized(k, [x, y]) == Normalized(k, [y, x]) <==> x == y || Display(x) != Display(y)
  {
    PairNormalized(k, x, y);
    PairNormalized(k, y, x);
    StrLeTotal(Display(x), Display(y));
    StrLeReflexive(Display(x));
    if StrLe(Display(x), Display(y)) && StrLe(Display(y), Display(x)) {
      StrLeAntisymmetric(Display(x), Display(y));
    }
    assert [x, y] == [y, x] ==> [x, y][0] == [y, x][0];
  }

  lemma PairNormalized(k: Lattice, x: Ty, y: Ty)
    requires Parts(k, x) == [x] && Parts(k, y) == [y]
    ensures Normalized(k, [x, y])
         == if x == y then x else Close(k, if StrLe(Display(x), Display(y)) then [x, y] else [y, x])
  {
    PairCollect(k, x, y);
    PairSort(x, y);
    PairSort(x, x);
  }

  lemma PairCollect(k: Lattice, x: Ty, y: Ty)
    requires Parts(k, x) == [x] && Parts(k, y) == [y]
    ensures Collect(k, [x, y], []) == if x == y then [x] else [x, y]
  {
    assert [x, y][1..] == [y] && [y][1..] == [] && [x][1..] == [];
    assert Collect(k, [x, y], []) == Collect(k, [y], Extend([x], []));
    assert Extend([x], []) == Extend([], [] + [x]) == [x];
    assert Collect(k, [y], [x]) == Collect(k, [], Extend([y], [x]));
  }

  lemma PairSort(x: Ty, y: Ty)
    ensures SortByDisplay([x]) == [x]
    ensures SortByDisplay([x, y]) == if StrLe(Display(x), Display(y)) then [x, y] else [y, x]
  {
    hide Display, StrLe, SortByDisplay;
    SortCons(x, []);
    SortCons(y, []);
    SortCons(x, [y]);
    assert [x] + [] == [x] && [y] + [] == [y] && [x] + [y] == [x, y] && [y][1..] == [];
  }

  lemma SortCons(x: Ty, rest: seq<Ty>)
    ensures SortByDisplay([]) == [] && SortByDisplay([x] + rest) == Insert(x, SortByDisplay(rest))
  {
    hide Insert;
    assert ([x] + rest)[1..] == rest;
  }

  /** A type parameter and a class of the same name: the order-dependence the condition excludes. */
  lemma RenderingClash(name: string)
    ensures var p, n := Param(name), Named(name, []);
            Normalized(Upper, [p, n]) != Normalized(Upper, [n, p])
  {
    hide StrLe, SortByDisplay, Normalized;
    PairOrderIndependentIff(Upper, Param(name), Named(name, []));
  }

  /** The members hold no composite of the same kind below the level that is flattened. */
  ghost predicate AlreadyNormalized(k: Lattice, members: seq<Ty>) {
    forall x :: x in FlatSet(k, members) ==> Parts(k, x) == [x]
  }

  lemma NormalizedIdempotent(k: Lattice, members: seq<Ty>)
    requires AlreadyNormalized(k, members) && members != []
    requires forall m :: m in members ==> Parts(k, m) != []
    ensures Parts(k, Normalized(k, members)) == NormalList(k, members)
    ensures Normalized(k, [Normalized(k, members)]) == Normalized(k, members)
  {
    var flat := NormalList(k, members);
    assert Parts(k, members[0])[0] in flat;
    assert flat[0] in flat;
    CloseParts(k, flat);
    NormalizedAlone(k, Close(k, flat), flat);
  }

  lemma CloseParts(k: Lattice, flat: seq<Ty>)
    requires flat != [] && Parts(k, flat[0]) == [flat[0]]
    ensures Parts(k, Close(k, flat)) == flat
  {
  }

  lemma NormalizedAlone(k: Lattice, r: Ty, flat: seq<Ty>)
    requires Parts(k, r) == flat && SortedByDisplay(flat) && Distinct(flat)
    ensures Normalized(k, [r]) == Close(k, flat)
  {
    assert [r][1..] == [] && [] + flat == flat;
    ExtendFresh(flat, []);
    SortIdempotent(flat);
    assert Collect(k, [r], []) == Collect(k, [], flat);
  }

  lemma {:induction false} ExtendFresh(parts: seq<Ty>, flat: seq<Ty>)
    requires Distinct(flat + parts)
    ensures Extend(parts, flat) == flat + parts
  {
    if parts != [] {
      forall i | 0 <= i < |flat| ensures flat[i] != parts[0] {
        assert (flat + parts)[i] != (flat + parts)[|flat|];
      }
      assert flat + [parts[0]] + parts[1..] == flat + parts;
      ExtendFresh(parts[1..], flat + [parts[0]]);
    } else {
      assert flat + parts == flat;
    }
  }

  // ----- The normal form is the bound of its members -----

  /** Members as the checker admits them: well-formed, and after flattening fit for a composite. */
  ghost predicate Admitted(k: Lattice, members: seq<Ty>) {
    && members != []
    && (forall m :: m in members ==> WellFormed(m))
    && (k.Upper? ==> forall m :: m in members ==> !m.Null? && !m.Optional?)
    && (k.Lower? ==> forall m :: m in members ==> m.Named? || m.Intersection?)
  }

  lemma FlatMember(k: Lattice, members: seq<Ty>, x: Ty)
    requires Admitted(k, members) && x in FlatSet(k, members)
    ensures WellFormed(x) && (k.Upper? ==> !x.Null? && !x.Optional? && !x.Union?) && (k.Lower? ==> x.Named?)
  {
  }

  lemma NormalizedWellFormed(k: Lattice, members: seq<Ty>)
    requires Admitted(k, members)
    ensures WellFormed(Normalized(k, members)) && NormalList(k, members) != []
  {
    hide Display, StrLe, SortByDisplay;
    var flat := NormalList(k, members);
    forall x | x in flat
      ensures WellFormed(x) && (k.Upper? ==> !x.Null? && !x.Optional? && !x.Union?) && (k.Lower? ==> x.Named?)
    {
      FlatMember(k, members, x);
    }
    assert members[0] in members && Parts(k, members[0]) != [];
    assert Parts(k, members[0])[0] in FlatSet(k, members);
    assert Parts(k, members[0])[0] in flat;
  }

  /** `union_of(ms)` is the least upper bound of `ms`: it accepts every member, and flows into `c`
      exactly when all of them do. */
  lemma UnionOfIsJoin(ms: seq<Ty>, c: Ty, sub: Oracle)
    requires Admitted(Upper, ms) && WellFormed(c) && NominalOrder(sub)
    ensures forall m :: m in ms ==> Assignable(m, Normalized(Upper, ms), sub)
    ensures Assignable(Normalized(Upper, ms), c, sub) <==> forall m :: m in ms ==> Assignable(m, c, sub)
  {
    var r := Normalized(Upper, ms);
    NormalizedWellFormed(Upper, ms);
    IntoCIffParts(ms, c, sub);
    AssignableReflexive(r, sub);
    IntoCIffParts(ms, r, sub);
  }

  lemma IntoCIffParts(ms: seq<Ty>, c: Ty, sub: Oracle)
    requires Admitted(Upper, ms) && WellFormed(c)
    ensures Assignable(Normalized(Upper, ms), c, sub) <==> forall m :: m in ms ==> Assignable(m, c, sub)
  {
    hide Assignable, SortByDisplay, Display, Normalized;
    var flat := NormalList(Upper, ms);
    NormalizedWellFormed(Upper, ms);
    if |flat| == 1 {
      assert flat[0] in flat;
      assert forall x :: x in flat ==> x == flat[0];
    } else {
      UnionIsLeastUpperBound(flat, c, sub);
    }
    forall m | m in ms ensures Assignable(m, c, sub) <==> forall x :: x in Parts(Upper, m) ==> Assignable(x, c, sub) {
      PartsInto(m, c, sub);
    }
    hide WellFormed, Parts, Close;
    if forall x :: x in flat ==> Assignable(x, c, sub) {
      forall m, x | m in ms && x in Parts(Upper, m) ensures Assignable(x, c, sub) {
        assert x in FlatSet(Upper, ms) && x in flat;
      }
    }
  }

  lemma PartsInto(m: Ty, c: Ty, sub: Oracle)
    requires WellFormed(m) && WellFormed(c)
    ensures Assignable(m, c, sub) <==> forall x :: x in Parts(Upper, m) ==> Assignable(x, c, sub)
  {
    hide Assignable;
    if m.Union? {
      UnionIsLeastUpperBound(m.members, c, sub);
    } else {
      assert m in Parts(Upper, m);
    }
  }

  /** `intersection_of(ms)` is the greatest lower bound of `ms`. */
  lemma IntersectionOfIsMeet(ms: seq<Ty>, a: Ty, sub: Oracle)
    requires Admitted(Lower, ms) && WellFormed(a) && NominalOrder(sub)
    ensures forall m :: m in ms ==> Assignable(Normalized(Lower, ms), m, sub)
    ensures Assignable(a, Normalized(Lower, ms), sub) <==> forall m :: m in ms ==> Assignable(a, m, sub)
  {
    var r := Normalized(Lower, ms);
    NormalizedWellFormed(Lower, ms);
    FromAIffParts(ms, a, sub);
    AssignableReflexive(r, sub);
    FromAIffParts(ms, r, sub);
  }

  lemma FromAIffParts(ms: seq<Ty>, a: Ty, sub: Oracle)
    requires Admitted(Lower, ms) && WellFormed(a)
    ensures Assignable(a, Normalized(Lower, ms), sub) <==> forall m :: m in ms ==> Assignable(a, m, sub)
  {
    hide Assignable, SortByDisplay, Display, Normalized, Collect, NormalList;
    var flat := NormalList(Lower, ms);
    NormalizedWellFormed(Lower, ms);
    if |flat| == 1 {
      assert flat[0] in flat;
      assert forall x :: x in flat ==> x == flat[0];
    } else {
      IntersectionIsGreatestLowerBound(a, flat, sub);
    }
    forall m | m in ms ensures Assignable(a, m, sub) <==> forall x :: x in Parts(Lower, m) ==> Assignable(a, x, sub) {
      FromParts(m, a, sub);
    }
    hide WellFormed, Parts, Close;
    if forall x :: x in flat ==> Assignable(a, x, sub) {
      forall m, x | m in ms && x in Parts(Lower, m) ensures Assignable(a, x, sub) {
        assert x in FlatSet(Lower, ms) && x in flat;
      }
    }
  }

  lemma FromParts(m: Ty, a: Ty, sub: Oracle)
    requires WellFormed(m) && WellFormed(a)
    ensures Assignable(a, m, sub) <==> forall x :: x in Parts(Lower, m) ==> Assignable(a, x, sub)
  {
    hide Assignable;
    if m.Intersection? {
      IntersectionIsGreatestLowerBound(a, m.members, sub);
    } else {
      assert m in Parts(Lower, m);
    }
  }
}
