/** Exactly when `union_of` and `intersection_of` do not depend on the order of their members
    (src/types.rs). Two members that render alike keep the order in which they are first met. */
module TypeOrder {
  import opened Order
  import opened Types
  import opened TypeNormalForm

  /** `x` occurs in `xs` and `y` does not occur before it. */
  predicate Leads(xs: seq<Ty>, x: Ty, y: Ty) {
    xs != [] && (xs[0] == x || (xs[0] != y && Leads(xs[1..], x, y)))
  }

  predicate Clash(x: Ty, y: Ty) { x != y && Display(x) == Display(y) }

  predicate Mentions(xs: seq<Ty>, x: Ty, y: Ty) { x in xs || y in xs }

  /** Two members of a list, and two different parts that render alike, put first by one each. */
  datatype Dispute = Dispute(m: Ty, n: Ty, x: Ty, y: Ty)

  predicate Disputed(k: Lattice, ms: seq<Ty>, d: Dispute) {
    d.m in ms && d.n in ms && Clash(d.x, d.y) && Leads(Parts(k, d.m), d.x, d.y) && Leads(Parts(k, d.n), d.y, d.x)
  }

  ghost predicate Agree(k: Lattice, ms: seq<Ty>) {
    forall d: Dispute :: !Disputed(k, ms, d)
  }

  // ----- Leading -----

  lemma HeadOrTail(xs: seq<Ty>, x: Ty)
    requires xs != []
    ensures x in xs <==> x == xs[0] || x in xs[1..]
  {
    assert xs == [xs[0]] + xs[1..];
  }

  lemma {:induction false} LeadsOneWay(xs: seq<Ty>, x: Ty, y: Ty)
    requires x != y
    ensures Leads(xs, x, y) ==> x in xs && !Leads(xs, y, x)
    ensures Mentions(xs, x, y) ==> Leads(xs, x, y) || Leads(xs, y, x)
  {
    if xs != [] {
      HeadOrTail(xs, x);
      HeadOrTail(xs, y);
      LeadsOneWay(xs[1..], x, y);
    }
  }

  lemma {:induction false} LeadsConcat(xs: seq<Ty>, ys: seq<Ty>, x: Ty, y: Ty)
    requires x != y
    ensures Leads(xs + ys, x, y) <==> if Mentions(xs, x, y) then Leads(xs, x, y) else Leads(ys, x, y)
  {
    if xs == [] {
      assert xs + ys == ys;
    } else {
      assert xs == [xs[0]] + xs[1..] && xs + ys == [xs[0]] + (xs[1..] + ys);
      LeadsConcat(xs[1..], ys, x, y);
    }
  }

  // ----- Collecting keeps the first occurrences -----

  lemma {:induction false} ExtendLeads(parts: seq<Ty>, flat: seq<Ty>, x: Ty, y: Ty)
    requires x != y
    ensures Leads(Extend(parts, flat), x, y) <==> if Mentions(flat, x, y) then Leads(flat, x, y) else Leads(parts, x, y)
  {
    if parts != [] {
      var p := parts[0];
      LeadsConcat(flat, [p], x, y);
      LeadsOneWay(flat, x, y);
      assert [p][1..] == [];
      ExtendLeads(parts[1..], if p in flat then flat else flat + [p], x, y);
    } else {
      LeadsOneWay(flat, x, y);
    }
  }

  /** The first member that holds one of the two decides. */
  predicate MembersLead(k: Lattice, ms: seq<Ty>, x: Ty, y: Ty) {
    ms != [] && if Mentions(Parts(k, ms[0]), x, y) then Leads(Parts(k, ms[0]), x, y) else MembersLead(k, ms[1..], x, y)
  }

  lemma NoneLeads(flat: seq<Ty>, x: Ty, y: Ty)
    requires x != y && !Mentions(flat, x, y)
    ensures !Leads(flat, x, y)
  {
    LeadsOneWay(flat, x, y);
  }

  lemma ExtendMentions(parts: seq<Ty>, flat: seq<Ty>, x: Ty, y: Ty)
    requires Distinct(flat)
    ensures Mentions(Extend(parts, flat), x, y) <==> Mentions(flat, x, y) || Mentions(parts, x, y)
  {
    hide Extend;
    ExtendProperties(parts, flat);
  }

  lemma {:induction false} CollectLeads(k: Lattice, ms: seq<Ty>, flat: seq<Ty>, x: Ty, y: Ty)
    requires x != y && Distinct(flat)
    ensures Leads(Collect(k, ms, flat), x, y)
            <==> if Mentions(flat, x, y) then Leads(flat, x, y) else MembersLead(k, ms, x, y)
    decreases |ms|
  {
    hide Leads, Parts, Extend, Mentions, Distinct;
    if ms == [] {
      if !Mentions(flat, x, y) { NoneLeads(flat, x, y); }
    } else {
      ExtendLeads(Parts(k, ms[0]), flat, x, y);
      ExtendMentions(Parts(k, ms[0]), flat, x, y);
      ExtendProperties(Parts(k, ms[0]), flat);
      CollectLeads(k, ms[1..], Extend(Parts(k, ms[0]), flat), x, y);
    }
  }

  // ----- The sort is stable -----

  lemma InsertCases(z: Ty, xs: seq<Ty>)
    ensures Insert(z, xs) == if xs == [] || StrLe(Display(z), Display(xs[0])) then [z] + xs else [xs[0]] + Insert(z, xs[1..])
    ensures StrLe(Display(z), Display(z))
  {
    hide Display, StrLe;
    StrLeReflexive(Display(z));
  }

  lemma LeadsCons(z: Ty, xs: seq<Ty>, x: Ty, y: Ty)
    ensures Leads([z] + xs, x, y) <==> z == x || (z != y && Leads(xs, x, y))
  {
    assert ([z] + xs)[1..] == xs;
  }

  lemma {:induction false} InsertLeads(z: Ty, xs: seq<Ty>, x: Ty, y: Ty)
    requires Clash(x, y)
    ensures Leads(Insert(z, xs), x, y) <==> z == x || (z != y && Leads(xs, x, y))
  {
    hide Display, StrLe, Insert, Leads;
    InsertCases(z, xs);
    LeadsCons(z, xs, x, y);
    if xs != [] && !StrLe(Display(z), Display(xs[0])) {
      InsertLeads(z, xs[1..], x, y);
      LeadsCons(xs[0], Insert(z, xs[1..]), x, y);
      assert xs == [xs[0]] + xs[1..];
      LeadsCons(xs[0], xs[1..], x, y);
    }
  }

  lemma {:induction false} SortLeads(xs: seq<Ty>, x: Ty, y: Ty)
    requires Clash(x, y)
    ensures Leads(SortByDisplay(xs), x, y) <==> Leads(xs, x, y)
  {
    hide Display, Insert;
    if xs != [] {
      SortLeads(xs[1..], x, y);
      InsertLeads(xs[0], SortByDisplay(xs[1..]), x, y);
    }
  }

  lemma NormalListLeads(k: Lattice, ms: seq<Ty>, x: Ty, y: Ty)
    requires Clash(x, y)
    ensures Leads(NormalList(k, ms), x, y) <==> MembersLead(k, ms, x, y)
  {
    hide Display, Insert;
    CollectLeads(k, ms, [], x, y);
    SortLeads(Collect(k, ms, []), x, y);
  }

  // ----- A sorted list is determined by its set and the order of the clashes -----

  ghost predicate SameLeads(xs: seq<Ty>, ys: seq<Ty>) {
    forall x, y {:trigger Leads(xs, x, y)} {:trigger Leads(ys, x, y)} :: Clash(x, y) && Leads(xs, x, y) ==> Leads(ys, x, y)
  }

  lemma {:induction false} SortedUnique(xs: seq<Ty>, ys: seq<Ty>)
    requires SortedByDisplay(xs) && SortedByDisplay(ys) && Distinct(xs) && Distinct(ys)
    requires (forall x :: x in xs <==> x in ys) && SameLeads(xs, ys)
    ensures xs == ys
  {
    hide Display;
    assert xs != [] ==> xs[0] in ys;
    assert ys != [] ==> ys[0] in xs;
    if xs != [] {
      HeadsEqual(xs, ys);
      forall z ensures z in xs[1..] <==> z in ys[1..] {
        InTail(xs, z);
        InTail(ys, z);
      }
      forall x, y | Clash(x, y) && Leads(xs[1..], x, y) ensures Leads(ys[1..], x, y) { TailLeads(xs, ys, x, y); }
      SortedUnique(xs[1..], ys[1..]);
    }
  }

  lemma HeadsEqual(xs: seq<Ty>, ys: seq<Ty>)
    requires SortedByDisplay(xs) && SortedByDisplay(ys) && xs != [] && ys != []
    requires xs[0] in ys && ys[0] in xs && SameLeads(xs, ys)
    ensures xs[0] == ys[0]
  {
    hide Display;
    var x, y := xs[0], ys[0];
    var i :| 0 <= i < |xs| && xs[i] == y;
    var j :| 0 <= j < |ys| && ys[j] == x;
    StrLeReflexive(Display(x));
    StrLeAntisymmetric(Display(x), Display(y));
    if x != y {
      LeadsOneWay(xs, x, y);
      LeadsOneWay(ys, x, y);
    }
  }

  lemma TailLeads(xs: seq<Ty>, ys: seq<Ty>, x: Ty, y: Ty)
    requires xs != [] && ys != [] && xs[0] == ys[0] && Distinct(xs) && Distinct(ys)
    requires SameLeads(xs, ys) && Clash(x, y) && Leads(xs[1..], x, y) && forall z :: z in xs[1..] <==> z in ys[1..]
    ensures Leads(ys[1..], x, y)
  {
    hide Display;
    LeadsOneWay(xs[1..], x, y);
    LeadsOneWay(ys[1..], x, y);
    if xs[0] == y {
      LeadsOneWay(ys[1..], y, x);
      InTail(ys, y);
    } else {
      InTail(xs, x);
      assert xs[0] != x;
      assert Leads(xs, x, y);
    }
  }

  // ----- The exact condition -----

  lemma AgreeOn(k: Lattice, ms: seq<Ty>, m: Ty, n: Ty, x: Ty, y: Ty)
    requires Agree(k, ms) && Clash(x, y) && m in ms && n in ms && Leads(Parts(k, m), x, y)
    ensures Mentions(Parts(k, n), x, y) ==> Leads(Parts(k, n), x, y)
  {
    hide Display, Parts;
    LeadsOneWay(Parts(k, n), x, y);
    assert !Disputed(k, ms, Dispute(m, n, x, y));
  }

  ghost predicate AllLead(k: Lattice, ns: seq<Ty>, x: Ty, y: Ty) {
    forall n :: n in ns && Mentions(Parts(k, n), x, y) ==> Leads(Parts(k, n), x, y)
  }

  lemma FirstLeads(k: Lattice, ns: seq<Ty>, x: Ty, y: Ty)
    requires AllLead(k, ns, x, y) && ns != []
    ensures Mentions(Parts(k, ns[0]), x, y) ==> Leads(Parts(k, ns[0]), x, y)
    ensures AllLead(k, ns[1..], x, y)
  {
    hide Parts, Leads, Mentions;
    assert forall n :: n in ns[1..] ==> n in ns;
  }

  lemma {:induction false} AgreedLead(k: Lattice, ns: seq<Ty>, n: Ty, x: Ty, y: Ty)
    requires AllLead(k, ns, x, y) && n in ns && Mentions(Parts(k, n), x, y)
    ensures MembersLead(k, ns, x, y)
    decreases |ns|
  {
    hide Display, Parts, Leads, Mentions, AllLead;
    FirstLeads(k, ns, x, y);
    if !Mentions(Parts(k, ns[0]), x, y) { AgreedLead(k, ns[1..], n, x, y); }
  }

  lemma {:induction false} Decider(k: Lattice, ms: seq<Ty>, x: Ty, y: Ty) returns (m: Ty)
    requires MembersLead(k, ms, x, y)
    ensures m in ms && Leads(Parts(k, m), x, y)
  {
    if Mentions(Parts(k, ms[0]), x, y) { m := ms[0]; } else { m := Decider(k, ms[1..], x, y); }
  }

  lemma AgreeingSame(k: Lattice, ms: seq<Ty>, ns: seq<Ty>)
    requires Agree(k, ms) && forall m :: m in ms <==> m in ns
    ensures Normalized(k, ns) == Normalized(k, ms)
  {
    hide Display, Agree, Normalized, Leads, Parts;
    var xs, ys := NormalList(k, ms), NormalList(k, ns);
    forall x, y | Clash(x, y) && Leads(xs, x, y) ensures Leads(ys, x, y) {
      NormalListLeads(k, ms, x, y);
      NormalListLeads(k, ns, x, y);
      var m := Decider(k, ms, x, y);
      LeadsOneWay(Parts(k, m), x, y);
      assert m in ns && Mentions(Parts(k, m), x, y);
      forall n | n in ns && Mentions(Parts(k, n), x, y) ensures Leads(Parts(k, n), x, y) { AgreeOn(k, ms, m, n, x, y); }
      AgreedLead(k, ns, m, x, y);
    }
    SortedUnique(xs, ys);
  }

  /** Moving one member to the front. */
  function Front(ms: seq<Ty>, i: nat): (r: seq<Ty>)
    requires i < |ms|
    ensures multiset(r) == multiset(ms)
  {
    assert ms == ms[..i] + [ms[i]] + ms[i + 1..];
    [ms[i]] + (ms[..i] + ms[i + 1..])
  }

  lemma FrontDecides(k: Lattice, ms: seq<Ty>, i: nat, x: Ty, y: Ty)
    requires i < |ms| && Clash(x, y) && Leads(Parts(k, ms[i]), x, y)
    ensures Leads(NormalList(k, Front(ms, i)), x, y)
  {
    hide Display;
    LeadsOneWay(Parts(k, ms[i]), x, y);
    NormalListLeads(k, Front(ms, i), x, y);
  }

  lemma DisagreeingDiffer(k: Lattice, ms: seq<Ty>, i: nat, j: nat, x: Ty, y: Ty)
    requires i < |ms| && j < |ms| && Clash(x, y)
    requires Leads(Parts(k, ms[i]), x, y) && Leads(Parts(k, ms[j]), y, x)
    ensures Normalized(k, Front(ms, i)) != Normalized(k, Front(ms, j))
  {
    hide Display, Normalized;
    var xs, ys := NormalList(k, Front(ms, i)), NormalList(k, Front(ms, j));
    FrontDecides(k, ms, i, x, y);
    FrontDecides(k, ms, j, y, x);
    LeadsOneWay(xs, x, y);
    LeadsOneWay(ys, x, y);
    LeadsOneWay(Parts(k, ms[i]), x, y);
    LeadsOneWay(Parts(k, ms[j]), y, x);
    assert ms[i] in Front(ms, i) && ms[j] in Front(ms, j);
    assert ms[j] in multiset(Front(ms, i)) && ms[i] in multiset(Front(ms, j));
    assert x in FlatSet(k, Front(ms, i)) && y in FlatSet(k, Front(ms, i));
    assert x in FlatSet(k, Front(ms, j)) && y in FlatSet(k, Front(ms, j));
    TwoClose(k, xs, ys, x, y);
  }

  lemma TwoClose(k: Lattice, xs: seq<Ty>, ys: seq<Ty>, x: Ty, y: Ty)
    requires x != y && x in xs && y in xs && x in ys && y in ys && xs != ys
    ensures Close(k, xs) != Close(k, ys)
  {
    assert |xs| >= 2 && |ys| >= 2;
  }

  /** However the members are ordered, the normal form is one. */
  ghost predicate OneNormalForm(k: Lattice, ms: seq<Ty>) {
    forall ns :: multiset(ns) == multiset(ms) ==> Normalized(k, ns) == Normalized(k, ms)
  }

  lemma FormOf(k: Lattice, ms: seq<Ty>, ns: seq<Ty>)
    requires OneNormalForm(k, ms) && multiset(ns) == multiset(ms)
    ensures Normalized(k, ns) == Normalized(k, ms)
  {
    hide Normalized;
  }

  lemma AgreeingHaveOne(k: Lattice, ms: seq<Ty>)
    requires Agree(k, ms)
    ensures OneNormalForm(k, ms)
  {
    hide Display, Normalized, Agree;
    forall ns | multiset(ns) == multiset(ms) ensures Normalized(k, ns) == Normalized(k, ms) {
      forall m ensures m in ms <==> m in ns {
        assert m in ms <==> m in multiset(ms);
        assert m in ns <==> m in multiset(ns);
      }
      AgreeingSame(k, ms, ns);
    }
  }

  lemma DisagreeingHaveTwo(k: Lattice, ms: seq<Ty>, d: Dispute)
    requires Disputed(k, ms, d)
    ensures !OneNormalForm(k, ms)
  {
    hide Display, Normalized, Leads, Parts, OneNormalForm, Front;
    var i :| 0 <= i < |ms| && ms[i] == d.m;
    var j :| 0 <= j < |ms| && ms[j] == d.n;
    DisagreeingDiffer(k, ms, i, j, d.x, d.y);
    if OneNormalForm(k, ms) {
      FormOf(k, ms, Front(ms, i));
      FormOf(k, ms, Front(ms, j));
    }
  }

  /** A member list has one normal form, however its members are ordered, if and only if members that hold
      two parts rendering alike agree on which comes first. */
  lemma OrderIndependentIff(k: Lattice, ms: seq<Ty>)
    ensures OneNormalForm(k, ms) <==> Agree(k, ms)
  {
    hide Disputed, OneNormalForm;
    if Agree(k, ms) {
      AgreeingHaveOne(k, ms);
    } else {
      var d: Dispute :| Disputed(k, ms, d);
      DisagreeingHaveTwo(k, ms, d);
    }
  }

  lemma FlatAgree(k: Lattice, ms: seq<Ty>)
    requires forall m :: m in ms ==> Parts(k, m) == [m]
    ensures Agree(k, ms) <==> forall x, y :: x in ms && y in ms ==> !Clash(x, y)
  {
    hide Clash, Parts;
    forall d: Dispute | d.m in ms && d.n in ms
      ensures Leads(Parts(k, d.m), d.x, d.y) <==> d.m == d.x
      ensures Leads(Parts(k, d.n), d.y, d.x) <==> d.n == d.y
    {
      assert [d.m][1..] == [] && [d.n][1..] == [];
    }
    forall x, y | x in ms && y in ms ensures Agree(k, ms) ==> !Clash(x, y) {
      assert Disputed(k, ms, Dispute(x, y, x, y)) <==> Clash(x, y);
    }
  }

  lemma FlatMembers(k: Lattice, ms: seq<Ty>)
    requires forall m :: m in ms ==> Parts(k, m) == [m]
    ensures forall x :: x in FlatSet(k, ms) <==> x in ms
  {
    hide Parts;
    forall x | x in ms ensures x in FlatSet(k, ms) {
      assert x in Parts(k, x);
    }
  }

  lemma InjectiveWithoutClash(s: set<Ty>)
    ensures InjectiveOn(s) <==> forall x, y :: x in s && y in s ==> !Clash(x, y)
  {
    hide Display;
  }

  /** Where no member is itself a composite of the kind, that is injectivity of the rendering. */
  lemma FlatOrderIndependentIff(k: Lattice, ms: seq<Ty>)
    requires forall m :: m in ms ==> Parts(k, m) == [m]
    ensures OneNormalForm(k, ms) <==> InjectiveOn(FlatSet(k, ms))
  {
    hide Display, OneNormalForm, Agree, Parts, Clash, FlatSet, InjectiveOn;
    OrderIndependentIff(k, ms);
    FlatAgree(k, ms);
    FlatMembers(k, ms);
    InjectiveWithoutClash(FlatSet(k, ms));
  }
}
