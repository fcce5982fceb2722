/** `Ty::assignable_with`, `Ty::union_of` and `Ty::intersection_of` (src/types.rs). */
module Types {
  import opened Order

  datatype Option<T> = None | Some(value: T)

  datatype Ty =
    | Int | Float | Decimal | Bool | String | Bytes | Html | Attr
    | Void | Empty | Never
    | Named(name: string, args: seq<Ty>)
    | List(elem: Ty)
    | FixedList(elem: Ty, len: nat)
    | Map(key: Ty, value: Ty)
    | Set(elem: Ty)
    | Tuple(items: seq<Ty>, labels: Option<seq<string>>)
    | Optional(inner: Ty)
    | Null
    | Param(param: string)
    | Union(members: seq<Ty>)
    | Intersection(members: seq<Ty>)
    | Error
    | Function(params: seq<Ty>, ret: Ty, throws: seq<Ty>)

  /** The nominal-subtyping oracle: a class below its interfaces and ancestors. */
  type Oracle = (string, string) -> bool

  /** Same head, invariant arguments, where an `Error` argument is a wildcard. */
  predicate ArgsMatch(aa: seq<Ty>, ba: seq<Ty>) {
    |aa| == |ba| && forall i :: 0 <= i < |aa| ==> aa[i] == Error || ba[i] == Error || aa[i] == ba[i]
  }

  /** `from` may be used where `to` is expected. The order of the arms is the source's. */
  predicate Assignable(from: Ty, to: Ty, sub: Oracle)
    decreases from, to
  {
    if from == Error || to == Error then true
    else if from.Null? then to.Optional? || to.Null?
    else if from.Optional? && to.Optional? then Assignable(from.inner, to.inner, sub)
    else if to.Optional? then Assignable(from, to.inner, sub)
    else if from.Union? && to.Union? then forall f :: f in from.members ==> Assignable(f, to, sub)
    else if to.Union? then exists t :: t in to.members && Assignable(from, t, sub)
    else if from.Union? then forall f :: f in from.members ==> Assignable(f, to, sub)
    else if to.Intersection? then forall t :: t in to.members ==> Assignable(from, t, sub)
    else if from.Intersection? then exists f :: f in from.members && Assignable(f, to, sub)
    else if from.Function? && to.Function? then
      from.params == to.params && from.ret == to.ret
      && forall f :: f in from.throws ==> exists t :: t in to.throws && Assignable(f, t, sub)
    else HeadsAssignable(from, to, sub)
  }

  /** The arms that compare heads and recurse no further. */
  predicate HeadsAssignable(from: Ty, to: Ty, sub: Oracle) {
    if from.FixedList? && to.List? then from.elem == to.elem
    else if from.Named? && to.Named? then
      if from.name == to.name then ArgsMatch(from.args, to.args) else sub(from.name, to.name)
    else if from.Param? && to.Param? then from.param == to.param
    else if from.Never? then true
    else if from.Void? && to.Empty? then true
    else from == to
  }

  // ----- The types the checker builds -----

  /** No poison anywhere; union members are neither null, optional nor unions; intersection members
      are nominal; both lists are non-empty. */
  predicate WellFormed(t: Ty)
    decreases t
  {
    match t
    case Error => false
    case Named(_, args) => forall a :: a in args ==> WellFormed(a)
    case List(e) => WellFormed(e)
    case FixedList(e, _) => WellFormed(e)
    case Map(k, v) => WellFormed(k) && WellFormed(v)
    case Set(e) => WellFormed(e)
    case Tuple(items, _) => forall a :: a in items ==> WellFormed(a)
    case Optional(i) => WellFormed(i)
    case Union(ms) => ms != [] && forall m :: m in ms ==> WellFormed(m) && !m.Null? && !m.Optional? && !m.Union?
    case Intersection(ms) => ms != [] && forall m :: m in ms ==> WellFormed(m) && m.Named?
    case Function(ps, r, ts) =>
      && (forall p :: p in ps ==> WellFormed(p)) && WellFormed(r) && (forall e :: e in ts ==> WellFormed(e))
    case _ => true
  }

  ghost predicate NominalOrder(sub: Oracle) {
    && (forall a :: sub(a, a))
    && (forall a, b :: sub(a, b) && sub(b, a) ==> a == b)
    && (forall a, b, c :: sub(a, b) && sub(b, c) ==> sub(a, c))
  }

  // ----- Bottom, least upper bound, greatest lower bound -----

  lemma {:induction false} NeverIsBottom(c: Ty, sub: Oracle)
    requires WellFormed(c)
    ensures Assignable(Never, c, sub)
    decreases c
  {
    match c
    case Optional(i) => NeverIsBottom(i, sub);
    case Union(ms) => NeverIsBottom(ms[0], sub);
    case Intersection(ms) =>
      forall m | m in ms ensures Assignable(Never, m, sub) { NeverIsBottom(m, sub); }
    case _ =>
  }

  /** A union flows into `c` exactly when each of its members does. */
  lemma {:induction false} UnionIsLeastUpperBound(fs: seq<Ty>, c: Ty, sub: Oracle)
    requires WellFormed(Union(fs)) && WellFormed(c)
    ensures Assignable(Union(fs), c, sub) <==> forall f :: f in fs ==> Assignable(f, c, sub)
    decreases c
  {
    if c.Optional? {
      UnionIsLeastUpperBound(fs, c.inner, sub);
      assert forall f :: f in fs ==> Assignable(f, c, sub) == Assignable(f, c.inner, sub);
    }
  }

  /** The arm for intersections, for what reaches it. */
  lemma ReachesIntersectionArm(a: Ty, ts: seq<Ty>, sub: Oracle)
    requires a != Error && !a.Null? && !a.Union?
    ensures Assignable(a, Intersection(ts), sub) <==> forall t :: t in ts ==> Assignable(a, t, sub)
  {
    hide HeadsAssignable;
  }

  /** The arm for unions, into a nominal type. */
  lemma UnionIntoNamed(fs: seq<Ty>, t: Ty, sub: Oracle)
    requires t.Named?
    ensures Assignable(Union(fs), t, sub) <==> forall f :: f in fs ==> Assignable(f, t, sub)
  {
    hide HeadsAssignable;
  }

  lemma UnionIntoIntersection(fs: seq<Ty>, ts: seq<Ty>, sub: Oracle)
    ensures Assignable(Union(fs), Intersection(ts), sub) <==> forall f :: f in fs ==> Assignable(f, Intersection(ts), sub)
  {
    hide HeadsAssignable;
  }

  /** Out of an intersection: some member must do, for what reaches that arm. */
  lemma LeavesIntersectionArm(fs: seq<Ty>, c: Ty, sub: Oracle)
    requires c != Error && !c.Optional? && !c.Union? && !c.Intersection?
    ensures Assignable(Intersection(fs), c, sub) <==> exists f :: f in fs && Assignable(f, c, sub)
  {
    hide HeadsAssignable;
  }

  lemma NullIntoNothing(t: Ty, sub: Oracle)
    requires t.Named? || t.Intersection?
    ensures !Assignable(Null, t, sub)
  {
  }

  /** `a` flows into an intersection exactly when it flows into each of its members. */
  lemma IntersectionIsGreatestLowerBound(a: Ty, ts: seq<Ty>, sub: Oracle)
    requires WellFormed(a) && WellFormed(Intersection(ts))
    ensures Assignable(a, Intersection(ts), sub) <==> forall t :: t in ts ==> Assignable(a, t, sub)
  {
    hide Assignable;
    assert ts[0] in ts;
    if a.Null? {
      NullIntoNothing(Intersection(ts), sub);
      NullIntoNothing(ts[0], sub);
    } else if a.Union? {
      UnionIntoIntersection(a.members, ts, sub);
      forall f | f in a.members
        ensures Assignable(f, Intersection(ts), sub) <==> forall t :: t in ts ==> Assignable(f, t, sub)
      {
        ReachesIntersectionArm(f, ts, sub);
      }
      forall t | t in ts ensures Assignable(a, t, sub) <==> forall f :: f in a.members ==> Assignable(f, t, sub) {
        UnionIntoNamed(a.members, t, sub);
      }
    } else {
      ReachesIntersectionArm(a, ts, sub);
    }
  }

  /** Into a union: some member suffices, for a type that is itself neither a union nor null. */
  lemma MemberSuffices(a: Ty, ts: seq<Ty>, sub: Oracle)
    requires WellFormed(a) && WellFormed(Union(ts)) && !a.Union?
    ensures Assignable(a, Union(ts), sub) <==> exists t :: t in ts && Assignable(a, t, sub)
  {
    UnionMembers(ts);
    NotPoison(a);
    hide Assignable, WellFormed;
    if a.Null? {
      NullIntoUnion(ts, sub);
    } else {
      ReachesUnionArm(a, ts, sub);
    }
  }

  lemma NotPoison(a: Ty)
    requires WellFormed(a)
    ensures a != Error
  {
  }

  lemma UnionMembers(ms: seq<Ty>)
    requires WellFormed(Union(ms))
    ensures forall m :: m in ms ==> WellFormed(m) && m != Error && !m.Null? && !m.Optional? && !m.Union?
  {
  }

  /** The arm for unions on the right, for what reaches it. */
  lemma ReachesUnionArm(a: Ty, ts: seq<Ty>, sub: Oracle)
    requires a != Error && !a.Null? && !a.Union?
    ensures Assignable(a, Union(ts), sub) <==> exists t :: t in ts && Assignable(a, t, sub)
  {
    hide HeadsAssignable;
  }

  lemma NullIntoUnion(ts: seq<Ty>, sub: Oracle)
    requires forall t :: t in ts ==> t != Error && !t.Null? && !t.Optional?
    ensures !Assignable(Null, Union(ts), sub) && forall t :: t in ts ==> !Assignable(Null, t, sub)
  {
    hide HeadsAssignable;
  }

  lemma NullIntoOnly(b: Ty, sub: Oracle)
    requires Assignable(Null, b, sub) && b != Error && !b.Optional?
    ensures b.Null?
  {
    hide HeadsAssignable;
  }

  // ----- A preorder -----

  lemma {:induction false} AssignableReflexive(t: Ty, sub: Oracle)
    requires WellFormed(t) && NominalOrder(sub)
    ensures Assignable(t, t, sub)
    decreases t
  {
    match t
    case Optional(i) => AssignableReflexive(i, sub);
    case Union(ms) =>
      forall m | m in ms ensures Assignable(m, t, sub) {
        AssignableReflexive(m, sub);
      }
    case Intersection(ms) =>
      forall m | m in ms ensures Assignable(t, m, sub) {
        AssignableReflexive(m, sub);
      }
    case Function(_, _, es) =>
      forall e | e in es ensures exists e' :: e' in es && Assignable(e, e', sub) {
        AssignableReflexive(e, sub);
      }
    case _ =>
  }

  lemma OptionalIntoSingle(a: Ty, b: Ty, sub: Oracle)
    requires a.Optional? && WellFormed(b) && !b.Optional? && !b.Union?
    ensures !Assignable(a, b, sub)
  {
    if b.Intersection? {
      assert b.members[0] in b.members;
    }
  }

  /** A `T?` never widens to a non-optional type. */
  lemma OptionalOnlyIntoOptional(a: Ty, b: Ty, sub: Oracle)
    requires WellFormed(a) && WellFormed(b) && a.Optional? && !b.Optional?
    ensures !Assignable(a, b, sub)
  {
    if b.Union? {
      hide HeadsAssignable;
      forall t | t in b.members ensures !Assignable(a, t, sub) {
        OptionalIntoSingle(a, t, sub);
      }
    } else {
      OptionalIntoSingle(a, b, sub);
    }
  }

  lemma NothingElseIntoNull(a: Ty, sub: Oracle)
    requires WellFormed(a) && !a.Null? && !a.Never? && !a.Union?
    ensures !Assignable(a, Null, sub)
  {
    if a.Intersection? {
      assert forall m :: m in a.members ==> m.Named?;
    }
  }

  /** Without poison, matching arguments are equal arguments. */
  lemma MatchingArgsAreEqual(a: Ty, b: Ty)
    requires WellFormed(a) && WellFormed(b) && a.Named? && b.Named? && ArgsMatch(a.args, b.args)
    ensures a.args == b.args
  {
    forall i | 0 <= i < |a.args| ensures a.args[i] == b.args[i] {
      assert a.args[i] in a.args && b.args[i] in b.args;
    }
  }

  /** The precondition shared by the cases of `AssignableTransitive`. */
  ghost predicate Chain(a: Ty, b: Ty, c: Ty, sub: Oracle) {
    && WellFormed(a) && WellFormed(b) && WellFormed(c) && NominalOrder(sub)
    && Assignable(a, b, sub) && Assignable(b, c, sub)
  }

  lemma {:induction false} AssignableTransitive(a: Ty, b: Ty, c: Ty, sub: Oracle)
    requires WellFormed(a) && WellFormed(b) && WellFormed(c) && NominalOrder(sub)
    requires Assignable(a, b, sub) && Assignable(b, c, sub)
    ensures Assignable(a, c, sub)
    decreases a, b, c, 2
  {
    hide Assignable, WellFormed, NominalOrder;
    if a.Never? {
      NeverIsBottom(c, sub);
    } else if a.Union? {
      FromUnion(a, b, c, sub);
    } else if c.Optional? {
      IntoOptional(a, b, c, sub);
    } else if b.Union? {
      ThroughUnion(a, b.members, c, sub);
    } else if c.Intersection? {
      IntoIntersection(a, b, c, sub);
    } else if c.Union? {
      IntoUnion(a, b, c, sub);
    } else {
      BetweenSingles(a, b, c, sub);
    }
  }

  /** No union, and nothing optional on the right. */
  lemma {:induction false} BetweenSingles(a: Ty, b: Ty, c: Ty, sub: Oracle)
    requires Chain(a, b, c, sub) && !a.Never? && !a.Union? && !b.Union?
    requires !c.Optional? && !c.Union? && !c.Intersection?
    ensures Assignable(a, c, sub)
    decreases a, b, c, 1
  {
    hide Assignable, WellFormed, NominalOrder;
    if b.Intersection? {
      ThroughIntersection(a, b.members, c, sub);
    } else if a.Intersection? {
      FromIntersection(a, b, c, sub);
    } else if a.Function? {
      BetweenFunctions(a, b, c, sub);
    } else {
      BetweenOthers(a, b, c, sub);
    }
  }

  /** A union flows where each of its members flows: the least upper bound by position. */
  lemma UnionByPosition(fs: seq<Ty>, c: Ty, sub: Oracle)
    requires WellFormed(Union(fs)) && WellFormed(c)
    ensures Assignable(Union(fs), c, sub) <==> forall i :: 0 <= i < |fs| ==> Assignable(fs[i], c, sub)
    ensures forall i :: 0 <= i < |fs| ==> WellFormed(fs[i])
  {
    hide Assignable;
    UnionIsLeastUpperBound(fs, c, sub);
  }

  lemma {:induction false} FromUnion(a: Ty, b: Ty, c: Ty, sub: Oracle)
    requires Chain(a, b, c, sub) && a.Union?
    ensures Assignable(a, c, sub)
    decreases a, b, c, 0
  {
    hide Assignable, WellFormed, NominalOrder;
    var fs := a.members;
    UnionByPosition(fs, b, sub);
    UnionByPosition(fs, c, sub);
    forall i | 0 <= i < |fs| ensures Assignable(fs[i], c, sub) {
      AssignableTransitive(fs[i], b, c, sub);
    }
  }

  lemma UnderOptional(a: Ty, b: Ty, c: Ty, sub: Oracle)
    requires Chain(a, b, c, sub) && c.Optional? && !b.Optional? && !a.Union? && !a.Never? && !a.Null?
    ensures !a.Optional? && Chain(a, b, c.inner, sub)
  {
    if a.Optional? {
      OptionalOnlyIntoOptional(a, b, sub);
    }
    NothingElseIntoNull(a, sub);
  }

  /** The arms for optionals on the right. */
  lemma OptionalArms(a: Ty, c: Ty, sub: Oracle)
    requires a != Error && c.Optional?
    ensures a.Null? ==> Assignable(a, c, sub)
    ensures a.Optional? ==> (Assignable(a, c, sub) <==> Assignable(a.inner, c.inner, sub))
    ensures !a.Null? && !a.Optional? ==> (Assignable(a, c, sub) <==> Assignable(a, c.inner, sub))
  {
    hide HeadsAssignable;
  }

  lemma InnerWellFormed(t: Ty)
    requires WellFormed(t)
    ensures t != Error && (t.Optional? ==> WellFormed(t.inner))
  {
  }

  lemma {:induction false} IntoOptional(a: Ty, b: Ty, c: Ty, sub: Oracle)
    requires Chain(a, b, c, sub) && c.Optional? && !a.Union? && !a.Never?
    ensures Assignable(a, c, sub)
    decreases a, b, c, 0
  {
    hide Assignable, WellFormed, NominalOrder;
    InnerWellFormed(a);
    InnerWellFormed(b);
    InnerWellFormed(c);
    OptionalArms(a, c, sub);
    OptionalArms(b, c, sub);
    if b.Optional? {
      OptionalArms(a, b, sub);
      if a.Optional? {
        AssignableTransitive(a.inner, b.inner, c.inner, sub);
      } else if !a.Null? {
        AssignableTransitive(a, b.inner, c.inner, sub);
      }
    } else if !a.Null? {
      UnderOptional(a, b, c, sub);
      AssignableTransitive(a, b, c.inner, sub);
    }
  }

  /** The member of a union that carries a chain through it. */
  lemma CarryingUnionMember(a: Ty, bs: seq<Ty>, c: Ty, sub: Oracle) returns (t: Ty)
    requires WellFormed(a) && WellFormed(Union(bs)) && WellFormed(c) && !a.Union?
    requires Assignable(a, Union(bs), sub) && Assignable(Union(bs), c, sub)
    ensures t in bs && WellFormed(t) && Assignable(a, t, sub) && Assignable(t, c, sub)
  {
    UnionMembers(bs);
    hide Assignable, WellFormed;
    MemberSuffices(a, bs, sub);
    UnionIsLeastUpperBound(bs, c, sub);
    t :| t in bs && Assignable(a, t, sub);
  }

  lemma {:induction false} ThroughUnion(a: Ty, bs: seq<Ty>, c: Ty, sub: Oracle)
    requires Chain(a, Union(bs), c, sub) && !a.Union?
    ensures Assignable(a, c, sub)
    decreases a, Union(bs), c, 0
  {
    hide Assignable, WellFormed, NominalOrder;
    var t := CarryingUnionMember(a, bs, c, sub);
    AssignableTransitive(a, t, c, sub);
  }

  lemma {:induction false} IntoIntersection(a: Ty, b: Ty, c: Ty, sub: Oracle)
    requires Chain(a, b, c, sub) && c.Intersection?
    ensures Assignable(a, c, sub)
    decreases a, b, c, 0
  {
    NominalMembers(c.members);
    hide Assignable, WellFormed, NominalOrder;
    IntersectionIsGreatestLowerBound(b, c.members, sub);
    var ts := c.members;
    forall i | 0 <= i < |ts| ensures Assignable(a, ts[i], sub) {
      assert ts[i] in ts;
      AssignableTransitive(a, b, ts[i], sub);
    }
    IntersectionIsGreatestLowerBound(a, ts, sub);
  }

  /** The member of a union that a chain ends in. */
  lemma EndingMember(b: Ty, cs: seq<Ty>, sub: Oracle) returns (t: Ty)
    requires WellFormed(b) && WellFormed(Union(cs)) && !b.Union? && Assignable(b, Union(cs), sub)
    ensures t in cs && WellFormed(t) && Assignable(b, t, sub)
  {
    UnionMembers(cs);
    hide Assignable, WellFormed;
    MemberSuffices(b, cs, sub);
    t :| t in cs && Assignable(b, t, sub);
  }

  lemma IntoMember(a: Ty, t: Ty, cs: seq<Ty>, sub: Oracle)
    requires WellFormed(a) && WellFormed(Union(cs)) && !a.Union? && t in cs && Assignable(a, t, sub)
    ensures Assignable(a, Union(cs), sub)
  {
    hide Assignable, WellFormed;
    MemberSuffices(a, cs, sub);
  }

  lemma {:induction false} IntoUnion(a: Ty, b: Ty, c: Ty, sub: Oracle)
    requires Chain(a, b, c, sub) && c.Union? && !a.Union? && !b.Union?
    ensures Assignable(a, c, sub)
    decreases a, b, c, 0
  {
    hide Assignable, WellFormed, NominalOrder;
    var t := EndingMember(b, c.members, sub);
    AssignableTransitive(a, b, t, sub);
    IntoMember(a, t, c.members, sub);
  }

  lemma NominalMembers(ms: seq<Ty>)
    requires WellFormed(Intersection(ms))
    ensures forall m :: m in ms ==> WellFormed(m) && m.Named?
  {
  }

  /** The member of an intersection that carries a chain through it. */
  lemma CarryingMember(a: Ty, bs: seq<Ty>, c: Ty, sub: Oracle) returns (m: Ty)
    requires WellFormed(a) && WellFormed(Intersection(bs)) && c != Error
    requires !c.Optional? && !c.Union? && !c.Intersection?
    requires Assignable(a, Intersection(bs), sub) && Assignable(Intersection(bs), c, sub)
    ensures m in bs && WellFormed(m) && Assignable(a, m, sub) && Assignable(m, c, sub)
  {
    NominalMembers(bs);
    hide Assignable, WellFormed;
    IntersectionIsGreatestLowerBound(a, bs, sub);
    LeavesIntersectionArm(bs, c, sub);
    m :| m in bs && Assignable(m, c, sub);
  }

  lemma {:induction false} ThroughIntersection(a: Ty, bs: seq<Ty>, c: Ty, sub: Oracle)
    requires Chain(a, Intersection(bs), c, sub)
    requires !c.Optional? && !c.Union? && !c.Intersection?
    ensures Assignable(a, c, sub)
    decreases a, Intersection(bs), c, 0
  {
    hide Assignable, WellFormed, NominalOrder;
    NotPoison(c);
    var m := CarryingMember(a, bs, c, sub);
    AssignableTransitive(a, m, c, sub);
  }

  /** The member of an intersection that a chain starts in. */
  lemma StartingMember(fs: seq<Ty>, b: Ty, c: Ty, sub: Oracle) returns (m: Ty)
    requires WellFormed(Intersection(fs)) && WellFormed(b) && WellFormed(c) && !b.Union? && !b.Intersection?
    requires !c.Optional? && !c.Union? && !c.Intersection?
    requires Assignable(Intersection(fs), b, sub) && Assignable(b, c, sub)
    ensures m in fs && WellFormed(m) && Assignable(m, b, sub)
  {
    NominalMembers(fs);
    NotOptionalBelow(b, c, sub);
    hide Assignable, WellFormed;
    LeavesIntersectionArm(fs, b, sub);
    m :| m in fs && Assignable(m, b, sub);
  }

  lemma FromMember(m: Ty, fs: seq<Ty>, c: Ty, sub: Oracle)
    requires m in fs && Assignable(m, c, sub) && c != Error && !c.Optional? && !c.Union? && !c.Intersection?
    ensures Assignable(Intersection(fs), c, sub)
  {
    hide Assignable;
    LeavesIntersectionArm(fs, c, sub);
  }

  lemma {:induction false} FromIntersection(a: Ty, b: Ty, c: Ty, sub: Oracle)
    requires Chain(a, b, c, sub) && a.Intersection? && !b.Union? && !b.Intersection?
    requires !c.Optional? && !c.Union? && !c.Intersection?
    ensures Assignable(a, c, sub)
    decreases a, b, c, 0
  {
    hide Assignable, WellFormed, NominalOrder;
    var m := StartingMember(a.members, b, c, sub);
    AssignableTransitive(m, b, c, sub);
    NotPoison(c);
    FromMember(m, a.members, c, sub);
  }

  /** Nominal edges, list widening and `void` to `empty` compose. */
  lemma BetweenHeads(a: Ty, b: Ty, c: Ty, sub: Oracle)
    requires WellFormed(a) && WellFormed(b) && WellFormed(c) && NominalOrder(sub) && !b.Never?
    requires HeadsAssignable(a, b, sub) && HeadsAssignable(b, c, sub)
    ensures HeadsAssignable(a, c, sub)
  {
    if a.Named? && b.Named? && c.Named? {
      if a.name == b.name { MatchingArgsAreEqual(a, b); }
      if b.name == c.name { MatchingArgsAreEqual(b, c); }
    }
  }

  lemma BetweenOthers(a: Ty, b: Ty, c: Ty, sub: Oracle)
    requires Chain(a, b, c, sub) && !a.Function? && !a.Never? && !a.Union? && !a.Intersection?
    requires !b.Union? && !b.Intersection? && !c.Optional? && !c.Union? && !c.Intersection?
    ensures Assignable(a, c, sub)
  {
    NotPoison(a);
    hide Assignable, NominalOrder, WellFormed, HeadsAssignable;
    NotOptionalBelow(b, c, sub);
    if a.Null? {
      NullIntoOnly(b, sub);
    } else {
      NothingElseIntoNull(a, sub);
      OnlyHeads(a, b, sub);
      OnlyHeads(b, c, sub);
      NeverOnlyFromNever(a, sub);
      BetweenHeads(a, b, c, sub);
      OnlyHeads(a, c, sub);
    }
  }

  lemma NeverOnlyFromNever(a: Ty, sub: Oracle)
    ensures HeadsAssignable(a, Never, sub) ==> a.Never?
  {
  }

  /** What reaches the last arms of the match. */
  lemma OnlyHeads(a: Ty, b: Ty, sub: Oracle)
    requires a != Error && !a.Null? && !a.Union? && !a.Intersection? && !(a.Function? && b.Function?)
    requires b != Error && !b.Optional? && !b.Union? && !b.Intersection?
    ensures Assignable(a, b, sub) <==> HeadsAssignable(a, b, sub)
  {
    hide HeadsAssignable;
  }

  /** Coverage of `throws` composes. */
  lemma {:induction false} BetweenFunctions(a: Ty, b: Ty, c: Ty, sub: Oracle)
    requires Chain(a, b, c, sub) && a.Function? && !b.Union? && !b.Intersection?
    requires !c.Optional? && !c.Union? && !c.Intersection?
    ensures Assignable(a, c, sub)
    decreases a, b, c, 0
  {
    hide Assignable, WellFormed, NominalOrder;
    NotOptionalBelow(b, c, sub);
    FunctionInto(a, b, sub);
    FunctionInto(b, c, sub);
    forall f | f in a.throws ensures exists h :: h in c.throws && Assignable(f, h, sub) {
      var g :| g in b.throws && Assignable(f, g, sub);
      var h :| h in c.throws && Assignable(g, h, sub);
      ThrowsWellFormed(a, f);
      ThrowsWellFormed(b, g);
      ThrowsWellFormed(c, h);
      AssignableTransitive(f, g, h, sub);
    }
    FunctionInto(a, c, sub);
  }

  lemma NotOptionalBelow(b: Ty, c: Ty, sub: Oracle)
    requires WellFormed(b) && WellFormed(c) && Assignable(b, c, sub)
    requires !c.Optional? && !c.Union? && !c.Intersection?
    ensures !b.Optional? && b != Error && c != Error
  {
  }

  lemma ThrowsWellFormed(t: Ty, e: Ty)
    requires WellFormed(t) && t.Function? && e in t.throws
    ensures WellFormed(e)
  {
  }

  /** A function type reaches only function types with the same signature that cover its `throws`. */
  lemma FunctionInto(a: Ty, b: Ty, sub: Oracle)
    requires a.Function? && b != Error && !b.Optional? && !b.Union? && !b.Intersection?
    ensures Assignable(a, b, sub) <==>
              b.Function? && a.params == b.params && a.ret == b.ret
              && forall f :: f in a.throws ==> exists t :: t in b.throws && Assignable(f, t, sub)
  {
  }

  /** Poison unifies with everything, so it must be kept out of any claim of transitivity, at the top
      and as a type argument. */
  lemma PoisonBreaksTransitivity(a: Ty, b: Ty, name: string, sub: Oracle)
    requires a != b && a != Error && b != Error
    ensures Assignable(a, Error, sub) && Assignable(Error, b, sub)
    ensures Assignable(Named(name, [a]), Named(name, [Error]), sub)
    ensures Assignable(Named(name, [Error]), Named(name, [b]), sub)
    ensures !Assignable(Named(name, [a]), Named(name, [b]), sub)
  {
    assert !ArgsMatch([a], [b]) by { assert [a][0] != [b][0]; }
  }
}
