/** Inherited static members: class constants (`class_consts`, src/ast/class_layout.rs) flatten the
    hierarchy recursively, static fields (`static_field_owners`, src/ast/static_owners.rs) walk
    `class_lookup_order`. Both bind a name to the first hit along that one order. */
module MemberLookup {
  import opened Ast
  import opened Graph
  import D = Declarations
  import H = ClassHierarchy
  import opened SearchOrders

  // ----- Flattening, in general -----

  type Bindings<!V> = map<Name, V>

  function At<K, V>(m: map<K, V>, n: K): Option<V> {
    if n in m then Some(m[n]) else None
  }

  function OrElse<V>(a: Option<V>, b: Option<V>): Option<V> {
    if a.Some? then a else b
  }

  /** What a class itself offers. */
  function Here<V>(here: map<Name, Bindings<V>>, c: Name): Bindings<V> {
    if c in here then here[c] else map[]
  }

  /** A class's members over its parents' in order: whoever is nearer in that recursion wins. */
  ghost function Flattened<V>(g: Edges, here: map<Name, Bindings<V>>, c: Name): Bindings<V>
    requires Acyclic(g)
    decreases Height(g, c), 1, 0
  {
    HeightsDrop(g, c);
    FlattenedAll(g, here, Next(g, c), Height(g, c)) + Here(here, c)
  }

  ghost function FlattenedAll<V>(g: Edges, here: map<Name, Bindings<V>>, ps: seq<Name>, h: nat): Bindings<V>
    requires Acyclic(g) && forall p :: p in ps ==> Height(g, p) < h
    decreases h, 0, |ps|
  {
    if ps == [] then map[]
    else Flattened(g, here, ps[|ps| - 1]) + FlattenedAll(g, here, ps[..|ps| - 1], h)
  }

  /** The first class of the list that offers `n`. */
  function FirstHit<V>(here: map<Name, Bindings<V>>, n: Name, xs: seq<Name>): Option<V> {
    if xs == [] then None
    else OrElse(FirstHit(here, n, xs[..|xs| - 1]), At(Here(here, xs[|xs| - 1]), n))
  }

  /** While `n` is not found, everything listed is either still being walked or offers nothing. */
  ghost predicate Settled<V>(g: Edges, here: map<Name, Bindings<V>>, n: Name, out: seq<Name>, ps: seq<Name>)
    requires Acyclic(g)
  {
    FirstHit(here, n, out).None? ==>
      forall x, p :: x in out && p in ps ==> Above(g, x, p) || n !in Flattened(g, here, x)
  }

  /** Everything a walk adds without finding `n` offers nothing. */
  ghost predicate AddedNothing<V>(g: Edges, here: map<Name, Bindings<V>>, n: Name, out: seq<Name>, after: seq<Name>)
    requires Acyclic(g)
  {
    out <= after && (FirstHit(here, n, after).None? ==>
                       forall x :: x in after && x !in out ==> n !in Flattened(g, here, x))
  }

  /** Entering `c`: what is listed so far is settled for its parents too. */
  lemma SettledNext<V>(g: Edges, here: map<Name, Bindings<V>>, n: Name, c: Name, out: seq<Name>)
    requires Acyclic(g) && Settled(g, here, n, out, [c]) && c !in out
    ensures Settled(g, here, n, out + [c], Next(g, c))
  {
    hide Flattened, Above;
    var next := out + [c];
    assert next[..|next| - 1] == out;
    if FirstHit(here, n, next).None? {
      forall x, p | x in next && p in Next(g, c) ensures Above(g, x, p) || n !in Flattened(g, here, x) {
        ReachesSelf(g, c);
        ReachesThenEdge(g, c, c, p);
        if x == c {
          AboveOne(g, c, p);
        } else {
          assert x in out && c in [c];
          if Above(g, x, c) { AboveThenReaches(g, x, c, p); }
        }
      }
    }
  }

  lemma AboveOne(g: Edges, c: Name, p: Name)
    requires p in Next(g, c)
    ensures Above(g, c, p)
  {
    ReachesSelf(g, c);
    ReachesThenEdge(g, c, c, p);
  }

  /** The depth-first walk with its visited list finds what the unguarded recursion finds. */
  lemma {:induction false} WalkFinds<V>(g: Edges, here: map<Name, Bindings<V>>, n: Name, c: Name, out: seq<Name>)
    requires Acyclic(g) && Settled(g, here, n, out, [c])
    ensures FirstHit(here, n, DepthFirst(g, c, out)) == OrElse(FirstHit(here, n, out), At(Flattened(g, here, c), n))
    ensures AddedNothing(g, here, n, out, DepthFirst(g, c, out))
    decreases Height(g, c), 1, 0
  {
    if c in out {
      assert c in [c];
    } else {
      HeightsDrop(g, c);
      var next := out + [c];
      assert next[..|next| - 1] == out;
      SettledNext(g, here, n, c, out);
      WalkAllFinds(g, here, n, Next(g, c), next, Height(g, c));
      hide Settled, Above, FlattenedAll, DepthFirstAll;
      var after := DepthFirstAll(g, Next(g, c), next, Height(g, c));
      forall x | x in after && x !in out && x != c
        ensures FirstHit(here, n, after).None? ==> n !in Flattened(g, here, x)
      {
        assert x !in next;
      }
      assert out <= next <= after;
    }
  }

  lemma {:induction false} WalkAllFinds<V>(g: Edges, here: map<Name, Bindings<V>>, n: Name, ps: seq<Name>,
                                           out: seq<Name>, h: nat)
    requires Acyclic(g) && (forall p :: p in ps ==> Height(g, p) < h) && Settled(g, here, n, out, ps)
    ensures FirstHit(here, n, DepthFirstAll(g, ps, out, h)) == OrElse(FirstHit(here, n, out), At(FlattenedAll(g, here, ps, h), n))
    ensures AddedNothing(g, here, n, out, DepthFirstAll(g, ps, out, h))
    decreases h, 0, |ps|
  {
    if ps != [] {
      var before, last := ps[..|ps| - 1], ps[|ps| - 1];
      WalkAllFinds(g, here, n, before, out, h);
      var mid := DepthFirstAll(g, before, out, h);
      forall x | x in mid ensures FirstHit(here, n, mid).None? ==> Above(g, x, last) || n !in Flattened(g, here, x) {
        if FirstHit(here, n, mid).None? && x in out {
          assert FirstHit(here, n, out).None? && last in ps;
        }
      }
      WalkFinds(g, here, n, last, mid);
      forall x | x in DepthFirst(g, last, mid) && x !in out
        ensures FirstHit(here, n, DepthFirst(g, last, mid)).None? ==> n !in Flattened(g, here, x)
      {
        if FirstHit(here, n, DepthFirst(g, last, mid)).None? {
          assert FirstHit(here, n, mid).None?;
        }
      }
    }
  }

  /** Flattening binds every name to the first hit along the lookup order. */
  lemma FlattenedIsFirstHit<V>(g: Edges, here: map<Name, Bindings<V>>, n: Name, c: Name)
    requires Acyclic(g)
    ensures At(Flattened(g, here, c), n) == FirstHit(here, n, DepthFirst(g, c, []))
  {
    WalkFinds(g, here, n, c, []);
  }
}
