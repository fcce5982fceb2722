/** Reachability over the name graphs behind `extends` and `implements`. Names without an entry have no
    successors; cycles are allowed everywhere except where `Acyclic` is required. */
module Graph {

  type Name = string
  type Edges = map<Name, seq<Name>>

  function Next(g: Edges, n: Name): seq<Name> {
    if n in g then g[n] else []
  }

  /** `b` is reached from `a` by exactly `k` edges. */
  ghost predicate Steps(g: Edges, a: Name, b: Name, k: nat)
    decreases k
  {
    if k == 0 then a == b else exists m :: Steps(g, a, m, k - 1) && b in Next(g, m)
  }

  ghost predicate Reaches(g: Edges, a: Name, b: Name) {
    exists k: nat :: Steps(g, a, b, k)
  }

  /** `b` is reached from `a` by one or more edges. */
  ghost predicate Above(g: Edges, a: Name, b: Name) {
    exists m :: Reaches(g, a, m) && b in Next(g, m)
  }

  ghost predicate Acyclic(g: Edges) {
    forall n :: !Above(g, n, n)
  }

  /** Every name an edge mentions. */
  ghost function Targets(g: Edges): set<Name> {
    set n, t | n in g && t in g[n] :: t
  }

  lemma NextInTargets(g: Edges, n: Name)
    ensures forall t :: t in Next(g, n) ==> t in Targets(g)
  {
  }

  lemma ReachesSelf(g: Edges, a: Name)
    ensures Reaches(g, a, a)
  {
    assert Steps(g, a, a, 0);
  }

  lemma ReachesThenEdge(g: Edges, a: Name, b: Name, c: Name)
    requires Reaches(g, a, b) && c in Next(g, b)
    ensures Reaches(g, a, c) && Above(g, a, c)
  {
    var k: nat :| Steps(g, a, b, k);
    assert Steps(g, a, c, k + 1);
  }

  lemma {:induction false} StepsCompose(g: Edges, a: Name, b: Name, c: Name, j: nat, k: nat)
    requires Steps(g, a, b, j) && Steps(g, b, c, k)
    ensures Steps(g, a, c, j + k)
    decreases k
  {
    if k > 0 {
      var m :| Steps(g, b, m, k - 1) && c in Next(g, m);
      StepsCompose(g, a, b, m, j, k - 1);
      assert Steps(g, a, m, j + k - 1);
    }
  }

  lemma ReachesTransitive(g: Edges, a: Name, b: Name, c: Name)
    requires Reaches(g, a, b) && Reaches(g, b, c)
    ensures Reaches(g, a, c)
  {
    var j: nat, k: nat :| Steps(g, a, b, j) && Steps(g, b, c, k);
    StepsCompose(g, a, b, c, j, k);
  }

  lemma EdgeThenReaches(g: Edges, a: Name, b: Name, c: Name)
    requires b in Next(g, a) && Reaches(g, b, c)
    ensures Above(g, a, c) && Reaches(g, a, c)
  {
    ReachesSelf(g, a);
    ReachesThenEdge(g, a, a, b);
    var k: nat :| Steps(g, b, c, k);
    if k > 0 {
      var m :| Steps(g, b, m, k - 1) && c in Next(g, m);
      assert Reaches(g, b, m);
      ReachesTransitive(g, a, b, m);
      ReachesThenEdge(g, a, m, c);
    }
  }

  lemma AboveIsStrictReach(g: Edges, a: Name, b: Name)
    ensures Above(g, a, b) ==> Reaches(g, a, b) && b in Targets(g)
    ensures Reaches(g, a, b) ==> a == b || Above(g, a, b)
  {
    if Above(g, a, b) {
      var m :| Reaches(g, a, m) && b in Next(g, m);
      ReachesThenEdge(g, a, m, b);
    }
    if Reaches(g, a, b) {
      var k: nat :| Steps(g, a, b, k);
      if k > 0 {
        var m :| Steps(g, a, m, k - 1) && b in Next(g, m);
        assert Reaches(g, a, m);
      }
    }
  }

  lemma AboveThenReaches(g: Edges, a: Name, b: Name, c: Name)
    requires Above(g, a, b) && Reaches(g, b, c)
    ensures Above(g, a, c)
  {
    AboveIsStrictReach(g, b, c);
    if b != c {
      var m :| Reaches(g, b, m) && c in Next(g, m);
      AboveIsStrictReach(g, a, b);
      ReachesTransitive(g, a, b, m);
    }
  }

  lemma ReachesThenAbove(g: Edges, a: Name, b: Name, c: Name)
    requires Reaches(g, a, b) && Above(g, b, c)
    ensures Above(g, a, c)
  {
    var m :| Reaches(g, b, m) && c in Next(g, m);
    ReachesTransitive(g, a, b, m);
  }

  /** The first edge of a path of at least one edge. */
  lemma {:induction false} AboveFirstEdge(g: Edges, a: Name, b: Name) returns (p: Name)
    requires Above(g, a, b)
    ensures p in Next(g, a) && Reaches(g, p, b)
  {
    var m :| Reaches(g, a, m) && b in Next(g, m);
    var k: nat :| Steps(g, a, m, k);
    p := FirstEdge(g, a, m, b, k);
  }

  lemma {:induction false} FirstEdge(g: Edges, a: Name, m: Name, b: Name, k: nat) returns (p: Name)
    requires Steps(g, a, m, k) && b in Next(g, m)
    ensures p in Next(g, a) && Reaches(g, p, b)
    decreases k
  {
    if k == 0 {
      p := b;
      ReachesSelf(g, b);
    } else {
      var l :| Steps(g, a, l, k - 1) && m in Next(g, l);
      p := FirstEdge(g, a, l, m, k - 1);
      ReachesThenEdge(g, p, m, b);
    }
  }

  /** A set that holds `a` and is closed under edges holds everything `a` reaches. */
  lemma {:induction false} ClosedHoldsReached(g: Edges, s: set<Name>, a: Name, b: Name)
    requires a in s && (forall x, y :: x in s && y in Next(g, x) ==> y in s)
    requires Reaches(g, a, b)
    ensures b in s
  {
    var k: nat :| Steps(g, a, b, k);
    ClosedHoldsSteps(g, s, a, b, k);
  }

  lemma {:induction false} ClosedHoldsSteps(g: Edges, s: set<Name>, a: Name, b: Name, k: nat)
    requires a in s && (forall x, y :: x in s && y in Next(g, x) ==> y in s)
    requires Steps(g, a, b, k)
    ensures b in s
    decreases k
  {
    if k > 0 {
      var m :| Steps(g, a, m, k - 1) && b in Next(g, m);
      ClosedHoldsSteps(g, s, a, m, k - 1);
    }
  }

  // ----- Heights: the measure that acyclicity gives -----

  /** Everything strictly above `n`, as a finite set. */
  ghost function AboveSet(g: Edges, n: Name): set<Name> {
    set x | x in Targets(g) && Above(g, n, x)
  }

  ghost function Height(g: Edges, n: Name): nat {
    |AboveSet(g, n)|
  }

  lemma AboveSetIsAbove(g: Edges, n: Name, x: Name)
    ensures x in AboveSet(g, n) <==> Above(g, n, x)
  {
    AboveIsStrictReach(g, n, x);
  }

  lemma SubsetIsSmaller<T>(a: set<T>, b: set<T>)
    requires a < b
    ensures |a| < |b|
  {
    assert b == a + (b - a) && |b - a| > 0 && |a + (b - a)| == |a| + |b - a|;
  }

  lemma HeightDrops(g: Edges, n: Name, x: Name)
    requires Acyclic(g) && Above(g, n, x)
    ensures Height(g, x) < Height(g, n)
  {
    forall y | y in AboveSet(g, x) ensures y in AboveSet(g, n) {
      AboveIsStrictReach(g, n, x);
      ReachesThenAbove(g, n, x, y);
    }
    AboveSetIsAbove(g, n, x);
    assert x !in AboveSet(g, x);
    SubsetIsSmaller(AboveSet(g, x), AboveSet(g, n));
  }

  lemma HeightsDrop(g: Edges, n: Name)
    requires Acyclic(g)
    ensures forall p :: p in Next(g, n) ==> Height(g, p) < Height(g, n)
  {
    forall p | p in Next(g, n) ensures Height(g, p) < Height(g, n) {
      ReachesSelf(g, n);
      HeightDrops(g, n, p);
    }
  }

  // ----- Search orders -----

  function Visited(xs: seq<Name>): set<Name> {
    set x | x in xs
  }

  predicate NoRepeats(xs: seq<Name>) {
    forall i, j :: 0 <= i < j < |xs| ==> xs[i] != xs[j]
  }

  /** Any search from `c`: every later name is a successor of an earlier one, each is visited once, and
      nothing reachable is missed. Breadth-first and depth-first orders are both of this kind. */
  ghost predicate SearchOrder(g: Edges, c: Name, xs: seq<Name>) {
    && xs != [] && xs[0] == c && NoRepeats(xs)
    && (forall j {:trigger HasEarlierPredecessor(g, xs, j)} :: 0 < j < |xs| ==> HasEarlierPredecessor(g, xs, j))
    && (forall x :: x in xs <==> Reaches(g, c, x))
  }

  ghost predicate HasEarlierPredecessor(g: Edges, xs: seq<Name>, j: int)
    requires 0 <= j < |xs|
  {
    exists i :: 0 <= i < j && xs[j] in Next(g, xs[i])
  }
}
