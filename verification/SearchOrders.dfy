/** The two orders ancestors are searched in: breadth-first `class_mro` (src/ast/class_hierarchy.rs) and
    depth-first `class_lookup_order` (src/ast/static_owners.rs). */
module SearchOrders {
  import opened Declarations
  import opened Graph
  import opened ClassHierarchy

  // ----- Breadth first -----

  /** `x` is `k` edges away from some name in `start`. */
  ghost predicate Away(g: Edges, start: seq<Name>, x: Name, k: nat)
    decreases k
  {
    if k == 0 then x in start else exists m :: Away(g, start, m, k - 1) && x in Next(g, m)
  }

  lemma {:induction false} AwayIsSteps(g: Edges, c: Name, x: Name, k: nat)
    ensures Away(g, Next(g, c), x, k) <==> Steps(g, c, x, k + 1)
    decreases k
  {
    if k == 0 {
      assert x in Next(g, c) ==> Steps(g, c, c, 0);
    } else {
      forall m ensures Away(g, Next(g, c), m, k - 1) <==> Steps(g, c, m, k) {
        AwayIsSteps(g, c, m, k - 1);
      }
    }
  }

  ghost predicate Found(g: Edges, start: seq<Name>, x: Name) {
    exists k: nat :: Away(g, start, x, k)
  }

  /** No name is listed before one that is strictly nearer to the start. */
  ghost predicate NearestFirst(g: Edges, start: seq<Name>, order: seq<Name>) {
    forall i, j, k: nat {:trigger WithinReach(g, start, order[i], k), order[j]} ::
      0 <= i < j < |order| && Away(g, start, order[j], k) ==> WithinReach(g, start, order[i], k)
  }

  ghost predicate WithinReach(g: Edges, start: seq<Name>, x: Name, k: nat) {
    exists d: nat :: d <= k && Away(g, start, x, d)
  }

  /** Every name is in `start` or succeeds an earlier one. */
  ghost predicate Rooted(g: Edges, start: seq<Name>, order: seq<Name>) {
    forall j {:trigger HasEarlierPredecessor(g, order, j)} ::
      0 <= j < |order| ==> order[j] in start || HasEarlierPredecessor(g, order, j)
  }

  /** What the breadth-first walk from `start` returns. */
  ghost predicate BreadthFirst(g: Edges, start: seq<Name>, order: seq<Name>) {
    && NoRepeats(order)
    && (forall x :: x in order <==> Found(g, start, x))
    && Rooted(g, start, order)
    && NearestFirst(g, start, order)
  }

  /** `x` sits in the queue at some depth up to `d`. */
  ghost predicate Queued(queue: seq<Name>, depth: seq<nat>, x: Name, d: int)
    requires |queue| == |depth|
  {
    exists j :: 0 <= j < |queue| && queue[j] == x && depth[j] <= d
  }

  lemma QueuedStays(queue: seq<Name>, depth: seq<nat>, moreQueue: seq<Name>, moreDepth: seq<nat>)
    requires |queue| == |depth| && |moreQueue| == |moreDepth|
    ensures forall x, d :: Queued(queue, depth, x, d) ==> Queued(queue + moreQueue, depth + moreDepth, x, d)
  {
    forall x, d | Queued(queue, depth, x, d) ensures Queued(queue + moreQueue, depth + moreDepth, x, d) {
      var j :| 0 <= j < |queue| && queue[j] == x && depth[j] <= d;
      assert (queue + moreQueue)[j] == x && (depth + moreDepth)[j] == depth[j];
    }
  }

  /** The queue as the walk sees it: levels in order, and everything already taken has its successors
      queued one level further. */
  ghost predicate Levels(g: Edges, start: seq<Name>, queue: seq<Name>, depth: seq<nat>, i: nat, dist: map<Name, nat>) {
    && |queue| == |depth| && i <= |queue|
    && (forall a, b :: 0 <= a < b < |queue| ==> depth[a] <= depth[b])
    && AllQueued(queue, depth, start, 0)
    && (forall a :: 0 <= a < i ==> queue[a] in dist && dist[queue[a]] <= depth[a])
    && (forall x {:trigger x in dist} :: x in dist ==> AllQueued(queue, depth, Next(g, x), dist[x] + 1))
  }

  ghost predicate AllQueued(queue: seq<Name>, depth: seq<nat>, xs: seq<Name>, d: int)
    requires |queue| == |depth|
  {
    forall x :: x in xs ==> Queued(queue, depth, x, d)
  }

  /** Everything queued is in `start` or succeeds a name already listed. */
  ghost predicate SucceedsListed(g: Edges, start: seq<Name>, order: seq<Name>, x: Name) {
    x in start || exists b :: 0 <= b < |order| && x in Next(g, order[b])
  }

  /** Everything within the level now being taken is in the queue. */
  lemma {:induction false} LevelComplete(g: Edges, start: seq<Name>, queue: seq<Name>, depth: seq<nat>, i: nat,
                                         dist: map<Name, nat>, x: Name, k: nat)
    requires Levels(g, start, queue, depth, i, dist)
    requires Away(g, start, x, k) && (i < |queue| ==> k <= depth[i])
    ensures Queued(queue, depth, x, k)
    decreases k
  {
    if k == 0 {
      assert AllQueued(queue, depth, start, 0);
    } else {
      var m :| Away(g, start, m, k - 1) && x in Next(g, m);
      LevelComplete(g, start, queue, depth, i, dist, m, k - 1);
      var j :| 0 <= j < |queue| && queue[j] == m && depth[j] <= k - 1;
      assert j < i;
      assert m in dist && AllQueued(queue, depth, Next(g, m), dist[m] + 1);
      assert Queued(queue, depth, x, dist[m] + 1);
      var l :| 0 <= l < |queue| && queue[l] == x && depth[l] <= dist[m] + 1;
    }
  }

  ghost predicate Distances(g: Edges, start: seq<Name>, order: seq<Name>, dist: map<Name, nat>) {
    && (forall x :: x in dist <==> x in order)
    && (forall x {:trigger Away(g, start, x, dist[x])} :: x in dist ==> Away(g, start, x, dist[x]))
    && (forall x, k: nat {:trigger Away(g, start, x, k)} :: x in dist && Away(g, start, x, k) ==> dist[x] <= k)
    && (forall a, b :: 0 <= a < b < |order| ==> dist[order[a]] <= dist[order[b]])
  }

  lemma ListedMore(g: Edges, start: seq<Name>, order: seq<Name>, p: Name, x: Name)
    requires SucceedsListed(g, start, order, x)
    ensures SucceedsListed(g, start, order + [p], x)
  {
    if x !in start {
      var b :| 0 <= b < |order| && x in Next(g, order[b]);
      assert (order + [p])[b] == order[b];
    }
  }

  lemma ListingStaysRooted(g: Edges, start: seq<Name>, order: seq<Name>, p: Name)
    requires Rooted(g, start, order) && SucceedsListed(g, start, order, p)
    ensures Rooted(g, start, order + [p])
  {
    var more := order + [p];
    forall j | 0 <= j < |more| ensures more[j] in start || HasEarlierPredecessor(g, more, j) {
      if j < |order| {
        assert order[j] in start || HasEarlierPredecessor(g, order, j);
        if order[j] !in start {
          var b :| 0 <= b < j && order[j] in Next(g, order[b]);
          assert more[j] in Next(g, more[b]);
        }
      } else if p !in start {
        var b :| 0 <= b < |order| && p in Next(g, order[b]);
        assert more[j] in Next(g, more[b]);
      }
    }
  }

  /** Taking a name not seen before: its depth is its distance. */
  lemma TakeNewDistances(g: Edges, start: seq<Name>, order: seq<Name>, queue: seq<Name>, depth: seq<nat>, i: nat,
                         dist: map<Name, nat>)
    requires Levels(g, start, queue, depth, i, dist) && Distances(g, start, order, dist)
    requires i < |queue| && queue[i] !in dist && Away(g, start, queue[i], depth[i])
    requires Frontier(depth, depth[i], dist)
    ensures Distances(g, start, order + [queue[i]], dist[queue[i] := depth[i]])
  {
    var p, d := queue[i], depth[i];
    var dist' := dist[p := d];
    forall k: nat | Away(g, start, p, k) ensures d <= k {
      if k < d {
        LevelComplete(g, start, queue, depth, i, dist, p, k);
      }
    }
    forall x | x in dist' ensures Away(g, start, x, dist'[x]) {
      assert x != p ==> Away(g, start, x, dist[x]);
    }
  }

  /** Taking a name not seen before: its successors join the queue one level further. */
  lemma TakeNewLevels(g: Edges, start: seq<Name>, queue: seq<Name>, depth: seq<nat>, i: nat, dist: map<Name, nat>,
                      level: seq<nat>)
    requires Levels(g, start, queue, depth, i, dist)
    requires i < |queue| && queue[i] !in dist && Frontier(depth, depth[i], dist)
    requires |level| == |Next(g, queue[i])| && forall a :: 0 <= a < |level| ==> level[a] == depth[i] + 1
    ensures Levels(g, start, queue + Next(g, queue[i]), depth + level, i + 1, dist[queue[i] := depth[i]])
  {
    var p, d, gps := queue[i], depth[i], Next(g, queue[i]);
    var queue', depth', dist' := queue + gps, depth + level, dist[p := d];
    QueuedStays(queue, depth, gps, level);
    forall y | y in gps ensures Queued(queue', depth', y, d + 1) {
      var j :| 0 <= j < |gps| && gps[j] == y;
      assert queue'[|queue| + j] == y && depth'[|queue| + j] == d + 1;
    }
    assert AllQueued(queue', depth', start, 0) by {
      assert AllQueued(queue, depth, start, 0);
    }
    forall x | x in dist' ensures AllQueued(queue', depth', Next(g, x), dist'[x] + 1) {
      if x != p {
        assert AllQueued(queue, depth, Next(g, x), dist[x] + 1);
      }
    }
  }

  /** With the queue used up, the order is complete and nearest-first. */
  lemma SearchDone(g: Edges, start: seq<Name>, order: seq<Name>, seen: set<Name>, queue: seq<Name>)
    requires Searched(g, start, order, seen, queue, |queue|)
    ensures BreadthFirst(g, start, order)
  {
    var depth: seq<nat>, dist: map<Name, nat> :| dist.Keys == seen && Searching(g, start, order, queue, depth, |queue|, dist);
    forall x ensures x in order <==> Found(g, start, x) {
      if x in order {
        assert Away(g, start, x, dist[x]);
      }
      if Found(g, start, x) {
        var k: nat :| Away(g, start, x, k);
        LevelComplete(g, start, queue, depth, |queue|, dist, x, k);
      }
    }
    forall a, b, k: nat | 0 <= a < b < |order| && Away(g, start, order[b], k)
      ensures WithinReach(g, start, order[a], k)
    {
      assert dist[order[a]] <= k && Away(g, start, order[a], dist[order[a]]);
    }
  }

  lemma SuccessorsAway(g: Edges, start: seq<Name>, queue: seq<Name>, depth: seq<nat>, p: Name, d: nat, level: seq<nat>)
    requires |queue| == |depth| && Away(g, start, p, d)
    requires AllAway(g, start, queue, depth)
    requires |level| == |Next(g, p)| && forall a :: 0 <= a < |level| ==> level[a] == d + 1
    ensures AllAway(g, start, queue + Next(g, p), depth + level)
  {
    forall a | 0 <= a < |queue + Next(g, p)| ensures Away(g, start, (queue + Next(g, p))[a], (depth + level)[a]) {
      if a < |queue| {
        assert Away(g, start, queue[a], depth[a]);
      } else {
        assert (queue + Next(g, p))[a] in Next(g, p);
      }
    }
  }

  lemma SuccessorsListed(g: Edges, start: seq<Name>, order: seq<Name>, queue: seq<Name>, p: Name)
    requires AllListed(g, start, order, queue)
    ensures AllListed(g, start, order + [p], queue + Next(g, p))
  {
    forall a | 0 <= a < |queue + Next(g, p)| ensures SucceedsListed(g, start, order + [p], (queue + Next(g, p))[a]) {
      if a < |queue| {
        assert SucceedsListed(g, start, order, queue[a]);
        ListedMore(g, start, order, p, queue[a]);
      } else {
        assert (queue + Next(g, p))[a] in Next(g, (order + [p])[|order|]);
      }
    }
  }

  /** The whole loop invariant. */
  ghost predicate Searching(g: Edges, start: seq<Name>, order: seq<Name>, queue: seq<Name>, depth: seq<nat>, i: nat,
                            dist: map<Name, nat>) {
    && Levels(g, start, queue, depth, i, dist) && Distances(g, start, order, dist)
    && Rooted(g, start, order) && NoRepeats(order)
    && AllAway(g, start, queue, depth) && AllListed(g, start, order, queue)
    && (i < |queue| ==> Frontier(depth, depth[i], dist))
  }

  ghost predicate AllAway(g: Edges, start: seq<Name>, queue: seq<Name>, depth: seq<nat>)
    requires |queue| == |depth|
  {
    forall a {:trigger Away(g, start, queue[a], depth[a])} ::
      0 <= a < |queue| ==> Away(g, start, queue[a], depth[a])
  }

  ghost predicate AllListed(g: Edges, start: seq<Name>, order: seq<Name>, queue: seq<Name>) {
    forall a {:trigger SucceedsListed(g, start, order, queue[a])} ::
      0 <= a < |queue| ==> SucceedsListed(g, start, order, queue[a])
  }

  /** The level being taken: nothing queued is more than one level further, nothing taken is further. */
  ghost predicate Frontier(depth: seq<nat>, d: nat, dist: map<Name, nat>) {
    (forall a :: 0 <= a < |depth| ==> depth[a] <= d + 1) && (forall x :: x in dist ==> dist[x] <= d)
  }

  /** The walk's state: some assignment of depths to the queue and distances to the names seen fits. */
  ghost predicate Searched(g: Edges, start: seq<Name>, order: seq<Name>, seen: set<Name>, queue: seq<Name>, i: nat) {
    exists depth: seq<nat>, dist: map<Name, nat> :: dist.Keys == seen && Searching(g, start, order, queue, depth, i, dist)
  }

  lemma SearchStarts(g: Edges, start: seq<Name>)
    ensures Searched(g, start, [], {}, start, 0)
  {
    var depth: seq<nat> := seq(|start|, _ => 0);
    assert AllQueued(start, depth, start, 0);
    assert Searching(g, start, [], start, depth, 0, map[]);
  }

  lemma StepSeen(g: Edges, start: seq<Name>, order: seq<Name>, seen: set<Name>, queue: seq<Name>, i: nat)
    requires i < |queue| && queue[i] in seen && Searched(g, start, order, seen, queue, i)
    ensures Searched(g, start, order, seen, queue, i + 1)
  {
    var depth: seq<nat>, dist: map<Name, nat> :| dist.Keys == seen && Searching(g, start, order, queue, depth, i, dist);
    assert Levels(g, start, queue, depth, i + 1, dist);
    assert i + 1 < |queue| ==> depth[i] <= depth[i + 1];
    assert Searching(g, start, order, queue, depth, i + 1, dist);
  }

  lemma StepNew(g: Edges, start: seq<Name>, order: seq<Name>, seen: set<Name>, queue: seq<Name>, i: nat)
    requires i < |queue| && queue[i] !in seen && Searched(g, start, order, seen, queue, i)
    ensures Searched(g, start, order + [queue[i]], seen + {queue[i]}, queue + Next(g, queue[i]), i + 1)
  {
    var depth: seq<nat>, dist: map<Name, nat> :| dist.Keys == seen && Searching(g, start, order, queue, depth, i, dist);
    var p, d, gps := queue[i], depth[i], Next(g, queue[i]);
    var level: seq<nat> := seq(|gps|, _ => d + 1);
    assert Away(g, start, queue[i], depth[i]) && SucceedsListed(g, start, order, queue[i]);
    TakeNewDistances(g, start, order, queue, depth, i, dist);
    TakeNewLevels(g, start, queue, depth, i, dist, level);
    ListingStaysRooted(g, start, order, p);
    SuccessorsAway(g, start, queue, depth, p, d, level);
    SuccessorsListed(g, start, order, queue, p);
    NewFrontier(depth, level, i, p, dist);
    assert Searching(g, start, order + [p], queue + gps, depth + level, i + 1, dist[p := d]);
  }

  lemma NewFrontier(depth: seq<nat>, level: seq<nat>, i: nat, p: Name, dist: map<Name, nat>)
    requires i < |depth| && Frontier(depth, depth[i], dist)
    requires forall a, b :: 0 <= a < b < |depth| ==> depth[a] <= depth[b]
    requires forall a :: 0 <= a < |level| ==> level[a] == depth[i] + 1
    ensures i + 1 < |depth + level| ==> Frontier(depth + level, (depth + level)[i + 1], dist[p := depth[i]])
  {
  }

  method Mro(g: Edges, start: seq<Name>) returns (order: seq<Name>)
    ensures BreadthFirst(g, start, order)
  {
    order := [];
    var seen: set<Name> := {};
    var queue := start;
    var i := 0;
    ghost var universe := Visited(start) + Targets(g);
    SearchStarts(g, start);
    while i < |queue|
      invariant i <= |queue| && seen <= universe && Searched(g, start, order, seen, queue, i)
      invariant forall x :: x in queue ==> x in universe
      decreases universe - seen, |queue| - i
    {
      var p := queue[i];
      if p in seen {
        StepSeen(g, start, order, seen, queue, i);
        i := i + 1;
        continue;
      }
      StepNew(g, start, order, seen, queue, i);
      i := i + 1;
      NextInTargets(g, p);
      seen := seen + {p};
      order := order + [p];
      queue := queue + Next(g, p);
    }
    SearchDone(g, start, order, seen, queue);
  }

  /** The resolution order of every class. */
  method ClassMro(p: Program) returns (out: map<Name, seq<Name>>)
    ensures forall c :: c in out <==> IsClass(p, c)
    ensures forall c :: c in out ==> BreadthFirst(ClassExtends(p), Next(ClassExtends(p), c), out[c])
  {
    var parents, _, _ := CollectEdges(p);
    out := map[];
    for i := 0 to |p|
      invariant forall c :: c in out <==> IsClass(p[..i], c)
      invariant forall c :: c in out ==> BreadthFirst(parents, Next(ClassExtends(p[..i]), c), out[c])
    {
      assert p[..i + 1] == p[..i] + [p[i]];
      PrefixClasses(p, i);
      if p[i].ClassItem? {
        var order := Mro(parents, p[i].extends_);
        out := out[p[i].name := order];
      }
    }
    assert p[..|p|] == p;
  }

  /** `class_mro` lists the same classes as `class_supertypes`, on cyclic graphs too. */
  lemma MroIsAbove(g: Edges, c: Name, order: seq<Name>)
    requires BreadthFirst(g, Next(g, c), order)
    ensures forall x :: x in order <==> Above(g, c, x)
  {
    forall x ensures x in order <==> Above(g, c, x) {
      if Found(g, Next(g, c), x) {
        var k: nat :| Away(g, Next(g, c), x, k);
        AwayIsSteps(g, c, x, k);
        var m :| Steps(g, c, m, k) && x in Next(g, m);
        assert Reaches(g, c, m);
      }
      if Above(g, c, x) {
        var m :| Reaches(g, c, m) && x in Next(g, m);
        var k: nat :| Steps(g, c, m, k);
        assert Steps(g, c, x, k + 1);
        AwayIsSteps(g, c, x, k);
      }
    }
  }

  /** On a class off every cycle, the class followed by its resolution order is a search order. */
  lemma MroIsSearchOrder(g: Edges, c: Name, order: seq<Name>)
    requires BreadthFirst(g, Next(g, c), order) && !Above(g, c, c)
    ensures SearchOrder(g, c, [c] + order)
  {
    var xs := [c] + order;
    MroIsAbove(g, c, order);
    forall x ensures x in xs <==> Reaches(g, c, x) {
      AboveIsStrictReach(g, c, x);
      ReachesSelf(g, c);
    }
    forall j | 0 < j < |xs| ensures HasEarlierPredecessor(g, xs, j) {
      assert order[j - 1] in Next(g, c) || HasEarlierPredecessor(g, order, j - 1);
      if order[j - 1] in Next(g, c) {
        assert xs[j] in Next(g, xs[0]);
      } else {
        var i :| 0 <= i < j - 1 && order[j - 1] in Next(g, order[i]);
        assert xs[j] in Next(g, xs[i + 1]);
      }
    }
  }

  // ----- Depth first -----

  /** The first class item of that name, as searching the items finds it. */
  method FirstExtends(p: Program, c: Name) returns (parents: seq<Name>)
    requires UniqueClasses(p)
    ensures parents == Next(ClassExtends(p), c)
  {
    for i := 0 to |p|
      invariant !IsClass(p[..i], c)
    {
      PrefixClasses(p, i);
      if p[i].ClassItem? && p[i].name == c {
        UniqueClassExtends(p, i);
        return p[i].extends_;
      }
    }
    assert p[..|p|] == p;
    ClassExtendsKeys(p);
    parents := [];
  }

  lemma {:induction false} UniqueClassExtends(p: Program, i: nat)
    requires UniqueClasses(p) && i < |p| && p[i].ClassItem?
    ensures p[i].name in ClassExtends(p) && ClassExtends(p)[p[i].name] == p[i].extends_
    decreases |p|
  {
    if i < |p| - 1 {
      UniqueClassExtends(p[..|p| - 1], i);
    }
  }

  /** A partial depth-first order: what it lists after `from` was reached from `c` through names it
      already lists, and every name it finished with has its successors listed. */
  ghost predicate Extended(g: Edges, c: Name, before: seq<Name>, after: seq<Name>) {
    && before <= after && NoRepeats(after) && c in after
    && (forall j {:trigger HasEarlierPredecessor(g, after, j)} ::
                  |before| <= j < |after| ==> after[j] == c || HasEarlierPredecessor(g, after, j))
    && (forall j :: |before| <= j < |after| ==> Reaches(g, c, after[j]))
    && (forall j, y :: |before| <= j < |after| && y in Next(g, after[j]) ==> y in after)
  }

  /** The depth-first order on an acyclic graph: `c` unless listed, then its parents in turn. */
  ghost function DepthFirst(g: Edges, c: Name, out: seq<Name>): seq<Name>
    requires Acyclic(g)
    decreases Height(g, c), 1, 0
  {
    if c in out then out
    else
      HeightsDrop(g, c);
      DepthFirstAll(g, Next(g, c), out + [c], Height(g, c))
  }

  ghost function DepthFirstAll(g: Edges, ps: seq<Name>, out: seq<Name>, h: nat): seq<Name>
    requires Acyclic(g) && forall p :: p in ps ==> Height(g, p) < h
    decreases h, 0, |ps|
  {
    if ps == [] then out
    else DepthFirst(g, ps[|ps| - 1], DepthFirstAll(g, ps[..|ps| - 1], out, h))
  }

  ghost predicate Follows(g: Edges, ps: seq<Name>, i: nat, out: seq<Name>, h: nat, after: seq<Name>)
    requires i <= |ps| && Acyclic(g)
  {
    (forall p :: p in ps ==> Height(g, p) < h) && after == DepthFirstAll(g, ps[..i], out, h)
  }

  /** Midway through `c`'s parents: like `Extended`, but `c`'s own successors are still being walked. */
  ghost predicate Walked(g: Edges, c: Name, out: seq<Name>, after: seq<Name>) {
    && out + [c] <= after && NoRepeats(after)
    && (forall j {:trigger HasEarlierPredecessor(g, after, j)} ::
          |out| <= j < |after| ==> after[j] == c || HasEarlierPredecessor(g, after, j))
    && (forall j :: |out| <= j < |after| ==> Reaches(g, c, after[j]))
    && (forall j, y :: |out| < j < |after| && y in Next(g, after[j]) ==> y in after)
  }

  lemma ListedGrows(out: seq<Name>, c: Name, after: seq<Name>)
    requires c !in out && out + [c] <= after
    ensures c in after && Visited(out) < Visited(after)
  {
    assert (out + [c])[|out|] == after[|out|] == c;
    forall x | x in out ensures x in after {
      var k :| 0 <= k < |out| && out[k] == x;
      assert (out + [c])[k] == after[k] == x;
    }
    assert c in Visited(after) - Visited(out);
  }

  lemma StartWalk(g: Edges, c: Name, out: seq<Name>)
    requires c !in out && NoRepeats(out)
    ensures Walked(g, c, out, out + [c])
    ensures Acyclic(g) ==> forall p :: p in Next(g, c) ==> Height(g, p) < Height(g, c)
  {
    ReachesSelf(g, c);
    if Acyclic(g) {
      HeightsDrop(g, c);
    }
  }

  method Walk(p: Program, c: Name, out: seq<Name>, ghost universe: set<Name>) returns (after: seq<Name>)
    requires UniqueClasses(p) && NoRepeats(out)
    requires c in universe && Targets(ClassExtends(p)) <= universe
    ensures Extended(ClassExtends(p), c, out, after)
    ensures c !in out ==> |out| < |after| && after[|out|] == c
    ensures Acyclic(ClassExtends(p)) ==> after == DepthFirst(ClassExtends(p), c, out)
    decreases universe - Visited(out)
  {
    ghost var g := ClassExtends(p);
    if c in out {
      return out;
    }
    after := out + [c];
    var parents := FirstExtends(p, c);
    NextInTargets(g, c);
    StartWalk(g, c, out);
    for i := 0 to |parents|
      invariant Walked(g, c, out, after)
      invariant forall y :: y in parents[..i] ==> y in after
      invariant Acyclic(g) ==> Follows(g, parents, i, out + [c], Height(g, c), after)
    {
      ghost var before := after;
      ListedGrows(out, c, before);
      after := Walk(p, parents[i], after, universe);
      StepExtended(g, c, parents[i], out, before, after);
      assert parents[..i + 1] == parents[..i] + [parents[i]];
    }
    assert parents[..|parents|] == parents;
    ListedGrows(out, c, after);
  }

  lemma StepExtended(g: Edges, c: Name, q: Name, out: seq<Name>, before: seq<Name>, after: seq<Name>)
    requires Walked(g, c, out, before) && q in Next(g, c) && Extended(g, q, before, after)
    requires q !in before ==> |before| < |after| && after[|before|] == q
    ensures Walked(g, c, out, after)
    ensures forall y :: y in before ==> y in after
  {
    assert after[|out|] == c;
    forall j | |out| <= j < |after|
      ensures after[j] == c || HasEarlierPredecessor(g, after, j)
      ensures Reaches(g, c, after[j])
    {
      if j < |before| {
        assert before[j] == c || HasEarlierPredecessor(g, before, j);
        if after[j] != c {
          var i :| 0 <= i < j && before[j] in Next(g, before[i]);
          assert after[j] in Next(g, after[i]);
        }
      } else {
        assert after[j] == q || HasEarlierPredecessor(g, after, j);
        if after[j] == q {
          assert after[j] in Next(g, after[|out|]);
        }
        EdgeThenReaches(g, c, q, after[j]);
      }
    }
    forall j, y | |out| < j < |after| && y in Next(g, after[j]) ensures y in after {
      if j < |before| {
        assert after[j] == before[j];
        assert y in before;
        var k :| 0 <= k < |before| && before[k] == y;
        assert after[k] == y;
      }
    }
  }

  method ClassLookupOrder(p: Program, c: Name) returns (out: seq<Name>)
    requires UniqueClasses(p)
    ensures SearchOrder(ClassExtends(p), c, out)
    ensures Acyclic(ClassExtends(p)) ==> out == DepthFirst(ClassExtends(p), c, [])
  {
    ghost var g := ClassExtends(p);
    out := Walk(p, c, [], Targets(g) + {c});
    forall x ensures x in out <==> Reaches(g, c, x) {
      if Reaches(g, c, x) {
        ghost var s := Visited(out);
        ClosedHoldsReached(g, s, c, x);
      }
    }
  }
}
