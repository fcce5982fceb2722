/** Runtime overload dispatch (src/dispatch.rs). */
module Dispatch {

  type Name = string

  datatype Option<T> = None | Some(value: T)

  datatype ParamKind =
    | Int | Float | Bool | Str | Bytes | List | Map | Set | Fn
    | Named(name: Name)
    | Any

  /** What dispatch looks at in an argument; every other value matches only `Any`. */
  datatype Value =
    | VInt | VFloat | VBool | VStr | VBytes | VList | VMap | VSet | VClosure
    | VInstance(cls: Name)
    | VEnum(ty: Name)
    | VJsonLazy
    | VOther

  /** The runtime subtype table: its keys are classes only, so an interface is below nothing but itself. */
  type Oracle = map<Name, seq<Name>>

  predicate IsSubtype(a: Name, b: Name, oracle: Oracle) {
    a == b || (a in oracle && b in oracle[a])
  }

  predicate KindMatches(k: ParamKind, v: Value, oracle: Oracle) {
    match (k, v)
    case (Any, _) => true
    case (Int, VInt) => true
    case (Float, VFloat) => true
    case (Bool, VBool) => true
    case (Str, VStr) => true
    case (Bytes, VBytes) => true
    case (List, VList) => true
    case (Map, VMap) => true
    case (Set, VSet) => true
    case (Fn, VClosure) => true
    case (Named(n), VInstance(c)) => IsSubtype(c, n, oracle)
    case (Named(n), VEnum(t)) => t == n
    case (Named(n), VJsonLazy) => n == "Json"
    case _ => false
  }

  predicate AtLeastAsSpecific(a: ParamKind, b: ParamKind, oracle: Oracle) {
    a == b || b.Any? || (a.Named? && b.Named? && IsSubtype(a.name, b.name, oracle))
  }

  type Signature = seq<ParamKind>

  /** `zip(..).all(..)`: positions beyond the shorter signature are not looked at. */
  predicate AllAtLeast(a: Signature, b: Signature, oracle: Oracle) {
    forall i :: 0 <= i < |a| && i < |b| ==> AtLeastAsSpecific(a[i], b[i], oracle)
  }

  predicate Dominates(a: Signature, b: Signature, oracle: Oracle) {
    && |a| == |b|
    && AllAtLeast(a, b, oracle)
    && exists i :: 0 <= i < |a| && i < |b| && a[i] != b[i] && AtLeastAsSpecific(a[i], b[i], oracle)
  }

  predicate Matches(ks: Signature, args: seq<Value>, oracle: Oracle) {
    |ks| == |args| && forall i :: 0 <= i < |ks| && i < |args| ==> KindMatches(ks[i], args[i], oracle)
  }

  datatype Selected = Chosen(index: nat) | NoMatch | Ambiguous

  /** The indices whose signatures match, in order. */
  function Matching(candidates: seq<Signature>, args: seq<Value>, oracle: Oracle): (m: seq<nat>)
    ensures forall i: nat :: i in m <==> i < |candidates| && Matches(candidates[i], args, oracle)
    ensures Increasing(m) && InRange(m, |candidates|)
  {
    if candidates == [] then []
    else
      var n := |candidates| - 1;
      var before := Matching(candidates[..n], args, oracle);
      assert forall i: nat :: i < n ==> candidates[..n][i] == candidates[i];
      assert forall j :: 0 <= j < |before| ==> before[j] in before;
      if Matches(candidates[n], args, oracle) then before + [n] else before
  }

  /** `i` is at least as specific as every match, in every position. */
  predicate IsDominator(candidates: seq<Signature>, matching: seq<nat>, i: nat, oracle: Oracle)
    requires i < |candidates| && InRange(matching, |candidates|)
  {
    forall j :: j in matching ==> AllAtLeast(candidates[i], candidates[j], oracle)
  }

  ghost predicate Increasing(xs: seq<nat>) {
    forall j, k :: 0 <= j < k < |xs| ==> xs[j] < xs[k]
  }

  predicate InRange(xs: seq<nat>, n: nat) {
    forall i :: 0 <= i < |xs| ==> xs[i] < n
  }

  /** The dominators among `from`, in order. */
  function Dominators(candidates: seq<Signature>, matching: seq<nat>, from: seq<nat>, oracle: Oracle): seq<nat>
    requires InRange(matching, |candidates|) && InRange(from, |candidates|)
  {
    if from == [] then []
    else
      var n := |from| - 1;
      var before := Dominators(candidates, matching, from[..n], oracle);
      if IsDominator(candidates, matching, from[n], oracle) then before + [from[n]] else before
  }

  lemma {:induction false} DominatorsExactly(candidates: seq<Signature>, matching: seq<nat>, from: seq<nat>,
                                             oracle: Oracle)
    requires InRange(matching, |candidates|) && InRange(from, |candidates|) && Increasing(from)
    ensures var d := Dominators(candidates, matching, from, oracle);
            Increasing(d) && forall i: nat :: i in d <==> i in from && IsDominator(candidates, matching, i, oracle)
    decreases |from|
  {
    hide IsDominator;
    if from != [] {
      var n := |from| - 1;
      DominatorsExactly(candidates, matching, from[..n], oracle);
      var before := Dominators(candidates, matching, from[..n], oracle);
      assert from == from[..n] + [from[n]];
      forall j | 0 <= j < |before| ensures before[j] < from[n] {
        assert before[j] in before && before[j] in from[..n];
      }
    }
  }

  function SelectOverload(candidates: seq<Signature>, args: seq<Value>, oracle: Oracle): Selected {
    var matching := Matching(candidates, args, oracle);
    if |matching| == 0 then NoMatch
    else if |matching| == 1 then Chosen(matching[0])
    else
      var dominators := Dominators(candidates, matching, matching, oracle);
      if |dominators| == 1 then Chosen(dominators[0]) else Ambiguous
  }

  // ----- What the oracle must be -----

  /** As the class hierarchy gives it: transitive, and no two classes below each other. */
  ghost predicate Hierarchical(oracle: Oracle) {
    && (forall a, b, c :: IsSubtype(a, b, oracle) && IsSubtype(b, c, oracle) ==> IsSubtype(a, c, oracle))
    && (forall a, b :: IsSubtype(a, b, oracle) && IsSubtype(b, a, oracle) ==> a == b)
  }

  predicate Distinct(candidates: seq<Signature>) {
    forall i, j :: 0 <= i < j < |candidates| ==> candidates[i] != candidates[j]
  }

  /** `i` matches and is at least as specific as every other match. */
  ghost predicate MostSpecific(candidates: seq<Signature>, args: seq<Value>, oracle: Oracle, i: nat) {
    && i < |candidates| && Matches(candidates[i], args, oracle)
    && forall j :: 0 <= j < |candidates| && Matches(candidates[j], args, oracle) ==>
         AllAtLeast(candidates[i], candidates[j], oracle)
  }

  // ----- The order on signatures -----

  lemma SpecificTransitive(a: ParamKind, b: ParamKind, c: ParamKind, oracle: Oracle)
    requires Hierarchical(oracle) && AtLeastAsSpecific(a, b, oracle) && AtLeastAsSpecific(b, c, oracle)
    ensures AtLeastAsSpecific(a, c, oracle)
  {
  }

  lemma SpecificAntisymmetric(a: ParamKind, b: ParamKind, oracle: Oracle)
    requires Hierarchical(oracle) && AtLeastAsSpecific(a, b, oracle) && AtLeastAsSpecific(b, a, oracle)
    ensures a == b
  {
  }

  lemma AllTransitive(a: Signature, b: Signature, c: Signature, oracle: Oracle)
    requires Hierarchical(oracle) && |a| == |b| == |c| && AllAtLeast(a, b, oracle) && AllAtLeast(b, c, oracle)
    ensures AllAtLeast(a, c, oracle)
  {
    forall i | 0 <= i < |a| ensures AtLeastAsSpecific(a[i], c[i], oracle) {
      SpecificTransitive(a[i], b[i], c[i], oracle);
    }
  }

  lemma AllAntisymmetric(a: Signature, b: Signature, oracle: Oracle)
    requires Hierarchical(oracle) && |a| == |b| && AllAtLeast(a, b, oracle) && AllAtLeast(b, a, oracle)
    ensures a == b
  {
    forall i | 0 <= i < |a| ensures a[i] == b[i] {
      SpecificAntisymmetric(a[i], b[i], oracle);
    }
  }

  /** Between signatures of one length, dominating is being different and nowhere less specific. */
  lemma DominatesIsStrict(a: Signature, b: Signature, oracle: Oracle)
    ensures Dominates(a, b, oracle) <==> |a| == |b| && a != b && AllAtLeast(a, b, oracle)
  {
    if |a| == |b| && a != b && AllAtLeast(a, b, oracle) {
      var i :| 0 <= i < |a| && a[i] != b[i];
      assert AtLeastAsSpecific(a[i], b[i], oracle);
    }
  }

  /** Dominance is a strict partial order. */
  lemma DominatesIsStrictOrder(a: Signature, b: Signature, c: Signature, oracle: Oracle)
    requires Hierarchical(oracle)
    ensures !Dominates(a, a, oracle)
    ensures Dominates(a, b, oracle) ==> !Dominates(b, a, oracle)
    ensures Dominates(a, b, oracle) && Dominates(b, c, oracle) ==> Dominates(a, c, oracle)
  {
    DominatesIsStrict(a, b, oracle);
    DominatesIsStrict(b, a, oracle);
    DominatesIsStrict(b, c, oracle);
    DominatesIsStrict(a, c, oracle);
    if Dominates(a, b, oracle) {
      if Dominates(b, a, oracle) {
        AllAntisymmetric(a, b, oracle);
      }
      if Dominates(b, c, oracle) {
        AllTransitive(a, b, c, oracle);
        if a == c {
          AllAntisymmetric(a, b, oracle);
        }
      }
    }
  }

  /** Matching is monotone: an argument a specific kind takes, every less specific kind takes. */
  lemma MatchingIsMonotone(a: Signature, b: Signature, args: seq<Value>, oracle: Oracle)
    requires Hierarchical(oracle) && |a| == |b| && AllAtLeast(a, b, oracle) && Matches(a, args, oracle)
    requires forall i :: 0 <= i < |args| && args[i].VEnum? ==> args[i].ty !in oracle
    requires "Json" !in oracle
    ensures Matches(b, args, oracle)
  {
    forall i | 0 <= i < |b| ensures KindMatches(b[i], args[i], oracle) {
      KindIsMonotone(a[i], b[i], args[i], oracle);
    }
  }

  /** For enum values it needs that an enum is no class: the oracle has no entry for it. */
  lemma KindIsMonotone(a: ParamKind, b: ParamKind, v: Value, oracle: Oracle)
    requires Hierarchical(oracle) && AtLeastAsSpecific(a, b, oracle) && KindMatches(a, v, oracle)
    requires v.VEnum? ==> v.ty !in oracle
    requires v.VJsonLazy? ==> "Json" !in oracle
    ensures KindMatches(b, v, oracle)
  {
  }

  // ----- Selection -----

  lemma TwoOf(d: seq<nat>) returns (a: nat, b: nat)
    requires Increasing(d) && |d| > 1
    ensures a in d && b in d && a != b
  {
    a, b := d[0], d[1];
  }

  /** With distinct signatures, at most one candidate is most specific. */
  lemma MostSpecificUnique(candidates: seq<Signature>, args: seq<Value>, oracle: Oracle, i: nat, j: nat)
    requires Hierarchical(oracle) && Distinct(candidates)
    requires MostSpecific(candidates, args, oracle, i) && MostSpecific(candidates, args, oracle, j)
    ensures i == j
  {
    AllAntisymmetric(candidates[i], candidates[j], oracle);
  }

  /** Selection returns `i` exactly when `i` is the most specific match; it reports no match exactly when
      nothing matches, and ambiguity exactly when something matches but no match is most specific. */
  lemma SelectsMostSpecific(candidates: seq<Signature>, args: seq<Value>, oracle: Oracle)
    requires Hierarchical(oracle) && Distinct(candidates)
    ensures forall i: nat :: SelectOverload(candidates, args, oracle) == Chosen(i) <==> MostSpecific(candidates, args, oracle, i)
    ensures SelectOverload(candidates, args, oracle).NoMatch? <==>
              forall i :: 0 <= i < |candidates| ==> !Matches(candidates[i], args, oracle)
  {
    var matching := Matching(candidates, args, oracle);
    var dominators := Dominators(candidates, matching, matching, oracle);
    DominatorsExactly(candidates, matching, matching, oracle);
    forall i: nat ensures MostSpecific(candidates, args, oracle, i) <==> i in dominators {
      if i < |candidates| && Matches(candidates[i], args, oracle) {
        assert i in matching;
      }
    }
    if |matching| == 0 {
      forall i: nat | i < |candidates| ensures !Matches(candidates[i], args, oracle) {
        assert i !in matching;
      }
    } else {
      assert matching[0] in matching;
      if |matching| == 1 {
        OnlyMatch(candidates, args, oracle, matching);
      } else if |dominators| > 1 {
        var a, b := TwoOf(dominators);
        MostSpecificUnique(candidates, args, oracle, a, b);
      }
    }
  }

  lemma SpecificReflexive(a: Signature, oracle: Oracle)
    ensures AllAtLeast(a, a, oracle)
  {
  }

  /** A single match is most specific. */
  lemma OnlyMatch(candidates: seq<Signature>, args: seq<Value>, oracle: Oracle, matching: seq<nat>)
    requires matching == Matching(candidates, args, oracle) && |matching| == 1
    ensures forall i: nat :: MostSpecific(candidates, args, oracle, i) <==> i == matching[0]
  {
    var m := matching[0];
    assert m in matching;
    SpecificReflexive(candidates[m], oracle);
    forall j: nat | j < |candidates| && Matches(candidates[j], args, oracle) ensures j == m {
      assert j in matching;
    }
  }

  /** The order of the candidates does not matter: whatever the permutation, the same signature wins. */
  lemma OrderIndependent(candidates: seq<Signature>, shuffled: seq<Signature>, args: seq<Value>, oracle: Oracle)
    requires Hierarchical(oracle) && Distinct(candidates) && Distinct(shuffled)
    requires forall s :: s in candidates <==> s in shuffled
    ensures var r, q := SelectOverload(candidates, args, oracle), SelectOverload(shuffled, args, oracle);
            (r.Chosen? <==> q.Chosen?) && (r.NoMatch? <==> q.NoMatch?)
            && (r.Chosen? && q.Chosen? ==> r.index < |candidates| && q.index < |shuffled|
                                           && candidates[r.index] == shuffled[q.index])
  {
    hide SelectOverload, Matches, AllAtLeast;
    SelectsMostSpecific(candidates, args, oracle);
    SelectsMostSpecific(shuffled, args, oracle);
    Carries(candidates, shuffled, args, oracle);
    Carries(shuffled, candidates, args, oracle);
    var r, q := SelectOverload(candidates, args, oracle), SelectOverload(shuffled, args, oracle);
    if r.Chosen? {
      assert MostSpecific(candidates, args, oracle, r.index);
    }
    if q.Chosen? {
      assert MostSpecific(shuffled, args, oracle, q.index);
    }
    assert r.NoMatch? ==> q.NoMatch? by {
      if r.NoMatch? {
        forall j | 0 <= j < |shuffled| ensures !Matches(shuffled[j], args, oracle) {
          assert shuffled[j] in candidates;
        }
      }
    }
    assert q.NoMatch? ==> r.NoMatch? by {
      if q.NoMatch? {
        forall j | 0 <= j < |candidates| ensures !Matches(candidates[j], args, oracle) {
          assert candidates[j] in shuffled;
        }
      }
    }
    if r.Chosen? && q.Chosen? {
      var k :| 0 <= k < |shuffled| && shuffled[k] == candidates[r.index];
      assert MostSpecific(shuffled, args, oracle, k);
      MostSpecificUnique(shuffled, args, oracle, k, q.index);
    }
  }

  /** A most specific candidate of one order is most specific, wherever it stands, in the other. */
  lemma Carries(from: seq<Signature>, to: seq<Signature>, args: seq<Value>, oracle: Oracle)
    requires forall s :: s in from <==> s in to
    ensures forall i: nat, k: nat :: MostSpecific(from, args, oracle, i) && k < |to| && to[k] == from[i] ==>
              MostSpecific(to, args, oracle, k)
    ensures forall i: nat :: MostSpecific(from, args, oracle, i) ==>
              exists k: nat :: k < |to| && to[k] == from[i] && MostSpecific(to, args, oracle, k)
  {
    forall i: nat, k: nat | MostSpecific(from, args, oracle, i) && k < |to| && to[k] == from[i]
      ensures MostSpecific(to, args, oracle, k)
    {
      forall j | 0 <= j < |to| && Matches(to[j], args, oracle) ensures AllAtLeast(to[k], to[j], oracle) {
        assert to[j] in from;
        var l :| 0 <= l < |from| && from[l] == to[j];
      }
    }
    forall i: nat | MostSpecific(from, args, oracle, i)
      ensures exists k: nat :: k < |to| && to[k] == from[i] && MostSpecific(to, args, oracle, k)
    {
      assert from[i] in to;
      var k: nat :| k < |to| && to[k] == from[i];
      assert MostSpecific(to, args, oracle, k);
    }
  }

  // ----- The emitted if-chain -----

  /** The branch an ordered if-chain takes: the first that matches. */
  function FirstMatch(chain: seq<Signature>, args: seq<Value>, oracle: Oracle): (r: Option<nat>)
    ensures r.Some? ==> r.value < |chain| && Matches(chain[r.value], args, oracle)
                        && forall i :: 0 <= i < r.value ==> !Matches(chain[i], args, oracle)
    ensures r.None? ==> forall i :: 0 <= i < |chain| ==> !Matches(chain[i], args, oracle)
  {
    if chain == [] then None
    else if Matches(chain[0], args, oracle) then Some(0)
    else
      var r := FirstMatch(chain[1..], args, oracle);
      if r.Some? then Some(r.value + 1) else None
  }

  /** No branch stands after one it dominates. */
  predicate MostSpecificFirst(chain: seq<Signature>, oracle: Oracle) {
    forall i, j :: 0 <= i < j < |chain| ==> !Dominates(chain[j], chain[i], oracle)
  }

  /** In any branch order that puts dominating signatures first, the first branch that matches is the
      candidate selection picks. */
  lemma ChainPicksSelected(chain: seq<Signature>, args: seq<Value>, oracle: Oracle, i: nat)
    requires Hierarchical(oracle) && Distinct(chain) && MostSpecificFirst(chain, oracle)
    requires SelectOverload(chain, args, oracle) == Chosen(i)
    ensures FirstMatch(chain, args, oracle) == Some(i)
  {
    SelectsMostSpecific(chain, args, oracle);
    assert MostSpecific(chain, args, oracle, i);
    forall k: nat | k < i ensures !Matches(chain[k], args, oracle) {
      EarlierDoesNotMatch(chain, args, oracle, i, k);
    }
  }

  /** A branch before the most specific one would have to be dominated by it. */
  lemma EarlierDoesNotMatch(chain: seq<Signature>, args: seq<Value>, oracle: Oracle, i: nat, k: nat)
    requires Distinct(chain) && MostSpecificFirst(chain, oracle) && MostSpecific(chain, args, oracle, i) && k < i
    ensures !Matches(chain[k], args, oracle)
  {
    DominatesIsStrict(chain[i], chain[k], oracle);
    assert !Dominates(chain[i], chain[k], oracle);
  }

  /** Two matching signatures, neither at least as specific as the other: selection is ambiguous, yet a
      chain takes the first. The agreement is for resolvable calls only. */
  lemma IncomparableDiffer(chain: seq<Signature>, args: seq<Value>, oracle: Oracle)
    requires |chain| == 2 && Matches(chain[0], args, oracle) && Matches(chain[1], args, oracle)
    requires !AllAtLeast(chain[0], chain[1], oracle) && !AllAtLeast(chain[1], chain[0], oracle)
    ensures MostSpecificFirst(chain, oracle)
    ensures SelectOverload(chain, args, oracle) == Ambiguous && FirstMatch(chain, args, oracle) == Some(0)
  {
    var matching := Matching(chain, args, oracle);
    assert 0 in matching && 1 in matching;
    var a :| 0 <= a < |matching| && matching[a] == 0;
    var b :| 0 <= b < |matching| && matching[b] == 1;
    assert a != b;
    DominatorsExactly(chain, matching, matching, oracle);
    var dominators := Dominators(chain, matching, matching, oracle);
    assert dominators != [] ==> dominators[0] in dominators;
    forall i: nat | i < 2 ensures !IsDominator(chain, matching, i, oracle) {
      assert i == 0 || i == 1;
    }
  }

  /** Such a call exists: `(int, any)` and `(any, int)` on two integers. */
  lemma AmbiguousCallExists()
    ensures var f, g: Signature := [Int, Any], [Any, Int];
            f != g && SelectOverload([f, g], [VInt, VInt], map[]) == Ambiguous
            && FirstMatch([f, g], [VInt, VInt], map[]) == Some(0)
  {
    var f, g: Signature := [Int, Any], [Any, Int];
    assert f[0] == Int && f[1] == Any && g[0] == Any && g[1] == Int;
    assert !AtLeastAsSpecific(f[1], g[1], map[]) && !AtLeastAsSpecific(g[0], f[0], map[]);
    IncomparableDiffer([f, g], [VInt, VInt], map[]);
  }
}
