/** The string order behind every "sorted" promise: `String: Ord` compares bytes, which for UTF-8 is
    code-point order (see `Utf8.ByteOrderIsCodePointOrder`), so strings are compared by `char`. */
module Order {

  predicate StrLe(a: string, b: string) {
    a == [] || (b != [] && (a[0] < b[0] || (a[0] == b[0] && StrLe(a[1..], b[1..]))))
  }

  predicate StrLt(a: string, b: string) {
    a != b && StrLe(a, b)
  }

  lemma {:induction false} StrLeReflexive(a: string)
    ensures StrLe(a, a)
  {
    if a != [] {
      StrLeReflexive(a[1..]);
    }
  }

  lemma {:induction false} StrLeTotal(a: string, b: string)
    ensures StrLe(a, b) || StrLe(b, a)
  {
    if a != [] && b != [] && a[0] == b[0] {
      StrLeTotal(a[1..], b[1..]);
    }
  }

  lemma {:induction false} StrLeAntisymmetric(a: string, b: string)
    requires StrLe(a, b) && StrLe(b, a)
    ensures a == b
  {
    if a != [] {
      StrLeAntisymmetric(a[1..], b[1..]);
      assert a == [a[0]] + a[1..] && b == [b[0]] + b[1..];
    }
  }

  lemma {:induction false} StrLeTransitive(a: string, b: string, c: string)
    requires StrLe(a, b) && StrLe(b, c)
    ensures StrLe(a, c)
  {
    if a != [] && a[0] == b[0] == c[0] {
      StrLeTransitive(a[1..], b[1..], c[1..]);
    }
  }

  /** A strictly increasing list: sorted and free of duplicates. */
  ghost predicate StrictlySorted(xs: seq<string>) {
    forall i, j {:trigger StrLt(xs[i], xs[j])} :: 0 <= i < j < |xs| ==> StrLt(xs[i], xs[j])
  }

  lemma StrictlySortedDistinct(xs: seq<string>)
    requires StrictlySorted(xs)
    ensures forall i, j :: 0 <= i < j < |xs| ==> xs[i] != xs[j]
  {
    forall i, j | 0 <= i < j < |xs| ensures xs[i] != xs[j] {
      assert StrLt(xs[i], xs[j]);
    }
  }

  /** A `BTreeSet` read in order: the strictly increasing list with exactly the elements of `s`. */
  ghost predicate SortedListOf(xs: seq<string>, s: set<string>) {
    StrictlySorted(xs) && (forall x :: x in xs <==> x in s)
  }

  lemma {:induction false} SortedListUnique(xs: seq<string>, ys: seq<string>, s: set<string>)
    requires SortedListOf(xs, s) && SortedListOf(ys, s)
    ensures xs == ys
    decreases |xs|
  {
    assert xs != [] ==> xs[0] in ys;
    assert ys != [] ==> ys[0] in xs;
    if xs != [] {
      if xs[0] != ys[0] {
        var i :| 0 <= i < |xs| && xs[i] == ys[0];
        var j :| 0 <= j < |ys| && ys[j] == xs[0];
        assert StrLt(xs[0], xs[i]) && StrLt(ys[0], ys[j]);
        StrLeAntisymmetric(xs[0], ys[0]);
      }
      SortedListTail(xs, s);
      SortedListTail(ys, s);
      SortedListUnique(xs[1..], ys[1..], s - {xs[0]});
    }
  }

  lemma SortedListTail(xs: seq<string>, s: set<string>)
    requires SortedListOf(xs, s) && xs != []
    ensures SortedListOf(xs[1..], s - {xs[0]})
  {
    forall x ensures x in xs[1..] <==> x in s - {xs[0]} {
      if x in xs[1..] {
        var i :| 0 <= i < |xs[1..]| && xs[1..][i] == x;
        assert xs[i + 1] == x && StrLt(xs[0], xs[i + 1]);
      }
      if x in s - {xs[0]} {
        var i :| 0 <= i < |xs| && xs[i] == x;
        assert xs[1..][i - 1] == x;
      }
    }
  }

  /** Removes the least element of a non-empty set. */
  method TakeLeast(s: set<string>) returns (least: string, rest: set<string>)
    requires s != {}
    ensures least in s && rest == s - {least}
    ensures forall x :: x in s ==> StrLe(least, x)
  {
    least :| least in s;
    StrLeReflexive(least);
    var todo := s - {least};
    while todo != {}
      invariant least in s && todo <= s
      invariant forall x :: x in s - todo ==> StrLe(least, x)
      decreases todo
    {
      var x :| x in todo;
      todo := todo - {x};
      StrLeTotal(least, x);
      if !StrLe(least, x) {
        forall y | y in s - todo ensures StrLe(x, y) {
          if y == x { StrLeReflexive(x); } else { StrLeTransitive(x, least, y); }
        }
        least := x;
      }
    }
    rest := s - {least};
  }

  /** Reads a set out in increasing order, as iterating a `BTreeSet` does. */
  method Sorted(s: set<string>) returns (xs: seq<string>)
    ensures SortedListOf(xs, s)
  {
    xs := [];
    var todo := s;
    while todo != {}
      invariant todo <= s
      invariant SortedListOf(xs, s - todo)
      invariant forall x, y :: x in xs && y in todo ==> StrLt(x, y)
      decreases todo
    {
      var x, rest := TakeLeast(todo);
      assert forall y :: y in xs + [x] <==> y in xs || y == x;
      xs, todo := xs + [x], rest;
    }
  }
}
