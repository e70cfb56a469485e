/** `sort.Slice` and `ORDER BY`: sorting by a strict total order, and why the result is unique. */
module Sorting {

  ghost predicate StrictTotal<T(!new)>(lt: (T, T) -> bool) {
    && (forall a :: !lt(a, a))
    && (forall a, b :: a == b || lt(a, b) || lt(b, a))
    && (forall a, b, c :: lt(a, b) && lt(b, c) ==> lt(a, c))
  }

  ghost predicate Sorted<T>(xs: seq<T>, lt: (T, T) -> bool) {
    forall i, j :: 0 <= i < j < |xs| ==> !lt(xs[j], xs[i])
  }

  ghost predicate Distinct<T>(xs: seq<T>) {
    forall i, j :: 0 <= i < j < |xs| ==> xs[i] != xs[j]
  }

  ghost function Elems<T>(xs: seq<T>): set<T> { set x | x in xs }

  function Insert<T>(x: T, xs: seq<T>, lt: (T, T) -> bool): seq<T> {
    if xs == [] || !lt(xs[0], x) then [x] + xs else [xs[0]] + Insert(x, xs[1..], lt)
  }

  function Sort<T>(xs: seq<T>, lt: (T, T) -> bool): seq<T> {
    if xs == [] then [] else Insert(xs[0], Sort(xs[1..], lt), lt)
  }

  lemma {:induction false} InsertSorts<T(!new)>(x: T, xs: seq<T>, lt: (T, T) -> bool)
    requires StrictTotal(lt) && Sorted(xs, lt)
    ensures Sorted(Insert(x, xs, lt), lt)
    ensures multiset(Insert(x, xs, lt)) == multiset{x} + multiset(xs)
  {
    if xs == [] || !lt(xs[0], x) {
      forall j | 0 <= j < |xs| ensures !lt(xs[j], x) {
        assert j > 0 ==> !lt(xs[j], xs[0]);
      }
    } else {
      assert xs == [xs[0]] + xs[1..];
      InsertSorts(x, xs[1..], lt);
      var rest := Insert(x, xs[1..], lt);
      forall j | 0 <= j < |rest| ensures !lt(rest[j], xs[0]) {
        assert rest[j] in multiset(rest);
        assert rest[j] == x || rest[j] in xs[1..];
      }
    }
  }

  /** Sorting sorts, and only rearranges. */
  lemma {:induction false} SortSorts<T(!new)>(xs: seq<T>, lt: (T, T) -> bool)
    requires StrictTotal(lt)
    ensures Sorted(Sort(xs, lt), lt) && multiset(Sort(xs, lt)) == multiset(xs)
    ensures |Sort(xs, lt)| == |xs|
  {
    if xs != [] {
      SortSorts(xs[1..], lt);
      InsertSorts(xs[0], Sort(xs[1..], lt), lt);
      assert xs == [xs[0]] + xs[1..];
    }
    assert |multiset(Sort(xs, lt))| == |Sort(xs, lt)| && |multiset(xs)| == |xs|;
  }

  lemma SortElems<T(!new)>(xs: seq<T>, lt: (T, T) -> bool)
    requires StrictTotal(lt)
    ensures Elems(Sort(xs, lt)) == Elems(xs)
  {
    SortSorts(xs, lt);
    forall x ensures x in Sort(xs, lt) <==> x in xs {
      assert x in Sort(xs, lt) <==> x in multiset(Sort(xs, lt));
      assert x in xs <==> x in multiset(xs);
    }
  }

  /** A sorted arrangement is determined by its contents: the order rows arrive in cannot matter. */
  lemma {:induction false} SortedUnique<T(!new)>(a: seq<T>, b: seq<T>, lt: (T, T) -> bool)
    requires StrictTotal(lt) && Sorted(a, lt) && Sorted(b, lt) && multiset(a) == multiset(b)
    ensures a == b
  {
    if a == [] {
      assert |multiset(b)| == 0;
    } else {
      SameHead(a, b, lt);
      assert a == [a[0]] + a[1..] && b == [b[0]] + b[1..];
      assert multiset(a[1..]) == multiset(a) - multiset{a[0]};
      assert multiset(b[1..]) == multiset(b) - multiset{b[0]};
      SortedUnique(a[1..], b[1..], lt);
    }
  }

  lemma SameHead<T(!new)>(a: seq<T>, b: seq<T>, lt: (T, T) -> bool)
    requires StrictTotal(lt) && Sorted(a, lt) && Sorted(b, lt) && multiset(a) == multiset(b) && a != []
    ensures b != [] && a[0] == b[0]
  {
    assert a[0] in multiset(a) && a[0] in multiset(b);
    assert b != [] && b[0] in multiset(a);
    var i :| 0 <= i < |b| && b[i] == a[0];
    var j :| 0 <= j < |a| && a[j] == b[0];
    assert i > 0 ==> !lt(b[i], b[0]);
    assert j > 0 ==> !lt(a[j], a[0]);
  }

  lemma DistinctFromMultiset<T>(a: seq<T>, b: seq<T>)
    requires multiset(a) == multiset(b) && Distinct(b)
    ensures Distinct(a)
  {
    forall i, j | 0 <= i < j < |a| ensures a[i] != a[j] {
      if a[i] == a[j] {
        TwoCopies(a, i, j);
        OneCopy(b, a[i]);
        assert false;
      }
    }
  }

  lemma TwoCopies<T>(a: seq<T>, i: nat, j: nat)
    requires i < j < |a| && a[i] == a[j]
    ensures multiset(a)[a[i]] >= 2
  {
    assert a == a[..j] + [a[j]] + a[j + 1..];
    assert a[i] == a[..j][i] && a[i] in multiset(a[..j]);
  }

  lemma {:induction false} OneCopy<T>(b: seq<T>, x: T)
    requires Distinct(b)
    ensures multiset(b)[x] <= 1
  {
    if b != [] {
      assert b == [b[0]] + b[1..];
      OneCopy(b[1..], x);
      if b[0] == x && multiset(b[1..])[x] > 0 {
        assert false;
      }
    }
  }

  // --- enumerating a set in order ---

  ghost predicate Enumerates<T(!new)>(xs: seq<T>, s: set<T>) {
    Distinct(xs) && forall x :: x in xs <==> x in s
  }

  /** The rows of a set in some order. */
  ghost function Rows<T(!new)>(s: set<T>): (xs: seq<T>)
    ensures Enumerates(xs, s) && multiset(xs) == multiset(s) && |xs| == |s|
  {
    if s == {} then []
    else
      var x :| x in s;
      var rest := Rows(s - {x});
      assert s == {x} + (s - {x});
      assert multiset(s) == multiset{x} + multiset(s - {x});
      [x] + rest
  }

  /** The rows of a set, `ORDER BY` lt. */
  ghost function Ordered<T(!new)>(s: set<T>, lt: (T, T) -> bool): (xs: seq<T>) {
    Sort(Rows(s), lt)
  }

  lemma OrderedEnumerates<T(!new)>(s: set<T>, lt: (T, T) -> bool)
    requires StrictTotal(lt)
    ensures Enumerates(Ordered(s, lt), s) && Sorted(Ordered(s, lt), lt) && |Ordered(s, lt)| == |s|
  {
    var xs := Ordered(s, lt);
    SortSorts(Rows(s), lt);
    DistinctFromMultiset(xs, Rows(s));
    forall x ensures x in xs <==> x in s {
      assert x in xs <==> x in multiset(xs);
      assert x in Rows(s) <==> x in multiset(Rows(s));
    }
  }

  /** Any sorted enumeration of a set is the one `ORDER BY` gives. */
  lemma OrderedUnique<T(!new)>(xs: seq<T>, s: set<T>, lt: (T, T) -> bool)
    requires StrictTotal(lt) && Sorted(xs, lt) && Enumerates(xs, s)
    ensures xs == Ordered(s, lt)
  {
    OrderedEnumerates(s, lt);
    EnumerationsAgree(xs, Ordered(s, lt), s);
    SortedUnique(xs, Ordered(s, lt), lt);
  }

  lemma EnumerationsAgree<T(!new)>(xs: seq<T>, ys: seq<T>, s: set<T>)
    requires Enumerates(xs, s) && Enumerates(ys, s)
    ensures multiset(xs) == multiset(ys)
  {
    forall x ensures multiset(xs)[x] == multiset(ys)[x] {
      OneCopy(xs, x);
      OneCopy(ys, x);
      assert x in xs <==> x in multiset(xs);
      assert x in ys <==> x in multiset(ys);
    }
  }
}
