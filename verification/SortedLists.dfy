/** Sorting lists by a comparison, and when the result depends only on what is in the list. */
module SortedLists {
  import opened KeyOrder

  /** `localeCompare`, which the results take to be a strict total order on texts. */
  type TextOrder = (string, string) -> bool

  /** The order of code points, in which texts are sorted when no order is given. */
  const LEX_ORDER: TextOrder := (a: string, b: string) => Lex(a, b)

  /** The comparison is a strict order; ties are allowed. */
  ghost predicate StrictOrder<T(!new)>(less: (T, T) -> bool) {
    && (forall x, y :: less(x, y) ==> !less(y, x))
    && (forall x, y, z :: less(x, y) && less(y, z) ==> less(x, z))
    && (forall x, y, z :: less(x, z) ==> less(x, y) || less(y, z))
  }

  /** Different elements of the list are never tied. */
  ghost predicate NoTies<T(!new)>(less: (T, T) -> bool, s: seq<T>) {
    forall x, y :: x in s && y in s ==> x == y || less(x, y) || less(y, x)
  }

  ghost predicate StrictTotal<T(!new)>(less: (T, T) -> bool) {
    StrictOrder(less) && forall x, y :: x == y || less(x, y) || less(y, x)
  }

  lemma LexIsTotal()
    ensures StrictTotal(LEX_ORDER)
  {
    forall x: string, y: string, z: string
      ensures Lex(x, y) ==> !Lex(y, x)
      ensures Lex(x, y) && Lex(y, z) ==> Lex(x, z)
      ensures Lex(x, z) ==> Lex(x, y) || Lex(y, z)
      ensures x == y || Lex(x, y) || Lex(y, x)
    {
      LexTotal(x, y);
      LexTotal(y, z);
      if Lex(x, y) && Lex(y, z) {
        LexTransitive(x, y, z);
      }
      if Lex(y, x) && Lex(x, z) {
        LexTransitive(y, x, z);
      }
    }
  }

  predicate Sorted<T>(less: (T, T) -> bool, s: seq<T>) {
    forall i, j :: 0 <= i < j < |s| ==> !less(s[j], s[i])
  }

  function Insert<T>(less: (T, T) -> bool, x: T, s: seq<T>): (r: seq<T>)
    ensures multiset(r) == multiset(s) + multiset{x}
  {
    if s == [] || !less(s[0], x) then [x] + s
    else
      assert s == [s[0]] + s[1..];
      [s[0]] + Insert(less, x, s[1..])
  }

  /** A stable sort. */
  function Sort<T>(less: (T, T) -> bool, s: seq<T>): (r: seq<T>)
    ensures multiset(r) == multiset(s)
  {
    if s == [] then []
    else
      assert s == [s[0]] + s[1..];
      Insert(less, s[0], Sort(less, s[1..]))
  }

  lemma InsertInto<T>(less: (T, T) -> bool, x: T, y: T, rest: seq<T>)
    ensures Insert(less, x, [y] + rest) == if less(y, x) then [y] + Insert(less, x, rest) else [x] + ([y] + rest)
  {
    assert ([y] + rest)[1..] == rest;
  }

  lemma InMultiset<T>(s: seq<T>, t: seq<T>)
    requires multiset(s) == multiset(t)
    ensures |s| == |t| && forall x :: x in s <==> x in t
  {
    assert |s| == |multiset(s)| == |multiset(t)| == |t|;
    forall x
      ensures x in s <==> x in t
    {
      assert x in s <==> x in multiset(s);
      assert x in t <==> x in multiset(t);
    }
  }

  lemma {:induction false} InsertKeepsSorted<T(!new)>(less: (T, T) -> bool, x: T, s: seq<T>)
    requires StrictOrder(less) && Sorted(less, s)
    ensures Sorted(less, Insert(less, x, s))
  {
    if s != [] && less(s[0], x) {
      var rest := Insert(less, x, s[1..]);
      InsertKeepsSorted(less, x, s[1..]);
      forall j | 0 <= j < |rest|
        ensures !less(rest[j], s[0])
      {
        assert rest[j] in multiset(rest);
        assert rest[j] == x || rest[j] in s[1..];
      }
    } else if s != [] {
      forall j | 0 <= j < |s|
        ensures !less(s[j], x)
      {
        assert !less(s[j], s[0]);
      }
    }
  }

  lemma {:induction false} SortSorts<T(!new)>(less: (T, T) -> bool, s: seq<T>)
    requires StrictOrder(less)
    ensures Sorted(less, Sort(less, s))
  {
    if s != [] {
      SortSorts(less, s[1..]);
      InsertKeepsSorted(less, s[0], Sort(less, s[1..]));
    }
  }

  lemma SameLeast<T(!new)>(less: (T, T) -> bool, a: seq<T>, b: seq<T>)
    requires a != [] && b != [] && Sorted(less, a) && Sorted(less, b) && NoTies(less, a)
    requires a[0] in b && b[0] in a
    ensures a[0] == b[0]
  {
    var i :| 0 <= i < |b| && b[i] == a[0];
    var j :| 0 <= j < |a| && a[j] == b[0];
    assert i == 0 || !less(b[i], b[0]);
    assert j == 0 || !less(a[j], a[0]);
  }

  lemma SameRest<T>(a: seq<T>, b: seq<T>)
    requires a != [] && b != [] && a[0] == b[0] && multiset(a) == multiset(b)
    ensures multiset(a[1..]) == multiset(b[1..])
  {
    assert a == [a[0]] + a[1..] && b == [b[0]] + b[1..];
    assert multiset(a[1..]) == multiset(a) - multiset{a[0]};
    assert multiset(b[1..]) == multiset(b) - multiset{b[0]};
  }

  lemma {:induction false} SortedIsUnique<T(!new)>(less: (T, T) -> bool, a: seq<T>, b: seq<T>)
    requires Sorted(less, a) && Sorted(less, b) && multiset(a) == multiset(b) && NoTies(less, a)
    ensures a == b
    decreases |a|
  {
    InMultiset(a, b);
    if a != [] {
      SameLeast(less, a, b);
      SameRest(a, b);
      SortedIsUnique(less, a[1..], b[1..]);
      assert a == [a[0]] + a[1..] && b == [b[0]] + b[1..];
    }
  }

  /** Without ties, permuting a list does not change how it sorts. */
  lemma SortIgnoresOrder<T(!new)>(less: (T, T) -> bool, a: seq<T>, b: seq<T>)
    requires StrictOrder(less) && NoTies(less, a) && multiset(a) == multiset(b)
    ensures Sort(less, a) == Sort(less, b)
  {
    SortSorts(less, a);
    SortSorts(less, b);
    InMultiset(Sort(less, a), a);
    SortedIsUnique(less, Sort(less, a), Sort(less, b));
  }

  // ------------------------------------------------------ pushing onto a sorted list

  /** After everything that is not greater: where a stable sort leaves a pushed element. */
  function InsertLast<T>(less: (T, T) -> bool, x: T, s: seq<T>): seq<T> {
    if s == [] || less(x, s[0]) then [x] + s else [s[0]] + InsertLast(less, x, s[1..])
  }

  lemma InsertLastInto<T>(less: (T, T) -> bool, x: T, y: T, rest: seq<T>)
    ensures InsertLast(less, x, [y] + rest) == if less(x, y) then [x] + ([y] + rest) else [y] + InsertLast(less, x, rest)
  {
    assert ([y] + rest)[1..] == rest;
  }

  lemma {:induction false} InsertsCommute<T(!new)>(less: (T, T) -> bool, x: T, y: T, s: seq<T>)
    requires StrictOrder(less)
    ensures Insert(less, y, InsertLast(less, x, s)) == InsertLast(less, x, Insert(less, y, s))
  {
    if s == [] {
      InsertInto(less, y, x, []);
      InsertLastInto(less, x, y, []);
    } else {
      var z, rest := s[0], s[1..];
      assert s == [z] + rest;
      InsertLastInto(less, x, z, rest);
      InsertInto(less, y, z, rest);
      InsertInto(less, y, x, s);
      InsertLastInto(less, x, y, s);
      if !less(x, z) {
        InsertInto(less, y, z, InsertLast(less, x, rest));
      }
      if less(z, y) {
        InsertsCommute(less, x, y, rest);
        InsertLastInto(less, x, z, Insert(less, y, rest));
      }
    }
  }

  lemma {:induction false} SortPushed<T(!new)>(less: (T, T) -> bool, s: seq<T>, x: T)
    requires StrictOrder(less)
    ensures Sort(less, s + [x]) == InsertLast(less, x, Sort(less, s))
  {
    if s == [] {
      assert [] + [x] == [x] && [x][1..] == [];
    } else {
      assert (s + [x])[1..] == s[1..] + [x];
      SortPushed(less, s[1..], x);
      InsertsCommute(less, x, s[0], Sort(less, s[1..]));
    }
  }

  lemma {:induction false} SortOfSorted<T>(less: (T, T) -> bool, s: seq<T>)
    requires Sorted(less, s)
    ensures Sort(less, s) == s
  {
    if s != [] {
      SortOfSorted(less, s[1..]);
      assert s == [s[0]] + s[1..];
    }
  }

  /** Sorting again after a push gives what sorting once at the end gives, ties included. */
  lemma SortAfterPush<T(!new)>(less: (T, T) -> bool, s: seq<T>, x: T)
    requires StrictOrder(less)
    ensures Sort(less, Sort(less, s) + [x]) == Sort(less, s + [x])
  {
    SortPushed(less, s, x);
    SortPushed(less, Sort(less, s), x);
    SortSorts(less, s);
    SortOfSorted(less, Sort(less, s));
  }

  // ------------------------------------------------- a map that keeps the comparison

  function MapAll<T, U>(f: T -> U, s: seq<T>): seq<U> {
    seq(|s|, i requires 0 <= i < |s| => f(s[i]))
  }

  ghost predicate Respects<T(!new)>(less: (T, T) -> bool, f: T -> T) {
    forall x, y :: less(f(x), f(y)) == less(x, y)
  }

  lemma MapFirst<T, U>(f: T -> U, x: T, rest: seq<T>)
    ensures MapAll(f, [x] + rest) == [f(x)] + MapAll(f, rest)
  {
  }

  lemma {:induction false} InsertMapped<T(!new)>(less: (T, T) -> bool, f: T -> T, x: T, s: seq<T>)
    requires Respects(less, f)
    ensures MapAll(f, Insert(less, x, s)) == Insert(less, f(x), MapAll(f, s))
  {
    MapFirst(f, x, s);
    if s != [] {
      var first, rest := s[0], s[1..];
      assert s == [first] + rest;
      MapFirst(f, first, rest);
      InsertInto(less, x, first, rest);
      InsertInto(less, f(x), f(first), MapAll(f, rest));
      if less(first, x) {
        InsertMapped(less, f, x, rest);
        MapFirst(f, first, Insert(less, x, rest));
      }
    }
  }

  lemma SortFirst<T>(less: (T, T) -> bool, x: T, rest: seq<T>)
    ensures Sort(less, [x] + rest) == Insert(less, x, Sort(less, rest))
  {
    assert ([x] + rest)[1..] == rest;
  }

  /** Sorting and then mapping is mapping and then sorting. */
  lemma {:induction false} SortMapped<T(!new)>(less: (T, T) -> bool, f: T -> T, s: seq<T>)
    requires Respects(less, f)
    ensures MapAll(f, Sort(less, s)) == Sort(less, MapAll(f, s))
  {
    if s != [] {
      var first, rest := s[0], s[1..];
      assert s == [first] + rest;
      SortMapped(less, f, rest);
      InsertMapped(less, f, first, Sort(less, rest));
      SortFirst(less, first, rest);
      MapFirst(f, first, rest);
      SortFirst(less, f(first), MapAll(f, rest));
    }
  }

  // ------------------------------------------------------------------ sorted sets

  /** `[...new Set(values)]` */
  function Distinct<T(==,!new)>(values: seq<T>): (r: seq<T>)
    ensures forall x :: x in r <==> x in values
    ensures forall i, j :: 0 <= i < j < |r| ==> r[i] != r[j]
  {
    if values == [] then []
    else
      var last, earlier := values[|values| - 1], Distinct(values[..|values| - 1]);
      assert values == values[..|values| - 1] + [last];
      if last in earlier then earlier else earlier + [last]
  }

  function SortedDistinct<T(==,!new)>(less: (T, T) -> bool, values: seq<T>): seq<T> {
    Sort(less, Distinct(values))
  }

  lemma {:induction false} DistinctMultiset<T>(a: seq<T>, b: seq<T>)
    requires forall i, j :: 0 <= i < j < |a| ==> a[i] != a[j]
    requires forall i, j :: 0 <= i < j < |b| ==> b[i] != b[j]
    requires forall x :: x in a <==> x in b
    ensures multiset(a) == multiset(b)
  {
    forall x
      ensures multiset(a)[x] == multiset(b)[x]
    {
      AtMostOnce(a, x);
      AtMostOnce(b, x);
    }
  }

  lemma {:induction false} AtMostOnce<T>(s: seq<T>, x: T)
    requires forall i, j :: 0 <= i < j < |s| ==> s[i] != s[j]
    ensures multiset(s)[x] == if x in s then 1 else 0
  {
    if s != [] {
      assert s == [s[0]] + s[1..];
      AtMostOnce(s[1..], x);
      assert s[0] !in s[1..];
    }
  }

  lemma SortedDistinctHas<T(!new)>(less: (T, T) -> bool, values: seq<T>)
    ensures forall x :: x in SortedDistinct(less, values) <==> x in values
  {
    InMultiset(SortedDistinct(less, values), Distinct(values));
  }

  /** Sorted sets are written the same exactly when they have the same elements. */
  lemma SortedDistinctExactly<T(!new)>(less: (T, T) -> bool, a: seq<T>, b: seq<T>)
    requires StrictTotal(less)
    ensures SortedDistinct(less, a) == SortedDistinct(less, b) <==> (forall x :: x in a <==> x in b)
  {
    SortedDistinctHas(less, a);
    SortedDistinctHas(less, b);
    if forall x :: x in a <==> x in b {
      DistinctMultiset(Distinct(a), Distinct(b));
      SortIgnoresOrder(less, Distinct(a), Distinct(b));
    }
  }
}
