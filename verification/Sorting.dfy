/** Python's order on strings, and sorting by any strict total order. */
module Sorting {
  import opened Collections

  /** `a < b` */
  predicate StrLess(a: string, b: string) {
    if b == "" then false
    else if a == "" then true
    else if a[0] != b[0] then a[0] < b[0]
    else StrLess(a[1..], b[1..])
  }

  /** Alike up to here, and smaller here. */
  ghost predicate SmallerAt(a: string, b: string, i: nat) {
    i < |a| && i < |b| && a[..i] == b[..i] && a[i] < b[i]
  }

  /** The order of strings: a proper beginning comes first, and otherwise the first difference decides. */
  lemma {:induction false} StrLessIff(a: string, b: string)
    ensures StrLess(a, b) <==> (|a| < |b| && b[..|a|] == a) || exists i :: SmallerAt(a, b, i)
  {
    if a != "" && b != "" {
      StrLessIff(a[1..], b[1..]);
      assert a == [a[0]] + a[1..] && b == [b[0]] + b[1..];
      if a[0] != b[0] {
        assert a[0] < b[0] ==> SmallerAt(a, b, 0);
        assert |a| <= |b| ==> b[..|a|][0] == b[0];
        forall i: nat ensures SmallerAt(a, b, i) ==> i == 0 { AlikeFromStart(a, b, i); }
      } else {
        forall i: nat ensures SmallerAt(a[1..], b[1..], i) <==> SmallerAt(a, b, i + 1) { SmallerFurther(a, b, i); }
        assert !SmallerAt(a, b, 0);
        forall i: nat | SmallerAt(a, b, i) ensures i > 0 && SmallerAt(a[1..], b[1..], i - 1) {
          SmallerFurther(a, b, i - 1);
        }
        if |a| < |b| {
          assert b[..|a|] == [b[0]] + b[1..][..|a| - 1];
        }
      }
    }
  }

  lemma AlikeFromStart(a: string, b: string, i: nat)
    ensures SmallerAt(a, b, i) && i > 0 ==> a[0] == b[0]
  {
    if i < |a| && i < |b| && i > 0 {
      assert a[..i][0] == a[0] && b[..i][0] == b[0];
    }
  }

  lemma SmallerFurther(a: string, b: string, i: nat)
    requires a != "" && b != "" && a[0] == b[0]
    ensures SmallerAt(a[1..], b[1..], i) <==> SmallerAt(a, b, i + 1)
  {
    if i < |a| - 1 && i < |b| - 1 {
      assert a[..i + 1] == [a[0]] + a[1..][..i] && b[..i + 1] == [b[0]] + b[1..][..i];
      assert a[1..][..i] == a[..i + 1][1..] && b[1..][..i] == b[..i + 1][1..];
    }
  }

  lemma {:induction false} StrLessIsAsymmetric(a: string, b: string)
    requires StrLess(a, b)
    ensures !StrLess(b, a) && a != b
  {
    if a != "" && a[0] == b[0] {
      StrLessIsAsymmetric(a[1..], b[1..]);
    }
  }

  lemma {:induction false} StrLessIsTotal(a: string, b: string)
    requires a != b
    ensures StrLess(a, b) || StrLess(b, a)
  {
    if a != "" && b != "" && a[0] == b[0] {
      assert a == [a[0]] + a[1..] && b == [b[0]] + b[1..];
      StrLessIsTotal(a[1..], b[1..]);
    }
  }

  lemma {:induction false} StrLessIsTransitive(a: string, b: string, c: string)
    requires StrLess(a, b) && StrLess(b, c)
    ensures StrLess(a, c)
  {
    if a != "" && a[0] == b[0] == c[0] {
      StrLessIsTransitive(a[1..], b[1..], c[1..]);
    }
  }

  /** A strict total order on a set. */
  ghost predicate Orders<T(!new)>(less: (T, T) -> bool, on: set<T>) {
    && (forall a, b | a in on && b in on :: a != b ==> less(a, b) || less(b, a))
    && (forall a, b | a in on && b in on :: less(a, b) ==> a != b && !less(b, a))
    && (forall a, b, c | a in on && b in on && c in on :: less(a, b) && less(b, c) ==> less(a, c))
  }

  ghost predicate Sorted<T(!new)>(less: (T, T) -> bool, s: seq<T>) {
    forall i, j :: 0 <= i < j < |s| ==> less(s[i], s[j]) || s[i] == s[j]
  }

  function Insert<T>(less: (T, T) -> bool, x: T, s: seq<T>): (r: seq<T>)
    ensures |r| == |s| + 1
  {
    if s == [] || less(x, s[0]) then [x] + s else [s[0]] + Insert(less, x, s[1..])
  }

  /** `sorted(s)` */
  function Sort<T>(less: (T, T) -> bool, s: seq<T>): (r: seq<T>)
    ensures |r| == |s|
  {
    if s == [] then [] else Insert(less, s[0], Sort(less, s[1..]))
  }

  lemma {:induction false} InsertKeeps<T>(less: (T, T) -> bool, x: T, s: seq<T>)
    ensures multiset(Insert(less, x, s)) == multiset(s) + multiset{x}
  {
    if s != [] && !less(x, s[0]) {
      InsertKeeps(less, x, s[1..]);
      assert s == [s[0]] + s[1..];
    }
  }

  /** Sorting keeps every element as often as it was there. */
  lemma {:induction false} SortKeeps<T>(less: (T, T) -> bool, s: seq<T>)
    ensures multiset(Sort(less, s)) == multiset(s)
  {
    if s != [] {
      SortKeeps(less, s[1..]);
      InsertKeeps(less, s[0], Sort(less, s[1..]));
      assert s == [s[0]] + s[1..];
    }
  }

  lemma InSort<T>(less: (T, T) -> bool, s: seq<T>, x: T)
    ensures x in Sort(less, s) <==> x in s
  {
    SortKeeps(less, s);
    assert x in Sort(less, s) <==> x in multiset(Sort(less, s));
    assert x in s <==> x in multiset(s);
  }

  lemma InInsert<T>(less: (T, T) -> bool, x: T, s: seq<T>, y: T)
    ensures y in Insert(less, x, s) <==> y == x || y in s
  {
    InsertKeeps(less, x, s);
    assert y in Insert(less, x, s) <==> y in multiset(Insert(less, x, s));
    assert y in s <==> y in multiset(s);
  }

  lemma {:induction false} InsertSorts<T(!new)>(less: (T, T) -> bool, x: T, s: seq<T>, on: set<T>)
    requires Orders(less, on) && x in on && (forall y | y in s :: y in on) && Sorted(less, s)
    ensures Sorted(less, Insert(less, x, s))
  {
    if s == [] {
    } else if less(x, s[0]) {
      forall j | 0 <= j < |s| ensures less(x, s[j]) {
        assert s[0] in s && s[j] in s;
      }
    } else {
      var rest := Insert(less, x, s[1..]);
      assert forall y | y in s[1..] :: y in s;
      InsertSorts(less, x, s[1..], on);
      forall j | 0 <= j < |rest| ensures less(s[0], rest[j]) || s[0] == rest[j] {
        assert rest[j] in rest && s[0] in s;
        InInsert(less, x, s[1..], rest[j]);
      }
    }
  }

  lemma {:induction false} SortSorts<T(!new)>(less: (T, T) -> bool, s: seq<T>, on: set<T>)
    requires Orders(less, on) && (forall y | y in s :: y in on)
    ensures Sorted(less, Sort(less, s))
  {
    if s != [] {
      assert forall y | y in s[1..] :: y in s;
      SortSorts(less, s[1..], on);
      forall y | y in Sort(less, s[1..]) ensures y in on { InSort(less, s[1..], y); }
      InsertSorts(less, s[0], Sort(less, s[1..]), on);
    }
  }

  lemma {:induction false} OnceEach<T(!new)>(s: seq<T>)
    ensures Distinct(s) <==> forall x | x in s :: multiset(s)[x] == 1
  {
    if s != [] {
      OnceEach(s[1..]);
      assert s == [s[0]] + s[1..];
      if Distinct(s) {
        forall x | x in s ensures multiset(s)[x] == 1 {
          assert x in s[1..] ==> x in multiset(s[1..]);
        }
      } else {
        var i, j :| 0 <= i < j < |s| && s[i] == s[j];
        if i == 0 {
          assert s[j] in s[1..];
          assert multiset(s)[s[0]] >= 2;
        } else {
          assert s[1..][i - 1] == s[1..][j - 1];
          var x :| x in s[1..] && multiset(s[1..])[x] != 1;
          assert x in multiset(s[1..]);
          assert multiset(s)[x] >= 2;
        }
      }
    }
  }

  /** Sorting a list without repetitions leaves none. */
  lemma SortIsDistinct<T(!new)>(less: (T, T) -> bool, s: seq<T>)
    requires Distinct(s)
    ensures Distinct(Sort(less, s))
  {
    SortKeeps(less, s);
    OnceEach(s);
    OnceEach(Sort(less, s));
    forall x | x in Sort(less, s) ensures x in s { InSort(less, s, x); }
  }
}
