/** The library sort, as a function, and the lexicographic order on strings. */
module Sorting {

  ghost predicate Ordering<T(!new)>(leq: (T, T) -> bool) {
    && (forall a, b :: leq(a, b) || leq(b, a))
    && (forall a, b, c :: leq(a, b) && leq(b, c) ==> leq(a, c))
  }

  ghost predicate SortedBy<T>(s: seq<T>, leq: (T, T) -> bool) {
    forall i, j :: 0 <= i < j < |s| ==> leq(s[i], s[j])
  }

  function Insert<T>(x: T, s: seq<T>, leq: (T, T) -> bool): (r: seq<T>)
    ensures multiset(r) == multiset(s) + multiset{x}
  {
    if s == [] || leq(x, s[0]) then [x] + s
    else
      assert s == [s[0]] + s[1..];
      [s[0]] + Insert(x, s[1..], leq)
  }

  /** Any stable sort; ties keep their order. */
  function Sort<T>(s: seq<T>, leq: (T, T) -> bool): (r: seq<T>)
    ensures multiset(r) == multiset(s)
    ensures |r| == |s|
  {
    if s == [] then []
    else
      assert s == [s[0]] + s[1..];
      assert |Insert(s[0], Sort(s[1..], leq), leq)| == |multiset(Insert(s[0], Sort(s[1..], leq), leq))|;
      Insert(s[0], Sort(s[1..], leq), leq)
  }

  lemma {:induction false} InsertSorted<T(!new)>(x: T, s: seq<T>, leq: (T, T) -> bool)
    requires Ordering(leq) && SortedBy(s, leq)
    ensures SortedBy(Insert(x, s, leq), leq)
  {
    if s != [] && !leq(x, s[0]) {
      InsertSorted(x, s[1..], leq);
      var rest := Insert(x, s[1..], leq);
      forall j | 0 <= j < |rest| ensures leq(s[0], rest[j]) {
        assert rest[j] in multiset(rest);
        assert rest[j] == x || rest[j] in s[1..];
      }
    }
  }

  lemma {:induction false} SortSorts<T(!new)>(s: seq<T>, leq: (T, T) -> bool)
    requires Ordering(leq)
    ensures SortedBy(Sort(s, leq), leq)
  {
    if s != [] {
      SortSorts(s[1..], leq);
      InsertSorted(s[0], Sort(s[1..], leq), leq);
    }
  }

  /** Byte order of UTF-8 is code-point order, which is Dafny's order on `char`. */
  predicate LexLeq(a: string, b: string) {
    a == [] || (b != [] && (a[0] < b[0] || (a[0] == b[0] && LexLeq(a[1..], b[1..]))))
  }

  /** `a` is a proper prefix of `b`, or smaller where they first differ. */
  ghost predicate Before(a: string, b: string) {
    exists k: nat :: DifferAt(a, b, k)
  }

  /** The first difference is at `k`, where `a` ends or has the smaller character. */
  predicate DifferAt(a: string, b: string, k: nat) {
    k <= |a| && k < |b| && a[..k] == b[..k] && (k < |a| ==> a[k] < b[k])
  }

  /** The order is the dictionary's. */
  lemma {:induction false} LexIsDictionary(a: string, b: string)
    ensures LexLeq(a, b) <==> a == b || Before(a, b)
  {
    if a == [] {
      if b != [] { assert DifferAt(a, b, 0); }
    } else if b != [] {
      forall k: nat | DifferAt(a, b, k) ensures a[0] <= b[0] { FirstIsOrdered(a, b, k); }
      if a[0] < b[0] {
        assert DifferAt(a, b, 0);
      } else if a[0] == b[0] {
        LexIsDictionary(a[1..], b[1..]);
        assert a == [a[0]] + a[1..] && b == [b[0]] + b[1..];
        if Before(a[1..], b[1..]) {
          var k: nat :| DifferAt(a[1..], b[1..], k);
          assert a[..k + 1] == [a[0]] + a[1..][..k] && b[..k + 1] == [b[0]] + b[1..][..k];
          assert DifferAt(a, b, k + 1);
        }
        if Before(a, b) {
          var k: nat :| DifferAt(a, b, k);
          assert a[1..][..k - 1] == a[..k][1..] && b[1..][..k - 1] == b[..k][1..];
          assert DifferAt(a[1..], b[1..], k - 1);
        }
      }
    }
  }

  lemma FirstIsOrdered(a: string, b: string, k: nat)
    requires DifferAt(a, b, k) && a != []
    ensures b != [] && a[0] <= b[0]
  {
    if k > 0 { assert a[..k][0] == b[..k][0]; }
  }

  lemma {:induction false} LexTotal(a: string, b: string)
    ensures LexLeq(a, b) || LexLeq(b, a)
    ensures LexLeq(a, b) && LexLeq(b, a) ==> a == b
  {
    if a != [] && b != [] && a[0] == b[0] {
      LexTotal(a[1..], b[1..]);
      assert a == [a[0]] + a[1..] && b == [b[0]] + b[1..];
    }
  }

  lemma {:induction false} LexTransitive(a: string, b: string, c: string)
    requires LexLeq(a, b) && LexLeq(b, c)
    ensures LexLeq(a, c)
  {
    if a != [] && b != [] && c != [] && a[0] == b[0] == c[0] {
      LexTransitive(a[1..], b[1..], c[1..]);
    }
  }
}
