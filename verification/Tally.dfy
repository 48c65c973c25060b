/** Weighted lists: what a list of (value, count) pairs says about the plain list it stands for. */
module Tally {

  function Replicate<T>(x: T, n: nat): seq<T> {
    if n == 0 then [] else Replicate(x, n - 1) + [x]
  }

  /** The plain list that a weighted list abbreviates. */
  function Expand<T>(ws: seq<(T, nat)>): seq<T> {
    if ws == [] then [] else Replicate(ws[0].0, ws[0].1) + Expand(ws[1..])
  }

  /** The total weight of the entries whose value satisfies `p`. */
  function SumWhere<T>(ws: seq<(T, nat)>, p: T -> bool): nat {
    if ws == [] then 0 else (if p(ws[0].0) then ws[0].1 else 0) + SumWhere(ws[1..], p)
  }

  /** The number of positions of a plain list whose value satisfies `p`. */
  function CountWhere<T>(xs: seq<T>, p: T -> bool): nat {
    if xs == [] then 0 else CountWhere(xs[..|xs| - 1], p) + if p(xs[|xs| - 1]) then 1 else 0
  }

  lemma {:induction false} CountAppend<T>(xs: seq<T>, ys: seq<T>, p: T -> bool)
    ensures CountWhere(xs + ys, p) == CountWhere(xs, p) + CountWhere(ys, p)
  {
    if ys == [] {
      assert xs + ys == xs;
    } else {
      var n := |ys| - 1;
      assert (xs + ys)[..|xs + ys| - 1] == xs + ys[..n];
      CountAppend(xs, ys[..n], p);
    }
  }

  lemma {:induction false} CountReplicate<T>(x: T, n: nat, p: T -> bool)
    ensures CountWhere(Replicate(x, n), p) == if p(x) then n else 0
  {
    if n > 0 {
      CountReplicate(x, n - 1, p);
      var s := Replicate(x, n);
      assert s[..|s| - 1] == Replicate(x, n - 1);
    }
  }

  lemma {:induction false} SumIsExpandedCount<T>(ws: seq<(T, nat)>, p: T -> bool)
    ensures SumWhere(ws, p) == CountWhere(Expand(ws), p)
  {
    if ws != [] {
      CountReplicate(ws[0].0, ws[0].1, p);
      SumIsExpandedCount(ws[1..], p);
      CountAppend(Replicate(ws[0].0, ws[0].1), Expand(ws[1..]), p);
    }
  }

  lemma RemoveAt<T>(ys: seq<T>, i: nat, p: T -> bool)
    requires i < |ys|
    ensures CountWhere(ys, p) == CountWhere(ys[..i] + ys[i + 1..], p) + if p(ys[i]) then 1 else 0
  {
    hide CountWhere;
    var before, after := ys[..i], ys[i + 1..];
    assert ys == before + [ys[i]] + after;
    CountAppend(before, after, p);
    CountAppend(before + [ys[i]], after, p);
    CountAppend(before, [ys[i]], p);
    CountOne(ys[i], p);
  }

  lemma CountOne<T>(x: T, p: T -> bool)
    ensures CountWhere([x], p) == if p(x) then 1 else 0
  {
    assert [x][..0] == [];
  }

  lemma MultisetRemoveAt<T>(ys: seq<T>, i: nat)
    requires i < |ys|
    ensures multiset(ys) == multiset(ys[..i] + ys[i + 1..]) + multiset{ys[i]}
  {
    assert ys == ys[..i] + ([ys[i]] + ys[i + 1..]);
  }

  lemma RemoveBoth<T>(xs: seq<T>, ys: seq<T>, i: nat)
    requires multiset(xs) == multiset(ys) && i < |ys|
    requires xs != [] && xs[|xs| - 1] == ys[i]
    ensures multiset(xs[..|xs| - 1]) == multiset(ys[..i] + ys[i + 1..])
  {
    var x, a, b := ys[i], xs[..|xs| - 1], ys[..i] + ys[i + 1..];
    assert xs == a + [x];
    MultisetRemoveAt(ys, i);
    assert multiset(a) == multiset(xs) - multiset{x};
    assert multiset(b) == multiset(ys) - multiset{x};
  }

  /** Counting does not depend on order. */
  lemma {:induction false} CountPermutation<T>(xs: seq<T>, ys: seq<T>, p: T -> bool)
    requires multiset(xs) == multiset(ys)
    ensures CountWhere(xs, p) == CountWhere(ys, p)
  {
    if xs == [] {
      assert |multiset(ys)| == 0;
    } else {
      var n := |xs| - 1;
      assert xs[n] in multiset(ys);
      var i :| 0 <= i < |ys| && ys[i] == xs[n];
      var rest := ys[..i] + ys[i + 1..];
      RemoveAt(ys, i, p);
      RemoveBoth(xs, ys, i);
      CountPermutation(xs[..n], rest, p);
    }
  }

  /** A sum over a weighted list is a count over any list it abbreviates, in whatever order. */
  lemma SumIsCount<T>(ws: seq<(T, nat)>, xs: seq<T>, p: T -> bool)
    requires multiset(Expand(ws)) == multiset(xs)
    ensures SumWhere(ws, p) == CountWhere(xs, p)
  {
    SumIsExpandedCount(ws, p);
    CountPermutation(Expand(ws), xs, p);
  }

  lemma {:induction false} CountAtMost<T>(xs: seq<T>, p: T -> bool, q: T -> bool)
    requires forall x :: x in xs && p(x) ==> q(x)
    ensures CountWhere(xs, p) <= CountWhere(xs, q) <= |xs|
  {
    if xs != [] {
      CountAtMost(xs[..|xs| - 1], p, q);
    }
  }

  /** `ws` lists every value of `xs` once, with its number of occurrences. */
  ghost predicate Tallies<T>(ws: seq<(T, nat)>, xs: seq<T>) {
    && (forall i, j :: 0 <= i < j < |ws| ==> ws[i].0 != ws[j].0)
    && (forall i :: 0 <= i < |ws| ==> ws[i].1 == multiset(xs)[ws[i].0])
    && (forall x :: x in xs ==> exists i :: 0 <= i < |ws| && ws[i].0 == x)
  }

  ghost function Occurrences<T>(ws: seq<(T, nat)>, x: T): nat {
    if ws == [] then 0 else (if ws[0].0 == x then ws[0].1 else 0) + Occurrences(ws[1..], x)
  }

  lemma {:induction false} ReplicateOccurrences<T>(x: T, n: nat)
    ensures forall y :: multiset(Replicate(x, n))[y] == if y == x then n else 0
  {
    if n > 0 { ReplicateOccurrences(x, n - 1); }
  }

  lemma {:induction false} ExpandOccurrences<T>(ws: seq<(T, nat)>, x: T)
    ensures multiset(Expand(ws))[x] == Occurrences(ws, x)
  {
    if ws != [] {
      ReplicateOccurrences(ws[0].0, ws[0].1);
      ExpandOccurrences(ws[1..], x);
    }
  }

  lemma {:induction false} SingleOccurrence<T>(ws: seq<(T, nat)>, x: T)
    requires forall i, j :: 0 <= i < j < |ws| ==> ws[i].0 != ws[j].0
    ensures forall i :: 0 <= i < |ws| && ws[i].0 == x ==> Occurrences(ws, x) == ws[i].1
    ensures (forall i :: 0 <= i < |ws| ==> ws[i].0 != x) ==> Occurrences(ws, x) == 0
  {
    if ws != [] {
      SingleOccurrence(ws[1..], x);
      assert forall i :: 0 < i < |ws| ==> ws[i] == ws[1..][i - 1];
    }
  }

  /** A tally expands to exactly the multiset it counts. */
  lemma TalliesExpand<T(!new)>(ws: seq<(T, nat)>, xs: seq<T>)
    requires Tallies(ws, xs)
    ensures multiset(Expand(ws)) == multiset(xs)
  {
    forall x: T
      ensures multiset(Expand(ws))[x] == multiset(xs)[x]
    {
      ExpandOccurrences(ws, x);
      SingleOccurrence(ws, x);
      if x in xs {
        var i :| 0 <= i < |ws| && ws[i].0 == x;
      } else {
        assert forall i :: 0 <= i < |ws| && ws[i].0 == x ==> ws[i].1 == 0;
        if i :| 0 <= i < |ws| && ws[i].0 == x { assert Occurrences(ws, x) == ws[i].1; }
      }
    }
  }

  /** Whatever a weighted list expands to comes from one of its entries. */
  lemma {:induction false} ExpandedFrom<T>(ws: seq<(T, nat)>, x: T) returns (i: nat)
    requires x in Expand(ws)
    ensures i < |ws| && ws[i].0 == x
  {
    if x in Replicate(ws[0].0, ws[0].1) {
      i := 0;
      ReplicatedFrom(ws[0].0, ws[0].1, x);
    } else {
      var j := ExpandedFrom(ws[1..], x);
      i := j + 1;
    }
  }

  lemma {:induction false} ReplicatedFrom<T>(x: T, n: nat, y: T)
    requires y in Replicate(x, n)
    ensures y == x
  {
    if n > 0 && y != x { ReplicatedFrom(x, n - 1, y); }
  }

  lemma Twice<T>(s: seq<T>, i: nat, j: nat)
    requires i < j < |s| && s[i] == s[j]
    ensures multiset(s)[s[i]] >= 2
  {
    assert s == s[..j] + s[j..];
    assert s[i] == s[..j][i] && s[j] == s[j..][0];
    assert s[i] in s[..j] && s[j] in s[j..];
  }

  /** A list of pairs with distinct keys holds every pair at most once. */
  lemma {:induction false} OnceOnly<K, V>(v: seq<(K, V)>, r: (K, V))
    requires forall i, j :: 0 <= i < j < |v| ==> v[i].0 != v[j].0
    ensures multiset(v)[r] <= 1
  {
    if v != [] {
      var n := |v| - 1;
      OnceOnly(v[..n], r);
      assert v == v[..n] + [v[n]];
      if v[n] == r { assert r !in v[..n]; }
    }
  }

  /** Reordering keeps the keys distinct. */
  lemma DistinctKeysPermute<K, V>(list: seq<(K, V)>, sorted: seq<(K, V)>)
    requires multiset(sorted) == multiset(list)
    requires forall i, j :: 0 <= i < j < |list| ==> list[i].0 != list[j].0
    ensures forall i, j :: 0 <= i < j < |sorted| ==> sorted[i].0 != sorted[j].0
  {
    forall i, j | 0 <= i < j < |sorted| ensures sorted[i].0 != sorted[j].0 {
      if sorted[i].0 == sorted[j].0 {
        assert sorted[i] in multiset(sorted) && sorted[j] in multiset(sorted);
        assert sorted[i] in list && sorted[j] in list;
        Twice(sorted, i, j);
        OnceOnly(list, sorted[i]);
      }
    }
  }
}
