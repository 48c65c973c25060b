/** The live view's aggregator: per-function exclusive and inclusive counts over the recorded stacks. */
module Aggregator {
  import opened Wrappers
  import opened Frames
  import opened Tally
  import opened Sorting

  datatype Counts = Counts(exclusive: nat, inclusive: nat)

  type Rows = map<string, Counts>

  function Exclusive(rows: Rows, k: string): nat {
    if k in rows then rows[k].exclusive else 0
  }

  function Inclusive(rows: Rows, k: string): nat {
    if k in rows then rows[k].inclusive else 0
  }

  // ----- What the counts should be, over stacks given by their names, leaf first -----

  function LeafIs(k: string): seq<string> -> bool {
    (names: seq<string>) => names != [] && names[0] == k
  }

  function Contains(k: string): seq<string> -> bool {
    (names: seq<string>) => k in names
  }

  function NonEmpty(): seq<string> -> bool {
    (names: seq<string>) => names != []
  }

  /** The rows and total count `stacks` exactly, and there is no row for a name that never occurred. */
  ghost predicate Counted(rows: Rows, samples: nat, stacks: seq<seq<string>>) {
    && samples == CountWhere(stacks, NonEmpty())
    && (forall k :: Exclusive(rows, k) == CountWhere(stacks, LeafIs(k)))
    && (forall k :: Inclusive(rows, k) == CountWhere(stacks, Contains(k)))
    && (forall k :: k in rows ==> rows[k].inclusive > 0)
  }

  /** `rows` is `rows0` after one non-empty stack. */
  ghost predicate Bumped(rows0: Rows, rows: Rows, names: seq<string>)
    requires names != []
  {
    && (forall k :: Exclusive(rows, k) == Exclusive(rows0, k) + if k == names[0] then 1 else 0)
    && (forall k :: Inclusive(rows, k) == Inclusive(rows0, k) + if k in names then 1 else 0)
    && (forall k :: k in rows ==> rows[k].inclusive > 0)
  }

  lemma BumpedCounts(rows0: Rows, rows: Rows, samples: nat, stacks: seq<seq<string>>, names: seq<string>)
    requires Counted(rows0, samples, stacks) && names != [] && Bumped(rows0, rows, names)
    ensures Counted(rows, samples + 1, stacks + [names])
  {
    hide CountWhere;
    CountSnoc(stacks, names, NonEmpty());
    forall k
      ensures Exclusive(rows, k) == CountWhere(stacks + [names], LeafIs(k))
      ensures Inclusive(rows, k) == CountWhere(stacks + [names], Contains(k))
    {
      CountSnoc(stacks, names, LeafIs(k));
      CountSnoc(stacks, names, Contains(k));
    }
  }

  /** `rows.entry(k).or_default().exclusive += 1`. */
  function BumpExclusive(rows: Rows, k: string): Rows {
    rows[k := Counts(Exclusive(rows, k) + 1, Inclusive(rows, k))]
  }

  function BumpInclusive(rows: Rows, k: string): Rows {
    rows[k := Counts(Exclusive(rows, k), Inclusive(rows, k) + 1)]
  }

  function Distinct(names: seq<string>): set<string> {
    set k | k in names
  }

  lemma NothingDistinct(names: seq<string>)
    ensures Distinct(names[..0]) == {}
  {
  }

  lemma DistinctSnoc(names: seq<string>, i: nat)
    requires i < |names|
    ensures Distinct(names[..i + 1]) == Distinct(names[..i]) + {names[i]}
  {
    assert names[..i + 1] == names[..i] + [names[i]];
  }

  /** Half way through a stack: the leaf is counted, and so are the functions seen so far. */
  ghost predicate Partly(rows0: Rows, rows: Rows, leaf: string, seen: set<string>) {
    && (forall k :: Exclusive(rows, k) == Exclusive(rows0, k) + if k == leaf then 1 else 0)
    && (forall k :: Inclusive(rows, k) == Inclusive(rows0, k) + if k in seen then 1 else 0)
    && (forall k :: k in rows ==> k == leaf || rows[k].inclusive > 0)
  }

  lemma PartlyStart(rows0: Rows, samples: nat, stacks: seq<seq<string>>, leaf: string)
    requires Counted(rows0, samples, stacks)
    ensures Partly(rows0, BumpExclusive(rows0, leaf), leaf, {})
  {
  }

  lemma PartlyStep(rows0: Rows, rows: Rows, leaf: string, seen: set<string>, k: string)
    requires Partly(rows0, rows, leaf, seen) && k !in seen
    ensures Partly(rows0, BumpInclusive(rows, k), leaf, seen + {k})
  {
  }

  lemma PartlyDone(rows0: Rows, rows: Rows, names: seq<string>, seen: set<string>)
    requires names != [] && Partly(rows0, rows, names[0], seen) && seen == Distinct(names)
    ensures Bumped(rows0, rows, names)
  {
    assert names[0] in seen;
    assert Inclusive(rows, names[0]) > 0;
  }

  lemma EmptyStackCounts(rows: Rows, samples: nat, stacks: seq<seq<string>>)
    requires Counted(rows, samples, stacks)
    ensures Counted(rows, samples, stacks + [[]])
  {
    hide CountWhere;
    CountSnoc(stacks, [], NonEmpty());
    forall k
      ensures Exclusive(rows, k) == CountWhere(stacks + [[]], LeafIs(k))
      ensures Inclusive(rows, k) == CountWhere(stacks + [[]], Contains(k))
    {
      CountSnoc(stacks, [], LeafIs(k));
      CountSnoc(stacks, [], Contains(k));
    }
  }

  lemma CountSnoc(stacks: seq<seq<string>>, names: seq<string>, p: seq<string> -> bool)
    ensures CountWhere(stacks + [names], p) == CountWhere(stacks, p) + if p(names) then 1 else 0
  {
    assert (stacks + [names])[..|stacks|] == stacks;
  }

  /** Recursion counts once: exclusive <= inclusive <= samples for every name. */
  lemma CountsAreBounded(rows: Rows, samples: nat, stacks: seq<seq<string>>, k: string)
    requires Counted(rows, samples, stacks)
    ensures Exclusive(rows, k) <= Inclusive(rows, k) <= samples
  {
    CountAtMost(stacks, LeafIs(k), Contains(k));
    CountAtMost(stacks, Contains(k), NonEmpty());
  }

  // ----- Exclusive counts add up -----

  ghost function Pick(keys: set<string>): string
    requires keys != {}
    ensures Pick(keys) in keys
  {
    var k :| k in keys; k
  }

  ghost function SumExclusive(rows: Rows, keys: set<string>): nat {
    if keys == {} then 0
    else Exclusive(rows, Pick(keys)) + SumExclusive(rows, keys - {Pick(keys)})
  }

  ghost function SumLeaves(stacks: seq<seq<string>>, keys: set<string>): nat {
    if keys == {} then 0
    else CountWhere(stacks, LeafIs(Pick(keys))) + SumLeaves(stacks, keys - {Pick(keys)})
  }

  lemma {:induction false} SumsAgree(rows: Rows, samples: nat, stacks: seq<seq<string>>, keys: set<string>)
    requires Counted(rows, samples, stacks)
    ensures SumExclusive(rows, keys) == SumLeaves(stacks, keys)
  {
    if keys != {} { SumsAgree(rows, samples, stacks, keys - {Pick(keys)}); }
  }

  lemma {:induction false} SumLeavesSnoc(stacks: seq<seq<string>>, names: seq<string>, keys: set<string>)
    ensures SumLeaves(stacks + [names], keys) ==
            SumLeaves(stacks, keys) + if names != [] && names[0] in keys then 1 else 0
  {
    if keys != {} {
      CountSnoc(stacks, names, LeafIs(Pick(keys)));
      SumLeavesSnoc(stacks, names, keys - {Pick(keys)});
    }
  }

  lemma {:induction false} SumLeavesEmpty(keys: set<string>)
    ensures SumLeaves([], keys) == 0
  {
    if keys != {} { SumLeavesEmpty(keys - {Pick(keys)}); }
  }

  lemma {:induction false} SumLeavesIsTotal(stacks: seq<seq<string>>, keys: set<string>)
    requires forall names :: names in stacks && names != [] ==> names[0] in keys
    ensures SumLeaves(stacks, keys) == CountWhere(stacks, NonEmpty())
  {
    if stacks == [] {
      SumLeavesEmpty(keys);
    } else {
      var n := |stacks| - 1;
      SumLeavesIsTotal(stacks[..n], keys);
      SumLeavesSnoc(stacks[..n], stacks[n], keys);
      assert stacks == stacks[..n] + [stacks[n]];
    }
  }

  lemma {:induction false} CountPositive(stacks: seq<seq<string>>, names: seq<string>, p: seq<string> -> bool)
    requires names in stacks && p(names)
    ensures CountWhere(stacks, p) > 0
  {
    var n := |stacks| - 1;
    if stacks[n] != names {
      assert names in stacks[..n];
      CountPositive(stacks[..n], names, p);
    }
  }

  /** Every sample is exclusive to exactly one row: the exclusive counts of all rows sum to the samples. */
  lemma ExclusiveSumsToSamples(rows: Rows, samples: nat, stacks: seq<seq<string>>)
    requires Counted(rows, samples, stacks)
    ensures SumExclusive(rows, rows.Keys) == samples
  {
    forall names | names in stacks && names != [] ensures names[0] in rows.Keys {
      CountPositive(stacks, names, LeafIs(names[0]));
      assert Exclusive(rows, names[0]) > 0;
    }
    SumsAgree(rows, samples, stacks, rows.Keys);
    SumLeavesIsTotal(stacks, rows.Keys);
  }

  // ----- Showing the top rows -----

  type Row = (string, Counts)

  function SortKey(row: Row, byInclusive: bool): nat {
    if byInclusive then row.1.inclusive else row.1.exclusive
  }

  /** `sort_by(|a, b| key_b.cmp(&key_a))`. */
  function Descending(byInclusive: bool): (Row, Row) -> bool {
    (a: Row, b: Row) => SortKey(a, byInclusive) >= SortKey(b, byInclusive)
  }

  predicate IsRow(rows: Rows, r: Row) {
    r.0 in rows && rows[r.0] == r.1
  }

  /** `v` lists every row once. */
  ghost predicate IsListing(v: seq<Row>, rows: Rows) {
    && (forall i, j :: 0 <= i < j < |v| ==> v[i].0 != v[j].0)
    && (forall r :: r in v <==> IsRow(rows, r))
  }

  /** Compared by the chosen count. */
  predicate AtLeast(a: Counts, b: Counts, byInclusive: bool) {
    (byInclusive ==> a.inclusive >= b.inclusive) && (!byInclusive ==> a.exclusive >= b.exclusive)
  }

  /** A descending selection of the rows in which no omitted row beats a shown one. */
  ghost predicate IsTop(shown: seq<Row>, rows: Rows, byInclusive: bool, limit: nat) {
    && |shown| == (if limit <= |rows| then limit else |rows|)
    && (forall i, j :: 0 <= i < j < |shown| ==> shown[i].0 != shown[j].0)
    && (forall r :: r in shown ==> IsRow(rows, r))
    && (forall i, j :: 0 <= i < j < |shown| ==> AtLeast(shown[i].1, shown[j].1, byInclusive))
    && (forall r, q :: r in shown && IsRow(rows, q) && q !in shown ==> AtLeast(r.1, q.1, byInclusive))
  }

  class Aggregator {
    var rows: Rows
    var samples: nat
    var started: Option<int>
    /** The stacks recorded since the last reset, as names, leaf first. */
    ghost var recorded: seq<seq<string>>

    ghost predicate Valid()
      reads this
    {
      Counted(rows, samples, recorded)
    }

    constructor ()
      ensures Valid() && recorded == [] && rows == map[] && started == None
    {
      rows, samples, started := map[], 0, None;
      recorded := [];
    }

    method Record(frames: seq<Frame>, now: int)
      requires Valid()
      modifies this
      ensures Valid()
      ensures recorded == old(recorded) + [QualifiedNames(frames)]
      ensures started == if old(started).None? then Some(now) else old(started)
    {
      hide CountWhere, Counted, Partly, Bumped, BumpExclusive, BumpInclusive, Distinct, QualifiedName;
      ghost var names := QualifiedNames(frames);
      ghost var rows0 := rows;
      if started.None? {
        started := Some(now);
      }
      recorded := recorded + [names];
      if frames == [] {
        assert names == [];
        EmptyStackCounts(rows, samples, old(recorded));
        return;
      }
      samples := samples + 1;
      var leafKey := QualifiedName(frames[0]);
      rows := BumpExclusive(rows, leafKey);
      var seen: set<string> := {};
      assert seen == Distinct(names[..0]) by { NothingDistinct(names); }
      PartlyStart(rows0, samples - 1, old(recorded), leafKey);
      for i := 0 to |frames|
        invariant seen == Distinct(names[..i])
        invariant Partly(rows0, rows, names[0], seen)
        invariant recorded == old(recorded) + [names] && samples == old(samples) + 1
        invariant started == if old(started).None? then Some(now) else old(started)
      {
        var k := QualifiedName(frames[i]);
        DistinctSnoc(names, i);
        if k !in seen {
          PartlyStep(rows0, rows, names[0], seen, k);
          seen := seen + {k};
          rows := BumpInclusive(rows, k);
        }
      }
      assert names[..|frames|] == names;
      PartlyDone(rows0, rows, names, seen);
      BumpedCounts(rows0, rows, samples - 1, old(recorded), names);
    }

    method Reset(now: int)
      modifies this
      ensures Valid() && recorded == [] && rows == map[] && samples == 0 && started == Some(now)
    {
      rows, samples, started := map[], 0, Some(now);
      recorded := [];
    }

    /** `self.rows.iter()` collected: every row once, in an arbitrary order. */
    method ListRows() returns (v: seq<Row>)
      ensures IsListing(v, rows) && |v| == |rows|
    {
      v := [];
      var left := rows.Keys;
      while left != {}
        invariant left <= rows.Keys
        invariant forall i, j :: 0 <= i < j < |v| ==> v[i].0 != v[j].0
        invariant forall r :: r in v <==> IsRow(rows, r) && r.0 !in left
        invariant |v| + |left| == |rows|
        decreases |left|
      {
        var k :| k in left;
        v := v + [(k, rows[k])];
        left := left - {k};
      }
    }

    method TopRows(byInclusive: bool, limit: nat) returns (shown: seq<Row>)
      ensures IsTop(shown, rows, byInclusive, limit)
    {
      var v := ListRows();
      var sorted := Sort(v, Descending(byInclusive));
      shown := if limit <= |sorted| then sorted[..limit] else sorted;
      SortSorts(v, Descending(byInclusive));
      SortedListing(v, sorted, rows);
      TopOfSorted(sorted, rows, byInclusive, limit);
    }
  }

  lemma TopOfSorted(sorted: seq<Row>, rows: Rows, byInclusive: bool, limit: nat)
    requires IsListing(sorted, rows) && |sorted| == |rows| && SortedBy(sorted, Descending(byInclusive))
    ensures IsTop(if limit <= |sorted| then sorted[..limit] else sorted, rows, byInclusive, limit)
  {
    hide AtLeast, IsRow;
    var shown := sorted[..if limit <= |sorted| then limit else |sorted|];
    assert shown == if limit <= |sorted| then sorted[..limit] else sorted;
    forall i, j | 0 <= i < j < |shown|
      ensures AtLeast(shown[i].1, shown[j].1, byInclusive)
    {
      DescendingKeys(sorted, byInclusive, i, j);
    }
    forall r, q | r in shown && IsRow(rows, q) && q !in shown
      ensures AtLeast(r.1, q.1, byInclusive)
    {
      OmittedLoses(sorted, byInclusive, |shown|, r, q);
    }
  }

  lemma DescendingKeys(sorted: seq<Row>, byInclusive: bool, i: nat, j: nat)
    requires SortedBy(sorted, Descending(byInclusive)) && i < j < |sorted|
    ensures AtLeast(sorted[i].1, sorted[j].1, byInclusive)
  {
    assert Descending(byInclusive)(sorted[i], sorted[j]);
  }

  lemma OmittedLoses(sorted: seq<Row>, byInclusive: bool, n: nat, shown: Row, omitted: Row)
    requires SortedBy(sorted, Descending(byInclusive)) && n <= |sorted|
    requires shown in sorted[..n] && omitted in sorted && omitted !in sorted[..n]
    ensures AtLeast(shown.1, omitted.1, byInclusive)
  {
    var i :| 0 <= i < n && sorted[i] == shown;
    var j :| 0 <= j < |sorted| && sorted[j] == omitted;
    assert forall m :: 0 <= m < n ==> sorted[m] in sorted[..n];
    assert Descending(byInclusive)(sorted[i], sorted[j]);
  }

  lemma SortedListing(v: seq<Row>, sorted: seq<Row>, rows: Rows)
    requires IsListing(v, rows) && multiset(sorted) == multiset(v)
    ensures IsListing(sorted, rows)
  {
    forall r ensures r in sorted <==> r in v {
      assert r in sorted <==> r in multiset(sorted);
    }
    DistinctKeysPermute(v, sorted);
  }
}
