/** The folded-stacks sink: counts per root-first name list, written out sorted. */
module FoldedSink {
  import opened Frames
  import opened Tally
  import opened Sorting
  import opened FoldedText

  function Reverse(names: seq<string>): (r: seq<string>)
    ensures |r| == |names| && forall i :: 0 <= i < |r| ==> r[i] == names[|names| - 1 - i]
  {
    seq(|names|, i requires 0 <= i < |names| => names[|names| - 1 - i])
  }

  /** The names of a captured stack, root first. */
  function RootFirst(frames: seq<Frame>): seq<string> {
    Reverse(QualifiedNames(frames))
  }

  function Keys(stacks: seq<seq<string>>): (keys: seq<string>)
    ensures |keys| == |stacks| && forall i :: 0 <= i < |keys| ==> keys[i] == Join(stacks[i], ';')
  {
    seq(|stacks|, i requires 0 <= i < |stacks| => Join(stacks[i], ';'))
  }

  type Entry = (string, nat)

  /** The map counts the keys of the written stacks. */
  ghost predicate Counted(counts: map<string, nat>, keys: seq<string>) {
    && (forall k :: k in counts ==> counts[k] == multiset(keys)[k] > 0)
    && (forall k :: k in keys ==> k in counts)
  }

  function ByKey(): (Entry, Entry) -> bool {
    (a: Entry, b: Entry) => LexLeq(a.0, b.0)
  }

  lemma ByKeyOrders()
    ensures Ordering(ByKey())
  {
    forall a: Entry, b: Entry ensures ByKey()(a, b) || ByKey()(b, a) { LexTotal(a.0, b.0); }
    forall a: Entry, b: Entry, c: Entry | ByKey()(a, b) && ByKey()(b, c) ensures ByKey()(a, c) {
      LexTransitive(a.0, b.0, c.0);
    }
  }

  /** Lines strictly ascending by key. */
  ghost predicate StrictlySorted(entries: seq<Entry>) {
    forall i, j :: 0 <= i < j < |entries| ==> Before(entries[i].0, entries[j].0)
  }

  ghost predicate IsDrainOf(list: seq<Entry>, counts: map<string, nat>) {
    && (forall i, j :: 0 <= i < j < |list| ==> list[i].0 != list[j].0)
    && (forall e :: e in list <==> e.0 in counts && counts[e.0] == e.1)
  }

  lemma DrainTallies(list: seq<Entry>, counts: map<string, nat>, keys: seq<string>)
    requires Counted(counts, keys) && IsDrainOf(list, counts)
    ensures Tallies(list, keys) && multiset(Expand(list)) == multiset(keys)
    ensures forall i :: 0 <= i < |list| ==> list[i].1 > 0
  {
    forall k | k in keys ensures exists i :: 0 <= i < |list| && list[i].0 == k {
      assert (k, counts[k]) in list;
    }
    TalliesExpand(list, keys);
  }

  lemma SortedDrain(list: seq<Entry>, sorted: seq<Entry>, counts: map<string, nat>)
    requires IsDrainOf(list, counts) && multiset(sorted) == multiset(list)
    requires SortedBy(sorted, ByKey())
    ensures IsDrainOf(sorted, counts) && StrictlySorted(sorted)
  {
    forall e ensures e in sorted <==> e in list {
      assert e in sorted <==> e in multiset(sorted);
    }
    DistinctKeysPermute(list, sorted);
    forall i, j | 0 <= i < j < |sorted| ensures Before(sorted[i].0, sorted[j].0) {
      assert ByKey()(sorted[i], sorted[j]);
      LexIsDictionary(sorted[i].0, sorted[j].0);
    }
  }

  class FoldedSink {
    var counts: map<string, nat>
    /** The non-empty stacks written since the last finish, root first. */
    ghost var written: seq<seq<string>>

    ghost predicate Valid()
      reads this
    {
      Counted(counts, Keys(written))
    }

    constructor ()
      ensures Valid() && written == []
    {
      counts := map[];
      written := [];
    }

    /** Empty stacks are ignored; any other stack counts once under its root-first names. */
    method WriteSample(frames: seq<Frame>)
      requires Valid()
      modifies this
      ensures Valid()
      ensures written == if frames == [] then old(written) else old(written) + [RootFirst(frames)]
    {
      if frames == [] {
        return;
      }
      var key := Join(RootFirst(frames), ';');
      counts := counts[key := (if key in counts then counts[key] else 0) + 1];
      written := written + [RootFirst(frames)];
      assert Keys(written) == Keys(old(written)) + [key];
      if key !in old(counts) { assert key !in Keys(old(written)); }
    }

    /** `self.counts.drain().collect()`. */
    method Drain() returns (list: seq<Entry>)
      modifies this`counts
      ensures IsDrainOf(list, old(counts)) && counts == map[]
    {
      list := [];
      while counts != map[]
        invariant forall k :: k in counts ==> k in old(counts) && counts[k] == old(counts)[k]
        invariant forall i, j :: 0 <= i < j < |list| ==> list[i].0 != list[j].0
        invariant forall e :: e in list <==> e.0 in old(counts) && e.0 !in counts && old(counts)[e.0] == e.1
        decreases |counts|
      {
        var k :| k in counts;
        list := list + [(k, counts[k])];
        counts := counts - {k};
      }
    }

    /** Writes one line per distinct key, strictly sorted, whose counts tally the written stacks; then forgets them. */
    method Finish() returns (out: string, ghost entries: seq<Entry>)
      requires Valid()
      modifies this
      ensures Valid() && written == [] && counts == map[]
      ensures out == Print(entries)
      ensures StrictlySorted(entries)
      ensures forall i :: 0 <= i < |entries| ==> entries[i].1 > 0
      ensures Tallies(entries, Keys(old(written)))
      ensures multiset(Expand(entries)) == multiset(Keys(old(written)))
    {
      hide LexLeq, Print, Counted;
      var list := Drain();
      var sorted := Sort(list, ByKey());
      ByKeyOrders();
      SortSorts(list, ByKey());
      SortedDrain(list, sorted, old(counts));
      DrainTallies(sorted, old(counts), Keys(old(written)));
      entries := sorted;
      written := [];
      NothingCounted();
      out := Print(sorted);
    }
  }

  lemma NothingCounted()
    ensures Counted(map[], Keys([]))
  {
  }

  ghost predicate SeparatorFree(written: seq<seq<string>>) {
    forall i :: 0 <= i < |written| ==> written[i] != [] && Free(written[i], ';')
  }

  lemma KeySplits(written: seq<seq<string>>, key: string)
    requires SeparatorFree(written) && key in Keys(written)
    ensures Split(key, ';') in written && Join(Split(key, ';'), ';') == key
  {
    var j :| 0 <= j < |written| && Keys(written)[j] == key;
    SplitFreeJoin(written[j], ';');
  }

  function ParsedOf(entries: seq<Entry>): (r: seq<(seq<string>, nat)>)
    ensures |r| == |entries|
    ensures forall i :: 0 <= i < |r| ==> r[i] == (Split(entries[i].0, ';'), entries[i].1)
  {
    seq(|entries|, i requires 0 <= i < |entries| => (Split(entries[i].0, ';'), entries[i].1))
  }

  lemma ParsedTallies(written: seq<seq<string>>, entries: seq<Entry>)
    requires SeparatorFree(written) && Tallies(entries, Keys(written))
    requires forall i :: 0 <= i < |entries| ==> entries[i].1 > 0
    ensures forall i :: 0 <= i < |entries| ==>
              && ParsedOf(entries)[i].0 in written
              && Join(ParsedOf(entries)[i].0, ';') == entries[i].0
    ensures Tallies(ParsedOf(entries), written)
  {
    hide Split, Join, Free;
    var parsed := ParsedOf(entries);
    forall i | 0 <= i < |entries|
      ensures parsed[i].0 in written && Join(parsed[i].0, ';') == entries[i].0
      ensures parsed[i].1 == multiset(written)[parsed[i].0]
    {
      assert entries[i].0 in multiset(Keys(written));
      KeySplits(written, entries[i].0);
      var j :| 0 <= j < |written| && written[j] == parsed[i].0;
      SameOccurrences(written, parsed[i].0);
    }
    forall names | names in written ensures exists i :: 0 <= i < |parsed| && parsed[i].0 == names {
      var j :| 0 <= j < |written| && written[j] == names;
      assert Keys(written)[j] in Keys(written);
      var i :| 0 <= i < |entries| && entries[i].0 == Keys(written)[j];
      SplitFreeJoin(names, ';');
    }
  }

  lemma CleanCountsReadBack(written: seq<seq<string>>, entries: seq<Entry>)
    requires SeparatorFree(written) && forall i :: 0 <= i < |written| ==> Free(written[i], '\n')
    requires Tallies(entries, Keys(written))
    requires forall i :: 0 <= i < |entries| ==> entries[i].1 > 0
    ensures var parsed := Parse(Print(entries));
            parsed.Some? && multiset(Expand(parsed.value)) == multiset(written)
  {
    hide Split, Join, Free, Parse, Print, Tallies;
    var parsed := ParsedOf(entries);
    ParsedTallies(written, entries);
    assert Keyed(parsed) == entries;
    assert Clean(parsed) by {
      forall i | 0 <= i < |parsed| ensures Free(parsed[i].0, ';') && Free(parsed[i].0, '\n') {
        var j :| 0 <= j < |written| && written[j] == parsed[i].0;
      }
    }
    FoldedRoundTrips(parsed);
    TalliesExpand(parsed, written);
  }

  /** Names read back from a text are clean, whatever was printed. */
  lemma ReadBackIsClean(text: string, written: seq<seq<string>>, i: nat)
    requires Parse(text).Some? && multiset(Expand(Parse(text).value)) == multiset(written) && i < |written|
    ensures Free(written[i], ';') && Free(written[i], '\n')
  {
    hide ParseLines, Split;
    var lines := Split(text, '\n');
    ParsedAreClean(lines[..|lines| - 1]);
    assert written[i] in multiset(written);
    var k := ExpandedFrom(Parse(text).value, written[i]);
  }

  /**
   * The printed lines parse back to exactly the multiset of written name lists if and only if no name contains
   * ';' or a newline.
   */
  lemma PrintedCountsReadBack(written: seq<seq<string>>, entries: seq<Entry>)
    requires forall i :: 0 <= i < |written| ==> written[i] != []
    requires Tallies(entries, Keys(written))
    requires forall i :: 0 <= i < |entries| ==> entries[i].1 > 0
    ensures var parsed := Parse(Print(entries));
            (parsed.Some? && multiset(Expand(parsed.value)) == multiset(written)) <==>
            forall i :: 0 <= i < |written| ==> Free(written[i], ';') && Free(written[i], '\n')
  {
    hide Split, Join, Free, Parse, Print, Tallies;
    var parsed := Parse(Print(entries));
    if forall i :: 0 <= i < |written| ==> Free(written[i], ';') && Free(written[i], '\n') {
      CleanCountsReadBack(written, entries);
    }
    if parsed.Some? && multiset(Expand(parsed.value)) == multiset(written) {
      forall i | 0 <= i < |written| ensures Free(written[i], ';') && Free(written[i], '\n') {
        ReadBackIsClean(Print(entries), written, i);
      }
    }
  }

  /** A key occurs as often as its name list: joining is injective on separator-free lists. */
  lemma {:induction false} SameOccurrences(written: seq<seq<string>>, names: seq<string>)
    requires SeparatorFree(written) && names != [] && Free(names, ';')
    ensures multiset(Keys(written))[Join(names, ';')] == multiset(written)[names]
  {
    if written != [] {
      var n := |written| - 1;
      SameOccurrences(written[..n], names);
      assert written == written[..n] + [written[n]];
      assert Keys(written) == Keys(written[..n]) + [Join(written[n], ';')];
      SplitFreeJoin(written[n], ';');
      SplitFreeJoin(names, ';');
    }
  }
}
