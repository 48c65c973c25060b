/** The live view, the pprof profile and the folded file agree on every stream of stacks. */
module Agreement {
  import opened Frames
  import opened Tally
  import T = PprofTables
  import B = PprofBuilder
  import A = Aggregator
  import F = FoldedSink
  import FoldedText

  function NamesOf(stacks: seq<seq<Frame>>): (r: seq<seq<string>>)
    ensures |r| == |stacks| && forall i :: 0 <= i < |r| ==> r[i] == QualifiedNames(stacks[i])
  {
    seq(|stacks|, i requires 0 <= i < |stacks| => QualifiedNames(stacks[i]))
  }

  function RootFirstOf(stacks: seq<seq<Frame>>): (r: seq<seq<string>>)
    ensures |r| == |stacks| && forall i :: 0 <= i < |r| ==> r[i] == F.RootFirst(stacks[i])
  {
    seq(|stacks|, i requires 0 <= i < |stacks| => F.RootFirst(stacks[i]))
  }

  // ----- Exclusive and inclusive counts read off a pprof profile -----

  type PprofTally = seq<(seq<T.Rendered>, nat)>

  function RenderedLeafIs(k: string): seq<T.Rendered> -> bool {
    (stack: seq<T.Rendered>) => stack != [] && stack[0].name == k
  }

  function RenderedContains(k: string): seq<T.Rendered> -> bool {
    (stack: seq<T.Rendered>) => exists i :: 0 <= i < |stack| && stack[i].name == k
  }

  function AnyRendered(): seq<T.Rendered> -> bool {
    (stack: seq<T.Rendered>) => true
  }

  // ----- and off the folded counts -----

  function FoldedLeafIs(k: string): string -> bool {
    (key: string) => var parts := FoldedText.Split(key, ';'); parts[|parts| - 1] == k
  }

  function FoldedContains(k: string): string -> bool {
    (key: string) => k in FoldedText.Split(key, ';')
  }

  function AnyKey(): string -> bool {
    (key: string) => true
  }

  // ----- Counting corresponding elements -----

  lemma {:induction false} CountPaired<X, Y>(xs: seq<X>, ys: seq<Y>, p: X -> bool, q: Y -> bool)
    requires |xs| == |ys| && forall i :: 0 <= i < |xs| ==> p(xs[i]) == q(ys[i])
    ensures CountWhere(xs, p) == CountWhere(ys, q)
  {
    if xs != [] {
      var n := |xs| - 1;
      CountPaired(xs[..n], ys[..n], p, q);
    }
  }

  lemma {:induction false} CountAll<X>(xs: seq<X>, p: X -> bool)
    requires forall x :: x in xs ==> p(x)
    ensures CountWhere(xs, p) == |xs|
  {
    if xs != [] { CountAll(xs[..|xs| - 1], p); }
  }

  ghost predicate SeparatorFreeNames(stacks: seq<seq<Frame>>) {
    forall i :: 0 <= i < |stacks| ==> FoldedText.Free(QualifiedNames(stacks[i]), ';')
  }

  ghost predicate NoEmptyStack(stacks: seq<seq<Frame>>) {
    forall i :: 0 <= i < |stacks| ==> stacks[i] != []
  }

  lemma RootFirstSplits(frames: seq<Frame>)
    requires frames != [] && FoldedText.Free(QualifiedNames(frames), ';')
    ensures FoldedText.Split(FoldedText.Join(F.RootFirst(frames), ';'), ';') == F.RootFirst(frames)
    ensures F.RootFirst(frames)[|frames| - 1] == QualifiedName(frames[0])
    ensures forall k :: k in F.RootFirst(frames) <==> k in QualifiedNames(frames)
  {
    hide FoldedText.Split, FoldedText.Join, QualifiedName;
    var names, reversed := QualifiedNames(frames), F.RootFirst(frames);
    assert FoldedText.Free(reversed, ';');
    FoldedText.SplitFreeJoin(reversed, ';');
    forall k ensures k in reversed <==> k in names {
      if k in names {
        var i :| 0 <= i < |names| && names[i] == k;
        assert reversed[|names| - 1 - i] == k;
      }
    }
  }

  /** The pprof side: its sums are the aggregator's counts. */
  lemma PprofAgrees(stacks: seq<seq<Frame>>, pprof: PprofTally, k: string)
    requires multiset(Expand(pprof)) == multiset(T.RenderAll(stacks))
    ensures SumWhere(pprof, RenderedLeafIs(k)) == CountWhere(NamesOf(stacks), A.LeafIs(k))
    ensures SumWhere(pprof, RenderedContains(k)) == CountWhere(NamesOf(stacks), A.Contains(k))
    ensures SumWhere(pprof, AnyRendered()) == |stacks|
  {
    var rendered, names := T.RenderAll(stacks), NamesOf(stacks);
    SumIsCount(pprof, rendered, RenderedLeafIs(k));
    SumIsCount(pprof, rendered, RenderedContains(k));
    SumIsCount(pprof, rendered, AnyRendered());
    CountPaired(rendered, names, RenderedLeafIs(k), A.LeafIs(k));
    forall i | 0 <= i < |stacks| ensures RenderedContains(k)(rendered[i]) == A.Contains(k)(names[i]) {
      assert forall j :: 0 <= j < |stacks[i]| ==> rendered[i][j].name == names[i][j];
    }
    CountPaired(rendered, names, RenderedContains(k), A.Contains(k));
    CountAll(rendered, AnyRendered());
  }

  /** The folded side: its sums are the aggregator's counts when no name contains the separator. */
  lemma FoldedAgrees(stacks: seq<seq<Frame>>, folded: seq<F.Entry>, k: string)
    requires NoEmptyStack(stacks) && SeparatorFreeNames(stacks)
    requires multiset(Expand(folded)) == multiset(F.Keys(RootFirstOf(stacks)))
    ensures SumWhere(folded, FoldedLeafIs(k)) == CountWhere(NamesOf(stacks), A.LeafIs(k))
    ensures SumWhere(folded, FoldedContains(k)) == CountWhere(NamesOf(stacks), A.Contains(k))
    ensures SumWhere(folded, AnyKey()) == |stacks|
  {
    var keys, names := F.Keys(RootFirstOf(stacks)), NamesOf(stacks);
    SumIsCount(folded, keys, FoldedLeafIs(k));
    SumIsCount(folded, keys, FoldedContains(k));
    SumIsCount(folded, keys, AnyKey());
    forall i | 0 <= i < |stacks|
      ensures FoldedLeafIs(k)(keys[i]) == A.LeafIs(k)(names[i])
      ensures FoldedContains(k)(keys[i]) == A.Contains(k)(names[i])
    {
      RootFirstSplits(stacks[i]);
    }
    CountPaired(keys, names, FoldedLeafIs(k), A.LeafIs(k));
    CountPaired(keys, names, FoldedContains(k), A.Contains(k));
    CountAll(keys, AnyKey());
  }

  lemma {:induction false} CountNone<X>(xs: seq<X>, p: X -> bool)
    requires forall x :: x in xs ==> !p(x)
    ensures CountWhere(xs, p) == 0
  {
    if xs != [] { CountNone(xs[..|xs| - 1], p); }
  }

  /** A name with the separator in it has no folded count at all, though it occurs. */
  lemma SeparatorIsMissed(stacks: seq<seq<Frame>>, folded: seq<F.Entry>, k: string)
    requires ';' in k && multiset(Expand(folded)) == multiset(F.Keys(RootFirstOf(stacks)))
    ensures SumWhere(folded, FoldedContains(k)) == 0
  {
    var keys := F.Keys(RootFirstOf(stacks));
    SumIsCount(folded, keys, FoldedContains(k));
    CountNone(keys, FoldedContains(k));
  }

  lemma NameWithSeparator(stacks: seq<seq<Frame>>) returns (k: string)
    requires !SeparatorFreeNames(stacks)
    ensures ';' in k && CountWhere(NamesOf(stacks), A.Contains(k)) > 0
  {
    var i :| 0 <= i < |stacks| && !FoldedText.Free(QualifiedNames(stacks[i]), ';');
    var j :| 0 <= j < |stacks[i]| && ';' in QualifiedNames(stacks[i])[j];
    k := QualifiedNames(stacks[i])[j];
    assert NamesOf(stacks)[i] == QualifiedNames(stacks[i]);
    A.CountPositive(NamesOf(stacks), QualifiedNames(stacks[i]), A.Contains(k));
  }

  /** What one name scores in the three outputs, and the three totals. */
  ghost predicate AgreeOn(rows: A.Rows, samples: nat, pprof: PprofTally, folded: seq<F.Entry>, k: string) {
    && A.Exclusive(rows, k) == SumWhere(pprof, RenderedLeafIs(k)) == SumWhere(folded, FoldedLeafIs(k))
    && A.Inclusive(rows, k) == SumWhere(pprof, RenderedContains(k)) == SumWhere(folded, FoldedContains(k))
    && samples == SumWhere(pprof, AnyRendered()) == SumWhere(folded, AnyKey())
  }

  /**
   * The three aggregators agree: after the same stream of non-empty stacks whose names do not contain ';',
   * the live view's counts for every name are the matching sums over the emitted profile and over the
   * folded lines, and all three totals are the number of stacks.
   */
  lemma ThreeAggregatorsAgree(stacks: seq<seq<Frame>>, rows: A.Rows, samples: nat, pprof: PprofTally,
                              folded: seq<F.Entry>, k: string)
    requires NoEmptyStack(stacks) && SeparatorFreeNames(stacks)
    requires A.Counted(rows, samples, NamesOf(stacks))
    requires multiset(Expand(pprof)) == multiset(T.RenderAll(stacks))
    requires multiset(Expand(folded)) == multiset(F.Keys(RootFirstOf(stacks)))
    ensures AgreeOn(rows, samples, pprof, folded, k) && samples == |stacks|
  {
    PprofAgrees(stacks, pprof, k);
    FoldedAgrees(stacks, folded, k);
    CountAll(NamesOf(stacks), A.NonEmpty());
  }

  /** They agree on every name if and only if no name contains ';': the folded file is the odd one out. */
  lemma AgreeIffSeparatorFree(stacks: seq<seq<Frame>>, rows: A.Rows, samples: nat, pprof: PprofTally,
                              folded: seq<F.Entry>)
    requires NoEmptyStack(stacks) && A.Counted(rows, samples, NamesOf(stacks))
    requires multiset(Expand(pprof)) == multiset(T.RenderAll(stacks))
    requires multiset(Expand(folded)) == multiset(F.Keys(RootFirstOf(stacks)))
    ensures samples == |stacks|
    ensures (forall k :: AgreeOn(rows, samples, pprof, folded, k)) <==> SeparatorFreeNames(stacks)
  {
    CountAll(NamesOf(stacks), A.NonEmpty());
    if SeparatorFreeNames(stacks) {
      forall k ensures AgreeOn(rows, samples, pprof, folded, k) {
        ThreeAggregatorsAgree(stacks, rows, samples, pprof, folded, k);
      }
    } else {
      var k := NameWithSeparator(stacks);
      SeparatorIsMissed(stacks, folded, k);
      assert !AgreeOn(rows, samples, pprof, folded, k);
    }
  }

  /**
   * Feed one stream to the three objects themselves: what they then show, emit and print agrees on every name if
   * and only if no name contains ';'.
   */
  method ObserveAll(stacks: seq<seq<Frame>>, start: int, end: int)
    returns (live: A.Aggregator, p: T.Profile, out: string, ghost folded: seq<F.Entry>)
    requires NoEmptyStack(stacks)
    ensures fresh(live) && out == FoldedText.Print(folded) && F.StrictlySorted(folded)
    ensures T.Read(p.dict, p.samples).Some?
    ensures live.samples == |stacks|
    ensures (forall k :: AgreeOn(live.rows, live.samples, T.Read(p.dict, p.samples).value, folded, k)) <==>
            SeparatorFreeNames(stacks)
  {
    hide A.Counted, F.Counted, T.Inv, T.Means, T.Read, T.IsProfileOf, T.Render, T.RenderStack, AgreeOn;
    hide NoEmptyStack, SeparatorFreeNames, F.StrictlySorted, FoldedText.Print, QualifiedName, F.RootFirst;
    hide Tallies, Expand, T.Add, T.Intern, T.Fresh, F.Keys;
    live := new A.Aggregator();
    var pprof := new B.PprofBuilder(start);
    var sink := new F.FoldedSink();
    T.FreshMeansNothing(start);
    assert T.RenderAll(stacks[..0]) == [];
    for i := 0 to |stacks|
      invariant live.Valid() && fresh(live) && live.recorded == NamesOf(stacks[..i])
      invariant pprof.Valid() && fresh(pprof) && T.Means(pprof.State(), T.RenderAll(stacks[..i]))
      invariant sink.Valid() && fresh(sink) && sink.written == RootFirstOf(stacks[..i])
    {
      assert stacks[i] != [] by { NoneEmpty(stacks, i); }
      live.Record(stacks[i], 0);
      pprof.Add(stacks[i]);
      sink.WriteSample(stacks[i]);
      assert NamesOf(stacks[..i + 1]) == NamesOf(stacks[..i]) + [QualifiedNames(stacks[i])];
      assert T.RenderAll(stacks[..i + 1]) == T.RenderAll(stacks[..i]) + [T.RenderStack(stacks[i])];
      assert RootFirstOf(stacks[..i + 1]) == RootFirstOf(stacks[..i]) + [F.RootFirst(stacks[i])];
    }
    assert stacks[..|stacks|] == stacks;
    ghost var tables := pprof.State();
    var from, until;
    p, from, until := pprof.TakeProfile(end);
    out, folded := sink.Finish();
    T.ProfileMeans(p, tables, end, T.RenderAll(stacks));
    AgreeIffSeparatorFree(stacks, live.rows, live.samples, T.Read(p.dict, p.samples).value, folded);
  }

  lemma NoneEmpty(stacks: seq<seq<Frame>>, i: nat)
    requires NoEmptyStack(stacks) && i < |stacks|
    ensures stacks[i] != []
  {
  }
}
