/** The mutable builder of `pprof_sink.rs`, updated in place and proved against `PprofTables`. */
module PprofBuilder {
  import opened Frames
  import T = PprofTables

  class PprofBuilder {
    var strings: seq<string>
    var stringIdx: map<string, nat>
    var functions: seq<T.Function>
    var functionKey: map<(nat, nat), nat>
    var locations: seq<T.Location>
    var locationKey: map<(nat, nat), nat>
    var samples: map<seq<nat>, nat>
    var windowStartNanos: int

    ghost function State(): T.Builder
      reads this
    {
      T.Builder(T.Dictionary(strings, functions, locations), stringIdx, functionKey, locationKey, samples,
                windowStartNanos)
    }

    ghost predicate Valid()
      reads this
    {
      T.Inv(State())
    }

    /** `now` is the wall-clock reading taken at construction. */
    constructor (now: int)
      ensures State() == T.Fresh(now) && Valid()
    {
      strings, stringIdx := [], map[];
      functions, functionKey := [], map[];
      locations, locationKey := [], map[];
      samples := map[];
      windowStartNanos := now;
      new;
      var _ := Intern("");
      T.FreshMeansNothing(now);
    }

    predicate IsEmpty()
      reads this
    {
      samples == map[]
    }

    method Intern(s: string) returns (i: nat)
      modifies this`strings, this`stringIdx
      ensures (State(), i) == T.Intern(old(State()), s)
      ensures s == "" && old(strings) == [] && old(stringIdx) == map[] ==> strings == [""] && stringIdx == map["" := 0]
    {
      if s in stringIdx {
        return stringIdx[s];
      }
      i := |strings|;
      strings := strings + [s];
      stringIdx := stringIdx[s := i];
    }

    method FunctionId(name: nat, filename: nat) returns (id: nat)
      modifies this`functions, this`functionKey
      ensures (State(), id) == T.FunctionId(old(State()), name, filename)
    {
      if (name, filename) in functionKey {
        return functionKey[(name, filename)];
      }
      id := |functions| + 1;
      functions := functions + [T.Function(id, name, name, filename, 0)];
      functionKey := functionKey[(name, filename) := id];
    }

    method LocationId(functionId: nat, line: nat) returns (id: nat)
      modifies this`locations, this`locationKey
      ensures (State(), id) == T.LocationId(old(State()), functionId, line)
    {
      if (functionId, line) in locationKey {
        return locationKey[(functionId, line)];
      }
      id := |locations| + 1;
      locations := locations + [T.Location(id, 0, 0, [T.Line(functionId, line)], false)];
      locationKey := locationKey[(functionId, line) := id];
    }

    /** The loop body of `Add`: one frame's location id. */
    method Locate(f: Frame) returns (id: nat)
      modifies this
      ensures (State(), id) == T.Locate(old(State()), f)
    {
      var name := match f.cls { case Some(c) => c + "::" + f.func case None => f.func };
      var nameIdx := Intern(name);
      var fileIdx := Intern(f.file.GetOr(""));
      var fid := FunctionId(nameIdx, fileIdx);
      id := LocationId(fid, f.line);
    }

    /** Adding a stack keeps the tables canonical and adds that stack, rendered, to what they mean. */
    method Add(frames: seq<Frame>)
      requires Valid()
      modifies this
      ensures State() == T.Add(old(State()), frames)
      ensures Valid()
      ensures forall stacks | T.Means(old(State()), stacks) :: T.Means(State(), stacks + [T.RenderStack(frames)])
      ensures !IsEmpty()
    {
      hide T.Inv, T.Means, T.Locate;
      ghost var before := State();
      var locationIds: seq<nat> := [];
      for i := 0 to |frames|
        invariant (State(), locationIds) == T.LocateAll(before, frames[..i])
      {
        assert frames[..i + 1][..i] == frames[..i];
        var id := Locate(frames[i]);
        locationIds := locationIds + [id];
      }
      assert frames[..|frames|] == frames;
      samples := samples[locationIds := (if locationIds in samples then samples[locationIds] else 0) + 1];
      assert locationIds in samples;
      T.AddKeepsTables(before, frames);
      forall stacks | T.Means(before, stacks)
        ensures T.Means(State(), stacks + [T.RenderStack(frames)])
      {
        T.AddMeans(before, frames, stacks);
      }
    }

    /** `self.samples.drain()` collected into samples: every entry once, in an arbitrary order. */
    method DrainSamples() returns (list: seq<T.Sample>)
      modifies this`samples
      ensures T.IsDrainOf(list, old(samples))
      ensures samples == map[]
    {
      list := [];
      while samples != map[]
        invariant forall ids :: ids in samples ==> ids in old(samples) && samples[ids] == old(samples)[ids]
        invariant forall i, j :: 0 <= i < j < |list| ==> list[i].locationIds != list[j].locationIds
        invariant forall s :: s in list ==>
                    && s.locationIds in old(samples) && s.values == [old(samples)[s.locationIds]]
                    && s.locationIds !in samples
        invariant forall ids :: ids in old(samples) && ids !in samples ==> T.Sample(ids, [old(samples)[ids]]) in list
        decreases |samples|
      {
        var ids :| ids in samples;
        list := list + [T.Sample(ids, [samples[ids]])];
        samples := samples - {ids};
      }
    }

    /** The end of `take_gzipped`: forget the moved-out tables, re-intern "" and open the next window. */
    method Reset(end: int)
      requires samples == map[]
      modifies this
      ensures State() == T.Fresh(end) && Valid() && IsEmpty()
    {
      strings, functions, locations := [], [], [];
      stringIdx, functionKey, locationKey := map[], map[], map[];
      var _ := Intern("");
      windowStartNanos := end;
      T.FreshMeansNothing(end);
    }

    /**
     * Build the profile of the current window and reset for the next one. `now` is the wall-clock reading.
     * Whatever stacks the tables meant, a reader of the profile gets exactly those back, and the builder
     * is left as a new one whose window starts where this one ended.
     */
    method TakeProfile(now: int) returns (p: T.Profile, start: int, end: int)
      requires Valid()
      modifies this
      ensures T.IsProfileOf(p, old(State()), now)
      ensures start == old(windowStartNanos) && end == now
      ensures State() == T.Fresh(now) && Valid() && IsEmpty()
    {
      hide T.Inv, T.IsDrainOf, T.Intern;
      ghost var before := State();
      var samplesUnit := Intern("count");
      ghost var counted := State();
      var samplesType := Intern("samples");
      assert T.Intern(before, "count") == (counted, samplesUnit);
      assert T.Intern(counted, "samples") == (State(), samplesType);
      var sample := DrainSamples();
      start, end := windowStartNanos, now;
      p := T.Profile([T.ValueType(samplesType, samplesUnit)], sample,
                     T.Dictionary(strings, functions, locations),
                     start, if end - start >= 0 then end - start else 0);
      assert T.IsProfileOf(p, before, now);
      Reset(end);
    }
  }
}
