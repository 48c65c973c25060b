/**
 * The pprof builder's tables as values: what each operation does to them, what a pprof reader makes of
 * them, and why the tables always mean the plain list of stacks that were added.
 */
module PprofTables {
  import opened Wrappers
  import opened Frames
  import opened Tally

  datatype Function = Function(id: nat, name: nat, systemName: nat, filename: nat, startLine: nat)
  datatype Line = Line(functionId: nat, line: nat)
  datatype Location = Location(id: nat, mappingId: nat, address: nat, lines: seq<Line>, isFolded: bool)
  datatype Sample = Sample(locationIds: seq<nat>, values: seq<nat>)
  datatype ValueType = ValueType(typ: nat, unit: nat)

  /** The three tables a pprof profile carries to give meaning to location ids. */
  datatype Dictionary = Dictionary(strings: seq<string>, functions: seq<Function>, locations: seq<Location>)

  datatype Profile = Profile(sampleTypes: seq<ValueType>, samples: seq<Sample>, dict: Dictionary,
                             timeNanos: int, durationNanos: nat)

  /** The fields of `PprofBuilder`. */
  datatype Builder = Builder(dict: Dictionary, stringIdx: map<string, nat>, functionKey: map<(nat, nat), nat>,
                             locationKey: map<(nat, nat), nat>, samples: map<seq<nat>, nat>, windowStart: int)

  // ----- What a profile means to its reader -----

  datatype Rendered = Rendered(name: string, file: string, line: nat)

  function Render(f: Frame): Rendered {
    Rendered(QualifiedName(f), f.file.GetOr(""), f.line)
  }

  function RenderStack(frames: seq<Frame>): (r: seq<Rendered>)
    ensures |r| == |frames| && forall i :: 0 <= i < |frames| ==> r[i] == Render(frames[i])
  {
    seq(|frames|, i requires 0 <= i < |frames| => Render(frames[i]))
  }

  function RenderAll(stacks: seq<seq<Frame>>): (r: seq<seq<Rendered>>)
    ensures |r| == |stacks| && forall i :: 0 <= i < |stacks| ==> r[i] == RenderStack(stacks[i])
  {
    seq(|stacks|, i requires 0 <= i < |stacks| => RenderStack(stacks[i]))
  }

  function FindLocation(locations: seq<Location>, id: nat): Option<Location> {
    if locations == [] then None
    else if locations[0].id == id then Some(locations[0])
    else FindLocation(locations[1..], id)
  }

  function FindFunction(functions: seq<Function>, id: nat): Option<Function> {
    if functions == [] then None
    else if functions[0].id == id then Some(functions[0])
    else FindFunction(functions[1..], id)
  }

  /** location id -> function id -> string index, searching each table by id. */
  function Resolve(d: Dictionary, id: nat): Option<Rendered> {
    var loc :- FindLocation(d.locations, id);
    if |loc.lines| != 1 then None else
    var fn :- FindFunction(d.functions, loc.lines[0].functionId);
    if fn.name >= |d.strings| || fn.filename >= |d.strings| then None else
    Some(Rendered(d.strings[fn.name], d.strings[fn.filename], loc.lines[0].line))
  }

  function ResolveStack(d: Dictionary, ids: seq<nat>): (r: Option<seq<Rendered>>)
    ensures r.Some? ==> |r.value| == |ids|
    ensures r.Some? <==> forall i :: 0 <= i < |ids| ==> Resolve(d, ids[i]).Some?
    ensures r.Some? ==> forall i :: 0 <= i < |ids| ==> Resolve(d, ids[i]) == Some(r.value[i])
  {
    if ids == [] then Some([]) else
    var n := |ids| - 1;
    var rest :- ResolveStack(d, ids[..n]);
    var last :- Resolve(d, ids[n]);
    Some(rest + [last])
  }

  /** A profile's samples as rendered stacks with their counts, or nothing if any reference dangles. */
  function Read(d: Dictionary, samples: seq<Sample>): (r: Option<seq<(seq<Rendered>, nat)>>)
    ensures r.Some? ==> |r.value| == |samples|
    ensures r.Some? <==> forall s :: s in samples ==> ResolveStack(d, s.locationIds).Some? && |s.values| == 1
    ensures r.Some? ==> forall i :: 0 <= i < |samples| ==>
              Some(r.value[i].0) == ResolveStack(d, samples[i].locationIds) && r.value[i].1 == samples[i].values[0]
  {
    if samples == [] then Some([]) else
    var n := |samples| - 1;
    assert samples == samples[..n] + [samples[n]];
    var rest :- Read(d, samples[..n]);
    var stack :- ResolveStack(d, samples[n].locationIds);
    if |samples[n].values| != 1 then None else
    Some(rest + [(stack, samples[n].values[0])])
  }

  // ----- The builder's operations -----

  function Fresh(windowStart: int): Builder {
    Builder(Dictionary([""], [], []), map["" := 0], map[], map[], map[], windowStart)
  }

  function Intern(b: Builder, s: string): (Builder, nat) {
    if s in b.stringIdx then (b, b.stringIdx[s])
    else
      var i := |b.dict.strings|;
      (b.(dict := b.dict.(strings := b.dict.strings + [s]), stringIdx := b.stringIdx[s := i]), i)
  }

  function FunctionId(b: Builder, name: nat, filename: nat): (Builder, nat) {
    if (name, filename) in b.functionKey then (b, b.functionKey[(name, filename)])
    else
      var id := |b.dict.functions| + 1;
      (b.(dict := b.dict.(functions := b.dict.functions + [Function(id, name, name, filename, 0)]),
          functionKey := b.functionKey[(name, filename) := id]), id)
  }

  function LocationId(b: Builder, functionId: nat, line: nat): (Builder, nat) {
    if (functionId, line) in b.locationKey then (b, b.locationKey[(functionId, line)])
    else
      var id := |b.dict.locations| + 1;
      (b.(dict := b.dict.(locations := b.dict.locations + [Location(id, 0, 0, [Line(functionId, line)], false)]),
          locationKey := b.locationKey[(functionId, line) := id]), id)
  }

  function Locate(b: Builder, f: Frame): (Builder, nat) {
    var (b1, name) := Intern(b, QualifiedName(f));
    var (b2, file) := Intern(b1, f.file.GetOr(""));
    var (b3, fid) := FunctionId(b2, name, file);
    LocationId(b3, fid, f.line)
  }

  function LocateAll(b: Builder, frames: seq<Frame>): (Builder, seq<nat>) {
    if frames == [] then (b, [])
    else
      var n := |frames| - 1;
      var (b1, ids) := LocateAll(b, frames[..n]);
      var (b2, id) := Locate(b1, frames[n]);
      (b2, ids + [id])
  }

  function Bump(samples: map<seq<nat>, nat>, ids: seq<nat>): map<seq<nat>, nat> {
    samples[ids := (if ids in samples then samples[ids] else 0) + 1]
  }

  function Add(b: Builder, frames: seq<Frame>): Builder {
    var (b1, ids) := LocateAll(b, frames);
    b1.(samples := Bump(b1.samples, ids))
  }

  /** `list` holds every entry of the drained sample map once, in some order. */
  ghost predicate IsDrainOf(list: seq<Sample>, samples: map<seq<nat>, nat>) {
    && (forall i, j :: 0 <= i < j < |list| ==> list[i].locationIds != list[j].locationIds)
    && (forall s :: s in list ==> s.locationIds in samples && s.values == [samples[s.locationIds]])
    && (forall ids :: ids in samples ==> Sample(ids, [samples[ids]]) in list)
  }

  /** `p` is a profile that taking the window of `b` at wall-clock reading `end` may emit. */
  ghost predicate IsProfileOf(p: Profile, b: Builder, end: int) {
    var (b1, count) := Intern(b, "count");
    var (b2, samples) := Intern(b1, "samples");
    && p.sampleTypes == [ValueType(samples, count)]
    && p.dict == b2.dict
    && IsDrainOf(p.samples, b.samples)
    && p.timeNanos == b.windowStart
    && p.durationNanos == if end >= b.windowStart then end - b.windowStart else 0
  }

  // ----- Well-formed tables -----

  ghost predicate StringsOk(strings: seq<string>, idx: map<string, nat>) {
    && |strings| > 0 && strings[0] == ""
    && (forall i :: 0 <= i < |strings| ==> strings[i] in idx && idx[strings[i]] == i)
    && (forall s :: s in idx ==> idx[s] < |strings| && strings[idx[s]] == s)
  }

  function FunctionOf(id: nat, key: (nat, nat)): Function {
    Function(id, key.0, key.0, key.1, 0)
  }

  ghost predicate FunctionsOk(functions: seq<Function>, key: map<(nat, nat), nat>, strings: nat) {
    && (forall i :: 0 <= i < |functions| ==> FunctionAt(functions, key, strings, i))
    && (forall k :: k in key ==> 1 <= key[k] <= |functions| && functions[key[k] - 1] == FunctionOf(key[k], k))
  }

  ghost predicate FunctionAt(functions: seq<Function>, key: map<(nat, nat), nat>, strings: nat, i: nat)
    requires i < |functions|
  {
    var k: (nat, nat) := (functions[i].name, functions[i].filename);
    functions[i] == FunctionOf(i + 1, k) && k.0 < strings && k.1 < strings && k in key && key[k] == i + 1
  }

  function LocationOf(id: nat, key: (nat, nat)): Location {
    Location(id, 0, 0, [Line(key.0, key.1)], false)
  }

  ghost predicate LocationsOk(locations: seq<Location>, key: map<(nat, nat), nat>, functions: nat) {
    && (forall i :: 0 <= i < |locations| ==> LocationAt(locations, key, functions, i))
    && (forall k :: k in key ==> 1 <= key[k] <= |locations| && locations[key[k] - 1] == LocationOf(key[k], k))
  }

  ghost predicate LocationAt(locations: seq<Location>, key: map<(nat, nat), nat>, functions: nat, i: nat)
    requires i < |locations|
  {
    && |locations[i].lines| == 1
    && var k: (nat, nat) := (locations[i].lines[0].functionId, locations[i].lines[0].line);
    && locations[i] == LocationOf(i + 1, k) && 1 <= k.0 <= functions && k in key && key[k] == i + 1
  }

  ghost predicate IdsOk(d: Dictionary, ids: seq<nat>) {
    forall i :: 0 <= i < |ids| ==> 1 <= ids[i] <= |d.locations|
  }

  ghost predicate SamplesOk(b: Builder) {
    forall ids :: ids in b.samples ==> IdsOk(b.dict, ids) && b.samples[ids] > 0
  }

  ghost predicate TablesOk(b: Builder) {
    && StringsOk(b.dict.strings, b.stringIdx)
    && FunctionsOk(b.dict.functions, b.functionKey, |b.dict.strings|)
    && LocationsOk(b.dict.locations, b.locationKey, |b.dict.functions|)
  }

  ghost predicate Inv(b: Builder) {
    TablesOk(b) && SamplesOk(b)
  }

  /** The sample map counts `stacks`: each key as often as the stack it denotes, and no stack is missing. */
  ghost predicate Means(b: Builder, stacks: seq<seq<Rendered>>) {
    && (forall ids :: ids in b.samples ==>
          var r := ResolveStack(b.dict, ids);
          r.Some? && b.samples[ids] == multiset(stacks)[r.value])
    && (forall s :: s in stacks ==> exists ids :: ids in b.samples && ResolveStack(b.dict, ids) == Some(s))
  }

  // ----- Hash-consing -----

  lemma {:induction false} FindDenseLocation(locations: seq<Location>, id: nat, base: nat)
    requires forall i :: 0 <= i < |locations| ==> locations[i].id == base + i + 1
    ensures FindLocation(locations, id) ==
            if base < id <= base + |locations| then Some(locations[id - base - 1]) else None
  {
    if locations != [] && locations[0].id != id { FindDenseLocation(locations[1..], id, base + 1); }
  }

  lemma {:induction false} FindDenseFunction(functions: seq<Function>, id: nat, base: nat)
    requires forall i :: 0 <= i < |functions| ==> functions[i].id == base + i + 1
    ensures FindFunction(functions, id) ==
            if base < id <= base + |functions| then Some(functions[id - base - 1]) else None
  {
    if functions != [] && functions[0].id != id { FindDenseFunction(functions[1..], id, base + 1); }
  }

  /** Exactly the ids 1..n resolve, and the searches land where the ids point. */
  lemma ResolveById(b: Builder, id: nat)
    requires Inv(b)
    ensures Resolve(b.dict, id).Some? <==> 1 <= id <= |b.dict.locations|
    ensures 1 <= id <= |b.dict.locations| ==>
              && LocationAt(b.dict.locations, b.locationKey, |b.dict.functions|, id - 1)
              && var line := b.dict.locations[id - 1].lines[0];
              && FunctionAt(b.dict.functions, b.functionKey, |b.dict.strings|, line.functionId - 1)
              && var fn := b.dict.functions[line.functionId - 1];
              Resolve(b.dict, id) == Some(Rendered(b.dict.strings[fn.name], b.dict.strings[fn.filename], line.line))
  {
    var d := b.dict;
    forall i | 0 <= i < |d.locations| ensures d.locations[i].id == i + 1 {
      assert LocationAt(d.locations, b.locationKey, |d.functions|, i);
    }
    FindDenseLocation(d.locations, id, 0);
    if 1 <= id <= |d.locations| {
      assert LocationAt(d.locations, b.locationKey, |d.functions|, id - 1);
      var fid := d.locations[id - 1].lines[0].functionId;
      forall i | 0 <= i < |d.functions| ensures d.functions[i].id == i + 1 {
        assert FunctionAt(d.functions, b.functionKey, |d.strings|, i);
      }
      FindDenseFunction(d.functions, fid, 0);
      assert FunctionAt(d.functions, b.functionKey, |d.strings|, fid - 1);
    }
  }

  /** What a function id denotes: its name and file. */
  function DenotedFunction(d: Dictionary, id: nat): Option<(string, string)> {
    var fn :- FindFunction(d.functions, id);
    if fn.name >= |d.strings| || fn.filename >= |d.strings| then None else
    Some((d.strings[fn.name], d.strings[fn.filename]))
  }

  /** Exactly the ids 1..n denote functions, and two denote the same name and file exactly if they are the same id. */
  lemma FunctionIdsAreCanonical(b: Builder, x: nat, y: nat)
    requires Inv(b)
    ensures DenotedFunction(b.dict, x).Some? <==> 1 <= x <= |b.dict.functions|
    ensures DenotedFunction(b.dict, x).Some? ==> (DenotedFunction(b.dict, x) == DenotedFunction(b.dict, y) <==> x == y)
  {
    hide LocationsOk, SamplesOk;
    var fs := b.dict.functions;
    forall i | 0 <= i < |fs| ensures fs[i].id == i + 1 {
      assert FunctionAt(fs, b.functionKey, |b.dict.strings|, i);
    }
    FindDenseFunction(fs, x, 0);
    FindDenseFunction(fs, y, 0);
    if 1 <= x <= |fs| { assert FunctionAt(fs, b.functionKey, |b.dict.strings|, x - 1); }
    if 1 <= y <= |fs| { assert FunctionAt(fs, b.functionKey, |b.dict.strings|, y - 1); }
  }

  /** Two location ids denote the same rendered frame only if they are the same id. */
  lemma LocationIdsAreCanonical(b: Builder, x: nat, y: nat)
    requires Inv(b)
    requires Resolve(b.dict, x).Some? && Resolve(b.dict, x) == Resolve(b.dict, y)
    ensures x == y
  {
    ResolveById(b, x);
    ResolveById(b, y);
  }

  /** Two sample keys denote the same rendered stack exactly if they are the same key. */
  lemma SampleKeysAreCanonical(b: Builder, xs: seq<nat>, ys: seq<nat>)
    requires Inv(b)
    requires ResolveStack(b.dict, xs).Some? && ResolveStack(b.dict, ys).Some?
    ensures ResolveStack(b.dict, xs) == ResolveStack(b.dict, ys) <==> xs == ys
  {
    if ResolveStack(b.dict, xs) == ResolveStack(b.dict, ys) {
      forall i | 0 <= i < |xs| ensures xs[i] == ys[i] {
        LocationIdsAreCanonical(b, xs[i], ys[i]);
      }
    }
  }

  // ----- Growing the tables keeps every earlier meaning -----

  ghost predicate Grows(b: Builder, b': Builder) {
    && b.dict.strings <= b'.dict.strings
    && b.dict.functions <= b'.dict.functions
    && b.dict.locations <= b'.dict.locations
    && b.samples == b'.samples && b.windowStart == b'.windowStart
  }

  lemma GrowthKeepsFrame(b: Builder, b': Builder, id: nat)
    requires Inv(b) && Inv(b') && Grows(b, b') && 1 <= id <= |b.dict.locations|
    ensures Resolve(b.dict, id).Some? && Resolve(b'.dict, id) == Resolve(b.dict, id)
  {
    hide Resolve, StringsOk, SamplesOk;
    ResolveById(b, id);
    ResolveById(b', id);
  }

  lemma GrowthKeepsMeaning(b: Builder, b': Builder, ids: seq<nat>)
    requires Inv(b) && Inv(b') && Grows(b, b') && IdsOk(b.dict, ids)
    ensures ResolveStack(b.dict, ids).Some?
    ensures ResolveStack(b'.dict, ids) == ResolveStack(b.dict, ids)
  {
    hide Inv, Resolve;
    forall i | 0 <= i < |ids|
      ensures Resolve(b.dict, ids[i]).Some? && Resolve(b'.dict, ids[i]) == Resolve(b.dict, ids[i])
    {
      GrowthKeepsFrame(b, b', ids[i]);
    }
    var r, r' := ResolveStack(b.dict, ids).value, ResolveStack(b'.dict, ids).value;
    assert r == r' by {
      forall i | 0 <= i < |ids| ensures r[i] == r'[i] {
        assert Some(r[i]) == Resolve(b.dict, ids[i]);
      }
    }
  }

  lemma InternKeepsTables(b: Builder, s: string)
    requires Inv(b)
    ensures var (b', i) := Intern(b, s);
            && Inv(b') && Grows(b, b')
            && i < |b'.dict.strings| && b'.dict.strings[i] == s && b'.dict.strings[0] == ""
  {
    hide LocationsOk, FunctionOf;
    var (b', i) := Intern(b, s);
    forall j | 0 <= j < |b.dict.functions|
      ensures FunctionAt(b'.dict.functions, b'.functionKey, |b'.dict.strings|, j)
    {
      assert FunctionAt(b.dict.functions, b.functionKey, |b.dict.strings|, j);
    }
  }

  lemma FunctionIdKeepsTables(b: Builder, name: nat, filename: nat)
    requires Inv(b) && name < |b.dict.strings| && filename < |b.dict.strings|
    ensures var (b', id) := FunctionId(b, name, filename);
            && Inv(b') && Grows(b, b') && 1 <= id <= |b'.dict.functions|
            && b'.dict.functions[id - 1] == Function(id, name, name, filename, 0)
  {
    hide StringsOk;
    if (name, filename) in b.functionKey { return; }
    var (b', id) := FunctionId(b, name, filename);
    var fs, fs' := b.dict.functions, b'.dict.functions;
    forall j | 0 <= j < |fs'|
      ensures FunctionAt(fs', b'.functionKey, |b.dict.strings|, j)
    {
      if j < |fs| { assert FunctionAt(fs, b.functionKey, |b.dict.strings|, j); }
    }
    forall j | 0 <= j < |b.dict.locations|
      ensures LocationAt(b.dict.locations, b.locationKey, |fs'|, j)
    {
      assert LocationAt(b.dict.locations, b.locationKey, |fs|, j);
    }
  }

  lemma LocationIdKeepsTables(b: Builder, fid: nat, line: nat)
    requires Inv(b) && 1 <= fid <= |b.dict.functions|
    ensures var (b', id) := LocationId(b, fid, line);
            && Inv(b') && Grows(b, b') && 1 <= id <= |b'.dict.locations|
            && b'.dict.locations[id - 1] == Location(id, 0, 0, [Line(fid, line)], false)
  {
    hide StringsOk, FunctionsOk;
    if (fid, line) in b.locationKey { return; }
    var (b', id) := LocationId(b, fid, line);
    var ls, ls' := b.dict.locations, b'.dict.locations;
    forall j | 0 <= j < |ls'|
      ensures LocationAt(ls', b'.locationKey, |b.dict.functions|, j)
    {
      if j < |ls| { assert LocationAt(ls, b.locationKey, |b.dict.functions|, j); }
    }
  }

  /** Locating a frame yields an id that resolves to exactly that frame, rendered. */
  lemma LocateDenotes(b: Builder, f: Frame)
    requires Inv(b)
    ensures var (b', id) := Locate(b, f);
            Inv(b') && Grows(b, b') && IdsOk(b'.dict, [id]) && Resolve(b'.dict, id) == Some(Render(f))
  {
    hide Inv, TablesOk, Intern, FunctionId, LocationId, Resolve, FindLocation, FindFunction;
    var (b1, name) := Intern(b, QualifiedName(f));
    var (b2, file) := Intern(b1, f.file.GetOr(""));
    var (b3, fid) := FunctionId(b2, name, file);
    var (b4, id) := LocationId(b3, fid, f.line);
    InternKeepsTables(b, QualifiedName(f));
    InternKeepsTables(b1, f.file.GetOr(""));
    FunctionIdKeepsTables(b2, name, file);
    LocationIdKeepsTables(b3, fid, f.line);
    ResolveById(b4, id);
  }

  lemma ResolveSnoc(d: Dictionary, ids: seq<nat>, id: nat, frames: seq<Frame>)
    requires frames != []
    requires var n := |frames| - 1;
             ResolveStack(d, ids) == Some(RenderStack(frames[..n])) && Resolve(d, id) == Some(Render(frames[n]))
    ensures ResolveStack(d, ids + [id]) == Some(RenderStack(frames))
  {
    assert (ids + [id])[..|ids|] == ids;
    assert RenderStack(frames) == RenderStack(frames[..|frames| - 1]) + [Render(frames[|frames| - 1])];
  }

  lemma {:induction false} LocateAllDenotes(b: Builder, frames: seq<Frame>)
    requires Inv(b)
    ensures var (b', ids) := LocateAll(b, frames);
            && Inv(b') && Grows(b, b') && IdsOk(b'.dict, ids)
            && ResolveStack(b'.dict, ids) == Some(RenderStack(frames))
  {
    hide Inv, TablesOk, Locate, Resolve, Render, RenderStack, ResolveStack;
    if frames != [] {
      var n := |frames| - 1;
      LocateAllDenotes(b, frames[..n]);
      var (b1, ids) := LocateAll(b, frames[..n]);
      LocateDenotes(b1, frames[n]);
      var (b2, id) := Locate(b1, frames[n]);
      GrowthKeepsMeaning(b1, b2, ids);
      ResolveSnoc(b2.dict, ids, id, frames);
    }
  }

  lemma GrowthKeepsMeans(b: Builder, b': Builder, stacks: seq<seq<Rendered>>)
    requires Inv(b) && Inv(b') && Grows(b, b') && Means(b, stacks)
    ensures Means(b', stacks)
  {
    forall ids | ids in b.samples
      ensures ResolveStack(b'.dict, ids) == ResolveStack(b.dict, ids)
    {
      GrowthKeepsMeaning(b, b', ids);
    }
    forall s | s in stacks
      ensures exists ids :: ids in b'.samples && ResolveStack(b'.dict, ids) == Some(s)
    {
      var ids :| ids in b.samples && ResolveStack(b.dict, ids) == Some(s);
      assert ids in b'.samples;
    }
  }

  /** Counting one more stack under its canonical key. */
  lemma BumpMeans(b: Builder, ids: seq<nat>, stacks: seq<seq<Rendered>>, s: seq<Rendered>)
    requires Inv(b) && Means(b, stacks)
    requires IdsOk(b.dict, ids) && ResolveStack(b.dict, ids) == Some(s)
    ensures var b' := b.(samples := Bump(b.samples, ids));
            Inv(b') && Means(b', stacks + [s])
  {
    var b' := b.(samples := Bump(b.samples, ids));
    var stacks' := stacks + [s];
    forall other | other in b'.samples
      ensures ResolveStack(b.dict, other).Some?
      ensures b'.samples[other] == multiset(stacks')[ResolveStack(b.dict, other).value]
    {
      if other != ids {
        SampleKeysAreCanonical(b, other, ids);
      } else if ids !in b.samples && s in stacks {
        var dup :| dup in b.samples && ResolveStack(b.dict, dup) == Some(s);
        SampleKeysAreCanonical(b, dup, ids);
      }
    }
    forall r | r in stacks'
      ensures exists k :: k in b'.samples && ResolveStack(b'.dict, k) == Some(r)
    {
      if r == s {
        assert ids in b'.samples;
      } else {
        var k :| k in b.samples && ResolveStack(b.dict, k) == Some(r);
        assert k in b'.samples;
      }
    }
  }

  lemma AddKeepsTables(b: Builder, frames: seq<Frame>)
    requires Inv(b)
    ensures Inv(Add(b, frames))
  {
    LocateAllDenotes(b, frames);
  }

  /** Adding a stack adds exactly that stack, rendered, to what the tables mean. */
  lemma AddMeans(b: Builder, frames: seq<Frame>, stacks: seq<seq<Rendered>>)
    requires Inv(b) && Means(b, stacks)
    ensures Inv(Add(b, frames)) && Means(Add(b, frames), stacks + [RenderStack(frames)])
    ensures Add(b, frames).windowStart == b.windowStart
  {
    LocateAllDenotes(b, frames);
    var (b1, ids) := LocateAll(b, frames);
    GrowthKeepsMeans(b, b1, stacks);
    BumpMeans(b1, ids, stacks, RenderStack(frames));
  }

  /** Reading the drained sample map gives one entry per distinct stack, with its count. */
  lemma ReadTallies(b: Builder, list: seq<Sample>, stacks: seq<seq<Rendered>>)
    requires Inv(b) && Means(b, stacks) && IsDrainOf(list, b.samples)
    ensures Read(b.dict, list).Some?
    ensures Tallies(Read(b.dict, list).value, stacks)
  {
    hide Inv, Resolve, IdsOk;
    var ws := Read(b.dict, list).value;
    forall i, j | 0 <= i < j < |ws| ensures ws[i].0 != ws[j].0 {
      SampleKeysAreCanonical(b, list[i].locationIds, list[j].locationIds);
    }
    forall s | s in stacks ensures exists i :: 0 <= i < |ws| && ws[i].0 == s {
      var ids :| ids in b.samples && ResolveStack(b.dict, ids) == Some(s);
      var i :| 0 <= i < |list| && list[i] == Sample(ids, [b.samples[ids]]);
      assert Some(ws[i].0) == ResolveStack(b.dict, list[i].locationIds);
    }
  }

  /**
   * Meaning preservation: whatever order the sample map drains in, a reader of the emitted profile
   * gets back exactly the multiset of rendered stacks, even when "count" or "samples" name PHP functions.
   */
  lemma ProfileMeans(p: Profile, b: Builder, end: int, stacks: seq<seq<Rendered>>)
    requires Inv(b) && Means(b, stacks) && IsProfileOf(p, b, end)
    ensures Read(p.dict, p.samples).Some?
    ensures Tallies(Read(p.dict, p.samples).value, stacks)
    ensures multiset(Expand(Read(p.dict, p.samples).value)) == multiset(stacks)
    ensures |p.sampleTypes| == 1
    ensures var vt := p.sampleTypes[0];
            && vt.typ < |p.dict.strings| && p.dict.strings[vt.typ] == "samples"
            && vt.unit < |p.dict.strings| && p.dict.strings[vt.unit] == "count"
    ensures p.dict.strings[0] == ""
    ensures p.timeNanos == b.windowStart
    ensures p.durationNanos == if end <= b.windowStart then 0 else end - b.windowStart
  {
    hide Inv, Means, Intern, Read;
    var (b1, count) := Intern(b, "count");
    var (b2, samples) := Intern(b1, "samples");
    InternKeepsTables(b, "count");
    InternKeepsTables(b1, "samples");
    GrowthKeepsMeans(b, b2, stacks);
    ReadTallies(b2, p.samples, stacks);
    TalliesExpand(Read(p.dict, p.samples).value, stacks);
  }

  /** `is_empty` is exact: the sample map is empty only when no stack was added. */
  lemma EmptyMeansNothing(b: Builder, stacks: seq<seq<Rendered>>)
    requires Inv(b) && Means(b, stacks)
    ensures b.samples == map[] <==> stacks == []
  {
    hide TablesOk, ResolveStack;
    forall ids | ids in b.samples ensures stacks != [] {
      SampleMeansSomething(b, stacks, ids);
    }
    if stacks != [] {
      assert stacks[0] in stacks;
    }
  }

  lemma SampleMeansSomething(b: Builder, stacks: seq<seq<Rendered>>, ids: seq<nat>)
    requires Inv(b) && Means(b, stacks) && ids in b.samples
    ensures stacks != []
  {
    hide TablesOk, ResolveStack;
    assert b.samples[ids] == multiset(stacks)[ResolveStack(b.dict, ids).value];
  }

  // ----- Whole histories -----

  datatype Op = AddOp(frames: seq<Frame>) | TakeOp(end: int)

  function Run(b: Builder, ops: seq<Op>): Builder {
    if ops == [] then b
    else
      var b1 := Run(b, ops[..|ops| - 1]);
      match ops[|ops| - 1]
      case AddOp(frames) => Add(b1, frames)
      case TakeOp(end) => Fresh(end)
  }

  /** The stacks added since the last take, oldest first. */
  function SinceTake(ops: seq<Op>): seq<seq<Frame>> {
    if ops == [] || ops[|ops| - 1].TakeOp? then []
    else SinceTake(ops[..|ops| - 1]) + [ops[|ops| - 1].frames]
  }

  lemma FreshMeansNothing(start: int)
    ensures Inv(Fresh(start)) && Means(Fresh(start), [])
  {
  }

  /** In every reachable state the tables are canonical and mean exactly the stacks added since the last take. */
  lemma {:induction false} ReachableMeans(start: int, ops: seq<Op>)
    ensures Inv(Run(Fresh(start), ops))
    ensures Means(Run(Fresh(start), ops), RenderAll(SinceTake(ops)))
  {
    hide Inv, Means, Add, Fresh, RenderStack;
    if ops == [] {
      FreshMeansNothing(start);
    } else {
      var rest := ops[..|ops| - 1];
      ReachableMeans(start, rest);
      match ops[|ops| - 1]
      case AddOp(frames) =>
        AddMeans(Run(Fresh(start), rest), frames, RenderAll(SinceTake(rest)));
        assert RenderAll(SinceTake(ops)) == RenderAll(SinceTake(rest)) + [RenderStack(frames)];
      case TakeOp(end) =>
        FreshMeansNothing(end);
    }
  }

  /** After a take the builder is a new one, on every future: only the window start differs. */
  lemma {:induction false} TakeForgetsHistory(start: int, before: seq<Op>, end: int, after: seq<Op>)
    ensures Run(Fresh(start), before + [TakeOp(end)] + after) == Run(Fresh(end), after)
  {
    var ops := before + [TakeOp(end)] + after;
    if after == [] {
      assert ops[..|ops| - 1] == before;
      assert ops[|ops| - 1] == TakeOp(end);
    } else {
      assert ops[..|ops| - 1] == before + [TakeOp(end)] + after[..|after| - 1];
      TakeForgetsHistory(start, before, end, after[..|after| - 1]);
    }
  }

  /** The window start never influences what is counted. */
  lemma {:induction false} WindowStartIsInert(start: int, other: int, ops: seq<Op>)
    requires forall op :: op in ops ==> op.AddOp?
    ensures Run(Fresh(start), ops) == Run(Fresh(other), ops).(windowStart := start)
  {
    if ops != [] {
      var rest := ops[..|ops| - 1];
      WindowStartIsInert(start, other, rest);
      LocateAllIgnoresWindow(Run(Fresh(other), rest), start, ops[|ops| - 1].frames);
    }
  }

  lemma LocateIgnoresWindow(b: Builder, start: int, f: Frame)
    ensures var (b1, id) := Locate(b, f);
            Locate(b.(windowStart := start), f) == (b1.(windowStart := start), id)
  {
    hide Intern, FunctionId, LocationId;
    var (b1, name) := Intern(b, QualifiedName(f));
    var (b2, file) := Intern(b1, f.file.GetOr(""));
    var (b3, fid) := FunctionId(b2, name, file);
    InternIgnoresWindow(b, start, QualifiedName(f));
    InternIgnoresWindow(b1, start, f.file.GetOr(""));
    IdsIgnoreWindow(b2, start, name, file);
    IdsIgnoreWindow(b3, start, fid, f.line);
  }

  lemma InternIgnoresWindow(b: Builder, start: int, s: string)
    ensures var (b1, i) := Intern(b, s);
            Intern(b.(windowStart := start), s) == (b1.(windowStart := start), i)
  {
  }

  lemma IdsIgnoreWindow(b: Builder, start: int, x: nat, y: nat)
    ensures var (b1, id) := FunctionId(b, x, y);
            FunctionId(b.(windowStart := start), x, y) == (b1.(windowStart := start), id)
    ensures var (b1, id) := LocationId(b, x, y);
            LocationId(b.(windowStart := start), x, y) == (b1.(windowStart := start), id)
  {
  }

  lemma {:induction false} LocateAllIgnoresWindow(b: Builder, start: int, frames: seq<Frame>)
    ensures var (b1, ids) := LocateAll(b, frames);
            LocateAll(b.(windowStart := start), frames) == (b1.(windowStart := start), ids)
  {
    hide Locate;
    if frames != [] {
      LocateIgnoresWindow(LocateAll(b, frames[..|frames| - 1]).0, start, frames[|frames| - 1]);
      LocateAllIgnoresWindow(b, start, frames[..|frames| - 1]);
    }
  }
}
