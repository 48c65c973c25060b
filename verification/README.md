# A verified model of the pfp sampling profiler

`pfp` reads another process's memory, walks the Zend call stack and aggregates the sampled stacks. This Dafny
project models its logic with the system calls abstracted away, and proves what each part is for:

- **Profiles mean what was sampled.** The pprof builder's four interning tables, mutated in place and reset once
  per push window, always mean exactly the multiset of stacks that were added; every written stack lands in
  exactly one Pyroscope window or is still live.
- **The walker reads what is there.** A walk through the bounded string cache shows the cached texts; it equals the
  uncached walk if and only if the strings it shows still read as they did when they were cached; on arbitrary memory it is the longest readable prefix of the frame chain; on any call stack
  laid out byte by byte it reads back exactly that stack.
- **The instruction decoders are right.** A small A64 and x86-64 machine executes the same bytes, and what a
  decoder accepts is compared with what the machine returns, in arithmetic modulo 2^64.
- **The aggregators agree.** The live view, the pprof profile and the folded file give the same count for every
  name on every stream of stacks.
- **The runner loses nothing it should not.** The multi-PID runner is a transition system over every interleaving
  of spawning, sending, reaping, draining and joining, and can finish from every state; pacing is arithmetic over
  arbitrary monotone clocks.

`Sampler.Sampler.Run` joins the first two: sampling a process whose memory holds some call stack at each sample yields
a profile that reads back as exactly those stacks.

Run `dafny verify dfyconfig.toml` to check everything.

## Modules

- `Wrappers`, `Tally`, `Sorting`: options and results, weighted lists, the library sort.
- `Frames`: frames, their rendering, the leaf filter.
- `PprofTables` (the builder as values), `PprofBuilder` (the object), `PyroscopeWindows`.
- `Memory`, `StackWalker`, `CallStackLayout`, `HashLookup`; `MemoryImage`, `SmallProcess` and `ServerTables` exhibit
  concrete memories.
- `LittleEndian`, `A64`, `TcbOffsetA64`, `VersionPrologueA64`, `X86Stubs`, `ZtsGlobals`.
- `Aggregator`, `FoldedText`, `FoldedSink`, `Agreement`.
- `Pacing`, `MultiRunner`, `Sampler`.
- `ProcMaps`, `VersionScan`.

Objects that the program updates in place (`PprofBuilder`, `PyroscopeSink`, `StackWalker`, `Aggregator`,
`FoldedSink`, `Sampler`) are classes. Each method is proved equal to a step of a specification on values, or
keeps a stated relation to the history, and the theorems are about that specification. Memory layouts are written in
PHP's own numbers, not in the walker's constants, and what the walker and the lookups do on memory that is not laid
out is stated over which bytes are readable.

## Where the code differs from its own documentation

The model follows the code. Each difference is a theorem.

- `src/symbols.rs:237` requires more than five bytes although the comment at line 238 counts "8.0.0" as the
  shortest match: five-byte versions are skipped (`VersionScan.LiteralIsAcceptedIffLong`,
  `VersionScan.ScanOfLiteral`, `VersionScan.ShortestVersionIsSkipped`).
- `src/target.rs:225` leaves ADD's shift bit and both instructions' registers unchecked, despite the comment at lines
  251-254. The decoded address is what the function returns if and only if the accepted words are faithful
  (`VersionPrologueA64.DecodedIsReturnedIffFaithful`, `VersionPrologueA64.ShiftedAddIsMisread`).
- `src/tls.rs:93` speaks of up to two moves; the loop accepts any number that fits (`TcbOffsetA64.DecodeTcbOffsetBytes`).
- `src/tls.rs:273` says the executor-globals address is dereferenced; line 301 only adds
  (`ZtsGlobals.FindsThreadGlobalsA64`).
- `src/sampler.rs:439-442` ends the drain after 100 ms of silence and hands drained samples on without the pid prefix
  (`MultiRunner.DrainedSamplesAreNotAnnotated`, `MultiRunner.DrainedCanLackPid`). Every sample has its prefix if and only
  if at teardown no worker is inside an iteration and no URI is queued (`MultiRunner.AnnotatedIffQuiet`). A drain that
  times out is complete if and only if no worker is inside an iteration then; otherwise one sample per such worker
  can be lost (`MultiRunner.TimeoutIsCompleteIffIdle`, `MultiRunner.LossIsOnePerWorker`, `MultiRunner.TimeoutCanLose`).
- `src/sampler.rs:30-41` is said to match the spelling the outputs use, but never matches a class-less name containing
  `::`, which the outputs print as is (`Frames.LeafFilterMatchesRendering`, `Frames.UnsplittableLeafIsKept`).
- `src/target.rs:267-294` stops at the first bucket keyed `_SERVER` even if it is deleted, so a stale one hides a live
  one; and it does not check what a `_SERVER` reference refers to, so a number is taken for a table's address
  (`HashLookup.RequestVarIsServerIff`, `ServerTables.StaleServerHidesLive`, `ServerTables.IntegerServerIsMisread`).
- `src/zend.rs:125-136` never evicts, so a string whose address is reused is shown under its old text
  (`SmallProcess.ReusedAddressShowsOldName`). A capture is right if and only if the strings it shows are fresh
  (`CallStackLayout.CaptureIsUncachedIffFresh`).
- `src/proc.rs:35` trims paths, so a file whose name ends in white space is listed under another name
  (`ProcMaps.MapsRoundTrip`, `ProcMaps.TrailingBlankIsLost`).
- `src/output/mod.rs:159-168` writes names as they are: the folded text reads back if and only if no name contains
  `;` or a newline (`FoldedText.FoldedRoundTrips`, `FoldedText.SemicolonReadsBackSplit`), and agrees with the other
  outputs if and only if no name contains `;` (`Agreement.AgreeIffSeparatorFree`).

## Model

| member | source | states |
|---|---|---|
| PprofTables.ResolveById | src/output/pprof_sink.rs:72-102 | in a well-formed builder exactly the location ids 1..n resolve, and a reader's search by id lands on the interned line, function and strings |
| PprofTables.FunctionIdsAreCanonical | src/output/pprof_sink.rs:72-86 | exactly the function ids 1..n denote something, and two denote the same name and file if and only if they are the same id |
| PprofTables.LocationIdsAreCanonical | src/output/pprof_sink.rs:88-102 | two location ids that denote the same rendered frame are the same id |
| PprofTables.SampleKeysAreCanonical | src/output/pprof_sink.rs:105-119 | two sample keys denote the same stack if and only if they are the same key |
| PprofTables.GrowthKeepsMeaning | src/output/pprof_sink.rs:62-102 | growing the tables never changes what an earlier key denotes |
| PprofTables.InternKeepsTables | src/output/pprof_sink.rs:62-70 | interning keeps every table invariant, index 0 stays "" and the returned index holds the string |
| PprofTables.FunctionIdKeepsTables | src/output/pprof_sink.rs:72-86 | the invariants are kept and the returned id names that function |
| PprofTables.LocationIdKeepsTables | src/output/pprof_sink.rs:88-102 | the invariants are kept and the returned id names that function and line |
| PprofTables.LocateAllDenotes | src/output/pprof_sink.rs:105-117 | the location ids built for a stack resolve to exactly that stack, rendered: name, file or "", line |
| PprofTables.AddMeans | src/output/pprof_sink.rs:105-119 | adding a stack adds exactly that stack to the multiset the tables mean |
| PprofTables.ReadTallies | src/output/pprof_sink.rs:127-135 | whatever the drain order, the drained samples list each distinct stack once with its number of occurrences |
| PprofTables.ProfileMeans | src/output/pprof_sink.rs:123-165 | meaning preservation: reading the emitted profile gives back exactly the multiset of added stacks, also when "count", "samples" or "" name PHP frames; its one value type reads samples/count, and it starts where the window did and lasts until its end, never negatively |
| PprofTables.EmptyMeansNothing | src/output/pprof_sink.rs:58-60 | the emptiness test is true exactly when no stack was added |
| PprofTables.ReachableMeans | src/output/pprof_sink.rs:40-174 | after any sequence of adds and takes the tables are canonical and mean exactly the stacks added since the last take |
| PprofTables.TakeForgetsHistory | src/output/pprof_sink.rs:167-174 | after a take, every future call sequence leaves the builder as if it had been new |
| PprofTables.WindowStartIsInert | src/output/pprof_sink.rs:40-119 | builders that differ in window start only stay equal but for it |
| PprofBuilder.PprofBuilder.constructor | src/output/pprof_sink.rs:40-54 | a new builder has "" at index 0, no other entry, and the given window start |
| PprofBuilder.PprofBuilder.Intern | src/output/pprof_sink.rs:62-70 | in place: the state and index of the specification step whose meaning is InternKeepsTables, also while "" is re-interned into cleared tables |
| PprofBuilder.PprofBuilder.FunctionId | src/output/pprof_sink.rs:72-86 | in place: the state and id of the step whose meaning is FunctionIdKeepsTables |
| PprofBuilder.PprofBuilder.LocationId | src/output/pprof_sink.rs:88-102 | in place: the state and id of the step whose meaning is LocationIdKeepsTables |
| PprofBuilder.PprofBuilder.Add | src/output/pprof_sink.rs:105-119 | in place: the invariant is kept, the builder is not empty, and for whatever stacks the tables meant they now mean those and this one |
| PprofBuilder.PprofBuilder.DrainSamples | src/output/pprof_sink.rs:127-135 | every entry of the sample map once, in an arbitrary order, leaving it empty |
| PprofBuilder.PprofBuilder.TakeProfile | src/output/pprof_sink.rs:123-175 | emits a profile of the window it ends, with its start and clamped duration, and leaves a fresh builder whose window starts where this one ended |
| PyroscopeWindows.WindowsPartitionRun | src/output/pyroscope_sink.rs:51-108 | over every interleaving of writes, due pushes, failed or successful POSTs and finishes, the windows followed by the live stacks are the written stacks in order; windows abut and are non-empty; nothing is live after a finish |
| PyroscopeWindows.WindowProfileMeans | src/output/pyroscope_sink.rs:63-67 | the profile sent for a window starts where the previous window ended, lasts until this one did, and reads back as exactly that window's stacks |
| PyroscopeWindows.SamplesLieInTheirWindow | src/output/pyroscope_sink.rs:51-108 | under a non-decreasing wall clock every stack was written between the start and end of its window |
| PyroscopeWindows.StepInv | src/output/pyroscope_sink.rs:97-108 | one write or finish keeps the windows well-formed and loses or duplicates no stack |
| PyroscopeWindows.WritePushesIffDue | src/output/pyroscope_sink.rs:97-103 | a write takes the window, itself included, exactly if the interval has passed since the last push (a clock behind it counts as no time), and the next interval starts after it; otherwise the stack stays live |
| PyroscopeWindows.FinishPushesRest | src/output/pyroscope_sink.rs:51-108 | finishing takes whatever is live, due or not |
| PyroscopeWindows.PyroscopeSink.TryPush | src/output/pyroscope_sink.rs:63-93 | takes the live stacks as one window and resets the builder, whether or not the POST succeeds |
| PyroscopeWindows.PyroscopeSink.Push | src/output/pyroscope_sink.rs:51-61 | an empty builder only moves the push time; otherwise the window is taken and a failed POST is swallowed |
| PyroscopeWindows.PyroscopeSink.WriteSample | src/output/pyroscope_sink.rs:97-103 | adds the stack; pushes exactly if the interval has elapsed, and is the step of the run that is proved to partition |
| PyroscopeWindows.PyroscopeSink.FinishSink | src/output/pyroscope_sink.rs:105-108 | pushes what is left |
| StackWalker.Pick | src/offsets.rs:99-127 | a layout is returned exactly if it is the one of the six-layout table whose name the version starts with; it exists exactly for versions 8.0 to 8.5, and its fields fit the walker's buffers |
| StackWalker.LayoutTable | src/offsets.rs:44-97 | the offsets of every supported minor version, written out |
| StackWalker.StepKeepsFrames | src/zend.rs:62-136 | cache entries added while a frame is read, however that frame ends, change no frame |
| StackWalker.CoherentCaptureIsUncached | src/zend.rs:62-136 | through a coherent cache a capture returns the frames, or the error, of the uncached capture |
| StackWalker.ReachableCachesAreCoherent | src/zend.rs:125-136 | a cache reached by any run of captures is coherent at a capture if and only if the strings cached before read as they did when they were cached; it holds at most 8192 entries |
| StackWalker.RunRefinesUncached | src/target.rs:126-141 | over any run of captures, each one at which the strings cached before read as they did then equals the uncached capture, failed frames included, whatever happened in between |
| StackWalker.StringIsReadable | src/zend.rs:157-165 | on any memory a string is read exactly if its length and its first 4096 bytes are readable, and is then those bytes decoded |
| StackWalker.FrameIsReadable | src/zend.rs:62-123 | on any memory a frame is read exactly if its 64 bytes are readable and, unless its function is null, the function's 192 bytes and its name, class name and (user functions) file, each null, cached or readable |
| StackWalker.CaptureFailsIffHeadless | src/target.rs:126-131 | a capture is an error exactly if the pointer to the innermost frame is unreadable |
| StackWalker.WalkIsLongestPrefix | src/target.rs:126-141 | on arbitrary memory the walk is the longest prefix, of length at most the depth, of the chain of links at offset 48; it stops early only at a null link or a frame some needed byte of which is unreadable |
| StackWalker.ShallowIsPrefix | src/target.rs:126-141 | a capture at a smaller depth is a prefix of one at a larger depth |
| StackWalker.ClosedChainFillsDepth | src/target.rs:126-141 | a cyclic chain of readable frames is cut at exactly the depth |
| StackWalker.StackWalker.ReadZstringCached | src/zend.rs:125-136 | returns the string seen through the old cache; the cache only gains true readings, evicts nothing, keeps its bound, and does gain the string when there is room |
| StackWalker.StackWalker.ReadFrame | src/zend.rs:62-123 | the frame and link, or the error, are those seen through the cache at entry, whatever was cached on the way; FrameIsReadable and CallRead say which those are |
| StackWalker.StackWalker.CaptureStack | src/target.rs:126-141 | the capture is the one seen through the cache at entry, and the cache takes one admissible step |
| CallStackLayout.StrRead | src/zend.rs:157-165 | a zend_string whose length and first 4096 bytes are laid out reads back as its text, cut at 4096 bytes |
| CallStackLayout.CallRead | src/zend.rs:62-123 | through any cache, a laid-out execute_data, opline, function, class and strings read back as the frame they stand for, cached texts included, and the link to the caller |
| CallStackLayout.ReadableFrameIsACall | src/zend.rs:62-123 | on any memory a frame whose strings are readable is the layout of some call and is read as that call |
| CallStackLayout.CallsRead | src/target.rs:126-141 | through any cache, a laid-out chain reads back as its first frames up to the depth |
| CallStackLayout.CaptureReadsBack | src/target.rs:126-141 | any call stack laid out under any layout that fits is captured as exactly its first max_depth frames, through any coherent cache |
| CallStackLayout.CaptureSees | src/target.rs:126-141 | through any cache, coherent or not, a laid-out stack is captured as its first max_depth frames with the cached text wherever a string's address is cached |
| CallStackLayout.CaptureIsUncachedIffFresh | src/target.rs:126-141 | a capture of a laid-out stack through any cache equals the uncached one if and only if every name, class and user file that the captured frames show is cached with its present text or not at all |
| SmallProcess.ScriptIsCaptured | src/target.rs:126-141 | concrete memories hold a running function, named or top-level, as a laid-out stack, and their captures are that one frame |
| SmallProcess.ReusedAddressShowsOldName | src/zend.rs:125-136 | a run of two captures between which a cached string's bytes change: the second shows the old name, the uncached walk the new one |
| HashLookup.HtGetString | src/zend.rs:167-213 | the bucket loop computes the search that HtGetStringAnywhere and HtGetStringFinds characterise, error paths included |
| HashLookup.HtGetStringAnywhere | src/zend.rs:167-213 | on any memory: an error if the header is unreadable, nothing if no bucket of the first 4096 matches, otherwise the first matching bucket's answer, an error included |
| HashLookup.TagIsLowByte | src/zend.rs:176 | a zval's tag is the low byte of its type word, whatever the flags |
| HashLookup.HtGetStringFinds | src/zend.rs:167-213 | on a table whose first 4096 buckets are laid out, deleted ones by their tag alone, it returns the string of the first live bucket with the key, through at most one reference, and nothing exactly when there is none or it is no string |
| HashLookup.FindIsFirst | src/zend.rs:174-211 | the abstract lookup finds exactly the first live bucket with the key |
| HashLookup.ValueRead | src/zend.rs:188-210 | a laid-out value reads back as its string, through one reference, or as nothing |
| HashLookup.SearchFinds | src/zend.rs:174-211 | the search from any bucket on finds what the abstract lookup finds there, whatever the keys of deleted buckets point to |
| HashLookup.RequestVar | src/target.rs:145-296 | the symbol-table loop computes the search that RequestVarAnywhere and RequestVarIsServerIff characterise; errors and absent keys both give nothing |
| HashLookup.RequestVarAnywhere | src/target.rs:259-296 | on any memory: an error if the header is unreadable, nothing without a bucket keyed _SERVER, otherwise a lookup at that bucket's payload or at the payload of what it refers to, unreadable ones being errors |
| HashLookup.SearchServerFinds | src/target.rs:267-294 | the search trusts the first bucket keyed _SERVER, deleted or not, and whatever it refers to, and skips deleted buckets whose key is null or unreadable |
| HashLookup.RequestVarIsServerIff | src/target.rs:259-296 | the exact answer in all cases: $_SERVER[key] unless a deleted _SERVER bucket comes first (then nothing) or _SERVER refers to a non-array (then a lookup at its payload); so it is $_SERVER[key] if and only if there is nothing to give in the first case and that lookup finds nothing in the second |
| ServerTables.StaleServerHidesLive | src/target.rs:267-294 | a memory holding a symbol table on which a deleted bucket hides a live $_SERVER["k"] |
| ServerTables.IntegerServerIsMisread | src/target.rs:282-284 | a memory holding a $_SERVER that refers to an integer, for which the table at that number answers |
| TcbOffsetA64.DecodeTcbOffsetBytes | src/tls.rs:76-142 | accepts exactly the buffers of at least 12 bytes holding an optional BTI, x0-targeted moves starting with MOVZ, and RET, and returns the value those moves build |
| TcbOffsetA64.MaskedMoves | src/tls.rs:107-117 | the decoder's masks select exactly the instructions that disassemble as 64-bit MOVZ or MOVK into x0 |
| TcbOffsetA64.DecodedIsReturned | src/tls.rs:76-142 | soundness: calling the stub on the machine, from any address and registers, returns the decoded value in x0 |
| TcbOffsetA64.StubDecodes | src/tls.rs:76-142 | completeness: every assembled stub of moves starting with MOVZ decodes to the value it builds |
| TcbOffsetA64.ValueRoundTrips | src/tls.rs:76-142 | every 64-bit value as MOVZ, three MOVKs and RET, with or without BTI, decodes back to itself in the 24-byte buffer |
| TcbOffsetA64.RealStubsDecode | src/tls.rs:371-411 | the accessors of PHP builds, word by word |
| A64.LandingPads | src/tls.rs:83 | exactly eight words count as a landing pad, the four BTI hints among them |
| VersionPrologueA64.AcceptsExactly | src/target.rs:192-257 | accepted are exactly the buffers of at least 16 bytes with ADRP, ADD (immediate), RET after an optional BTI, and the result is ADRP's target plus the unshifted immediate |
| VersionPrologueA64.DecodedIsReturnedIffFaithful | src/target.rs:215-256 | an accepted function returns the decoded address on every register file if and only if its registers chain into x0 and its shift adds nothing |
| VersionPrologueA64.ShiftedAddIsMisread | src/target.rs:225-256 | a concrete accepted function that returns another address than the one decoded |
| VersionPrologueA64.PageDistance | src/target.rs:241-249 | every target has a page-aligned distance from every page |
| VersionPrologueA64.PrologueRoundTrips | src/target.rs:192-257 | every target within the signed 21-bit page range round-trips through the encoder, with or without BTI |
| VersionPrologueA64.RealPrologueDecodes | src/target.rs:336-361 | the accessor of a PHP 8.3 build, word by word |
| X86Stubs.VersionPrologueIsExact | src/target.rs:172-189 | accepted are exactly the optional ENDBR64, LEA, RET stubs, and the decoded address is what the machine returns |
| X86Stubs.TcbOffsetIsExact | src/tls.rs:54-73 | accepted are exactly the optional ENDBR64, MOV, RET stubs, and the decoded value is what the machine returns from any address |
| X86Stubs.StubsRoundTrip | src/tls.rs:54-73 | every signed 32-bit immediate and displacement round-trips through both stubs, with or without ENDBR64 |
| X86Stubs.SignIsExtended | src/tls.rs:67 | the upper half of a decoded immediate repeats its sign bit |
| X86Stubs.ImmediateIsKept | src/tls.rs:67 | the lower half of a decoded immediate is the immediate |
| X86Stubs.SignedValuesRoundTrip | src/tls.rs:54-73 | every signed 32-bit value comes back from the MOV stub that loads it, and as the distance from the next instruction from the LEA stub |
| X86Stubs.RealStubsDecode | src/target.rs:304-327 | the accessors of PHP builds, byte by byte, a negative offset among them |
| ZtsGlobals.ResolveA64 | src/tls.rs:274-314 | the resolution is the decoder's value, the thread register and two memory reads composed, with every failure an error |
| ZtsGlobals.FindsThreadGlobalsA64 | src/tls.rs:274-314 | on a process whose accessor is any stub of moves, the result is the globals' address inside that thread's TSRM cache, or an error while the cache is null |
| ZtsGlobals.FindsThreadGlobalsX86 | src/tls.rs:274-314 | the same for every x86-64 accessor stub |
| ZtsGlobals.FoundGlobalsAreTheThreads | src/tls.rs:274-314 | soundness: an address found is relative to the non-null cache in the TLS slot that the accessor itself would return |
| ZtsGlobals.FoundGlobalsAreTheThreadsX86 | src/tls.rs:274-314 | the same soundness for x86-64 |
| ZtsGlobals.SlotIsSigned | src/tls.rs:287 | the slot lies the signed offset away from the TLS base, modulo 2^64 |
| ZtsGlobals.FailuresAreErrors | src/tls.rs:280-300 | an unreadable accessor or offset variable, or no TLS base, is an error on both architectures |
| Frames.LeafFilterMatchesRendering | src/sampler.rs:30-41 | the filter drops exactly the stacks whose leaf renders as a listed name, for all lists, if and only if cutting the rendering at its first "::" gives class and function back |
| Frames.UnsplittableLeafIsKept | src/sampler.rs:30-41 | a concrete leaf that is not dropped by the very name the outputs print |
| Aggregator.CountsAreBounded | src/tui.rs:44-64 | exclusive <= inclusive <= samples for every name |
| Aggregator.ExclusiveSumsToSamples | src/tui.rs:44-64 | the exclusive counts of all rows sum to the samples |
| Aggregator.Aggregator.Record | src/tui.rs:44-64 | afterwards the rows count exactly the stacks recorded since the last reset: leaf per stack, recursion once, empty stacks ignored |
| Aggregator.Aggregator.Reset | src/tui.rs:66-70 | forgets every stack and restarts the clock |
| Aggregator.Aggregator.TopRows | src/tui.rs:72-89 | a descending selection of the rows, of the smaller of limit and row count, in which no omitted row beats a shown one |
| FoldedText.SplitJoin | src/output/mod.rs:146-154 | splitting a key undoes joining the names if and only if no name contains the separator |
| FoldedText.FoldedRoundTrips | src/output/mod.rs:159-165 | the printed text reads back as the name lists and counts if and only if no name contains ';' or a newline |
| FoldedText.SemicolonReadsBackSplit | src/output/mod.rs:159-165 | a stack of the one name "a;b" is printed and reads back as the names "a" and "b" |
| FoldedText.DecimalIsDecimal | src/output/mod.rs:163 | counts are printed in decimal, most significant digit first |
| FoldedSink.FoldedSink.WriteSample | src/output/mod.rs:141-157 | keeps the counts exact for the non-empty stacks written, root first |
| FoldedSink.FoldedSink.Finish | src/output/mod.rs:159-168 | prints lines strictly ascending in dictionary order of their keys, with positive counts that tally the written stacks, and forgets them |
| Sorting.LexIsDictionary | src/output/mod.rs:161 | the order of keys: equal, or a proper prefix, or smaller at the first difference |
| FoldedSink.PrintedCountsReadBack | src/output/mod.rs:141-168 | parsing the printed lines gives back exactly the multiset of written name lists if and only if no name contains ';' or a newline |
| Agreement.PprofAgrees | src/output/pprof_sink.rs:105-119 | the profile's sums over leaf and contained names are the aggregator's counts |
| Agreement.FoldedAgrees | src/output/mod.rs:141-157 | the folded counts' sums are the aggregator's counts for names without ';' |
| Agreement.ThreeAggregatorsAgree | src/tui.rs:44-64 | exclusive, inclusive and total counts of live view, profile and folded output agree for every name |
| Agreement.AgreeIffSeparatorFree | src/output/mod.rs:146-154 | the three agree on every name if and only if no name contains ';' |
| Agreement.ObserveAll | src/sampler.rs:122-139 | feeding one stream of non-empty stacks to the three objects and finishing them, all three agree on every name and the total if and only if no name contains ';' |
| Pacing.Pace | src/sampler.rs:79-100 | the loop's deadlines grow by an interval per iteration, or restart an interval after the clock when more than four intervals late; no attempt precedes its deadline |
| Pacing.NeverEarly | src/sampler.rs:79-100 | sample k starts no earlier than k intervals after the start |
| Pacing.CatchUpIsBounded | src/sampler.rs:92-100 | from lag check j to attempt k at least k - j - 5 intervals pass |
| Pacing.BurstIsBounded | src/sampler.rs:92-100 | within less than n intervals after a check fewer than n + 5 further attempts start |
| Pacing.FiveAttemptsInNoTime | src/sampler.rs:92-100 | the lag bound is tight: five more attempts can follow a check at once |
| Pacing.NoDrift | src/sampler.rs:84-98 | without lateness the deadlines are exactly the multiples of the interval |
| Pacing.LateSnapsForward | src/sampler.rs:95-98 | after a snap the next sample waits a full interval |
| MultiRunner.RunInv | src/sampler.rs:260-449 | every reachable state keeps the worker, phase and channel invariants: busy workers are live, live ones are held, and after teardown all of them are told to stop |
| MultiRunner.DiscoveredIsSpawned | src/sampler.rs:366-424 | a discovered pid without a worker gets one |
| MultiRunner.WorkerSends | src/sampler.rs:320-360 | a live worker that is not told to stop can take a sample and queue it |
| MultiRunner.WorkerSkips | src/sampler.rs:331-345 | or end its iteration without one, changing nothing |
| MultiRunner.WorkerExits | src/sampler.rs:336-339 | or leave because its process is gone |
| MultiRunner.RecvHandsOn | src/sampler.rs:389-402 | the main loop takes the oldest queued message and hands it on with its pid before its URI |
| MultiRunner.ReapedIsRespawned | src/sampler.rs:411-424 | a pid whose worker has ended is reaped, and gets a worker of the next generation when discovered again |
| MultiRunner.BothGenerationsAreReceived | src/sampler.rs:378-431 | a run in which two successive workers of one pid send and both samples are handed on |
| MultiRunner.EveryRunCanFinish | src/sampler.rs:434-448 | progress: from every reachable state the runner can return, and unless the drain is over, with every sample ever sent handed on |
| MultiRunner.OneLiveWorkerPerPid | src/sampler.rs:293-431 | at most one live worker per pid, and none once the runner returns |
| MultiRunner.NothingLostOnChannel | src/sampler.rs:378-445 | sent is received followed by queued, `taken` counts the received, and the i-th write is the i-th send's frames |
| MultiRunner.MainNeverDisconnects | src/sampler.rs:404 | the main loop's disconnect branch cannot be taken |
| MultiRunner.DrainedSamplesAreNotAnnotated | src/sampler.rs:390-442 | the pid prefix is on exactly the samples received before teardown |
| MultiRunner.AnnotatedIffQuiet | src/sampler.rs:390-442 | at teardown: every sample is handed on with its pid, on every continuation, if and only if no worker is inside an iteration and no message with a URI is queued |
| MultiRunner.DrainedCanLackPid | src/sampler.rs:439-442 | a run that hands on a sample whose URI lacks the pid prefix |
| MultiRunner.ReceivedIsPrefixOfSuccession | src/sampler.rs:293-431 | what was received for a pid is a prefix of what its successive workers sent, in order, across reaping and respawning |
| MultiRunner.TimeoutIsCompleteIffIdle | src/sampler.rs:439-448 | a drain ended by its timeout is complete on every continuation if and only if no worker was inside an iteration at that moment |
| MultiRunner.LossIsOnePerWorker | src/sampler.rs:320-448 | the samples never received come from different workers, each inside an iteration both at teardown and at the end of the drain; so at most one per worker live at teardown is lost |
| MultiRunner.DisconnectMeansComplete | src/sampler.rs:439-448 | if the drain ends because every sender is gone, every sample ever sent is handed to the sink exactly once, in order |
| MultiRunner.TimeoutCanLose | src/sampler.rs:439-448 | a run whose drain ends by timeout while a worker is between its flag check and its send, and loses that sample |
| Sampler.Sampler.SampleOnce | src/sampler.rs:122-139 | one sample: an error exactly if the capture fails, and the builder gains the captured stack unless it is empty or its leaf is dropped |
| Sampler.Sampler.Run | src/sampler.rs:72-120 | the sampling loop and the final take as one method: samples and errors are counted; if each memory holds a stack, with cached strings as they were, or is unreadable, the profile reads back as exactly those stacks and the errors are the unreadable ones |
| Sampler.ProfileShowsProcess | src/sampler.rs:72-139 | end to end: the profile of a sampled process reads back as exactly the multiset of its laid-out call stacks, cut at max_depth, less the empty and dropped ones, with unreadable samples skipped |
| ProcMaps.ParseMaps | src/proc.rs:17-48 | the loop returns every line's entry in order, or an error if any line is malformed |
| ProcMaps.ParseAll | src/proc.rs:17-48 | it succeeds exactly if every line parses, and then gives one entry per line |
| ProcMaps.LinesEnd | src/proc.rs:19 | how a text is cut into lines |
| ProcMaps.SplitCuts | src/proc.rs:21-22 | how any line is cut: at its first five white space characters and nowhere else |
| ProcMaps.OneColumnIsRejected | src/proc.rs:24-29 | a line with fewer than two columns is malformed |
| ProcMaps.TwoColumnsSuffice | src/proc.rs:24-42 | two columns are enough; the range must have a dash and a hexadecimal 64-bit number before it |
| ProcMaps.HexIsBounded | src/proc.rs:42 | a start is hexadecimal digits, optionally after a plus sign, of at most 64 bits |
| ProcMaps.HexGrows | src/proc.rs:42 | every hexadecimal digit multiplies by sixteen, anything else is malformed |
| ProcMaps.LineRoundTrips | src/proc.rs:17-48 | a line in the kernel's column format parses back as its mapping if and only if its path, if any, is non-empty without white space at its ends |
| ProcMaps.MapsRoundTrip | src/proc.rs:17-48 | parsing printed mappings always succeeds, and gives back starts, permissions and paths if and only if every path is non-empty without white space at its ends |
| ProcMaps.TrailingBlankIsLost | src/proc.rs:35 | a mapping of a file named "/a " is parsed as one of "/a" |
| ProcMaps.EligibleIff | src/proc.rs:58-72 | eligible are exactly the private executable mappings of named files that are not pseudo files, devices or deleted |
| ProcMaps.FirstEligible | src/proc.rs:58-72 | the first private executable mapping with an on-disk path, none exactly when there is none |
| ProcMaps.LowestOf | src/proc.rs:76-78 | the first of the lowest-start mappings of a path, none exactly when the path is not mapped |
| ProcMaps.PrincipalBinary | src/proc.rs:57-79 | the lowest-start mapping of the path of the first eligible mapping, none exactly when no mapping is eligible |
| ProcMaps.FirstIsLowestWhenAscending | src/proc.rs:50-79 | on ascending maps it starts no higher than any eligible mapping, which is what the documentation promises |
| VersionScan.ScanForVersion | src/symbols.rs:231-248 | returns the first NUL-terminated run that is longer than five bytes and looks like a version, and nothing exactly if there is none |
| VersionScan.VersionsLookLike | src/symbols.rs:250-267 | exactly the strings 8.x.y with one to three digits for each of x and y look like a version |
| VersionScan.LiteralIsAcceptedIffLong | src/symbols.rs:231-267 | a run that looks like a version is accepted if and only if it is not five bytes long |
| VersionScan.ScanOfLiteral | src/symbols.rs:231-248 | scanning one version and its NUL finds it if and only if it is not five bytes long |
| VersionScan.ShortestVersionIsSkipped | src/symbols.rs:237-238 | "8.5.6" looks like a version, and scanning it with its NUL finds nothing |
| VersionScan.TypicalVersionIsFound | src/symbols.rs:231-248 | a scan over "8.3.12" and its NUL finds it |

## Left out

Abstractions:

- Remote memory is a partial byte map that is fixed within one capture and may change between captures; a read gives
  exactly its bytes or fails. The target is not paused, so a change in the middle of a capture is not modelled.
- `u64` address additions wrap modulo 2^64, as a release build computes them. Counters, table indices and
  nanosecond times are unbounded integers; the overflow of `u64` and `i64` counters is not modelled.
- UTF-8 decoding is an arbitrary function parameter. `scan_for_version` works on bytes written as characters: a run
  that is not UTF-8 contains a non-ASCII byte and so never looks like a version.
- Error messages are collapsed into one error value.
- The wall clock, the monotonic clock, POST results, worker scheduling and `discover` are arbitrary inputs. Discovery
  gives a set of pids, so initial discovery never lists a pid twice.
- Environment overrides change only the two executor-globals offsets, which no theorem restricts.
- `Vec::sort_by` is a stable insertion sort as a function; only sortedness and permutation are used.
- HashMap iteration and draining order is arbitrary.

Not modelled:

- Protobuf encoding, gzip and HTTP: the model stops at the `Profile` value. Encoding into memory does not fail, so the
  error returns before the reset in `take_gzipped` are not modelled; nor are the `from`/`until` query strings.
- `PprofSink`, one window taken at the end, adds only delegation to the builder.
- `StacksSink`, write errors of sinks, terminal drawing, keyboard handling, CLI parsing, logging and signals.
- ELF parsing, symbol resolution, load bias, mmap, ptrace, `/proc` listing, process-name and container matching.
- `run_top`'s threads; in the multi-PID runner, workers' pacing and `request_method`, which is passed through unchanged.
- The numeric correctness of the Zend offsets against PHP itself.
- Packed hash tables.
