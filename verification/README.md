# SpecTcl core: a verified model

SpecTcl is a nuclear physics histogrammer. Data arrive as ring items from a data source, user code unpacks
them into events, and events are sorted into spectra. This project models the stateful parts of its core in
Dafny and proves what they promise.

| part | modules | main results |
|---|---|---|
| ring-item stream | `Bytes`, `Sequences`, `BufferTranslators`, `RingStream`, `RingDispatch`, `RingTraces`, `RingBufferDecoders` | cutting the stream into buffers never matters; what the getters answer and which calls are made, as functions of the history of items |
| threaded server | `ThreadedServer`, `ThreadedServerReaping`, `ThreadedServerShutdown` | over every interleaving no client is used after deletion or deleted twice; every pass of the loop deletes the clients that have moved; a requested shutdown always ends, cleanly unless a poll fails |
| event batching | `EventBatches`, `Analyzers` | batches hold exactly the accepted events in order; events are conserved between pool and list |
| folds and projections | `GammaFolds`, `GammaIncrements`, `Projections` | fold and gate agree; a fold adds exactly the lists without the pairs inside; projections conserve counts; transposed contours give the same projections |
| filter files | `Xdr`, `XdrOutputStreams`, `XdrInputStreams`, `FilterRecords`, `FilterHeaders`, `FilterOutputStages`, `FilterToAscii`, `FilterFiles` | a reader meets exactly what was written if and only if no block is empty; a file in which no block but perhaps the last is empty translates to a table with every value of every kept event under its parameter's name |
| pipelines | `Pipelines`, `PipelineManagers` | attachments match the current pipeline exactly when removals were from the current one |
| fits | `FitObservation`, `FitContents`, `FitMirror`, `FitDictionaries` | the dictionary is a map from names to fits; over every run an observer registered once shows the dictionary's fits, exactly when no fit has changed since it was last announced |
| small codecs | `GammaSummary`, `BitSpectra` | parameter lists survive flattening, writing and reading; filled channels are the binary digits |

Classes carry the fields that the program changes; their methods are proved against functions on values, and
the main results are lemmas about those functions and their runs. Calls into code that is not here (user
unpackers, format helpers, gate geometry, polling) are parameters.

## What was found

Where members are named, they prove the point, with an exact condition or a concrete input for what goes wrong;
the rest says what the model follows.

- A last ring item without a body is held back until more data come, because the test at
  `main/Core/CRingBufferDecoder.cpp:672` is strict (`AllItemsArrive`). A size of zero ends the program;
  sizes 1 to 7 are dispatched like any other.
- The factory reads a format item's version in host byte order (`main/Core/RingFormatHelperFactory.cpp:107-115`).
  For a source of the other order it reads the version that was written only if both halves of it read the same
  either way (`VersionAsWritten`), which no version the decoder knows does (`SwappedVersionUnknown`); so the
  right helper is in use only if it is the default anyway (`HelperOfSource`).
- `Long_t` is `long` (`main/Utility/daqdatatypes.h:70-71`). Where that is 8 bytes, swapping a word yields zero
  (`WideSwapLosesValue`); the decoder's results are for 4 bytes.
- `getRun` documents all ones before a state change (`main/Core/CRingBufferDecoder.cpp:258-268`); the
  constructor sets zero (`RingBufferDecoder.constructor`), and only a state change sets it later
  (`RunOfHistory`).
- A failed poll returns without killing or deleting the clients (`PollErrorLeaksClient`, `AfterPollError`), also
  during a requested shutdown (`ShutdownCompletes`).
- An event of size zero that is not partial is deleted while it is still listed or pooled (`OnPhysics`, `ZeroSizeFails`). With
  threshold zero a rejected event sends an empty batch (`ThresholdZero`).
- Filter files: an event found too large for half an empty buffer (`LargeEventLeavesEmptyBlock`), a close with
  nothing pending (`NoEventsEndFlushed`) and a header record that exactly fills the buffer (with the usual 8192
  bytes, 1021 short names: `ManyNamesLeaveNothing`) each write an empty block, and a reader then meets an item
  that was never written (`WriteAndRead`, `ReadsFaithful`). An empty last block still holds the bytes of the block
  before, so what is met is that block's first string. The translation survives it, but if no event was kept and
  the string is the name of a parameter, the line of names is ended (`WriteAndTranslate`). An event whose record
  would fit the buffer but not behind the block's header ends the program (`WriteFile`; with the usual buffer,
  1006 of 1025 parameters: `EventEndsProgram`). Describing never ends if one name cannot fit (`DescribingEnds`;
  with the usual buffer, a name of 4084 bytes: `LongNameNeverDescribed`).
- Nothing but the helper is forgotten between two sources: bytes the first left behind are taken for the start of
  the second (`DeliverTwoSources`), which gets its own parse if and only if there were none
  (`OwnParseIffNothingLeft`). A last header that was held back only arrives late (`HeldBackArrivesLate`); an item
  that was cut swallows the second source's first (`CutItemSwallowsNext`).
- `main/Core/CPipelineManager.cpp:569` assigns where a comparison is meant, so that removing a processor from
  any pipeline detaches it (`AttachedIffRemovalsCurrent`, `RemovalElsewhereDetaches`).
- An observer registered twice sees every fit added twice (`RightIffRegisteredOnce`), and is lost over any run that
  adds or deletes a fit (`MirrorLostIffChanged`); an update that fails after changing a fit leaves the observers
  behind (`ApplyKeepsCurrent`, `FailedUpdateIsMissed`).
- An id that comes twice in a strip of a gamma summary spectrum gets its name only at its last place
  (`NamesInOrder`, `RepeatedIdLosesName`).

## Model

| member | source | states |
|---|---|---|
| `Bytes.WordLayout` | main/Core/BufferTranslator.h:46-60 | byte k of a little-endian word counts 256^k; a big-endian word has its bytes the other way round |
| `BufferTranslators.TranslateReads` | main/Core/BufferTranslator.h:46-60 | translating what the host reads from four bytes gives the word those bytes spell in the translator's byte order |
| `BufferTranslators.DetectRecovers` | main/Core/CRingBufferDecoder.cpp:592-609 | for item types 1 to 65535 the byte-order test picks the translator that recovers every word the source wrote, whatever the two byte orders |
| `BufferTranslators.TypeZeroIsNotDetected` | main/Core/CRingBufferDecoder.cpp:592-609 | a type of zero says nothing: a source of the other byte order is taken for one of the same |
| `BufferTranslators.DetectsIff` | main/Core/CRingBufferDecoder.cpp:592-609 | so for 16-bit types it is right about the orders if and only if the type is not zero or the orders are the same |
| `BufferTranslators.TranslateTwice` | main/Core/BufferTranslator.h:51-60 | translating is its own inverse |
| `BufferTranslators.WideSwapLosesValue` | main/Core/BufferTranslator.h:51-60 | with 8-byte longs a swapped word comes out as zero, so a value survives exactly when nothing is swapped or it is zero |
| `BufferTranslators.BufferTranslator.GetBlock` | main/Core/BufferTranslator.cpp:79-95 | the item receives the block, back to front if swapping, and nothing else of it changes |
| `BufferTranslators.BufferTranslator.GetLongword` | main/Core/BufferTranslator.cpp:175-179 | the word at an offset as the host reads it after the block is fetched |
| `BufferTranslators.BufferTranslator.TranslateLong` | main/Core/BufferTranslator.h:51-60 | the translated value, with the translator pointing at its own buffer again |
| `BufferTranslators.BufferTranslator.GetQuad` | main/Core/BufferTranslator.cpp:107-122 | the eight bytes of the value reversed, or the value itself |
| `RingStream.ParseConserves` | main/Core/CRingBufferDecoder.cpp:666-747 | dispatched bytes plus bytes kept are the bytes received, and nothing that could be dispatched is kept |
| `RingStream.ParseAppend` | main/Core/CRingBufferDecoder.cpp:619-749 | more bytes never undo a dispatch: parsing on from what was left equals parsing everything |
| `RingStream.DeliverFirst` | main/Core/CRingBufferDecoder.cpp:184-234 | one delivery takes a resting decoder to a resting decoder and leaves the same remainder of the whole parse to do |
| `RingStream.RunIsParse` | main/Core/CRingBufferDecoder.cpp:619-749 | any deliverable sequence of buffers, from any resting state, dispatches what one parse of carried bytes and buffers yields |
| `RingStream.ChunkingIndependence` | main/Core/CRingBufferDecoder.cpp:619-749 | a fresh decoder dispatches the items of one greedy parse of the whole stream, fails exactly when it does, and loses no byte |
| `RingStream.CuttingsAgree` | main/Core/CRingBufferDecoder.cpp:619-749 | two cuttings of one stream dispatch the same items and leave the same bytes |
| `RingStream.OwnParseIffNothingLeft` | main/Core/CRingBufferDecoder.cpp:544-576 | a second source gets the outcome of its own parse if and only if the first left no bytes |
| `RingStream.HeldBackArrivesLate` | main/Core/CRingBufferDecoder.cpp:651-747 | an item that is only a header, held back, arrives before the second source's items, which are parsed as its own |
| `RingStream.CutItemSwallowsNext` | main/Core/CRingBufferDecoder.cpp:544-576 | a source cut inside an item and a next one whose first item is dispatched in pieces: three bytes as the end of the cut one, the rest as a header of thousands of bytes |
| `RingStream.ParseOfEncoded` | main/Core/CRingBufferDecoder.cpp:666-747 | parsing the bytes a source wrote gives back its items, but for a last one that is only a header |
| `RingStream.AllItemsArrive` | main/Core/CRingBufferDecoder.cpp:672-747 | whatever the cutting, every item written is dispatched byte for byte if and only if the last has a body; otherwise exactly the last is kept |
| `RingDispatch.DispatchAllAppend` | main/Core/CRingBufferDecoder.cpp:769-926 | dispatching one run of items after another is dispatching both |
| `RingDispatch.HelperOfVersion` | main/Core/CRingBufferDecoder.cpp:140-150 | the versions known and their helpers: by major version, except that 11.4 is read like 12.0 |
| `RingDispatch.TriggerCountOfHistory` | main/Core/CRingBufferDecoder.cpp:848-911 | the trigger count is the last reset's value plus the physics items since, modulo 2^32 |
| `RingDispatch.HelperOfHistory` | main/Core/CRingBufferDecoder.cpp:1007-1027 | the helper in use is that of the version read from the last format item since the last invalidation, else the default, else the fallback |
| `RingDispatch.VersionAsWritten` | main/Core/RingFormatHelperFactory.cpp:107-115 | the version read is the one the source wrote if and only if source and host have the same byte order or both its halves read the same either way |
| `RingDispatch.SwappedVersionUnknown` | main/Core/RingFormatHelperFactory.cpp:107-115 | for a source of the other byte order no version that the decoder registers is recognised |
| `RingDispatch.HelperOfSource` | main/Core/RingFormatHelperFactory.cpp:107-115 | the helper of the version the last format item was written with is in use if and only if its source has the host's byte order or that helper is the default (else the fallback) |
| `RingDispatch.PhysicsInOrder` | main/Core/CRingBufferDecoder.cpp:893-901 | the analyzer gets one physics call per physics item, in stream order, and sees that item during the call |
| `RingDispatch.DispatchAllIsPlay` | main/Core/CRingBufferDecoder.cpp:769-926 | what the decoder does with a parsed stream is the history of its items played from the start |
| `RingTraces.CallsOfHistory` | main/Core/CRingBufferDecoder.cpp:768-926 | the trace is made of the calls for each item in turn: by its type the run hooks with its number and title and the analyzer's entry point with the buffer type; meanwhile the getters answer what they will after the item, with the item shown, but during a run hook still the old title, run number and entity count |
| `RingTraces.OneEntityPerPhysicsCall` | main/Core/CRingBufferDecoder.cpp:893-901 | in every physics call of every trace there is one entity to unpack |
| `RingTraces.RunOfHistory` | main/Core/CRingBufferDecoder.cpp:848-873 | run number and title are those in the last state-change item |
| `RingTraces.EntityCountOfHistory` | main/Core/CRingBufferDecoder.cpp:865-895 | the entity count is that of the last item that has one: none for a state change, one for a physics event, else the item's string or scaler count |
| `RingTraces.BodyOfHistory` | main/Core/CRingBufferDecoder.cpp:797-810 | buffer type, body offset and body size are those of the last item: offset and size make up the item, and the type is the one of the table of buffer types |
| `RingBufferDecoders.RingBufferDecoder.constructor` | main/Core/CRingBufferDecoder.cpp:109-156 | a new decoder carries nothing; run number, entity count and trigger count are zero |
| `RingBufferDecoders.RingBufferDecoder.OnBuffer` | main/Core/CRingBufferDecoder.cpp:184-234 | one buffer leads from carried bytes, statistics and calls to those of parsing carried bytes plus buffer, and back to a resting state |
| `RingBufferDecoders.RingBufferDecoder.CreateTranslator` | main/Core/CRingBufferDecoder.cpp:592-609 | the translator is the one the type's byte order calls for |
| `RingBufferDecoders.RingBufferDecoder.ProcessBuffer` | main/Core/CRingBufferDecoder.cpp:619-749 | the dispatches and the carried bytes are those of one parse of what was carried and the buffer |
| `RingBufferDecoders.RingBufferDecoder.AppendToPartial` | main/Core/CRingBufferDecoder.cpp:627-635 | the partial event grows by what it needs or all there is, and no more |
| `RingBufferDecoders.RingBufferDecoder.ContinuePartial` | main/Core/CRingBufferDecoder.cpp:625-640 | a completed partial event is dispatched whole and the rest of the parse is still to come |
| `RingBufferDecoders.RingBufferDecoder.GlueBuffer` | main/Core/CRingBufferDecoder.cpp:651-660 | what is left to process is the glued bytes followed by the buffer |
| `RingBufferDecoders.RingBufferDecoder.ConsumeBuffer` | main/Core/CRingBufferDecoder.cpp:666-747 | the loop ends, having dispatched exactly the parse, in a resting state |
| `RingBufferDecoders.RingBufferDecoder.CreatePartialEvent` | main/Core/CRingBufferDecoder.cpp:976-995 | a new buffer of the item's size holds what is left of the data |
| `RingBufferDecoders.RingBufferDecoder.KeepGlue` | main/Core/CRingBufferDecoder.cpp:728-745 | the last one to eight bytes are kept as they were |
| `RingBufferDecoders.RingBufferDecoder.DispatchPartialEvent` | main/Core/CRingBufferDecoder.cpp:755-762 | the completed item is dispatched and the partial event is gone |
| `RingBufferDecoders.RingBufferDecoder.DispatchEvent` | main/Core/CRingBufferDecoder.cpp:769-926 | statistics and calls advance as the item's type demands, with the item shown only during the calls |
| `RingBufferDecoders.RingBufferDecoder.GetFormatHelper` | main/Core/CRingBufferDecoder.cpp:1007-1018 | current helper, else default, else fallback |
| `RingBufferDecoders.RingBufferDecoder.OnSourceChange` | main/Core/CRingBufferDecoder.cpp:544-576 | attaching, detaching or ending a source forgets the helper, and nothing else |
| `RingBufferDecoders.DeliverStream` | main/Core/CRingBufferDecoder.cpp:184-234 | over a source's buffers the analyzer sees the calls for one parse of the carried bytes and the whole stream, whatever the cutting |
| `RingBufferDecoders.DeliverTwoSources` | main/Core/CRingBufferDecoder.cpp:544-576 | a second source is parsed behind what the first left, so as its own stream if that was nothing, with the helper forgotten in between |
| `ThreadedServer.InitInv` | main/Core/AbstractThreadedServer.cpp:164-194 | the invariant of sets, threads and lock holds at the start |
| `ThreadedServer.ListenerStepKeepsInv` | main/Core/AbstractThreadedServer.cpp:208-347 | every listener step keeps it |
| `ThreadedServer.ClientStepKeepsInv` | main/Core/AbstractThreadedServer.cpp:68-132 | every client step keeps it |
| `ThreadedServer.RunKeepsInv` | main/Core/AbstractThreadedServer.cpp:208-347 | it holds after every interleaving |
| `ThreadedServer.NoUseAfterDelete` | main/Core/AbstractThreadedServer.cpp:295-347 | no step of any interleaving touches a deleted client; a client is deleted only once its thread has exited; joins and deletes happen without the lock |
| `ThreadedServer.DeletionBalance` | main/Core/AbstractThreadedServer.cpp:295-347 | creations and deletions at an address differ by whether an object lives there |
| `ThreadedServer.DeletedAtMostOnce` | main/Core/AbstractThreadedServer.cpp:295-347 | even where addresses are reused, an object is deleted at most once |
| `ThreadedServer.ReturnsClean` | main/Core/AbstractThreadedServer.cpp:208-236 | when the entry point returns 0, both sets are empty and every client ever created has been deleted |
| `ThreadedServer.AfterPollError` | main/Core/AbstractThreadedServer.cpp:215-236 | after a failed poll no client is deleted any more |
| `ThreadedServer.PollErrorLeaksClient` | main/Core/AbstractThreadedServer.cpp:215-236 | a run in which an accepted client stays recorded and undeleted for good |
| `ThreadedServerReaping.PassReaps` | main/Core/AbstractThreadedServer.cpp:208-347 | between a start of a pass at the top of the loop and the next return there, every client that was in the exiting set is deleted exactly once, whatever else goes on |
| `ThreadedServerReaping.OutlivesOnlyClosing` | main/Core/AbstractThreadedServer.cpp:208-347 | a client in the exiting set outlives that pass only if an exit was requested or a poll failed |
| `ThreadedServerShutdown.JoinCannotDeadlock` | main/Core/AbstractThreadedServer.cpp:298-346 | while the listener waits in a join it holds no lock, and the awaited client or the one in the critical section can take its next step |
| `ThreadedServerShutdown.NeverStuck` | main/Core/AbstractThreadedServer.cpp:208-347 | until the listener returns, something can happen without outside help |
| `ThreadedServerShutdown.EveryStepLowers` | main/Core/AbstractThreadedServer.cpp:208-347 | once the exit is requested every step lowers a well-founded measure |
| `ThreadedServerShutdown.ScheduleEnds` | main/Core/AbstractThreadedServer.cpp:208-347 | so no schedule goes on for ever |
| `ThreadedServerShutdown.ShutdownCompletes` | main/Core/AbstractThreadedServer.cpp:208-236 | from any reachable state with the exit requested, every schedule that moves while it can makes the entry point return: -1 if and only if a poll fails on the way, else 0 with all clients deleted |
| `EventBatches.CollectBatched` | main/Core/Analyzer.cpp:171-234 | at every point the batches sent and the list held are the accepted events, in batches of the threshold |
| `EventBatches.SentIsKept` | main/Core/Analyzer.cpp:172-234 | the batches of a body, joined, are the accepted events in order; every batch but the last has exactly the threshold's number |
| `EventBatches.KeptExact` | main/Core/Analyzer.cpp:190-216 | the accepted events are those that were not rejected, in the order of their calls |
| `EventBatches.SentOnFailure` | main/Core/Analyzer.cpp:195-206 | a failing body has sent full batches only: the accepted events before the failure, but for fewer than a batch; without a body nothing is sent |
| `EventBatches.ThresholdZero` | main/Core/Analyzer.cpp:224-234 | threshold zero gives one batch a pass, empty when the event was rejected |
| `EventBatches.CallsOfBody` | main/Core/Analyzer.cpp:172-221 | each event starts where the sizes of the earlier ones add up to, before the end of the body; the loop ends after the announced number of whole entities, at the end of the body, or at an event of size zero |
| `EventBatches.ZeroSizeFails` | main/Core/Analyzer.cpp:202-206 | one entity whose unpacker reports size zero ends the body in a failure |
| `Analyzers.Analyzer.constructor` | main/Core/Analyzer.cpp:69-80 | a new analyzer owns no event |
| `Analyzers.Analyzer.CreateEvent` | main/Core/Analyzer.h:194-208 | a cleared event that is in no other place, from the pool if it has one, and never more events than one batch holds |
| `Analyzers.Analyzer.ReturnEvent` | main/Core/Analyzer.cpp:480-485 | the pool holds one event more |
| `Analyzers.Analyzer.Put` | main/Core/EventList.cpp:387-400 | the event is in its slot, those before it stay, those behind it are empty |
| `Analyzers.Analyzer.ClearEventList` | main/Core/Analyzer.h:210-222 | every listed event moves to the pool: none is lost or doubled |
| `Analyzers.Analyzer.HistogramEvents` | main/Core/Histogrammer.cpp:235-258 | the sinks are handed exactly the listed events |
| `Analyzers.Analyzer.UnpackEvent` | main/Core/Analyzer.cpp:190-216 | an accepted event joins the list, a rejected one returns to the pool, and events are conserved |
| `Analyzers.Analyzer.FlushIfFull` | main/Core/Analyzer.cpp:224-234 | a full list is handed over and emptied, another is left alone |
| `Analyzers.Analyzer.OnPhysics` | main/Core/Analyzer.cpp:142-294 | the sinks get the body's batches, and all events are back in the pool unless an event of size zero ended the loop, when a deleted one is still reachable; the loop always ends |
| `Analyzers.Analyzer.ValidIsNotDangling` | main/Core/Analyzer.cpp:195-206 | an analyzer that conserves its events lists and pools no deleted one, so nothing but that path loses conservation |
| `GammaFolds.GammaSpectrum.CreateParameterList` | main/Core/CGammaSpectrum.cpp:262-278 | the spectrum's parameters that the event has, in order, with their values |
| `GammaFolds.RowsExact` | main/Core/CFold.cpp:200-238 | the nested loops visit each index pair once, in lexicographic order |
| `GammaFolds.FoldPairsExact` | main/Core/CFold.cpp:200-238 | a band or contour fold increments once per unordered pair inside in either orientation, in order, at most n(n-1)/2 times |
| `GammaFolds.CutTwoComposes` | main/Core/CFold.cpp:350-387 | cutting two ids at once is cutting one after the other |
| `GammaFolds.CutTwoRemovesPair` | main/Core/CFold.cpp:373-387 | with distinct ids the cut removes exactly the pair's two places |
| `GammaFolds.GateSeesPair` | main/Core/CGammaBand.cpp:155-180 | the gate over parameter ids is a question about pairs of the event's parameter list |
| `GammaFolds.FoldAgreesWithGate` | main/Core/CFold.cpp:200-238 | over the same parameters, one of them valid, the fold increments if and only if the gate holds |
| `GammaIncrements.AreaIncrementsExact` | main/Core/CFold.cpp:200-238 | with distinct ids a band or contour fold adds, for each pair of places inside in either orientation, in lexicographic order, the list without those two places |
| `GammaIncrements.SliceIncrementsExact` | main/Core/CFold.cpp:183-194 | with distinct ids a slice adds, for each place whose value is inside, in order, the list without that place, and nothing for a list of one |
| `GammaIncrements.ParameterListExact` | main/Core/CGammaSpectrum.cpp:262-278 | the list of an event holds exactly the spectrum's parameters that are valid in it, in their order, each with its own value |
| `GammaIncrements.ListHasDistinctIds` | main/Core/CGammaSpectrum.cpp:262-278 | parameters that differ make for a list whose ids differ |
| `GammaFolds.GridPairsExact` | main/Core/CFold.cpp:291-334 | the two-list fold takes exactly the x-y pairs inside, in order |
| `GammaIncrements.GridIncrementsExact` | main/Core/CFold.cpp:291-334 | with distinct ids it adds, for each of them in order, the x list without the one place and the y list without the other |
| `GammaFolds.CutDownParameters` | main/Core/CFold.cpp:350-360 | the list without an id |
| `GammaFolds.CutDownParametersTwo` | main/Core/CFold.cpp:373-387 | the list without two ids |
| `GammaFolds.GammaSpectrum.Fold` | main/Core/CGammaSpectrum.cpp:220-229 | the fold's gate is replaced |
| `GammaFolds.GammaSpectrum.Increment` | main/Core/CGammaSpectrum.cpp:170-188 | an event adds the fold's increments, for a band or contour something if and only if the gate holds for the event; without a fold one increment of the whole list |
| `GammaFolds.GammaSpectrum.IncrementDeluxe` | main/Core/CFold.cpp:291-337 | a deluxe spectrum adds one increment per pair of an x and a y parameter inside |
| `GammaFolds.GammaSpectrum.FoldSlice` | main/Core/CFold.cpp:183-194 | one increment per parameter in the cut, of the list without it if anything is left |
| `GammaFolds.GammaSpectrum.FoldArea` | main/Core/CFold.cpp:200-238 | the increments are the cut lists of the chosen pairs |
| `GammaFolds.EvaluateGate` | main/Core/CGammaContour.cpp:170-193 | true if and only if some pair of valid parameters is inside in either orientation |
| `Projections.SelectedByParameter` | main/Core/CProjectionCommand.cpp:726-799 | a channel is selected exactly when the contour holds the values of its own x and y parameters |
| `Projections.SelectedOtherwise` | main/Core/CProjectionCommand.cpp:726-756 | without a contour every channel is selected; a gamma contour is tested in the source's own axes |
| `Projections.TransposedSelectsSame` | main/Core/CProjectionCommand.cpp:781-799 | a contour with its axes swapped selects the same channels |
| `Projections.TransposedProjectsSame` | main/Core/CProjectionCommand.cpp:606-694 | and so gives the same projections, onto x and onto y |
| `Projections.TotalByRows` | main/Core/CProjectionCommand.cpp:606-694 | the double sum may be taken by columns or by rows |
| `Projections.SumsAdd` | main/Core/CProjectionCommand.cpp:606-694 | column and row sums are additive in the counts |
| `Projections.OneChannelProjects` | main/Core/CProjectionCommand.cpp:606-694 | the counts of a single channel, if it is selected, come out in its column and its row and nowhere else |
| `Projections.ProjectionConserves` | main/Core/CProjectionCommand.cpp:606-694 | both projections' totals are the sum of the source inside the region, modulo the limit of an unsigned long, whatever its width |
| `Projections.ProjectX` | main/Core/CProjectionCommand.cpp:606-650 | each target channel holds the sum of its column inside the region |
| `Projections.ProjectY` | main/Core/CProjectionCommand.cpp:660-694 | each target channel holds the sum of its row inside the region |
| `Xdr.DecodeEncoded` | filter2ascii/CXdrInputStream.cpp:130-143 | what was encoded decodes to itself, whatever follows |
| `Xdr.XdrLayout` | main/Core/CXdrOutputStream.cpp:259-310 | as in RFC 4506, sections 4.1, 4.7 and 4.11: highest byte first, the high half of a double first, a string behind its length and before zeros up to a multiple of four bytes |
| `Xdr.ReadsFaithful` | filter2ascii/CXdrInputStream.cpp:189-220 | successive gets meet the items of all blocks in order if and only if no block is empty |
| `Xdr.ReadsTrailing` | filter2ascii/CXdrInputStream.cpp:189-220 | an empty block at the end adds one phantom item to what gets meet |
| `XdrOutputStreams.XdrOutputStream.constructor` | main/Core/CXdrOutputStream.cpp:108-134 | an open stream with room kept for the count and nothing put |
| `XdrOutputStreams.XdrOutputStream.Flush` | main/Core/CXdrOutputStream.cpp:199-221 | the buffer becomes a block of the file that holds exactly the pending items |
| `XdrOutputStreams.XdrOutputStream.Require` | main/Core/CXdrOutputStream.cpp:229-249 | nothing happens if twice the bytes fit, else a flush |
| `XdrOutputStreams.XdrOutputStream.Put` | main/Core/CXdrOutputStream.cpp:179-193 | the stream grows by the item if it fits, with a flush behind it if the buffer is full |
| `XdrOutputStreams.XdrOutputStream.PutString` | main/Core/CXdrOutputStream.cpp:303-309 | a string is put after room is made for it; an empty block is written exactly when the flush found nothing pending; a buffer it starts it stays in front of |
| `XdrOutputStreams.XdrOutputStream.Close` | main/Core/CXdrOutputStream.cpp:148-165 | the file holds everything put, in order; a close with nothing pending writes a block that spells, behind its header, the string the block before started with |
| `XdrInputStreams.XdrInputStream.Connect` | filter2ascii/CXdrInputStream.cpp:93-114 | the gets to come are those of the file |
| `XdrInputStreams.XdrInputStream.DoRead` | filter2ascii/CXdrInputStream.cpp:189-206 | the next block's items come next, or the stream is closed |
| `XdrInputStreams.XdrInputStream.Get` | filter2ascii/CXdrInputStream.cpp:130-143 | the next item, across block boundaries; the stream is closed exactly after the last |
| `XdrInputStreams.XdrInputStream.ConditionalRead` | filter2ascii/CXdrInputStream.cpp:213-220 | at the end of a block's items the next block is read |
| `FilterRecords.BitOfMask` | filter2ascii/filter2ascii.cpp:99-113 | bit j of a presence mask is set exactly when parameter j is present |
| `FilterRecords.SetBitOfMask` | main/Core/CXdrFilterOutputStage.cpp:309-315 | setting a bit adds that parameter to the mask |
| `FilterRecords.BitOfMaskWord` | main/Core/CXdrFilterOutputStage.cpp:309-315 | parameter 32i + j has bit j of mask word i |
| `FilterRecords.TagsSpell` | main/Core/CXdrFilterOutputStage.cpp:122-285 | the tags of the records spell header and event |
| `FilterRecords.OneDoublePerBit` | main/Core/CXdrFilterOutputStage.cpp:266-272 | an event record has as many doubles as bits set |
| `FilterHeaders.DescribingEnds` | main/Core/CXdrFilterOutputStage.cpp:142-181 | the loop over header records gets through all names if and only if each name fits a record of its own |
| `FilterHeaders.LongNameNeverDescribed` | main/Core/CXdrFilterOutputStage.cpp:142-181 | with the usual buffer a name of 4084 bytes is left over after any number of rounds |
| `FilterHeaders.GroupsKeepNames` | main/Core/CXdrFilterOutputStage.cpp:142-181 | the header records hold all the names, in order, none of them empty |
| `FilterHeaders.NameRoom` | main/Core/CXdrOutputStream.cpp:303-309 | a name that fits a record can be put wherever the buffer stands |
| `FilterHeaders.ManyNamesLeaveNothing` | main/Core/CXdrFilterOutputStage.cpp:168-176 | 1021 names that fill the usual buffer exactly, so that the flush behind them writes an empty block |
| `FilterOutputStages.EventBytesExact` | main/Core/CXdrFilterOutputStage.cpp:238-244 | the size the stage computes is the size its record takes up |
| `FilterOutputStages.XdrFilterOutputStage.BuildMask` | main/Core/CXdrFilterOutputStage.cpp:213-230 | the masks are those of the event's presence set, and the count is that of its valid parameters |
| `FilterOutputStages.XdrFilterOutputStage.FitNames` | main/Core/CXdrFilterOutputStage.cpp:144-166 | as many names as fit the next record, none if the next one fits no record |
| `FilterOutputStages.XdrFilterOutputStage.PutHeader` | main/Core/CXdrFilterOutputStage.cpp:168-176 | one header record of those names, flushed; it leaves an empty block exactly when the names end at the buffer's end, else a block that starts with the tag or with the first name behind an earlier flush |
| `FilterOutputStages.XdrFilterOutputStage.DescribeEvent` | main/Core/CXdrFilterOutputStage.cpp:122-194 | the file grows by the header records of all names |
| `FilterOutputStages.XdrFilterOutputStage.PutValues` | main/Core/CXdrFilterOutputStage.cpp:266-272 | the valid values in parameter order, failing exactly when the last does not fit |
| `FilterOutputStages.XdrFilterOutputStage.WriteEvent` | main/Core/CXdrFilterOutputStage.cpp:204-285 | an event is skipped, dropped, fatal or written whole; an empty block is written exactly when the record asks for a flush of an empty buffer |
| `FilterToAscii.Translation.ReadMasks` | filter2ascii/filter2ascii.cpp:84-93 | the mask words of an event |
| `FilterToAscii.Translation.TranslateEvent` | filter2ascii/filter2ascii.cpp:82-113 | one column per parameter with its value or a gap, reading exactly the record's items |
| `FilterToAscii.Translation.TranslateHeader` | filter2ascii/filter2ascii.cpp:127-135 | the names of the record, added to the columns |
| `FilterToAscii.Translation.TranslateRecord` | filter2ascii/filter2ascii.cpp:120-153 | the output and the rest of the file's table make up the table of the file, also where the record is only the stale string of an empty last block |
| `FilterToAscii.TranslateFilter` | filter2ascii/filter2ascii.cpp:158-180 | a file in which no block but perhaps the last is empty translates to its table |
| `FilterFiles.WriteFile` | main/Core/CXdrFilterOutputStage.cpp:122-285 | the file holds the header records and the kept events; which blocks are empty, and what an empty last one spells, is decided by the sizes of names and events |
| `FilterFiles.WriteAndRead` | filter2ascii/CXdrInputStream.cpp:93-143 | a reader meets exactly the items written if and only if the sizes leave no empty block |
| `FilterFiles.WriteAndTranslate` | filter2ascii/filter2ascii.cpp:158-180 | what comes out of a file without empty blocks before the last is the line of names and one line per kept event, for each kept event and each described parameter the event's own value or a gap, under the parameter's name; kept are the events with something to write that fit a buffer, in their order, and one that fits only without the buffer's header is fatal; without kept events a stale name may end the line of names |
| `FilterFiles.FateOfEvent` | main/Core/CXdrFilterOutputStage.cpp:204-263 | an event is kept or fatal by the number of described parameters that it has and the size of their record |
| `FilterFiles.LargeEventLeavesEmptyBlock` | main/Core/CXdrFilterOutputStage.cpp:261-263 | with the usual buffer an event of 503 valid parameters makes an empty block when it comes first |
| `FilterFiles.EventEndsProgram` | main/Core/CXdrFilterOutputStage.cpp:238-263 | with the usual buffer an event in which the first 1006 of 1025 parameters are valid is fatal |
| `FilterFiles.NoEventsEndFlushed` | main/Core/CXdrOutputStream.cpp:148-156 | a file closed without an event ends with an empty block |
| `FilterFiles.HeadersTable` | filter2ascii/filter2ascii.cpp:127-135 | several header records amount to one with all the names |
| `Pipelines.OperationOwes` | main/Core/CPipelineManager.cpp:125-311 | an operation keeps places in the current pipeline less attachments, except that a removal elsewhere adds one |
| `Pipelines.RunOwes` | main/Core/CPipelineManager.cpp:546-609 | over every run the attachments a processor lacks are the removals of it from other pipelines |
| `Pipelines.AttachedIffRemovalsCurrent` | main/Core/CPipelineManager.cpp:565-572 | after a run every processor is attached once per place in the current pipeline if and only if nothing was removed from another |
| `Pipelines.RemovalElsewhereDetaches` | main/Core/CPipelineManager.cpp:565-572 | a run of four operations after which a processor has been detached that was never attached |
| `Pipelines.RefusedUnlessAllowed` | main/Core/CPipelineManager.cpp:55-311 | an operation is refused exactly when a name is in use that must be free, unknown that must be known, or in no element; then it changes nothing |
| `Pipelines.PipelinesAfter` | main/Core/CPipelineManager.cpp:105-311 | an operation changes the pipeline it names in one place, an append at the end, a removal by processor at the first; all others stay; a new one is empty, a clone equals its model |
| `Pipelines.ProcessorsAfter` | main/Core/CPipelineManager.cpp:55-96 | processors are registered and forgotten one name at a time |
| `Pipelines.SwitchInOrder` | main/Core/CPipelineManager.cpp:273-286 | the old pipeline is detached in its order, then the new one attached in its own |
| `PipelineManagers.PipelineManager.constructor` | main/Core/CPipelineManager.cpp:504-511 | one empty pipeline named default, which is current |
| `PipelineManagers.PipelineManager.RegisterEventProcessor` | main/Core/CPipelineManager.cpp:55-70 | refused for a name in use |
| `PipelineManagers.PipelineManager.UnregisterEventProcessor` | main/Core/CPipelineManager.cpp:82-96 | the processor of the name, or an error; pipelines keep it |
| `PipelineManagers.PipelineManager.CreatePipeline` | main/Core/CPipelineManager.cpp:105-113 | a new empty pipeline of its own, or an error |
| `PipelineManagers.PipelineManager.AppendEventProcessor` | main/Core/CPipelineManager.cpp:125-151 | the processor at the end, attached if the pipeline is current |
| `PipelineManagers.PipelineManager.InsertEventProcessor` | main/Core/CPipelineManager.cpp:167-194 | the processor at a position, attached if the pipeline is current |
| `PipelineManagers.PipelineManager.RemoveEventProcessor` | main/Core/CPipelineManager.cpp:206-240 | the first element with that processor is removed, or an error |
| `PipelineManagers.PipelineManager.RemoveElement` | main/Core/CPipelineManager.cpp:252-266 | the element is removed after its processor is told to detach |
| `PipelineManagers.PipelineManager.DetachIfCurrent` | main/Core/CPipelineManager.cpp:565-572 | the processor is told whatever the pipeline |
| `PipelineManagers.PipelineManager.SetCurrentPipeline` | main/Core/CPipelineManager.cpp:273-286 | everything in the old pipeline is detached, everything in the new one attached, and name and pointer agree |
| `PipelineManagers.PipelineManager.ClonePipeline` | main/Core/CPipelineManager.cpp:296-311 | an equal pipeline that shares nothing with the first |
| `FitObservation.PlacedSorted` | main/Core/CFitDictionary.cpp:87-94 | the dictionary stays in the order of its names |
| `FitObservation.BeforeIsLexicographic` | main/Core/CFitDictionary.h:35 | that order is the one of strings: by the first character that differs, a beginning before what it begins |
| `FitContents.ApplyHeld` | main/Core/CFitDictionary.cpp:69-303 | each operation does to the dictionary what it does to a map: an added or replaced name holds the new contents, a deleted or erased one is gone, a range takes its names along, an update changes exactly the matching names; refused are only names in use and names to delete that are unknown |
| `FitContents.NotifiedInOrder` | main/Core/CFitDictionary.cpp:238-273 | every registered observer hears of a notice, in the order of registrations |
| `FitObservation.NotifySeen` | main/Core/CFitDictionary.cpp:238-273 | an observer's display moves by one notice for each time the observer is registered |
| `FitMirror.RangeErasedFirst` | main/Core/CFitDictionary.cpp:178-191 | telling everyone of a range before removing it amounts to single erases in order |
| `FitMirror.MirrorOverRun` | main/Core/CFitDictionary.cpp:69-303 | over every run an observer registered once shows, for exactly the names in the dictionary, what was last announced, and is never told to add what it shows or delete what it does not |
| `FitMirror.ApplyKeepsCurrent` | main/Core/CFitDictionary.cpp:69-303 | an operation leaves every fit as last announced if and only if none of its updates fails after a change |
| `FitMirror.DisplayIsHeldIffCurrent` | main/Core/CFitDictionary.cpp:69-303 | after any run the display is exactly the dictionary's fits, names and contents, if and only if every fit is as last announced |
| `FitMirror.DisplayHoldsDictionary` | main/Core/CHistogrammerFitObserver.cpp:63-93 | so it is exactly the dictionary's fits over every run in which no update fails after a change |
| `FitMirror.FailedUpdateIsMissed` | main/Core/CFitDictionary.cpp:292-299 | an update that changes a fit and then fails goes unannounced |
| `FitMirror.RightIffRegisteredOnce` | main/Core/CFitDictionary.cpp:209-246 | after one new fit the display is right if and only if the observer is registered exactly once |
| `FitMirror.MirrorLostIffChanged` | main/Core/CFitDictionary.cpp:238-273 | over any run an observer registered more than once shows the dictionary if no fit was added or deleted, and has otherwise been told to add a fit it shows or delete one it does not |
| `FitMirror.CurrentIffThrowsKeep` | main/Core/CFitDictionary.cpp:284-303 | what observers were told stays current over an update of all fits if and only if no exception came after a change |
| `FitDictionaries.HistogrammerFitObserver.Update` | main/Core/CHistogrammerFitObserver.cpp:88-93 | a delete, then an add |
| `FitDictionaries.FitDictionary.FindFit` | main/Core/CFitDictionary.cpp:155-159 | the position of the name, or the end |
| `FitDictionaries.FitDictionary.Add` | main/Core/CFitDictionary.cpp:69-79 | refused exactly for a name in use; else the name holds the new contents, and that is announced |
| `FitDictionaries.FitDictionary.AddOrReplace` | main/Core/CFitDictionary.cpp:87-94 | an old fit of the name is deleted with notice, then the new one added with notice: the name holds the new contents, the others what they held |
| `FitDictionaries.FitDictionary.Delete` | main/Core/CFitDictionary.cpp:105-116 | the fit of the name is gone with notice, the others stay; an error exactly for an unknown name |
| `FitDictionaries.FitDictionary.Erase` | main/Core/CFitDictionary.cpp:167-171 | observers hear of the fit, then it goes |
| `FitDictionaries.FitDictionary.EraseRange` | main/Core/CFitDictionary.cpp:178-191 | observers hear of every fit in the range, then the range goes |
| `FitDictionaries.FitDictionary.UpdateFits` | main/Core/CFitDictionary.cpp:284-303 | matching fits are updated in order, and observers hear of those that did not fail |
| `FitDictionaries.FitDictionary.AddObserver` | main/Core/CFitDictionary.cpp:209-212 | the observer hears everything from now on, after the others |
| `FitDictionaries.FitDictionary.RemoveObserver` | main/Core/CFitDictionary.cpp:223-233 | its first registration goes, if it has one |
| `FitDictionaries.FitDictionary.ObserveAdd` | main/Core/CFitDictionary.cpp:238-246 | every registration makes its observer do the call once, in order |
| `GammaSummary.SplitOfJoin` | main/Core/CHDF5SpectrumFormatter.cpp:561-580 | splitting at the separator recovers the lists that were joined if and only if none holds it |
| `GammaSummary.NamesInOrder` | main/Core/CHDF5SpectrumFormatter.cpp:487-510 | every place gets the name of its id if and only if ids that come again later are unknown |
| `GammaSummary.NameOfExact` | main/Core/CHDF5SpectrumFormatter.cpp:493-506 | an id has the name of its last parameter in the dictionary, or the deleted marker if there is none |
| `GammaSummary.RepeatedIdLosesName` | main/Core/CHDF5SpectrumFormatter.cpp:493-506 | an id given twice is named only the second time |
| `GammaSummary.GammaSummarySpectrum.FillParameterArray` | main/Core/CGammaSummarySpectrum.hpp:458-470 | the ids of each strip's parameters are appended |
| `GammaSummary.GammaSummarySpectrum.GetDefinition` | main/Core/CGammaSummarySpectrum.hpp:279-299 | all strips in one list, a sentinel behind each, whatever an earlier call left there |
| `GammaSummary.ParameterIdsToNames` | main/Core/CHDF5SpectrumFormatter.cpp:487-510 | the name of each id at its last place, the deleted marker elsewhere |
| `GammaSummary.WriteGammaSummaryParameters` | main/Core/CHDF5SpectrumFormatter.cpp:550-588 | each strip's names, with an empty string behind them |
| `GammaSummary.GetGammaSummaryParameters` | main/hdf5reader/hdf5SpectrumReader.cpp:260-286 | the strips between the empty strings |
| `GammaSummary.SaveAndRestore` | main/hdf5reader/hdf5SpectrumReader.cpp:260-286 | a spectrum's lists come back as names in order if and only if no id is the sentinel and no name is empty |
| `BitSpectra.BitSpectrum.Increment` | main/Core/BitSpectrum.hpp:81-98 | one count per set bit, the lowest first, in at most 32 passes; nothing for a parameter the event lacks |
| `BitSpectra.FilledChannels` | main/Core/BitSpectrum.hpp:81-98 | the channels ascend, stay below 32, and their powers of two add up to the parameter |
| `BitSpectra.SetBitsUnique` | main/Core/BitSpectrum.hpp:81-98 | and no other ascending channels do |

## Left out

- RingBufferDecoders.RingBufferDecoder.OnBuffer: a buffer that starts at an item boundary must hold eight bytes, as `createTranslator` reads the type there; the MPI branches and the translator check inside `dispatchEvent` (main/Core/CRingBufferDecoder.cpp:773-775) are not modelled.
- RingBufferDecoders.DeliverStream: takes a stream whose items all call for the same translator, as the decoder chooses one only at item boundaries between buffers.
- RingBufferDecoders.DeliverTwoSources: the same for a second source that is read behind left-over bytes.
- RingStream.ChunkingIndependence: takes one byte order for the whole stream; the layouts that format helpers read are parameters.
- ThreadedServer.RunKeepsInv: CTCLThread is not part of this model; a client's exit handler runs in its thread before a join returns, and a client that was asked to exit leaves its loop.
- Analyzers.Analyzer.OnPhysics: exceptions from user code and the 32-bit wrap of the offset are not modelled; a number per call bounds how often partial entities of size zero may follow one another.
- GammaFolds.GammaSpectrum.Increment: a band or contour fold over an empty list is excluded, as the loop bound `size()-1` wraps (main/Core/CFold.cpp:202, 223).
- GammaFolds.GammaSpectrum.FoldArea: excludes the empty list for the same reason.
- GammaFolds.EvaluateGate: excludes a gate without parameters for the same reason.
- GammaFolds.GammaSpectrum.IncrementDeluxe: the slice branch of the two-list fold indexes one list with positions of the other (main/Core/CFold.cpp:261-285) and is not modelled.
- Projections.ProjectX: the target's storage type and its rounding; projections of summed (m2) spectra and the or-gates for them, and source spectra whose contour names one parameter twice.
- FilterOutputStages.XdrFilterOutputStage.FitNames: takes a stream at the start of a block, where describing calls it, and a buffer with room for the tag.
- FilterOutputStages.XdrFilterOutputStage.DescribeEvent: takes names that each fit a record, as it never ends otherwise, the stream right after it was opened and a buffer size that is a multiple of four, as the program's 8192 is; names hold no zero byte, being C strings.
- FilterToAscii.TranslateFilter: what is printed behind an empty block in the middle of a file, where the reader takes old bytes for a record and goes on with the next block; the format of numbers.
- FilterFiles.WriteAndTranslate: takes at least one parameter, as a file of none, closed without events, consists of memory that was never written.
- FitMirror.DisplayHoldsDictionary: changes to a fit outside the dictionary's operations.
- FitDictionaries.FitDictionary.UpdateFits: the result of each fit's update and the name pattern are parameters.
- GammaSummary.GetGammaSummaryParameters: takes a list of names that ends in an empty string, as the reading loop runs off the end of any other.
- BitSpectra.BitSpectrum.Increment: the conversion of the event's value to a 32-bit word.
- Band and contour geometry: which points an area holds is a parameter everywhere.
- Tcl commands, MPI, sockets, HDF5 and ROOT calls, factories and copy members: glue around the modelled code.
- Fits and chi-square, axes and the event builder: floating point or one-line algebra.
