# Verified models of the engine's hard cores

This project models, in Dafny 4.11, the parts of the inference engine whose correctness does not
show in a single function, and proves what they promise over every input, run or reachable state.
`dafny verify dfyconfig.toml` checks it.

| core | modules | main results |
|---|---|---|
| Routing reuse profiler | `Fenwick`, `StackDistance`, `ReuseModel`, `Belady`, `CountedOptimality`, `RoutingReuse` | the stack property of LRU, Belady optimality, the Fenwick index against the stream, the exact condition under which the reported curves are those of real caches |
| JSON and UTF-8 | `Json`, `JsonParser`, `JsonEscapes`, `JsonSpan`, `JsonScanner`, `JsonLocality`, `JsonAgreement`, `JsonExactness`, `JsonRoundTrip`, `JsonWriter`, `Utf8Chunker` | parser and span scanner agree, both against the RFC tables of digits, escapes and numbers, the writer is undone by the parser with every integer its own value, streaming decoding does not depend on the splitting |
| Conversation service | `ServiceProtocol`, `ConversationService`, `JobStream`, `StreamConsumer` | exactly one terminal event per accepted job under every interleaving, which jobs reach the engine, which submits are stranded and which consumers miss the end, order, termination |
| Prefill sweep | `PrefillSweep`, `SweepWindow`, `SweepBanks` | the queue, wave, ledger, lease and bank invariants over every window, exact batches, each lacking expert streamed once |
| Batched equals per-token | `LocalRing`, `Compressor`, `KeySelection`, `Softmax`, `TwoPassSoftmax`, `ExpertPermutation`, `GroupedMoe` | chunk equals serial, masked selection is exact, online equals two-pass softmax, grouped equals per-token mixture of experts |
| Memory budget and greedy choice | `AttentionMemory`, `HostRegion`, `Argmax`, `Sampler` | the context search agrees with the gate, host region and tier conservation, device and host argmax agree |

`Modular` holds the few facts about remainders that the rings share, `Wrappers` the optional value.

Conventions. Code that updates fields or buffers in place is a class or a method over arrays, proved
against functions on sequences; the theorems are about those functions. A `char` of a JSON text
stands for one byte. Integers are unbounded unless a width is written out (`HostRegion.ColdSlots`).
Hit rates are hit counts. Softmax and nucleus mass are over the reals with the exponential as a
parameter; logits and scores are finite or minus infinity. Kernels run their threads one after
another; where threads meet, their results are combined through sets of positions or sums, so no
order is assumed beyond the one the source fixes. Number conversion (`std::stod`) is the parameter
`converts`. What the drive, the pools and the registry decide during a call of the sweep is a value
of `SweepWindow.World`, arbitrary unless a theorem says otherwise.

Where the code and its own words differ, the model follows the code:

- The profiler's tree, when a re-reference makes it grow, keeps the expert's old mark. Distances are
  then one too large for experts last selected before it (`ReuseModel.LongRunOvercounts`); the curve
  is exact exactly when `ReuseModel.CurveExactIff` says so, always while the stream is no longer than the
  model or 1024 requests (`RoutingReuse.Profile`), and a lower bound always.
- The OPT curve minimises all misses but counts only learned layers. It is the best possible exactly
  for the capacities that hold the whole model and the masks of
  `CountedOptimality.OptimalExactlyWhenUncontended`.
- The span scanner's key decoder treats surrogate escapes differently from the parser
  (`JsonAgreement.PairDiffers`). On literals `JsonAgreement.DecodeExactIff` is the exact condition, on
  whole bodies `JsonExactness.AgreementExact`.
- The UTF-8 chunker's comment speaks of resuming from the byte that failed; the code emits one
  replacement character and resumes at the byte after the lead.
- The worker publishes Ready unconditionally. After a shutdown before that, a submit can land behind
  the worker's final swap and be stranded (`ServiceProtocol.EarlyShutdownStrands`);
  `ServiceProtocol.StrandedExactly` says which submits are.
- The HTTP consumer asks for an event and for the closed flag separately, and can leave with the
  terminal event unread; `StreamConsumer.LeavesUnreadExactly` says when.
- The sweep's comments say two live layers never share a bank. A skipped resident layer breaks it
  (`SweepBanks.SkippedLayerSharesABank`); which windows are safe is a condition on what was resident
  when they began, and it is exact: without a conflicting pair no state shares a bank
  (`SweepBanks.LiveBanksApart`), and every conflicting pair is reached by a run
  (`SweepBanks.ReachConflict`).
- With neither keys nor bias the two-pass kernel divides nothing sensible and the online kernel
  returns zero; with no finite logit the device argmax returns an index outside the vocabulary.
- A stage without attention state, on a device whose room is exactly the rest, is accepted by the
  memory gate although the search reports 0
  (`AttentionMemory.AgreementExact`).

## Model

| member | source | states |
|---|---|---|
| `Fenwick.Bump` | src/infrastructure/routing/routing_reuse.hpp:229-236 | updating one position walks the parents so that every tree node still holds the sum of exactly the positions it covers |
| `Fenwick.PrefixSum` | src/infrastructure/routing/routing_reuse.hpp:238-244 | the downward walk returns the sum of the marks of a prefix |
| `Fenwick.NextNode` | src/infrastructure/routing/routing_reuse.hpp:233-233 | the nodes covering a position are that position's node and the next node up the `i += lowbit(i)` chain, none between |
| `Fenwick.SumUpdate` | src/infrastructure/routing/routing_reuse.hpp:229-236 | one changed mark changes exactly the sums of the ranges that contain it |
| `StackDistance.RankIsDistance` | src/infrastructure/routing/routing_reuse.hpp:122-125 | an expert's place in the recency order is the number of distinct experts selected since its last selection |
| `StackDistance.CacheIsPrefix` | src/infrastructure/routing/routing_reuse.hpp:14-20 | the LRU cache of every capacity is a prefix of one recency order |
| `StackDistance.LruHitIffNear` | src/infrastructure/routing/routing_reuse.hpp:138-156 | stack property: for every stream, request and slot count, a step-by-step LRU cache holds the expert if and only if its stack distance is below the slot count |
| `ReuseModel.FirstStep` | src/infrastructure/routing/routing_reuse.hpp:111-120 | the marks after a first selection, on a tree rebuilt or not |
| `ReuseModel.MoveStep` | src/infrastructure/routing/routing_reuse.hpp:131-134 | a re-reference without growth moves one mark |
| `ReuseModel.GrowStep` | src/infrastructure/routing/routing_reuse.hpp:131-133 | a re-reference whose insertion grows the tree leaves the expert with two marks, because the rebuild reads a last position not yet updated |
| `ReuseModel.MarksCount` | src/infrastructure/routing/routing_reuse.hpp:216-229 | the marks of a range count its distinct experts, plus one if the stale mark lies in it |
| `ReuseModel.MarksGiveReported` | src/infrastructure/routing/routing_reuse.hpp:122-125 | the difference of two prefix sums is the reported distance, which is the stack distance or one more |
| `ReuseModel.ReportedFits` | src/infrastructure/routing/routing_reuse.hpp:213-220 | the reported distance is always inside the histogram, so its clamp never acts, stale mark or not |
| `ReuseModel.ExactWithoutStaleGrowth` | src/infrastructure/routing/routing_reuse.hpp:109-134 | while every growth so far was at a first selection there is no stale mark and every reported distance is the stack distance |
| `ReuseModel.LongRunOvercounts` | src/infrastructure/routing/routing_reuse.hpp:131-133 | a concrete run of 1026 requests whose last distance is reported as 2 and is 1 |
| `ReuseModel.CapacityIsDoubled` | src/infrastructure/routing/routing_reuse.hpp:246-259 | the tree's capacity is the first one doubled no more often than the requests need |
| `ReuseModel.BucketVersusCache` | src/infrastructure/routing/routing_reuse.hpp:146-153 | one request: a bucket below the capacity is an LRU hit, and the converse unless it was overcounted |
| `ReuseModel.CurveIsLowerBound` | src/infrastructure/routing/routing_reuse.hpp:138-161 | for every stream, mask and capacity the reported LRU hits never exceed those of the real cache, uncounted requests included in its state |
| `ReuseModel.CurveExactIff` | src/infrastructure/routing/routing_reuse.hpp:97-161 | the curve equals the LRU cache at every capacity if and only if no counted request re-references an expert whose last selection precedes a stale mark |
| `ReuseModel.TallyStep` | src/infrastructure/routing/routing_reuse.hpp:97-136 | how observed, compulsory, measured and histogram counts move on one request |
| `Belady.OptLoadsOnlyTheRequest` | src/infrastructure/routing/routing_reuse.hpp:192-209 | the replayed cache only ever gains the requested expert and never exceeds its capacity |
| `Belady.DominatesStep` | src/infrastructure/routing/routing_reuse.hpp:168-211 | the exchange argument: the farthest-next-use cache keeps dominating any demand-fetch cache across one request |
| `Belady.OptIsOptimal` | src/infrastructure/routing/routing_reuse.hpp:163-211 | Belady optimality: when every request is counted, no demand-fetch policy of that capacity has more hits, on any prefix of any stream |
| `Belady.OptIsDemandRun` | src/infrastructure/routing/routing_reuse.hpp:187-210 | the replayed policy is itself a demand-fetch policy, so its count is attained |
| `CountedOptimality.LruHitsAsRun` | src/infrastructure/routing/routing_reuse.hpp:138-161 | the LRU cache's counted hits are those of a demand-fetch run |
| `CountedOptimality.OptBeatsLru` | src/infrastructure/routing/routing_reuse.hpp:163-167 | with every request counted, the OPT curve is never below the LRU curve |
| `CountedOptimality.OptimalExactlyWhenUncontended` | src/infrastructure/routing/routing_reuse.hpp:187-211 | for every mask, capacity and model size: no stream of the model lets another policy score more counted hits if and only if the cache holds the whole model or no counted request follows an uncounted one late enough to be contended |
| `RoutingReuse.RoutingReuseProfiler.Reset` | src/infrastructure/routing/routing_reuse.hpp:70-88 | the state of an empty stream |
| `RoutingReuse.RoutingReuseProfiler.ObserveLayer` | src/infrastructure/routing/routing_reuse.hpp:97-136 | the stream grows by the in-range requests in order, only a learned layer's counted, and every index and counter stays that of the stream |
| `RoutingReuse.RoutingReuseProfiler.Observe` | src/infrastructure/routing/routing_reuse.hpp:101-135 | the same for one request |
| `RoutingReuse.RoutingReuseProfiler.StackDepth` | src/infrastructure/routing/routing_reuse.hpp:122-125 | the tree's answer is the reported distance of the stream |
| `RoutingReuse.RoutingReuseProfiler.Place` | src/infrastructure/routing/routing_reuse.hpp:116-118 | the tree and the last positions are those of the stream one request longer, growth included |
| `RoutingReuse.RoutingReuseProfiler.AddMark` | src/infrastructure/routing/routing_reuse.hpp:229-236 | adds one mark, on a tree first rebuilt from the recorded last positions when the position is past its end |
| `RoutingReuse.RoutingReuseProfiler.Grow` | src/infrastructure/routing/routing_reuse.hpp:246-259 | the rebuilt tree holds exactly one mark per recorded last position, at the doubled capacity |
| `RoutingReuse.RoutingReuseProfiler.RecordDistance` | src/infrastructure/routing/routing_reuse.hpp:213-220 | an in-range distance adds one to its own bucket and no other |
| `RoutingReuse.RoutingReuseProfiler.IdealHits` | src/infrastructure/routing/routing_reuse.hpp:146-153 | the histogram below a capacity is the number of counted requests with a reported distance below it |
| `RoutingReuse.RoutingReuseProfiler.OptHitCount` | src/infrastructure/routing/routing_reuse.hpp:168-211 | the set-and-array replay returns the counted hits of the specified farthest-next-use policy |
| `RoutingReuse.RoutingReuseProfiler.GetCurve` | src/infrastructure/routing/routing_reuse.hpp:138-161 | at every default capacity the two counts; with no more requests than the model has experts, or no more than 1024, the LRU figures are those of a real LRU cache |
| `RoutingReuse.ShortIsExact` | src/infrastructure/routing/routing_reuse.hpp:77-79 | a stream no longer than the model or 1024 requests never outgrows the first tree, so its curve is the LRU cache's |
| `RoutingReuse.LongRunInexact` | src/infrastructure/routing/routing_reuse.hpp:131-133 | a stream of a model of two experts whose curve is not |
| `RoutingReuse.Profile` | src/infrastructure/routing/routing_reuse.hpp:70-161 | from a reset, for any sequence of observed layers: the counters of the stream they feed, the eight default capacities, LRU hits at most the real cache's and equal to them under that bound, and the farthest-next-use hits whenever something was counted, with only layers from 3 on counted |
| `JsonParser.Parser.ParseWhole` | src/infrastructure/json.hpp:107-116 | the recursive parser accepts exactly the documents of the reference grammar and returns their value |
| `JsonParser.Parser.ParseOne` | src/infrastructure/json.hpp:146-158 | one value after white space, as the reference reads it, and the position left after it |
| `JsonParser.Parser.ParseKeyword` | src/infrastructure/json.hpp:160-167 | null, true and false by their exact spelling |
| `JsonParser.Parser.ParseNumeral` | src/infrastructure/json.hpp:169-209 | the longest number lexeme of section 6 of RFC 8259, refused if the conversion refuses it |
| `JsonParser.Parser.ParseText` | src/infrastructure/json.hpp:211-238 | a string up to its closing quote, escapes resolved, a control character refused |
| `JsonParser.Parser.ReadUnicodeEscape` | src/infrastructure/json.hpp:277-298 | reads the escape as the reference does, which the escape rows below pin to code points and bytes |
| `JsonParser.Parser.ParseArray` | src/infrastructure/json.hpp:300-311 | the elements in order |
| `JsonParser.Parser.ParseObject` | src/infrastructure/json.hpp:313-330 | the members; a repeated key is refused |
| `JsonEscapes.HexReads` | src/infrastructure/json.hpp:240-257 | four characters are read as a code exactly when they are its hexadecimal digits, each in either case |
| `JsonEscapes.Utf8Encodes` | src/infrastructure/json.hpp:259-275 | every code point gets the bytes section 3 of RFC 3629 lays out for it |
| `JsonEscapes.EncodingUnique` | src/infrastructure/json.hpp:259-275 | and no other bytes fit that layout |
| `JsonEscapes.BasicEscape` | src/infrastructure/json.hpp:277-298 | every escape of a basic-plane scalar, digits in any case, yields its UTF-8 bytes and leaves the rest |
| `JsonEscapes.PairEscape` | src/infrastructure/json.hpp:284-290 | every scalar above U+FFFF, by its surrogate pair, yields its four UTF-8 bytes |
| `JsonEscapes.StrayEscape` | src/infrastructure/json.hpp:291-297 | a surrogate that is not half of a pair yields U+FFFD, and a following escape keeps its turn |
| `JsonEscapes.BrokenEscape` | src/infrastructure/json.hpp:248-257 | four characters that spell no code are refused, also as the second half of a pair |
| `JsonEscapes.LetterEscape` | src/infrastructure/json.hpp:211-238 | the eight letter escapes and the bytes they stand for |
| `JsonEscapes.OthersRefused` | src/infrastructure/json.hpp:211-238 | no other letter may be escaped, control characters are refused, every other character stands for itself |
| `JsonEscapes.LeadingSpace` | src/infrastructure/json.hpp:124-130 | any run of the four white space characters before a document is insignificant |
| `JsonEscapes.NoOtherSpace` | src/infrastructure/json.hpp:124-130 | nothing else is skipped |
| `JsonEscapes.NumberSound` | src/infrastructure/json.hpp:169-209 | whatever is taken for a number is sign, integer, fraction and exponent of section 6 of RFC 8259 |
| `JsonEscapes.NumberComplete` | src/infrastructure/json.hpp:169-209 | and every such number is taken whole |
| `JsonScanner.SkipValueAt` | server/json_span.hpp:100-139 | the index-and-depth loop stops where the suffix scanner stops |
| `JsonScanner.DecodeJsonString` | server/json_span.hpp:32-96 | the lenient decoder of a key literal |
| `JsonScanner.RawMemberText` | server/json_span.hpp:145-183 | the scanning loop returns the span of the first member whose decoded key matches |
| `JsonAgreement.SkipEndsWhereParseEnds` | server/json_span.hpp:100-139 | skipping a value by quotes and depth ends exactly where the full parser ends it |
| `JsonAgreement.SpanParses` | server/json_span.hpp:145-183 | the text a value was read from, parsed alone, gives the same value |
| `JsonAgreement.SpanAgreesWithParser` | server/json_span.hpp:141-183 | for every body the parser accepts as an object and every ASCII key, or any key when no key of the body escapes a surrogate: a span is returned exactly when the object has the member, and parsed alone it is the member's value |
| `JsonAgreement.DecodeExactIff` | server/json_span.hpp:37-89 | the two decoders of a key literal agree if and only if it escapes no surrogate |
| `JsonExactness.DecodeBelow` | server/json_span.hpp:37-89 | the scanner reads a key literal as the parser does, or strictly below it in length-then-bytes order |
| `JsonExactness.FindsScannedKeys` | server/json_span.hpp:145-183 | the scanner finds a key exactly when it reads some member's key that way |
| `JsonExactness.AgreementExact` | server/json_span.hpp:145-183 | for every body the parser accepts as an object: the two readers agree on every key, values included, if and only if no top-level key escapes a surrogate; already on which keys there are |
| `JsonExactness.LostKey` | server/json_span.hpp:79-89 | in every other body some key of the object is found by no scan |
| `JsonAgreement.PairDiffers` | server/json_span.hpp:79-89 | a concrete surrogate pair the two decoders read differently |
| `JsonWriter.EscapeText` | server/json_write.hpp:21-45 | the escaping loop |
| `JsonEscapes.Written` | server/json_write.hpp:21-45 | seven characters by a letter, other control characters by lower-case hexadecimal, the rest as they are |
| `JsonWriter.Writer.Separator` | server/json_write.hpp:134-144 | a comma before every child but the first, none between key and value |
| `JsonWriter.Writer.Open` | server/json_write.hpp:112-117 | a container is pushed after its separator |
| `JsonWriter.Writer.Close` | server/json_write.hpp:119-124 | the matching brace closes the innermost container |
| `JsonWriter.Writer.SeparatorForKey` | server/json_write.hpp:128-132 | a comma before every key but the first of its container |
| `JsonWriter.Writer.Key` | server/json_write.hpp:64-71 | a member key after its comma, escaped |
| `JsonWriter.Writer.Put` | server/json_write.hpp:55-150 | driving the writer over a value tree appends exactly the tree's text and restores the container stack |
| `JsonWriter.WriteDocument` | server/json_write.hpp:55-150 | a fresh writer driven over a tree holds the tree's text, which parses back to a value denoting the tree |
| `JsonRoundTrip.StringBack` | server/json_write.hpp:21-45 | escaping any bytes and reading them back gives the same bytes |
| `JsonRoundTrip.IntBack` | server/json_write.hpp:93-97 | a printed integer is one number lexeme, spelled as printed |
| `JsonRoundTrip.IntRead` | server/json_write.hpp:93-97 | every integer is the value of its printed text, read digit by digit by Horner's rule |
| `JsonRoundTrip.MeaningDenotes` | server/json_write.hpp:21-150 | the value a tree means denotes it: numbers by their value, strings and keys by their bytes, members by key |
| `JsonRoundTrip.RoundTrip` | server/json_write.hpp:21-150 | the parser turns the emitted text of every tree with distinct keys back into a value denoting that tree, integers by value |
| `Utf8Chunker.Chunker.Push` | src/infrastructure/text/utf8_chunker.hpp:31-82 | emits the longest decodable prefix of held and new bytes and holds the rest |
| `Utf8Chunker.Chunker.Flush` | src/infrastructure/text/utf8_chunker.hpp:85-92 | a held tail becomes one replacement character |
| `Utf8Chunker.DecodeInPieces` | src/infrastructure/text/utf8_chunker.hpp:31-82 | decoding in two pieces with the held tail carried is decoding at once |
| `Utf8Chunker.DecodeByGrammar` | src/infrastructure/text/utf8_chunker.hpp:38-114 | every step, by the grammar of section 4 of RFC 3629: a character at the front passes, a truncated one is held, anything else costs one byte and gives U+FFFD |
| `Utf8Chunker.PushAllIsDecode` | src/infrastructure/text/utf8_chunker.hpp:31-92 | the concatenated outputs of any pushes are the one-shot output |
| `Utf8Chunker.SplitsAgree` | src/infrastructure/text/utf8_chunker.hpp:8-18 | two splittings of the same bytes give the same output and the same held tail |
| `Utf8Chunker.HeldIsTruncated` | src/infrastructure/text/utf8_chunker.hpp:28-30 | never more than three bytes are held, and only a proper prefix of a character |
| `Utf8Chunker.WholeIsUtf8` | src/infrastructure/text/utf8_chunker.hpp:14-18 | everything returned is valid under section 4 of RFC 3629 |
| `Utf8Chunker.ValidPasses` | src/infrastructure/text/utf8_chunker.hpp:38-80 | valid text passes unchanged and a truncated character after it is held as it is |
| `Utf8Chunker.UnchangedIffValid` | src/infrastructure/text/utf8_chunker.hpp:38-114 | the decoder is the identity exactly on valid UTF-8 |
| `Utf8Chunker.WholeIsIdempotent` | src/infrastructure/text/utf8_chunker.hpp:31-92 | decoding the output again changes nothing |
| `ConversationService.Service.Submit` | server/conversation_service.cpp:27-40 | refused when not ready or full, otherwise the protocol's submit step |
| `ConversationService.Service.Cancel` | server/conversation_service.cpp:42-44 | only the job's flag changes |
| `ConversationService.Service.Position` | server/conversation_service.cpp:46-55 | the place in the queue, or 0 |
| `ConversationService.Service.PublishReady` | server/conversation_service.cpp:58-62 | Ready is stored unconditionally |
| `ConversationService.Service.TakeNext` | server/conversation_service.cpp:65-85 | the front job is taken, or the loop left when stopped |
| `ConversationService.Service.CheckCancelled` | server/conversation_service.cpp:87-93 | a job cancelled by now is skipped and any other goes to the engine |
| `ConversationService.Service.PushDelta` | server/conversation_service.cpp:94-100 | one delta to the job's stream |
| `ConversationService.Service.PushTerminal` | server/conversation_service.cpp:89-115 | one terminal event to the job's stream |
| `ConversationService.Service.Close` | server/conversation_service.cpp:116-118 | the stream is closed |
| `ConversationService.Service.RecordRun` | server/conversation_service.cpp:123-129 | the live job is cleared |
| `ConversationService.Service.SwapPending` | server/conversation_service.cpp:132-138 | what is still queued is swapped out |
| `ConversationService.Service.StoreStopping` | server/conversation_service.cpp:143-143 | the final state |
| `ConversationService.Service.Shutdown` | server/conversation_service.cpp:146-154 | stop, cancel the live job and swap out the queue in one locked section |
| `ConversationService.Service.FailPending` | server/conversation_service.cpp:155-158 | a swapped-out job gets its terminal event |
| `ConversationService.Service.ClosePending` | server/conversation_service.cpp:157-159 | and its close |
| `ServiceProtocol.InvStep` | server/conversation_service.cpp:27-160 | every step of every thread keeps the protocol's invariant |
| `ServiceProtocol.RunInv` | server/conversation_service.cpp:27-160 | so does every interleaving |
| `ServiceProtocol.ClosedEndsOnce` | server/conversation_service.cpp:87-160 | in every reachable state a closed stream ends with its only terminal event, and no stream has two |
| `ServiceProtocol.ClosedIsFinal` | server/conversation_service.cpp:116-118 | no step changes a closed stream |
| `ServiceProtocol.StartedInOrder` | server/conversation_service.cpp:27-84 | jobs are started and run in id order, at most once each, and the queue never exceeds its bound |
| `ServiceProtocol.RunsUnlessCancelled` | server/conversation_service.cpp:87-103 | in every run, a taken job reaches the engine if and only if no step before its check cancelled it: its own cancel, or a shutdown while it was live |
| `ServiceProtocol.CancelNeedsACause` | server/conversation_service.cpp:42-44 | a cancel before the check counts always, and without one nothing but a shutdown does |
| `ServiceProtocol.CancelledExactly` | server/conversation_service.cpp:42-154 | the cancel flags are exactly those the steps set |
| `ServiceProtocol.ToldExactly` | server/conversation_service.cpp:87-160 | a job's stream holds exactly what the steps pushed to it, in order; a closed job that never ran got the one finished event |
| `ServiceProtocol.ShutdownCoversAll` | server/conversation_service.cpp:146-160 | shutdown finds every unfinished job queued, live or already being drained, and leaves none queued |
| `ServiceProtocol.NeverStuck` | server/conversation_service.cpp:57-160 | an unfinished job always has an enabled service step ahead |
| `ServiceProtocol.OwnStepsTerminate` | server/conversation_service.cpp:57-160 | every service step shortens the work left |
| `ServiceProtocol.RestIsComplete` | server/conversation_service.cpp:57-160 | in every run at rest a job ended exactly once unless it is still queued, which needs a shutdown before Ready |
| `ServiceProtocol.StrandedExactly` | server/conversation_service.cpp:27-160 | in every run at rest the job of a submit ends exactly once if and only if the worker had not made its final swap at the submit or a shutdown followed it; otherwise it gets no event at all |
| `ServiceProtocol.QueuedToTheEnd` | server/conversation_service.cpp:132-143 | a queued job is still queued when the worker is gone exactly when it was queued after the final swap and no shutdown came |
| `ServiceProtocol.EveryJobEndsOnce` | server/conversation_service.cpp:27-160 | with shutdown after Ready, every accepted job of a run at rest received exactly one terminal event, last before close |
| `ServiceProtocol.EarlyShutdownStrands` | server/conversation_service.cpp:58-62 | a concrete run with shutdown before Ready that strands an accepted job |
| `JobStream.JobStream.Push` | server/job_stream.hpp:60-66 | the event is appended; a closed stream does not refuse it |
| `JobStream.JobStream.Close` | server/job_stream.hpp:69-75 | marks the stream complete |
| `JobStream.JobStream.Pop` | server/job_stream.hpp:79-88 | the oldest event if there is one, else nothing for a timeout and for a drained stream alike |
| `JobStream.JobStream.Drain` | server/job_stream.hpp:77-95 | a consumer that knows the stream closed receives everything in push order |
| `StreamConsumer.GoneExactly` | server/http_server.cpp:218-261 | in every run a consumer that left by the closed check has left the terminal event unread, and one that left with it has read everything |
| `StreamConsumer.LeavesUnreadExactly` | server/http_server.cpp:221-227 | after a pop that brought nothing, the closed check sends the consumer away, the terminal event unread, if and only if that event's push and the close both landed in between |
| `StreamConsumer.CanLeaveUnread` | server/http_server.cpp:221-227 | a run of four moves in which that happens |
| `PrefillSweep.PushOk` | src/infrastructure/prefill/prefill_lookahead.hpp:104-124 | a dispatched layer joins the tail and the queue stays ascending, beyond the active layer, with one wave and a full ledger |
| `PrefillSweep.PopOk` | src/infrastructure/prefill/prefill_sweep.hpp:383-390 | the front leaves materialized once and the rest of the queue is intact |
| `PrefillSweep.FinishOk` | src/infrastructure/prefill/prefill_sweep.hpp:444-456 | returning the held bank finishes it once |
| `PrefillSweep.PassOk` | src/infrastructure/prefill/prefill_sweep.hpp:183-194 | a layer the queue jumps over is already whole |
| `PrefillSweep.SettlesKeeps` | src/infrastructure/prefill/prefill_sweep.hpp:200-219 | reads landing on their own disturb no invariant |
| `PrefillSweep.ContiguousBanksApart` | src/infrastructure/prefill/prefill_lookahead.hpp:45-57 | with no skipped layer, live layers never share a staging bank |
| `SweepWindow.SettleFront` | src/infrastructure/prefill/prefill_sweep.hpp:402-442 | settling the front makes its layer whole, from what the batch was dispatched for |
| `SweepBanks.QueuedBecauseDue` | src/infrastructure/prefill/prefill_lookahead.hpp:104-124 | the queue is exactly the next layers that lacked something when the window began, without a gap |
| `SweepBanks.LiveBanksApart` | src/infrastructure/prefill/prefill_sweep.hpp:462-465 | in every state of a window with no conflicting pair of layers, live layers are in different banks |
| `SweepBanks.UnskippedBanksApart` | src/infrastructure/prefill/prefill_sweep.hpp:458-465 | so are they whenever the queue skipped nothing |
| `SweepBanks.LiveSlotsApart` | src/infrastructure/prefill/prefill_sweep.hpp:458-465 | in a window without a conflicting pair two queued batches have disjoint staging slots |
| `SweepBanks.HeldSlotsApart` | src/infrastructure/prefill/prefill_sweep.hpp:458-465 | and none overlaps the slots the held layer still copies from |
| `SweepBanks.SharingExact` | src/infrastructure/prefill/prefill_lookahead.hpp:107-111 | with the drive caught up and staging for every free bank, a layer shares its bank if and only if it has a conflict: a later layer in its bank with fewer than the number of banks of lacking layers up to it |
| `SweepBanks.ReachConflict` | src/infrastructure/prefill/prefill_sweep.hpp:149-249 | every conflict is reached: from any residency decode left, a window with a prompt drive, staging for every bank and room in the pool comes to a state with the conflicting layer queued into the held bank |
| `SweepBanks.SkippedLayerSharesABank` | src/infrastructure/prefill/prefill_lookahead.hpp:107-111 | a run of three layers with layer 1 preserved that has layers 0 and 2 live in bank 0 |
| `SweepBanks.NoneWholeNoConflict` | src/infrastructure/prefill/prefill_sweep.hpp:458-465 | a window that begins with no layer whole has no conflict |
| `SweepWindow.Sweep.constructor` | src/infrastructure/prefill/prefill_sweep.hpp:107-116 | no banks means one |
| `SweepWindow.Sweep.ReadLookaheadCapacity` | src/infrastructure/prefill/prefill_lookahead.hpp:43-67 | the bound from free staging, banks and cap, at most one less than the banks when there are two or more |
| `SweepWindow.CapacityIsDeepest` | src/infrastructure/prefill/prefill_lookahead.hpp:43-67 | a depth is within the capacity exactly when its layers fit the free staging, the banks and the cap |
| `SweepWindow.Sweep.ReadsInFlight` | src/infrastructure/prefill/prefill_lookahead.hpp:141-148 | whether any queued layer has a read outstanding |
| `SweepWindow.Sweep.DispatchLayerInto` | src/infrastructure/prefill/prefill_sweep.hpp:361-381 | the new batch is exactly the experts the layer lacks, in its own bank, and counts as many streamed; nothing for a whole layer |
| `SweepWindow.Sweep.StagingBase` | src/infrastructure/prefill/prefill_sweep.hpp:462-465 | where a layer's bank begins |
| `SweepWindow.Sweep.QueueLayer` | src/infrastructure/prefill/prefill_lookahead.hpp:112-122 | one more layer at the tail |
| `SweepWindow.Sweep.PlanFrom` | src/infrastructure/prefill/prefill_lookahead.hpp:104-124 | passes over whole layers and stops at a wave in flight, at the budget or at the last layer |
| `SweepWindow.Sweep.DispatchAhead` | src/infrastructure/prefill/prefill_lookahead.hpp:81-126 | the queue only grows, is untouched while a wave is in flight, and ends with a wave in flight, full, or with nothing left to load |
| `SweepWindow.Sweep.AdvanceReads` | src/infrastructure/prefill/prefill_lookahead.hpp:132-136 | the same from inside a body |
| `SweepWindow.Sweep.ReclaimResident` | src/infrastructure/prefill/prefill_sweep.hpp:448-456 | the held bank, if any, is finished |
| `SweepWindow.Sweep.MaterializeEntry` | src/infrastructure/prefill/prefill_sweep.hpp:402-442 | the batch is materialized, its bank held or finished, every lease released |
| `SweepWindow.Sweep.MaterializeFront` | src/infrastructure/prefill/prefill_sweep.hpp:385-390 | the front becomes the layer in hand, and is whole |
| `SweepWindow.Sweep.LoadLayer` | src/infrastructure/prefill/prefill_sweep.hpp:352-356 | a layer loaded while nothing is queued becomes whole |
| `SweepWindow.Sweep.EnsureLayer` | src/infrastructure/prefill/prefill_sweep.hpp:341-356 | nothing to do for a whole layer; refused, with nothing changed, exactly when the free slots are fewer than the missing experts |
| `SweepWindow.Sweep.Begin` | src/infrastructure/prefill/prefill_sweep.hpp:149-172 | refused exactly when a layer cannot fit; otherwise the window starts at layer 0 with the first wave issued |
| `SweepWindow.Sweep.TakeLayer` | src/infrastructure/prefill/prefill_sweep.hpp:183-193 | the layer in hand comes whole from the front of the queue or is loaded now, refused exactly when it is neither queued nor fits; its bank is held exactly when it lacked something and there are two banks |
| `SweepWindow.Sweep.BeforeLayer` | src/infrastructure/prefill/prefill_sweep.hpp:183-200 | the layer about to compute is whole and the lookahead has done all it may |
| `SweepWindow.Sweep.Pump` | src/infrastructure/prefill/prefill_sweep.hpp:207-219 | each queued layer's landed reads, and only those, leave what is pending; the layer in hand stays whole and the next wave is issued when it may be |
| `SweepWindow.Sweep.PumpQueue` | src/infrastructure/prefill/prefill_sweep.hpp:207-212 | every queued batch, one by one, loses from pending exactly what the drive landed |
| `SweepWindow.Sweep.Retire` | src/infrastructure/prefill/prefill_sweep.hpp:244-247 | the held bank is finished once, then the layer released unless it has a live transfer, which a layer behind the queue never has |
| `SweepWindow.Sweep.AfterLayer` | src/infrastructure/prefill/prefill_sweep.hpp:229-249 | with a bank held any other layer is refused; with none held whatever layer is named is released unless it has a live transfer; only that layer's residency changes |
| `SweepWindow.Sweep.End` | src/infrastructure/prefill/prefill_sweep.hpp:252-269 | afterwards every batch was materialized once and finished once and every lease is back |
| `SweepWindow.RunWindow` | src/infrastructure/prefill/prefill_sweep.hpp:149-269 | a whole begin/(before, pump*, after)*/end run keeps all invariants and ends with every batch, bank and lease accounted for; the experts streamed are exactly those lacking when the window began, each once; it completes whenever the pool has room |
| `LocalRing.SlotIsNewest` | src/architecture/deepseek_v4/layer/v4_layer_body_attention.hpp:345-352 | each ring slot holds the newest position of its residue class |
| `LocalRing.LiftedRemainder` | src/architecture/deepseek_v4/kernels/v4_attention_kernels.hpp:466-467 | the truncated remainder lifted when negative is the Euclidean one |
| `LocalRing.RowPosition` | src/architecture/deepseek_v4/kernels/v4_attention_kernels.hpp:453-468 | the gather's closed form names the position the serial ring has in that slot |
| `LocalRing.RingIsWindow` | src/architecture/deepseek_v4/layer/v4_layer_body_attention.hpp:338-352 | the ring after a query holds precisely the query's causal window |
| `LocalRing.EarlyWriteEvicts` | src/architecture/deepseek_v4/layer/v4_layer_body_attention.hpp:338-345 | writing a chunk's keys first would evict a key in the window of every query at most a capacity behind |
| `LocalRing.LocalCache.Write` | src/architecture/deepseek_v4/layer/v4_layer_body_attention.hpp:346-352 | decode's write of one position |
| `LocalRing.LocalCache.ComposeRow` | src/architecture/deepseek_v4/kernels/v4_attention_kernels.hpp:453-480 | one row: the position the serial ring has in that slot, with the key of the ring or the chunk |
| `LocalRing.LocalCache.ComposeLocalRows` | src/architecture/deepseek_v4/layer/v4_layer_body_batch.hpp:440-490 | chunk equals serial: for every capacity, chunk start and query of the chunk, the composed rows are, slot by slot, the ring decode would hold after writing the query; a query before the chunk gets the same labels and its own keys exactly where the ring has not wrapped past them; refused exactly when the row-set or the query is out of bounds |
| `LocalRing.LocalCache.ComposeUnionRows` | src/architecture/deepseek_v4/layer/v4_layer_body_batch.hpp:492-523 | output row r is position first + r with its own key, from the old ring or the chunk |
| `LocalRing.LocalCache.Commit` | src/architecture/deepseek_v4/layer/v4_layer_body_batch.hpp:1130-1152 | after the commit the ring is the serial one |
| `Compressor.WindowInRing` | src/architecture/deepseek_v4/kernels/v4_attention_kernels.hpp:265-272 | at a boundary every non-negative position of the window is in its slot with its own row |
| `Compressor.EmittedStep` | src/architecture/deepseek_v4/layer/v4_layer_body_attention.hpp:461-466 | an entry is due exactly at a ratio boundary, and its index is inside the allocation |
| `Compressor.CapacityHolds` | src/architecture/deepseek_v4/layer/v4_layer_state.hpp:48-50 | the entry count never exceeds the allocated capacity |
| `Compressor.CapacityTight` | src/architecture/deepseek_v4/layer/v4_layer_state.hpp:52-53 | the allocation is the least that holds an entry for every begun group |
| `Compressor.CompressorState.Save` | src/architecture/deepseek_v4/kernels/v4_attention_kernels.hpp:211-235 | the row lands in its position's slot |
| `Compressor.CompressorState.Gather` | src/architecture/deepseek_v4/kernels/v4_attention_kernels.hpp:241-308 | the gathered window is the stream's own, with segments; no slot is skipped as stale |
| `Compressor.EntryAtFour` | src/architecture/deepseek_v4/kernels/v4_attention_kernels.hpp:241-308 | at ratio 4 entry i gathers positions 4i-4 to 4i+3, the first four in segment 0 and the last four in segment 1; entry 0 only its own four |
| `Compressor.EntryElsewhere` | src/architecture/deepseek_v4/kernels/v4_attention_kernels.hpp:241-308 | at any other ratio exactly the positions of its own group |
| `Compressor.CompressorState.RecordPosition` | src/architecture/deepseek_v4/layer/v4_layer.hpp:290-307 | every count is the position's own, the entry count needs no cap, and a layer without compression records only its local rows |
| `Compressor.CompressorState.Advance` | src/architecture/deepseek_v4/layer/v4_layer_body_attention.hpp:412-489 | in every in-order run from reset, entry i is labelled (i+1)*ratio-1 and holds its whole window |
| `Compressor.CompressorState.Reset` | src/architecture/deepseek_v4/layer/v4_layer.hpp:309-331 | back to the state before the first position |
| `KeySelection.WarpCounts` | src/platform/rdna3/head_group_attention.hpp:137-138 | each warp's ballot count |
| `KeySelection.WarpOffset` | src/platform/rdna3/head_group_attention.hpp:140-147 | a warp's offset is the number of visible candidates before it |
| `KeySelection.WarpWrites` | src/platform/rdna3/head_group_attention.hpp:148-148 | each thread's key goes to its rank |
| `KeySelection.Compact` | src/platform/rdna3/head_group_attention.hpp:117-151 | the compacted list is the visible candidates, in candidate order, for every warp and lane count |
| `KeySelection.CommittedVisible` | src/architecture/deepseek_v4/layer/v4_layer_body_types.hpp:118-123 | an entry is visible by position exactly when it is among those committed by the query |
| `KeySelection.LocalSelection` | src/platform/rdna3/head_group_attention.hpp:125-127 | the union masked for a query is precisely its own causal window, ascending |
| `KeySelection.CompressedSelection` | src/architecture/deepseek_v4/layer/v4_attention_tile.hpp:75-83 | masking all committed rows gives precisely the query's own first committed entries |
| `KeySelection.PicksSelection` | src/platform/rdna3/head_group_attention.hpp:128-136 | a query's own selection of committed rows is kept in selection order, padding dropped |
| `KeySelection.TileSelectionExact` | src/platform/rdna3/head_group_attention.hpp:117-151 | a query's list is its window followed by its committed entries, nothing else |
| `Softmax.ShiftInvariant` | src/platform/rdna3/tiled_causal_attention.hpp:197-238 | any shift of the scores gives the same quotient |
| `Softmax.AttentionAverages` | src/platform/rdna3/tiled_causal_attention.hpp:217-258 | keys of one value give that value back, scaled by the bias share when there is one |
| `Softmax.TopAttained` | src/platform/rdna3/head_group_attention.hpp:111-115 | the largest candidate alone contributes 1 to the denominator |
| `Softmax.TracksStep` | src/platform/rdna3/head_group_attention.hpp:199-246 | folding a block in keeps the running maximum, sum and accumulator those of all keys so far |
| `Softmax.FoldBlock` | src/platform/rdna3/head_group_attention.hpp:199-246 | one block with its padding lanes does that |
| `Softmax.FinishTracks` | src/platform/rdna3/head_group_attention.hpp:277-289 | the 1e-30 floor is inactive whenever a candidate exists |
| `Softmax.Online` | src/platform/rdna3/head_group_attention.hpp:155-289 | the online kernel returns the softmax over keys and zero-value bias for every block width, and zero with no candidate |
| `Softmax.PartitionInvariant` | src/platform/rdna3/head_group_attention.hpp:171-289 | no way of cutting the keys into blocks changes the result |
| `TwoPassSoftmax.ReduceMax` | src/platform/rdna3/tiled_causal_attention.hpp:197-215 | strided threads and warps together compute the maximum |
| `TwoPassSoftmax.ReduceSum` | src/platform/rdna3/tiled_causal_attention.hpp:217-236 | strided threads and warps together compute the plain sum, for every thread count |
| `TwoPassSoftmax.TwoPass` | src/platform/rdna3/tiled_causal_attention.hpp:165-258 | the two-pass kernel over masked slots returns the softmax of the visible keys, and no number when there is no candidate at all |
| `TwoPassSoftmax.Agree` | src/platform/rdna3/head_group_attention.hpp:155-289 | the online and the two-pass kernel agree whenever a candidate exists |
| `ExpertPermutation.PlaceInjective` | src/platform/ops/expert_permutation.hpp:86-109 | the stable order gives no place twice and keeps each expert's draws in order |
| `ExpertPermutation.RangesFit` | src/platform/ops/expert_permutation.hpp:50-84 | the ranges fit the buffers and fill them exactly for in-range ids |
| `ExpertPermutation.Histogram` | src/platform/ops/expert_permutation.hpp:58-74 | counts per expert, an out-of-range id dropped |
| `ExpertPermutation.Offsets` | src/platform/ops/expert_permutation.hpp:76-84 | the exclusive prefix sum |
| `ExpertPermutation.ScatterExpert` | src/platform/ops/expert_permutation.hpp:90-108 | one expert's walk fills its range with its draws in order |
| `ExpertPermutation.Scatter` | src/platform/ops/expert_permutation.hpp:86-108 | every position holds the draw the stable order puts there, and its token |
| `ExpertPermutation.ScatterIsPermutation` | src/platform/ops/expert_permutation.hpp:86-108 | for in-range ids each draw sits in exactly one position |
| `ExpertPermutation.GatherWeights` | src/platform/ops/expert_permutation.hpp:110-128 | weights by draw become weights by position |
| `GroupedMoe.OwnerOf` | src/platform/ops/expert_permutation.hpp:86-108 | a position in an expert's range holds one of that expert's draws |
| `GroupedMoe.DoneStep` | src/platform/rdna3/moe_grouped_ffn.hpp:268-284 | storing a position completes its own draw and no other |
| `GroupedMoe.GateTile` | src/platform/rdna3/moe_grouped_ffn.hpp:121-187 | one tile stores the gate result of each real row, padding rows never stored |
| `GroupedMoe.GateExpert` | src/platform/rdna3/moe_grouped_ffn.hpp:121-187 | windows of tiles cover every row of the expert |
| `GroupedMoe.DownTile` | src/platform/rdna3/moe_grouped_ffn.hpp:234-287 | one tile writes each real row to its own draw, once |
| `GroupedMoe.DownExpert` | src/platform/rdna3/moe_grouped_ffn.hpp:234-287 | windows of tiles cover every row of the expert |
| `GroupedMoe.GateLaunch` | src/architecture/deepseek_v4/moe/moe_grouped_batch.hpp:117-121 | one launch over rebased offsets fills every expert's slab, slabs disjoint |
| `GroupedMoe.DownLaunch` | src/architecture/deepseek_v4/moe/moe_grouped_batch.hpp:122-126 | one launch completes exactly its own positions |
| `GroupedMoe.Launch` | src/architecture/deepseek_v4/moe/moe_grouped_batch.hpp:89-127 | a launch without draws is skipped; any other completes the draws of its experts |
| `GroupedMoe.Widest` | src/architecture/deepseek_v4/moe/moe_grouped_batch.hpp:79-87 | the widest expert |
| `GroupedMoe.Sort` | src/architecture/deepseek_v4/moe/moe_grouped_batch.hpp:66-76 | the sorted chunk |
| `GroupedMoe.LaunchAll` | src/architecture/deepseek_v4/moe/moe_grouped_batch.hpp:89-127 | over all launches every draw is written exactly once with its own expert, token and weight |
| `GroupedMoe.Reduce` | src/platform/ops/moe_accumulate.hpp:73-92 | the slot-ordered sum starting from the shared output |
| `GroupedMoe.RunGrouped` | src/architecture/deepseek_v4/moe/moe_grouped_batch.hpp:54-147 | the grouped batch equals the per-token path on every token, each contribution row with exactly one writer; refused exactly when an expert has more draws than the scratch has rows |
| `AttentionMemory.StateMemory` | src/architecture/deepseek_v4/spec/v4_memory_geometry.hpp:59-85 | the stage's bytes, each category the sum over the layers of its rows times row bytes, the rope table apart; refused at context 0 or for an invalid layer |
| `AttentionMemory.AccountsStep` | src/architecture/deepseek_v4/layer/v4_layer_state.hpp:74-165 | one layer adds to each category its rows times row bytes, keys and values both, and their sum to the layer total |
| `AttentionMemory.RefusedExactly` | src/architecture/deepseek_v4/layer/v4_layer_state.hpp:27-64 | a layout is refused exactly at context 0, for a dimension that is not positive, for a ratio that does not belong to the kind, or for a CSA layer without its indexer |
| `AttentionMemory.LayerGrows` | src/architecture/deepseek_v4/layer/v4_layer_state.hpp:27-165 | one layer's bytes are positive and never shrink with the context |
| `AttentionMemory.BytesGrow` | src/architecture/deepseek_v4/spec/v4_memory_geometry.hpp:59-83 | for every mix of layers the bytes are monotone in the context |
| `AttentionMemory.MaxViableContext` | src/infrastructure/memory/memory_budget_engine.hpp:223-239 | the binary search never probes 0 and returns the largest context that fits |
| `AttentionMemory.Gate` | src/infrastructure/memory/memory_budget_engine.hpp:241-252 | accepts exactly the contexts within the limit that fit |
| `AttentionMemory.GateAgreesWithSearch` | src/infrastructure/memory/memory_budget_engine.hpp:217-252 | the gate accepts a context within the limit exactly when it is at most the search's result |
| `AttentionMemory.AgreementExact` | src/infrastructure/memory/memory_budget_engine.hpp:217-252 | that agreement fails only for a stage with no attention state on a device whose room is exactly the rest |
| `HostRegion.StagingSlots` | src/infrastructure/memory/runtime_config.hpp:265-286 | two drawn sets for decode, a chunk's draws up to a layer for the batch, one layer per sweep block for prefill, each the largest of what it must hold |
| `HostRegion.SplitHostBudget` | src/infrastructure/memory/memory_budget_engine.hpp:412-430 | with any layers at all the shares sum exactly to the budget, and each prefix is the floor of its proportion |
| `HostRegion.RegionIsBudget` | src/infrastructure/memory/memory_budget_engine.hpp:68-76 | the region is as many payloads as the warm budget holds; with none, the peak corridor if stages share it |
| `HostRegion.PlanSharedHostRegion` | src/infrastructure/memory/memory_budget_engine.hpp:61-89 | lanes follow one another and cover the region short of the decode corridor |
| `HostRegion.LanesDisjoint` | src/infrastructure/memory/memory_budget_engine.hpp:80-88 | lanes never overlap |
| `HostRegion.ClippedTogether` | src/infrastructure/memory/memory_budget_engine.hpp:337-348 | clipping each lane clips the lanes as one block |
| `HostRegion.PhasesFillRegion` | src/infrastructure/memory/memory_budget_engine.hpp:337-350 | with Warm enabled and a region that holds the peak, clipped Warm slots plus the corridor equal the region in each phase |
| `HostRegion.TiersConserve` | src/infrastructure/memory/memory_budget_engine.hpp:352-363 | Hot, Warm and Cold add up to the experts if and only if Hot is at most their number, and Warm is the lane or all that is left |
| `Argmax.ArgmaxOf` | src/infrastructure/sampler.hpp:157-163 | the scalar rule: the largest, ties to the lower index |
| `Argmax.PickBest` | src/platform/ops/argmax.hpp:44-52 | combining two winners gives the winner of both sets |
| `Argmax.ThreadScan` | src/platform/ops/argmax.hpp:33-38 | one thread's strided scan finds the best of its own positions |
| `Argmax.TreeReduce` | src/platform/ops/argmax.hpp:44-55 | the halving tree finds the best of all threads |
| `Argmax.BlockPartial` | src/platform/ops/argmax.hpp:20-61 | one block's partial |
| `Argmax.ScanPartials` | src/platform/ops/argmax.hpp:72-82 | one thread of the second launch |
| `Argmax.DeviceArgmax` | src/platform/ops/argmax.hpp:20-102 | the two launches return the scalar rule's answer for every grid, and an index outside the vocabulary when nothing is finite |
| `Sampler.Sort` | src/infrastructure/sampler.hpp:234-239 | the ranking, largest first, ties to the lower index |
| `Sampler.ApplyTopK` | src/infrastructure/sampler.hpp:186-205 | everything below the k-th largest is masked, a tie at the boundary kept whole |
| `Sampler.TopKKeepsTheBest` | src/infrastructure/sampler.hpp:186-205 | the k best all survive, and of the others exactly those that tie with the k-th |
| `Sampler.NucleusSize` | src/infrastructure/sampler.hpp:241-247 | the boundary element is included and no shorter prefix reaches the mass |
| `Sampler.ApplyTopP` | src/infrastructure/sampler.hpp:207-251 | below 1 and with a finite logit, the smallest prefix of the ranking whose mass reaches the threshold survives and the rest is masked; otherwise nothing changes |
| `Sampler.TotalIsDenominator` | src/infrastructure/sampler.hpp:219-226 | the total the nucleus is measured against is the softmax denominator of the finite logits |
| `Sampler.WholeMass` | src/infrastructure/sampler.hpp:228-247 | the whole ranking has mass one, so the kept mass is never short |
| `Sampler.TruncationStep` | src/infrastructure/sampler.hpp:404-410 | a truncation that spares the best changes no greedy decision |
| `Sampler.DecideGreedy` | src/infrastructure/sampler.hpp:384-410 | under every top-k and top-p the greedy decision is the scalar rule on the untouched logits, refused exactly when nothing is finite |
| `Sampler.SelectGreedy` | src/infrastructure/sampler.hpp:415-434 | the device path and the host path name the same token whenever one is finite |

## Left out

- HIP streams, events, matrix-fragment lane packing, fp16 rounding and launch plumbing.
- File and device I/O: direct reads, the artifact loader, mappings, peer access.
- The expert registry, tiered supply, host partition and staging arena beyond the contracts the sweep and the budget need.
- The HTTP server, the chat-protocol field handling, command-line tools, telemetry and the phase profiler; of the HTTP consumer only its loop over the stream is modelled, without write failures and keep-alives.
- The routing profile's CSV output, manifest lookup and tokenizer preparation.
- RoPE, RMSNorm, GEMV, Sinkhorn, SwiGLU, the indexer's scores and its top-k kernel; the compressed entry's softmax and norm (its inputs are modelled).
- The temperature, the processor hook and the random draw of the sampler: only the greedy decision is modelled.
- `json_number`, `raw` fragments and doubles in the writer's round trip; integers of 64 bits are covered.
- 64-bit overflow of byte counts, clocks and stream lengths.
- Job timing, snapshots and run records of the service; an engine that throws something other than `std::exception`.
- `update_frontier` and occupancy samples of the sweep, and the reaper, which changes nothing modelled.
- SwapPending: a drain hands out its jobs as a set, so the order of terminal events between different jobs is not modelled.
- StackDepth: the low bit is taken arithmetically, not by `i & (~i + 1)` on machine words.
- Compact: the lanes of a warp write in lane order, one legal order of writes to distinct places.
- TwoPass: lanes and warps are one strided set of threads.
