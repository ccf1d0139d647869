# GN Drive: verified models

Machine-checked models of the parts of GN Drive where a mistake would be silent: the Argon2 memory filling and its
hash string, the board engine's ordering of transfers, the run protocol of flows and sync tasks, the event bus, the
life of the config files under a password, and the canvas form of a flow. Every statement below is a theorem about the
model, for all inputs, all runs or all reachable states; `dafny verify dfyconfig.toml` checks the whole project.

The imperative parts of the sources are methods over arrays and objects, proved against specification functions; the
concurrent parts are transition systems whose steps are the critical sections of the source.

## What is modelled

**Shared** (`Wrappers`, `Arithmetic`): an optional value, and two facts about products and quotients.

**Argon2 filling** (`Words`, `Argon2Context`, `Argon2Index`, `Argon2Fill`, `Argon2Lanes`, `Argon2Threads`,
`Argon2Tag`, `Argon2Rfc`). The compression permutation, block XOR and the hashes are parameters (`Primitives`). Memory
is an array of blocks. `IndexAlpha` follows the C arithmetic in its 32- and 64-bit widths and is proved equal to the
ordered reference set of section 3.4.2 of RFC 9106. `fill_segment` keeps its running offsets and its cached address
block. `fill_memory_blocks_mt` is a transition system of the main thread and the lane threads, one step a block write;
any schedule that finishes leaves what the single-threaded loop computes, at most `threads` threads are live, each is
joined once before the next slice, some step is always possible, and every schedule is finite; a method runs it under
any scheduler. In pass 0 columns 0 and 1 come from `fill_first_blocks` and every other block from one position of the
pass; in later passes every block comes from one position. The tag depends neither on the schedule, nor on the thread
limit, nor on what the allocated memory held. `Argon2Rfc` states what the memory is without any order of computation:
the equations of RFC 9106 for every block of every pass.

**Hash string** (`Bits`, `Base64`, `Base64Stream`, `Base64Loops`, `Decimal`, `HashString`, `HashStringCode`,
`HashSpelling`). The branch-free character macros, both streaming Base64 loops with their wrapping accumulators, the
decimal reader with its overflow guards, `encode_string` writing into a bounded buffer and `decode_string` filling the
caller's parameter block. Two results deserve attention:

- The comment of `from_base64` says decoding stops at a non-Base64 character. With a signed `char` a character above
  127 is converted to a large unsigned value for which the `EQ` macro is always true, so it is read as the value 63,
  like `/`. Hence printing what was decoded gives the string back if and only if the string is ASCII (and shows its
  version). `OtherTextAccepted` covers the whole family, `SomeTextTwice` names one such string. The model follows the
  code.
- `argon2_encodedlen` counts the digits of the current version, so it is exact if and only if the version in the
  context has two digits; both published versions do. Validation lets other versions through: `AnnouncedLengthMisses`
  has the announced size one too large for a version of one digit and one too small for one of three.

**Board engine** (`BoardGraph`, `BoardTopo`, `BoardRun`). Edges are layered by counting pending edges into each node.
With distinct ids the layering is total and unique, an edge's layer is the length of the longest chain into its
source, and failure means a cycle; the number in the error is the number of edges no layering can place. A run with
`stopOnError` starts an edge only after everything upstream of it succeeded. `internal/boardengine/engine.go` is the
same algorithm.

**Flows, sync tasks, events** (`FlowEngine`, `FlowHistory`, `SyncEngine`, `SyncHistory`, `FlowSync`, `EventBus`,
`BusHistory`). Transition systems over the dictionaries that the locks protect, together with the threads that move
between the critical sections. The `History` modules say what callers see in terms of the list of actions alone: the
status of a flow and the end of a run, the outcome of a sync task, who gets a published event, and what is possible
next. `FlowSync` runs the two engines together, with other callers of the sync engine and the attaching and detaching
of the rclone client beside them: a flow is announced as completed only if it ran a sync task under the key of each of
its operations and none of their transfers failed. It does not follow that anything was transferred. The client may be
detached while a flow runs (`beforeLock`, `Sources/GNDriveCore/AppContainer.swift:123-132`), and a call without a
client returns at once and throws nothing, so the task ends as "completed". The exact condition is proved for each
operation: it made its transfer if and only if a client was attached at the step that called it.
`CompletedWithoutTransfer` is a run in which the client goes while the flow runs.

**Config files under a password** (`AuthFiles`, `AuthOps`, `AuthAccess`, `AuthService`, `AuthRuns`, `AuthRetry`). Each
operation is a list of atomic file operations; a crash may fall between any two, and a write may throw. From plaintext
files, whatever is done, a restart and an unlock with the password on record restore the latest contents - with these
exceptions, each of them exact:

- A crash inside `changePassword` after the first file is sealed and before the new hash is saved. The new salt is
  then only in memory; the recovery step removes any plaintext copy that is left beside a sealed one, and unlock fails
  (`OneFileLost` is the smallest case). Every other crash point of a change whose writes succeed is safe.
- A change in which a sealed copy or the new hash cannot be written is undone, and the unsafe part lasts until the
  undoing has ended.
- A change that writes the new hash but cannot set the permissions of its file is undone in memory only. Locking that
  session seals the files under the old key while the disk names the new one: a restart then restores them if and only
  if there was no file to seal, although the running process can still open them with the old password, which also
  puts the old hash back (`LockAfterDivision`).

When a file cannot be sealed while locking, the session ends all the same, and exactly that file and those after it
stay plaintext; nothing is lost. Sealing removes a file's side files ("-wal" and "-shm"), and recovery does exactly
where it drops the plaintext of a file that is already sealed. So a crash between the removal of the plaintext and
that of its side files leaves one that no recovery sweeps, but the next sealing does (`OrphanStays`,
`CrashLeavesOrphan`, `NextSealingSweeps`). The retry limiter's bound is proved on a whole-second clock, for the
limiter that unlock uses.

**Canvas** (`FlowModels`, `FlowPaths`, `FlowGraph`, `FlowCanvas`). `toGraph` followed by `fromGraph` keeps every
operation, its order, id and settings. Two exact conditions: an endpoint's path is kept if and only if the canvas is
empty, covers the endpoint, or the endpoint's remote is not blank (the key of a local endpoint is split wrongly and
its path becomes a remote); the action is kept unless a blank action column stood for a `sync_config` action other
than push. Opening the saved flow again shows the saved locations, with their ids, labels and places, if and only if
no such wrongly split endpoint has the key of another location; then saving it again stores the same operations.

## Model

| member | source | states |
|---|---|---|
| Argon2Context.AlignmentIsWellFormed | Sources/CArgon2/argon2.c:53-77 | every validated parameter block yields lanes of four segments of at least two blocks that use all of m_cost but less than one block per segment, with the passes, lanes, version and type asked for and at most one thread per lane |
| Argon2Context.ValidExactly | Sources/CArgon2/core.c:388-513 | the parameter blocks that pass validation, bound by bound |
| Argon2Context.CodesTell | Sources/CArgon2/core.c:388-513 | for each code, what is wrong with a parameter block that gets it |
| Argon2Index.IndexAlphaIsRfc9106 | Sources/CArgon2/core.c:189-257 | the modular 32/64-bit computation is element abs(W)-1-y of the ordered reference set W of RFC 9106 section 3.4.2, and W is never empty |
| Argon2Index.IndexAlphaClosedForm | Sources/CArgon2/core.c:225-256 | no intermediate value wraps: the column is the plain integer expression |
| Argon2Index.CandidatesAreCyclic | Sources/CArgon2/core.c:207-254 | the candidate blocks follow each other cyclically from the start position |
| Argon2Index.ReferenceIsSafe | Sources/CArgon2/core.c:189-257 | the chosen column is inside the lane, already computed, neither current nor previous in the own lane, and outside the slice being filled in any other lane |
| Argon2Fill.OffsetRoundTrip | Sources/CArgon2/ref.c:130-142 | lane and column are recovered from a block offset, and the offset is inside the memory |
| Argon2Fill.FillFirstBlocks | Sources/CArgon2/core.c:515-536 | columns 0 and 1 of each lane get the two hashed blocks, everything else is unchanged |
| Argon2Fill.NextAddresses | Sources/CArgon2/ref.c:83-88 | the counter word goes up by one and the address block is the double compression of the new input block |
| Argon2Fill.CachedAddress | Sources/CArgon2/ref.c:152-160 | at every index the cached block yields word index mod 128 of the address block with counter index/128 + 1, as in RFC 9106 section 3.4.1.2 |
| Argon2Fill.StartBuffers | Sources/CArgon2/ref.c:104-130 | the cache is ready at the first index, also in the very first segment, which starts at 2 |
| Argon2Fill.StartOffsets | Sources/CArgon2/ref.c:132-142 | the running offsets start at the block of the first index and its cyclic predecessor, stale only where the loop rotates them |
| Argon2Fill.RotatePrev | Sources/CArgon2/ref.c:147-150 | the previous offset is always the cyclic predecessor in the lane |
| Argon2Fill.ReferenceOffset | Sources/CArgon2/ref.c:162-179 | lane and column of the reference block, as an offset inside the memory |
| Argon2Fill.CreateBlock | Sources/CArgon2/ref.c:178-192 | one block is written, by overwriting or XOR according to version and pass, and no other changes |
| Argon2Fill.FillSegment | Sources/CArgon2/ref.c:90-194 | the loop with running offsets and cached addresses leaves the memory of the one-block-at-a-time definition |
| Argon2Fill.FillMemoryBlocksSt | Sources/CArgon2/core.c:260-275 | all passes, slices and lanes in order |
| Argon2Lanes.WrittenOncePerPass | Sources/CArgon2/ref.c:121-193 | in each pass a block has a slice, lane and index of fill_segment that writes it if and only if the pass is not the first or its column is at least 2, and never two of them |
| Argon2Lanes.FirstPassWritesEverything | Sources/CArgon2/core.c:515-536 | fill_first_blocks writes exactly the blocks that no position of pass 0 writes, each with the hash of its column and lane, and changes no other |
| Argon2Lanes.NewBlockAgrees | Sources/CArgon2/ref.c:162-192 | a new block depends only on its own lane and on columns outside the slice being filled |
| Argon2Lanes.StepKeepsLanesAlone | Sources/CArgon2/core.c:317-353 | whichever lane writes next, every lane stays as if it had run alone from the start of the slice |
| Argon2Lanes.FinishedSliceIsSequential | Sources/CArgon2/core.c:260-275 | a finished slice equals the one of the sequential lane loop, however the lanes interleaved |
| Argon2Threads.StepKeepsInvariant | Sources/CArgon2/core.c:292-372 | every step of the main thread and of the lane threads keeps the invariant |
| Argon2Threads.EveryScheduleIsSequential | Sources/CArgon2/core.c:292-386 | every finished schedule, for every thread limit, leaves the memory of the single-threaded loop |
| Argon2Threads.JoinDiscipline | Sources/CArgon2/core.c:317-366 | at most `threads` threads are live, joins hit created and unjoined threads only, and a slice ends with all joined |
| Argon2Threads.NeverStuck | Sources/CArgon2/core.c:292-372 | until the run is finished some step is possible |
| Argon2Threads.RunIsBounded | Sources/CArgon2/core.c:292-372 | no schedule is longer than the work there is |
| Argon2Threads.AnyLaneMayRun | Sources/CArgon2/core.c:277-290 | whatever the other lanes do, a running thread may write its next block, which changes that block only, and exit after its last |
| Argon2Threads.FillMemoryBlocksMt | Sources/CArgon2/core.c:292-372 | under any scheduler the run ends and leaves the memory of the single-threaded loop |
| Argon2Threads.FillMemoryBlocks | Sources/CArgon2/core.c:376-386 | one thread or several, the memory is the same |
| Argon2Tag.FillIgnoresGarbage | Sources/CArgon2/ref.c:162-192 | no block is read before it is written: the result does not depend on what the memory held |
| Argon2Tag.Finalize | Sources/CArgon2/core.c:155-187 | the tag is made from the XOR of the last blocks of all lanes |
| Argon2Tag.Argon2Ctx | Sources/CArgon2/argon2.c:39-98 | an invalid context gives its validation code, an unknown type IncorrectType, and a valid call the tag, with any number of threads under any scheduler and in memory of any content |
| Argon2Tag.TagIgnoresSchedule | Sources/CArgon2/argon2.c:39-98 | with several threads the tag is the same for every schedule |
| Argon2Tag.TagIgnoresThreads | Sources/CArgon2/argon2.c:69-77 | the thread limit does not change the tag |
| Argon2Rfc.RefOffsetIsRfc | Sources/CArgon2/ref.c:162-179 | for all J1 and J2 the reference offset is in lane J2 mod p, or in the own lane in the first slice of pass 0, and at element abs(W)-1-y of that lane's reference set, as in RFC 9106 section 3.4.2 |
| Argon2Rfc.NewBlockIsRfc | Sources/CArgon2/ref.c:90-194 | the next block of a lane is the one that the equations of RFC 9106 section 3.2 define for its place, addresses of section 3.4.1.2 included |
| Argon2Rfc.FilledBlockIsRfc | Sources/CArgon2/core.c:260-275 | after the filling every block of the memory is the one that those equations define, whatever the memory held |
| Argon2Rfc.TagIsRfc | Sources/CArgon2/core.c:155-187 | the tag is made from the XOR of the last column that the equations define |
| Bits.Eq8Bytes | Sources/CArgon2/encoding.c:74-74 | the macro is all ones exactly on equal bytes |
| Bits.Eq8Negative | Sources/CArgon2/encoding.c:74-74 | on a sign-extended negative character the macro is all ones whatever it is compared with |
| Bits.Compare | Sources/CArgon2/argon2.c:239-247 | the accumulated difference is zero exactly for equal byte strings |
| HashSpelling.AndSpelled | Sources/CArgon2/encoding.c:71-90 | each bit of the conjunction |
| HashSpelling.OrSpelled | Sources/CArgon2/encoding.c:71-90 | each bit of the disjunction |
| HashSpelling.XorSpelled | Sources/CArgon2/encoding.c:71-90 | each bit of the exclusive or |
| Base64.ByteToCharIsAlphabet | Sources/CArgon2/encoding.c:83-88 | the branch-free encoder is table 1 of RFC 4648 |
| Base64.CharValueIs | Sources/CArgon2/encoding.c:94-102 | the branch-free decoder inverts table 1 on ASCII, answers 255 off the table, and reads every character above 127 as 63 |
| HashSpelling.AlphabetSpelled | Sources/CArgon2/encoding.c:83-90 | the table holds the capitals, the small letters, the digits, plus and slash, in this order |
| HashSpelling.BitsSpelled | Sources/CArgon2/encoding.c:112-147 | bit k of the characters of an encoding is bit k of the bytes, and zero beyond them |
| Base64Stream.DecodeEncode | Sources/CArgon2/encoding.c:112-200 | the bytes of the encoded groups are the input, and the groups are canonical |
| Base64Stream.EncodeDecode | Sources/CArgon2/encoding.c:112-200 | the groups of the decoded bytes are the canonical input |
| Base64Loops.B64Len | Sources/CArgon2/encoding.c:440-453 | the length of the unpadded encoding |
| HashSpelling.EncodedLengthSpelled | Sources/CArgon2/encoding.c:440-459 | one character for every six bits, rounded up |
| Base64Loops.ToBase64 | Sources/CArgon2/encoding.c:112-146 | fails exactly when dst_len does not exceed the length, else writes exactly the encoding and a zero although the accumulator wraps |
| Base64Loops.FromBase64 | Sources/CArgon2/encoding.c:161-200 | accepts exactly the canonical runs whose bytes fit, writes those bytes and nothing else, and returns the text after the run |
| Base64Loops.DecodeTextOfEncode | Sources/CArgon2/encoding.c:161-200 | decoding inverts encoding on every byte string, whatever non-Base64 text follows |
| Base64Loops.EncodeOfDecodeText | Sources/CArgon2/encoding.c:161-200 | encoding inverts decoding if and only if the accepted text is ASCII |
| Decimal.NumLen | Sources/CArgon2/encoding.c:455-462 | the number of decimal digits |
| HashSpelling.DigitsSpelled | Sources/CArgon2/encoding.c:373-438 | the ten digits, and a number from its most significant digit on |
| Decimal.DecodeDecimal | Sources/CArgon2/encoding.c:209-236 | the overflow guards accept exactly the values that fit, of either width of unsigned long |
| Decimal.ParseDecimalIff | Sources/CArgon2/encoding.c:209-236 | a number is accepted exactly from its minimal printed form |
| HashString.CostsIff | Sources/CArgon2/encoding.c:335-342 | the cost fields are accepted exactly in their printed form, when each fits 32 bits |
| HashString.VersionIff | Sources/CArgon2/encoding.c:329-334 | the version field is read as printed, or defaults to 0x10 when absent |
| HashString.PrintThenParse | Sources/CArgon2/encoding.c:258-438 | every printed text is parsed back in full |
| HashString.ParseThenPrint | Sources/CArgon2/encoding.c:258-438 | a text parsed in full is the printed one if and only if it is ASCII and has a version; without a version it is the printed one less that field, if and only if it is ASCII |
| HashString.DecodeOfEncode | Sources/CArgon2/encoding.c:258-371 | decoding the text of a valid context recovers version, costs, lanes, salt and output, with as many threads as lanes, unless the caller's password buffer is invalid |
| HashString.EncodeOfDecode | Sources/CArgon2/encoding.c:258-438 | an accepted string is reproduced byte for byte if and only if it is ASCII and shows its version |
| HashString.OtherTextAccepted | Sources/CArgon2/encoding.c:94-102 | wherever a printed salt shows a slash, every character above 127 is accepted in its place with the same meaning |
| HashString.SomeTextTwice | Sources/CArgon2/encoding.c:94-102 | a concrete accepted string that is not what is printed for its parameters |
| HashSpelling.TextSpelled | Sources/CArgon2/encoding.c:403-438 | the printed form letter by letter, with the name of each type |
| HashSpelling.DecodeTells | Sources/CArgon2/encoding.c:326-366 | the text must parse, then the parameters are checked, and only then is trailing text refused |
| HashStringCode.EncodeString | Sources/CArgon2/encoding.c:373-438 | succeeds exactly for known types and valid contexts whose text and zero fit into dst_len, writes exactly them, and nothing beyond dst_len |
| HashStringCode.EncodedLen | Sources/CArgon2/argon2.c:447-452 | the announced size, with its digit and Base64 counts computed by the loops |
| HashStringCode.EncodedLenIsExact | Sources/CArgon2/argon2.c:447-452 | the announced size is that of the text and its zero if and only if the version has two digits |
| HashStringCode.AnnouncedLengthMisses | Sources/CArgon2/argon2.c:447-452 | with the same parameters and version 1 or 256 the context is still valid, and the announced size is one too large or one too small |
| HashStringCode.AnnouncedLengthSuffices | Sources/CArgon2/encoding.c:373-438 | for both published versions encoding succeeds exactly when dst_len is at least the announced size |
| HashStringCode.ParameterBlock.DecodeString | Sources/CArgon2/encoding.c:258-371 | an unknown type is refused with nothing changed; otherwise the result code is the one of decode_string, the block holds the parsed parameters whenever the whole string was parsed, also if it is then rejected, the lengths stay within the capacities, and nothing beyond them is written |
| BoardGraph.LayeringIsUnique | Sources/GNDriveCore/BoardEngine.swift:214-242 | a layering is determined by the set of edges, whatever their order |
| BoardGraph.LayeringIsAcyclic | Sources/GNDriveCore/BoardEngine.swift:226-229 | a board with a cycle, self-loops included, has no layering |
| BoardGraph.LessSpelled | Sources/GNDriveCore/BoardEngine.swift:230 | ids are ordered by their first differing character, a proper prefix first |
| BoardGraph.StuckHasCycle | Sources/GNDriveCore/BoardEngine.swift:226-229 | pending edges that all wait for pending edges contain a cycle (backward walk and pigeonhole) |
| BoardTopo.ReadyDepth | Sources/GNDriveCore/BoardEngine.swift:222-226 | an edge that becomes ready in round k has a longest chain of exactly k edges into its source |
| BoardTopo.ClearLayer | Sources/GNDriveCore/BoardEngine.swift:231-237 | the flags and counters afterwards are those of the edges outside the layer |
| BoardTopo.TopoLayers | Sources/GNDriveCore/BoardEngine.swift:214-242 | ends for every input; with distinct ids it reports a cycle if and only if there is one, with the number of edges no layering can place, and otherwise returns the layering by longest chain, each layer sorted by id |
| BoardRun.RunBoard | Sources/GNDriveCore/BoardEngine.swift:141-182 | edges are tried in layer order, each with the outcome of its own attempt, and the result says exactly why the run ended |
| BoardRun.UpstreamComesFirst | Sources/GNDriveCore/BoardEngine.swift:153-155 | everything upstream of an edge precedes it in the order |
| BoardRun.StartsAfterUpstream | Sources/GNDriveCore/BoardEngine.swift:153-176 | with stopOnError an edge starts only after every edge upstream of it succeeded |
| BoardRun.NoneAfterFailure | Sources/GNDriveCore/BoardEngine.swift:167-173 | with stopOnError a failed attempt is the last one and ends the run with its edge, and every other attempt succeeded |
| BoardRun.TriesEverything | Sources/GNDriveCore/BoardEngine.swift:141-182 | without it, an uncancelled run over known nodes tries each edge exactly once and fails if and only if some edge failed |
| BoardRun.TriedOnce | internal/boardengine/engine.go:213-265 | no run tries an edge twice |
| EventBus.EverySubscriptionServed | Sources/GNDriveCore/EventBus.swift:248-351 | in every interleaving a subscription handles a subsequence of the events it accepted, all of its own topics, holds at most 64, drops one only for 64 newer ones, and strands none |
| BusHistory.ListedAsDue | Sources/GNDriveCore/EventBus.swift:309-332 | after any actions a subscription is listed under a topic as often as it named it, and not at all once it was cancelled or the bus closed |
| BusHistory.PublishReachesTheDue | Sources/GNDriveCore/EventBus.swift:336-341 | a publish is to reach every subscription as often as it is due |
| BusHistory.PublishedIsAccepted | Sources/GNDriveCore/EventBus.swift:261-341 | a subscription not yet stopped has accepted an event exactly as often as it was published for it, once the deliveries have gone out, and never more often |
| BusHistory.AcceptsInOrder | Sources/GNDriveCore/EventBus.swift:261-270 | only a delivery that reaches it before it is stopped adds to what a subscription has accepted, at the end |
| BusHistory.StopIsDue | Sources/GNDriveCore/EventBus.swift:320-351 | the subscriptions to be stopped are those cancelled and those listed when the bus was closed |
| BusHistory.AllMay | Sources/GNDriveCore/EventBus.swift:261-351 | which actions are possible, publishing, closing and cancelling at any time |
| EventBus.ActionKeepsBusOk | Sources/GNDriveCore/EventBus.swift:261-351 | every critical section and every step between two keeps the bus invariant |
| EventBus.DropNeedsNewer | Sources/GNDriveCore/EventBus.swift:264-268 | only the oldest event is dropped, and only when 64 newer ones have been accepted |
| EventBus.Subscription.EnqueueSection | Sources/GNDriveCore/EventBus.swift:261-270 | the mailbox afterwards, with its history |
| EventBus.Subscription.DrainSection | Sources/GNDriveCore/EventBus.swift:271-280 | the event handed to the handler and the mailbox left |
| EventBus.Subscription.StopSection | Sources/GNDriveCore/EventBus.swift:285-290 | the mailbox is empty and stays so |
| FlowEngine.EveryRunIsOrderly | Sources/GNDriveCore/FlowEngine.swift:62-165 | in every interleaving: one live run a flow, operations started in order with all earlier ones completed, at most one start after a stop, one terminal event, "completed" only if every operation completed, and no flow both running and finished |
| FlowEngine.ActionKeepsEngineOk | Sources/GNDriveCore/FlowEngine.swift:62-165 | every critical section of execute, stop and run keeps the engine invariant |
| FlowEngine.StatusesAgree | Sources/GNDriveCore/FlowEngine.swift:48-59 | the two status views agree, and an answer is terminal exactly when no run of the flow is live |
| FlowHistory.StatusIsTold | Sources/GNDriveCore/FlowEngine.swift:48-59 | for every list of actions the status of a flow is running since the last execute, cancelling since a stop after it, and after the run has left the verdict of its own actions |
| FlowHistory.RunEndsByItsActions | Sources/GNDriveCore/FlowEngine.swift:101-165 | a run leaves as completed if all its operations completed, as failed if one could not be started, as cancelled if a stop was seen before an operation, and after an error as cancelled or failed according to whether a stop or the task's cancellation came before |
| FlowHistory.AnnouncesItsVerdict | Sources/GNDriveCore/FlowEngine.swift:101-112 | the one terminal event announces that verdict |
| FlowHistory.OneStartAfterStop | Sources/GNDriveCore/FlowEngine.swift:83-165 | after a stop of its flow a run starts at most one more operation, and only if it had made its check before |
| FlowHistory.CallersMay | Sources/GNDriveCore/FlowEngine.swift:62-94 | stop is accepted exactly while the status is running or cancelling, execute exactly when it is not and there are operations |
| FlowHistory.RunsMay | Sources/GNDriveCore/FlowEngine.swift:101-165 | the actions a run may take after each of its actions, and no others |
| FlowEngine.RunLoop | Sources/GNDriveCore/FlowEngine.swift:101-165 | the loop stops at the first operation that is not completed, and its final status says why |
| FlowEngine.FlowRunner.ExecuteSection | Sources/GNDriveCore/FlowEngine.swift:62-75 | an empty or running flow is refused, otherwise the run is entered and the old status dropped |
| FlowEngine.FlowRunner.StopSection | Sources/GNDriveCore/FlowEngine.swift:83-94 | the live run is marked cancelled and its status is cancelling, or the call is refused; nothing else changes |
| FlowEngine.FlowRunner.LeaveSection | Sources/GNDriveCore/FlowEngine.swift:103-108 | the run leaves one map and its outcome enters the other in the same step |
| FlowEngine.FlowRunner.StatusSection | Sources/GNDriveCore/FlowEngine.swift:48-52 | the status of the active run, else the last outcome, else none |
| SyncEngine.KeysAreExclusive | Sources/GNDriveCore/SyncEngine.swift:181-204 | in every run without stop() a busy key has exactly one holder, and every sync task that is over has stored exactly one outcome |
| SyncEngine.CleanUpReleases | Sources/GNDriveCore/SyncEngine.swift:341-350 | the outcome is stored in the step in which a sync task leaves `active` and frees its own key only |
| SyncEngine.WaitsAreTruthful | Sources/GNDriveCore/SyncEngine.swift:209-224 | each outcome goes to one wait at most, which returns normally if and only if the outcome is "completed"; "completed" means the transfer did not fail, "failed" that it was made and failed with nobody having asked to cancel by the look after it, "cancelled" that somebody asked |
| SyncEngine.UncancelledIsExact | Sources/GNDriveCore/SyncEngine.swift:361-412 | without a cancellation the outcome is "completed" exactly when there was no transfer or it did not fail, and "failed" otherwise |
| SyncEngine.RanIffClientAtCall | Sources/GNDriveCore/SyncEngine.swift:361-375 | a sync task has made its transfer if and only if a client was attached at the step that called it, and there is such a step |
| SyncHistory.OutcomeIsTold | Sources/GNDriveCore/SyncEngine.swift:341-412 | for every list of actions the outcome of a task that is over is the one that its transfer and the cancellations amount to |
| SyncHistory.CancelledExactly | Sources/GNDriveCore/SyncEngine.swift:341-412 | it is "cancelled" if and only if the transfer threw and somebody had cancelled in time, or the status was cancelled between its setting and its last reading |
| SyncHistory.BusyIsTold | Sources/GNDriveCore/SyncEngine.swift:181-204 | a key is busy from its reservation until the start attempt gives up or its task cleans up |
| SyncHistory.OutcomesAreTold | Sources/GNDriveCore/SyncEngine.swift:209-224 | an outcome is stored from the clean-up until a wait takes it |
| SyncHistory.TransferIsTold | Sources/GNDriveCore/SyncEngine.swift:110-122 | a task has made its transfer if and only if the last attach or detach before the call was an attach |
| SyncHistory.CallersMay | Sources/GNDriveCore/SyncEngine.swift:181-224 | a key can be reserved exactly while it is not busy, an outcome taken exactly while it is stored, and a task cancelled at any time |
| SyncHistory.TasksMay | Sources/GNDriveCore/SyncEngine.swift:341-412 | the next steps of a task at each of its stages |
| SyncEngine.ActionKeepsEngineOk | Sources/GNDriveCore/SyncEngine.swift:181-427 | every critical section keeps the registry invariant |
| SyncEngine.SyncRegistry.ReserveSection | Sources/GNDriveCore/SyncEngine.swift:181-188 | a busy key is refused, a free one taken |
| SyncEngine.SyncRegistry.RegisterSection | Sources/GNDriveCore/SyncEngine.swift:195-196 | the sync task enters `active`, nothing else changes |
| SyncEngine.SyncRegistry.CleanUpSection | Sources/GNDriveCore/SyncEngine.swift:345-349 | the three collections after the deferred block |
| SyncEngine.SyncRegistry.TakeSection | Sources/GNDriveCore/SyncEngine.swift:212-221 | what one look for an outcome returns or throws, and that it consumes it |
| FlowSync.CompletedMeansNoneFailed | Sources/GNDriveCore/FlowEngine.swift:101-165 | with both engines, other callers and detachments of the client interleaved, a flow is announced as completed only if it ran a sync task under the key of each of its operations and no transfer of theirs failed |
| FlowSync.CompletedFlowTransferred | Sources/GNDriveCore/SyncEngine.swift:361-412 | each operation of a flow announced as completed made its transfer if and only if a client was attached at the step that called it |
| FlowSync.CompletedWithClient | Sources/GNDriveCore/SyncEngine.swift:361-412 | with a client attached all the time, a flow announced as completed has transferred every operation |
| FlowSync.CompletedWithoutTransfer | Sources/GNDriveCore/AppContainer.swift:122-132 | a run in which the client is detached while a flow runs, and the flow is announced as completed without a transfer |
| FlowSync.TransfersDoNotOverlap | Sources/GNDriveCore/FlowEngine.swift:114-164 | when an operation has been started, the sync tasks of all earlier operations of the run are over and their transfers did not fail |
| FlowSync.EndsAreOutcomes | Sources/GNDriveCore/FlowEngine.swift:142-164 | the end of an operation that a run goes by is the outcome of the operation's own sync task |
| FlowSync.ActionKeepsJointOk | Sources/GNDriveCore/FlowEngine.swift:124-141 | every step of either engine and every joint step keeps both invariants and the link between a run and its sync tasks |
| AuthFiles.EncryptKeeps | Sources/GNDriveCore/AuthService.swift:359-368 | while files are sealed each survives as plaintext or sealed under that key, and none is plaintext at the end |
| AuthFiles.DecryptRestores | Sources/GNDriveCore/AuthService.swift:370-378 | opening with the right key restores every file and loses none on the way |
| AuthFiles.WrongKeyChangesNothing | Sources/GNDriveCore/AuthService.swift:370-378 | with any other key nothing is written, and an error is thrown exactly if a sealed file exists |
| AuthFiles.RecoverKeeps | Sources/GNDriveCore/AuthService.swift:341-357 | crash recovery removes only copies that are not needed |
| AuthAccess.RecoversEach | Sources/GNDriveCore/AuthService.swift:341-357 | of a file with two copies recovery keeps the sealed one if a password is on record and the plaintext otherwise, and touches no other file |
| AuthFiles.SealingSweeps | Sources/GNDriveCore/AuthService.swift:359-368 | after sealing, no "-wal" or "-shm" file of a sealed file is left |
| AuthFiles.OrphanStays | Sources/GNDriveCore/AuthService.swift:341-357 | a side file survives recovery if and only if its file is not one that has a password on record, a plaintext and a sealed copy |
| AuthFiles.CrashLeavesOrphan | Sources/GNDriveCore/AuthService.swift:359-368 | after a crash between the removal of a plaintext and that of its side files, in sealing or in recovery, no recovery removes them |
| AuthFiles.NextSealingSweeps | Sources/GNDriveCore/AuthService.swift:359-378 | once the files have been opened and sealed again, no file that exists has a side file left |
| AuthOps.StartSafe | Sources/GNDriveCore/AuthService.swift:73-105 | starting, with recovery and resuming, keeps the files recoverable after each file operation |
| AuthAccess.StartsOpenExactly | Sources/GNDriveCore/AuthService.swift:73-105 | a session is open after a start if and only if no password is on record or a remembered key opens every sealed file, of which there is one |
| AuthAccess.ResumesExactly | Sources/GNDriveCore/AuthService.swift:395-414 | a remembered key is used if and only if it opens every sealed file, and forgotten if it does not |
| AuthOps.UnlockSafe | Sources/GNDriveCore/AuthService.swift:179-231 | so does unlock, which succeeds with the password on record |
| AuthAccess.WrongPasswordIsRefused | Sources/GNDriveCore/AuthService.swift:201-211 | any password but the one on record is refused, the session stays locked, and no file, side file or key changes |
| AuthAccess.UnlocksExactly | Sources/GNDriveCore/AuthService.swift:213-231 | a locked service is opened by the password on record and by no other; the key is then in memory and in the key store |
| AuthAccess.UnlockNeedsALock | Sources/GNDriveCore/AuthService.swift:181-182 | without a password, or when unlocked already, unlock does nothing |
| AuthOps.LockSafe | Sources/GNDriveCore/AuthService.swift:234-257 | so does lock, also when a file cannot be sealed |
| AuthOps.PlaintextLeft | Sources/GNDriveCore/AuthService.swift:249-257 | a locked session leaves the plaintext of exactly the files from the one that could not be sealed on |
| AuthAccess.LockAnswers | Sources/GNDriveCore/AuthService.swift:234-257 | a session with a key is locked and one without stays open; lock forgets the remembered key and suspend keeps it |
| AuthAccess.OpenPlaintextAnswers | Sources/GNDriveCore/AuthService.swift:122-132 | a locked service opens without a password if and only if no file is sealed |
| AuthAccess.SetupAnswers | Sources/GNDriveCore/AuthService.swift:160-177 | a password is set up if and only if there is none and it has four characters; it is then on record, in memory and in the key store |
| AuthAccess.RemoveIsGuarded | Sources/GNDriveCore/AuthService.swift:299-312 | a password is removed if and only if the session is open and the password is that on record; a refused call changes nothing |
| AuthAccess.RemoveCleans | Sources/GNDriveCore/AuthService.swift:299-312 | removing the password removes every sealed copy and no plaintext |
| AuthAccess.ChangeIsGuarded | Sources/GNDriveCore/AuthService.swift:259-266 | the checks of changePassword in their order; a refused call changes nothing |
| AuthAccess.ChangeAnswers | Sources/GNDriveCore/AuthService.swift:266-297 | what each failing write leaves on disk and in memory, and the error |
| AuthOps.RecoverableRestores | Sources/GNDriveCore/AuthService.swift:341-378 | from every recoverable disk, starting and unlocking with the password on record restores the latest contents |
| AuthOps.ChangeKeepsFiles | Sources/GNDriveCore/AuthService.swift:259-297 | at every point of a password change each file survives as plaintext or sealed under the new key |
| AuthOps.ChangeCompletes | Sources/GNDriveCore/AuthService.swift:259-297 | a complete change leaves plaintext files and the new key on record and in memory |
| AuthOps.AbortedChangeIsUndone | Sources/GNDriveCore/AuthService.swift:272-292 | when a sealed copy or the new hash cannot be written, the files are plaintext again and the old hash, key and session remain |
| AuthOps.CrashDuringChange | Sources/GNDriveCore/AuthService.swift:259-297 | after a crash during a change the files can be restored if and only if no file had been sealed or the new hash had been saved |
| AuthOps.OneFileLost | Sources/GNDriveCore/AuthService.swift:272-292 | one plaintext file: a crash after the first file operation of the sealing loses it |
| AuthOps.CrashDuringAbort | Sources/GNDriveCore/AuthService.swift:272-292 | after a crash while a failed change is sealed and undone the files can be restored if and only if no file had been sealed or the undoing had ended |
| AuthOps.ChangeDivides | Sources/GNDriveCore/AuthService.swift:285-292 | when the new hash is written but its permissions cannot be set, the files are plaintext, the new hash is on disk, and the old hash, key and session remain in memory |
| AuthOps.LockAfterDivision | Sources/GNDriveCore/AuthService.swift:234-292 | after a lock of such a session a restart restores the files if and only if no file was sealed, while the same process opens them with the old password and puts the old hash back on disk |
| AuthServices.AuthService.constructor | Sources/GNDriveCore/AuthService.swift:73-105 | the disk after every file operation of the start, and the state reached |
| AuthServices.AuthService.UnlockWith | Sources/GNDriveCore/AuthService.swift:179-231 | refused exactly during a lockout, with nothing changed; otherwise a password other than the one on record is refused and recorded, the session and the files unchanged, and the file operations, the state and the error are those of Unlock; a success clears the record |
| AuthServices.AuthService.LockSession | Sources/GNDriveCore/AuthService.swift:234-257 | likewise for lock, also when a file cannot be sealed |
| AuthServices.AuthService.SuspendSession | Sources/GNDriveCore/AuthService.swift:243-257 | likewise for suspend |
| AuthServices.AuthService.ChangePasswordTo | Sources/GNDriveCore/AuthService.swift:259-297 | likewise for changePassword, also when sealing a file, saving the hash or setting its permissions throws |
| AuthServices.AuthService.ResumeRememberedKey | Sources/GNDriveCore/AuthService.swift:395-414 | resumes exactly if a remembered key of the right length opens every sealed file, and forgets one that does not or has another length |
| AuthServices.AuthService.DecryptConfigFiles | Sources/GNDriveCore/AuthService.swift:370-378 | the loop performs the listed file operations and stops at the first file it cannot open |
| AuthServices.AuthService.SetupPassword | Sources/GNDriveCore/AuthService.swift:160-177 | the file operations, state and error are those of Setup |
| AuthServices.AuthService.OpenPlaintextSession | Sources/GNDriveCore/AuthService.swift:122-132 | a locked service opens without a key exactly if no sealed file exists |
| AuthServices.AuthService.RemovePasswordNow | Sources/GNDriveCore/AuthService.swift:299-312 | the file operations, state and error are those of RemovePassword |
| AuthRuns.EveryRunRestores | Sources/GNDriveCore/AuthService.swift:73-378 | over all runs with crashes between any two file operations and with failing writes, except for crashes inside the unsafe part of a password change and locks of a session whose hash could not be given its permissions, restart and unlock restore the latest contents of every file |
| AuthRuns.CrashKeeps | Sources/GNDriveCore/AuthService.swift:341-378 | every crash outside that part leaves a recoverable disk |
| AuthRetry.RetryLimiter.Admit | Sources/GNDriveCore/AuthService.swift:184-202 | refused exactly during a lockout, with the time left; otherwise admitted after exactly the required delay of 0, 1, 2, 4, ... or 64 seconds and what the sleep takes longer |
| AuthRetry.RetryLimiter.RecordFailure | Sources/GNDriveCore/AuthService.swift:204-211 | the failed check is recorded, every tenth locks out for 300 seconds, and the stored counter stays in 0..9 |
| AuthRetry.RetryLimiter.OwnChecksAreSlow | Sources/GNDriveCore/AuthService.swift:179-211 | the limiter's own n-th failed check comes at least 427 seconds later for every ten before it |
| AuthRetry.RoundTotal | Sources/GNDriveCore/AuthService.swift:64-66 | ten failed checks and the lockout take 127 + 300 seconds |
| AuthRetry.GuessingIsSlow | Sources/GNDriveCore/AuthService.swift:64-66 | checks kept apart by the delays and lockouts come at least 427 seconds later for every ten before them |
| FlowModels.NormalActionKeeps | Sources/GNDriveCore/Models.swift:215-230 | normalising an operation keeps the action it executes and is idempotent |
| FlowPaths.ActionsTold | Sources/GNDriveCore/Models.swift:184-187 | "bi" and "bi-resync" are told by their trimmed text, and everything else is push |
| FlowPaths.ActionResolves | Sources/GNDriveCore/Models.swift:215-230 | the action column decides unless it is blank, then the text in sync_config, then push; normalising writes the answer to both places |
| FlowPaths.TrimKeepsTheMiddle | Sources/GNDriveCore/Models.swift:249-252 | trimming cuts spaces off both ends and nothing else |
| FlowPaths.SpacesAre | Sources/GNDriveCore/Models.swift:249-252 | the code points that count as spaces |
| FlowModels.ComposeDependsOnNormal | Sources/GNDriveCore/Models.swift:249-259 | the path given to rclone depends only on the trimmed remote and the normalised path |
| FlowPaths.ComposedPathIs | Sources/GNDriveCore/Models.swift:249-259 | on a named remote the path for rclone splits at its first colon into the remote and the path, empty for the root; elsewhere it is the path |
| FlowPaths.PathTellsEndpoint | Sources/GNDriveCore/Models.swift:249-259 | two endpoints on remotes get the same path if and only if they are the same remote and path |
| FlowGraph.SameKeySamePath | Sources/GNDriveApp/FlowGraph.swift:54-61 | equal location keys mean equal paths for rclone |
| FlowGraph.ToGraph | Sources/GNDriveApp/FlowGraph.swift:130-178 | the nodes, with ids, labels and places, are those shown for stored locations and endpoints, one for each key, and each operation has its edge, in order |
| FlowGraph.FromGraph | Sources/GNDriveApp/FlowGraph.swift:201-229 | each edge between existing nodes becomes one operation, in order, on top of the previous operation of that id, and the nodes become the stored canvas |
| FlowGraph.EndpointStands | Sources/GNDriveApp/FlowGraph.swift:149-168 | the node shown for an endpoint stands for the same path if and only if the canvas covers it or its remote is not blank |
| FlowGraph.EndpointIsSame | Sources/GNDriveApp/FlowGraph.swift:149-168 | in exactly these cases the node is the endpoint itself, the same remote and the same path |
| FlowGraph.LastStoredCounts | Sources/GNDriveApp/FlowGraph.swift:136-141 | of the stored nodes with a key the last one is shown |
| FlowGraph.NewNodesAreBlank | Sources/GNDriveApp/FlowGraph.swift:108-168 | a node made for an endpoint has the id and the place of its key and no label |
| FlowGraph.EdgesTaken | Sources/GNDriveApp/FlowGraph.swift:206 | exactly the edges between existing nodes are taken |
| FlowGraph.RoundTripKeepsOrder | Sources/GNDriveApp/FlowGraph.swift:170-229 | no operation is lost or moved |
| FlowGraph.RoundTrip | Sources/GNDriveApp/FlowGraph.swift:130-229 | id and settings stay; paths and action stay if and only if the stated conditions hold |
| FlowGraph.RoundTripExecutesTheSame | Sources/GNDriveApp/FlowGraph.swift:130-229 | a normalised flow on an empty or complete canvas keeps every action and both endpoints, remote and path, over the round trip, and so executes the same |
| FlowCanvas.ReopenedNodes | Sources/GNDriveApp/FlowGraph.swift:130-229 | a saved flow that is opened again shows exactly the saved locations if and only if no two locations have the same key |
| FlowCanvas.KeysAreDistinct | Sources/GNDriveApp/FlowGraph.swift:139-168 | the locations have distinct keys if and only if no local endpoint outside a non-empty canvas has a path that, taken for a remote, is the key of another location |
| FlowCanvas.SomeEndClashes | Sources/GNDriveApp/FlowGraph.swift:149-168 | a local path "/data" beside a canvas location whose remote is "/data" is such an endpoint |
| FlowCanvas.SavingAgainChangesNothing | Sources/GNDriveApp/FlowGraph.swift:130-229 | with distinct keys the edges join the same locations again, and saving once more stores the same operations |

## Left out

- BLAKE2b, the block permutation, H' and the hash H0: parameters of the model; their sources are not part of it.
- Thread creation and join failures, memory allocation failures and memory wiping in `core.c`: they depend on the platform.
- Argon2Threads.EveryScheduleIsSequential: a block write is one atomic step; the order of word accesses inside one block is not modelled.
- `argon2_hash` and `argon2_verify`: wrappers around the modelled functions; a NULL context is not modelled.
- Base64.CharValueIs: holds where `char` is signed; where it is unsigned, characters above 127 are off the table and the round trip needs no ASCII condition.
- HashStringCode.ParameterBlock.DecodeString: when the string cannot be parsed, which of the number fields and buffer bytes have been overwritten by then is not described.
- HashStringCode.EncodeString: works on a context value, since encoding does not change it.
- BoardTopo.TopoLayers: sorting is the library's, modelled as insertion into a list by character order; the unordered equality of Swift strings that are canonically equivalent is not modelled. With repeated ids only termination is claimed.
- `BoardEngine.execute`, `stop` and `status`: the same pattern as `FlowEngine`, which is modelled.
- BoardRun.RunBoard: progress callbacks and published events are not part of the trace.
- FlowEngine.RunLoop: one run by itself, with the answers of the sync engine as parameters; FlowSync has both engines.
- SyncEngine.KeysAreExclusive: for runs without `SyncEngine.stop`, which clears the keys of sync tasks still running.
- SyncEngine.SyncRegistry.TakeSection: one look of `waitTask`; that an outcome ever arrives depends on the transfer ending.
- Schedules, cron, history rows and progress events of `SyncEngine`: I/O around the protocol.
- AuthFiles.EncryptKeeps: file operations are atomic and removals succeed; side files are modelled by their presence only, not their contents.
- AuthFiles.RecoverKeeps: removals succeed; side files are modelled by their presence only.
- AuthRuns.EveryRunRestores: no sealed file exists before a password is set up.
- AuthServices.AuthService.ChangePasswordTo: one write fails in a change; a further failure while undoing it is not modelled, nor are failing writes in setupPassword and unlock.
- AuthServices.AuthService.UnlockWith: calls follow one another, so concurrent calls that sleep at the same time are not modelled, nor a crash between a failed check and the saving of its counter.
- AuthRetry.RetryLimiter.RecordFailure: the counters are the stored ones; their place in auth.json is not part of the file model.
- AES-GCM, Argon2 verification and the keychain: a sealed file opens only with its key, a hash verifies only its password, and the key store is one cell.
- FlowGraph.FromGraph: the viewport, which passes through, and the JSON text around the stored nodes.
- FlowGraph.ToGraph: the viewport and the JSON text of the canvas are left out; ids and places of new nodes are a function of the key that is a parameter, so collisions of the 32-bit `stableNodeId` appear only as the demand for distinct ids, and the row an extra node gets from the order of a Swift set is any row.
- `connectError` (the check of a new edge on the canvas), `stableNodeId` (the FNV-1a hash behind node ids) and the functions that copy sync options between field names.
- The Go services, HTTP handlers, SwiftUI views, SQLite, log parsing, installers and localisation.
