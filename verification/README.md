# Verification of the event-sourced memory

This project models the core of `weavatrix-memory`, an event-sourced, bitemporal memory, in Dafny and
proves what its parts promise. `dafny verify dfyconfig.toml` checks everything.

The model has a value level (datatypes and functions: what an event, a snapshot, a file or a request
means) and, where the crate works by mutation, classes and methods with loops that are proved against it.

| file | component |
|---|---|
| `Common`, `Unicode`, `Domain` | results and errors, machine integers, text, what its byte tests mean, nodes, facts, events and their validation |
| `Projections`, `Views` | the three events on a plain projection; bitemporal views; the known past; supersession chains |
| `IdIndexes`, `Incidents`, `MemoryProjections` | the prehashed id index, the counting-sort incident index with its delta, and the projection object that keeps all of them in step |
| `EventLogs` | views, acceptance and replay read off the recorded events alone |
| `Replay`, `TypedReplay`, `Parts`, `BulkReplay` | replay with cursor checks, resuming, bulk construction, and the agreement of the routes |
| `CompactIo`, `ZigzagWords`, `CompactCodec`, `CompactLaws`, `CompactLayout`, `CompactCanon`, `CompactWriter`, `CompactReader`, `Resumption` | the compact snapshot format as printers and parsers, its laws, its bytes, its canonical form, the writing and reading objects, and the end-to-end resume theorem |
| `Crc32c`, `Frames`, `FrameReader` | CRC32C (section 12.1 of RFC 3720), the journal format, its scan, and the loops over short reads |
| `Stores`, `FileStores` | the in-memory store and its runs; the durable store with failing devices, rollback, crashes and recovery |
| `Neighborhoods`, `Compiler`, `Tokens` | the breadth-first neighborhood and the greedy, budgeted selection of a context |
| `Subscriptions` | the acknowledged catch-up subscription over every interleaving |
| `Sorting`, `Fusion` | stable sorting and reciprocal-rank fusion |
| `Limits`, `LoopLimits` | concrete runs on the failing side of the exact conditions proved elsewhere |

How the crate's environment enters the model:

- The hash of the id index is an arbitrary function, the event codec an arbitrary pair of functions of
  which only `decode(encode(e)) == e` is assumed, token costs are arbitrary functions (`Tokens` has the
  crate's own).
- The operating system is a parameter: a `Device` says how each call of an append is answered, a
  schedule says how a file arrives in short reads and which read fails, and a crash leaves any prefix of
  what was written, down to the bytes that had been synced. Retrieval providers are values that hold their hits or a failure.
- Integers are unbounded; the limits of 64-bit counters, positions and lengths are written out where the
  code checks them. Hash and tree maps are `map`; tree order is the sorted sequence of keys.

Where the code promises less than its description, the model follows the code:

- "Without rewriting what an agent knew yesterday" (README.md:296-298 of the crate) fails when a fact is
  retracted twice, because the second retraction overwrites the first. `Views.KnownPastKept` gives the
  exact condition and `Limits.SecondRetractionRewrites` a run.
- A fact may carry a confidence above 10,000 through `apply`, but not through a snapshot:
  `Resumption.ReplayedRoundTrip`, `Limits.OverconfidenceIsLost`.
- Resuming does not remember the ids of the events before the snapshot: `Resumption.EndToEndResume`,
  `Limits.RepeatedIdResumes`.
- Bulk construction accepts a replacement before the fact it replaces: `BulkReplay.PartsMeetReplay`,
  `Limits.BulkAllowsForwardReplacement`.
- A self-loop is charged twice for its node, so the estimate can exceed the cost, and a self-loop omitted
  for that can fit in the end. `Compiler.NothingTwice` and `Compiler.OmittedFits` say when this happens in
  one selection. On the request, before any selection, `Compiler.LoopsDecide` is the exact condition for
  the first and `Compiler.FollowersDecide` for the second, each over all costs; `LoopLimits` has a request
  for each.
- The decoder accepts bytes the encoder never writes: padded integers and map entries out of key order,
  and nothing else. `CompactCanon.CanonicalIsEncoded` is the exact condition;
  `Resumption.OverlongAccepted` and `Limits.SwappedAccepted` are one input of each kind.

## Model

| member | source | states |
|---|---|---|
| `Projections.InsertNodeInv` | src/projection/memory/mod.rs:126-138 | an accepted upsert keeps nodes and facts unique and well-formed and keeps every supersession and retraction entry backed by its fact |
| `Projections.InsertFactInv` | src/projection/memory/mod.rs:140-182 | an accepted fact keeps the same invariant and registers exactly the replacement it declares |
| `Projections.RetractFactInv` | src/projection/memory/mod.rs:191-222 | an accepted retraction keeps the invariant and changes one entry of the retraction map |
| `Projections.ApplyInv` | src/projection/memory/apply.rs:27-62 | every accepted event preserves the whole invariant and sets the last position |
| `Views.LatestIsMaximal` | src/projection/memory/mod.rs:225-231 | the latest revision is the known one of greatest recording time, then greatest position, then listed last; there is none exactly when all are recorded later |
| `Views.VisibleMeaning` | src/projection/memory/mod.rs:225-231 | a history shows a node, if and only if that is the node of its one maximal revision known by then |
| `Views.VisibleNodesMeaning` | src/projection/memory/mod.rs:82-87 | the nodes of a view are one for each history with a known revision, in history order, each that of the history's maximal known revision |
| `Views.ViewMeaning` | src/projection/memory/mod.rs:82-104 | with or without the all-nodes-visible shortcut, a view is the visible nodes and exactly the active facts between visible nodes, in append order |
| `Views.KnownPastKept` | src/projection/memory/mod.rs:82-124 | an accepted event recorded after k leaves every view known at k unchanged, if and only if it does not lift a retraction already known at k |
| `Views.KnownPastKeptByRuns` | README.md:296-298 | over whole runs of later events: what was known at k stays as it was, if and only if no event of the run lifts a retraction already known at k |
| `Views.SupersessionsDetermined` | src/projection/memory/mod.rs:162-182 | the supersession map holds exactly the replacements the facts declare |
| `Views.ReplacementIsLater` | src/projection/memory/mod.rs:140-182 | a replacement has a larger index than what it replaces, so chains are acyclic |
| `Views.ReplacementHidesPrior` | src/projection/memory/mod.rs:106-124 | a fact and its direct replacement are never both active |
| `Views.ChainHasOneActive` | src/projection/memory/mod.rs:106-124 | along a chain whose valid and recording times ascend, at most one fact is active at any clock |
| `EventLogs.NodeFromEvents` | src/projection/memory/mod.rs:225-231 | after any run from nothing, the node found under an id is the one of its last upsert known by then (by recording time, position and order), and there is one exactly if some upsert is known |
| `EventLogs.FactsMeetEvents` | src/projection/memory/mod.rs:140-160 | the facts of a run are those its events record, in order |
| `EventLogs.RetractedMeaning` | src/projection/memory/mod.rs:121-123 | a fact is retracted at a clock exactly if its last retraction was recorded by then and ends it by then |
| `EventLogs.SupersededMeaning` | src/projection/memory/mod.rs:116-120 | a fact is superseded at a clock exactly if some recorded fact replaces it, was recorded by then and is valid from then or before |
| `EventLogs.ActivityFromEvents` | src/projection/memory/mod.rs:106-124 | activity read off the events: recorded, begun, not ended, not replaced, not retracted, each at every clock |
| `EventLogs.ViewFromEvents` | src/projection/memory/mod.rs:82-124 | after any run from nothing, which nodes and which facts a view shows, stated over the events alone |
| `EventLogs.ValidationMeaning` | src/domain/fact.rs:110-134 | nodes, facts and evidence are valid exactly if complete, each required text being proper and the times in order |
| `EventLogs.AcceptanceFromEvents` | src/projection/memory/apply.rs:27-62 | an event is accepted after a run exactly if nothing in the list of refusals applies, a list stated over the events before it; otherwise its error is the first that does |
| `IdIndexes.FindAfterPut` | src/projection/memory/index.rs:93-112 | storing in a collision bucket changes one key and no other |
| `IdIndexes.PutPrimary` | src/projection/memory/index.rs:93-112 | filling a free or equal primary entry is a plain map update and keeps the table invariant |
| `IdIndexes.PutInBucket` | src/projection/memory/index.rs:93-112 | so is storing behind an occupied primary entry, whatever the hash function |
| `IdIndexes.IdIndex.Lookup` | src/projection/memory/index.rs:70-86 | lookup agrees with a plain map across collisions |
| `IdIndexes.IdIndex.InsertHashed` | src/projection/memory/index.rs:93-112 | insertion is the plain map update and returns the previous value; buckets exist only under occupied primary entries |
| `Incidents.TouchingComplete` | src/projection/memory/mod.rs:58-70 | the incident list of a node misses no fact touching it, repeats none, and is in append order |
| `Incidents.CountDegrees` | src/projection/memory/state.rs:117-127 | the first pass counts each fact once at each of its distinct endpoints |
| `Incidents.SumOffsets` | src/projection/memory/state.rs:128-132 | prefix sums turn degrees into slice starts |
| `Incidents.FillSlots` | src/projection/memory/state.rs:133-142 | the second pass writes every slot of every slice, self-loops once |
| `Incidents.BuildCsr` | src/projection/memory/state.rs:116-147 | offsets have length nodes + 1 and cut the slots into exactly the incident lists |
| `Incidents.IndexedNewNode` | src/projection/memory/mod.rs:130-136 | a new node with a repeated last offset keeps slice plus delta exact for all nodes |
| `Incidents.IndexedNewFact` | src/projection/memory/mod.rs:152-158 | a new fact pushed to the delta of its distinct endpoints keeps them exact |
| `MemoryProjections.MemoryProjection.InsertNode` | src/projection/memory/mod.rs:126-138 | the object accepts, refuses and changes as the value-level event says, and all indexes still agree with plain search |
| `MemoryProjections.MemoryProjection.InsertFact` | src/projection/memory/mod.rs:140-160 | likewise for a fact, with its errors in order; a refused fact leaves no trace |
| `MemoryProjections.MemoryProjection.ApplySupersession` | src/projection/memory/mod.rs:162-182 | missing and already replaced facts are refused; otherwise one map entry is added |
| `MemoryProjections.MemoryProjection.ApplyRetraction` | src/projection/memory/mod.rs:191-222 | likewise for a retraction |
| `MemoryProjections.MemoryProjection.Apply` | src/projection/memory/apply.rs:27-62 | dispatch and envelope checks: the whole object refines the value-level event |
| `MemoryProjections.MemoryProjection.FactIsActive` | src/projection/memory/mod.rs:106-124 | the early-exit test decides activity at a clock |
| `MemoryProjections.MemoryProjection.IncidentFactIds` | src/projection/memory/mod.rs:58-70 | slice followed by delta is the incident list of plain search, in every valid object |
| `MemoryProjections.MemoryProjection.SetIncidents` | src/projection/memory/state.rs:116-147 | rebuilding replaces slices and delta by an exact index |
| `MemoryProjections.MemoryProjection.RebuildIndexes` | src/projection/memory/state.rs:76-114 | rebuilding succeeds exactly on consistent data and then gives a valid object of the same value |
| `MemoryProjections.MemoryProjection.ValidateSupersessions` | src/projection/memory/state.rs:156-181 | accepts exactly the maps whose entries are backed by facts |
| `MemoryProjections.MemoryProjection.ValidateRetractions` | src/projection/memory/state.rs:182-198 | likewise for retractions |
| `Replay.ApplySequence` | src/projection/replay.rs:101-122 | the loop over the object computes the value-level replay, errors included |
| `Replay.ReplaySplit` | src/projection/replay.rs:101-122 | replaying a + b is replaying a and then b with cursor and seen ids carried over |
| `Replay.ForgettingIds` | src/projection/replay.rs:91-99 | starting with fewer seen ids accepts exactly the sequences that repeat none of the forgotten ones |
| `Replay.ResumeMeetsReplay` | src/projection/replay.rs:91-122 | resuming after a with b equals replaying a + b, if and only if b repeats no id of a |
| `Replay.FailedPrefix` | src/projection/replay.rs:101-122 | a sequence fails with the error of its failing prefix |
| `Replay.ReplayOk` | src/projection/replay.rs:78-87 | every replayed snapshot is consistent, with complete supersessions and agreeing positions |
| `Replay.ReplayIsApplication` | src/projection/replay.rs:146-188 | replay succeeds exactly when the cursor checks accept and every event applies |
| `EventLogs.ReplayedSnapshot` | src/projection/replay.rs:101-122 | a replayed snapshot is the projection of the run, and its cursor names the last position and each stream's last version |
| `EventLogs.ReplayAcceptance` | src/projection/replay.rs:146-188 | after an accepted replay, the next event is accepted exactly if its id is new, its position and version come next, and applying it is not refused; otherwise the error is the first of these |
| `TypedReplay.ReplayedIsTyped` | src/projection/replay.rs:78-87 | replaying events whose identifiers and strings are well-typed gives a snapshot that is |
| `TypedReplay.ReplayedConfidence` | src/projection/memory/mod.rs:140-160 | the facts of a replay stay within full confidence exactly when the recorded ones do |
| `Parts.PrepareInChunks` | src/projection/memory/parts.rs:86-122 | chunked preparation equals the sequential map for every number of workers, including which error is reported |
| `Parts.PrepareMeaning` | src/projection/memory/parts.rs:124-141 | preparation succeeds exactly when every fact is valid, known in time and has its endpoints, and yields the searched endpoints |
| `Parts.FirstUnprepared` | src/projection/memory/parts.rs:93-98 | a refused preparation names the first fact that is unfit, and why |
| `Parts.FirstRepeated` | src/projection/memory/parts.rs:59-69 | a repeated fact id is reported at its second place, the first such place |
| `Parts.FirstUnreplaceable` | src/projection/memory/parts.rs:70-74 | a refused replacement is the first whose prior fact is missing or already replaced, and the error says which |
| `Parts.FirstBadNode` | src/projection/memory/parts.rs:39-57 | a refused node is the first that is invalid or repeats an id |
| `Parts.FromPartsConsistent` | src/projection/memory/parts.rs:32-84 | whatever bulk construction accepts is consistent |
| `Parts.TryFromParts` | src/projection/memory/parts.rs:32-84 | the object built in bulk is valid and has exactly the value-level result or error |
| `BulkReplay.PartsMeetReplay` | src/projection/memory/parts.rs:32-141 | bulk construction with replacements in order succeeds if and only if applying all nodes and then all facts does and the parts have the bulk shape; the projections are equal |
| `BulkReplay.PartsMeetCheckedReplay` | src/projection/memory/parts.rs:32-141 | the same against the cursor-checked replay, which in addition asks that the events be numbered without gaps and repeat no id |
| `CompactIo.VarintRoundTrip` | src/snapshot/compact/io.rs:18-24 | every 64-bit number is read back, whatever follows |
| `CompactIo.VarintMeaning` | src/snapshot/compact/io.rs:92-105 | a number is read exactly where seven-bit groups, low ones first, at most ten of them and the last alone without its top bit, spell a number below 2^64 |
| `CompactIo.ZigzagBijective` | src/snapshot/compact/io.rs:31-33 | zigzag maps signed to unsigned numbers one to one and onto |
| `ZigzagWords.ZigzagBits` | src/snapshot/compact/io.rs:31-33 | the shift-and-xor form, on 64-bit words in two's complement, is that map |
| `ZigzagWords.UnzigzagBits` | src/snapshot/compact/io.rs:119-122 | the form that reads it is the inverse map |
| `CompactIo.TextRoundTrip` | src/snapshot/compact/io.rs:140-154 | every UTF-8 string is read back, and its length passes the remaining-bytes test |
| `Unicode.Utf8Meaning` | src/snapshot/compact/io.rs:151-153 | bytes pass as UTF-8 exactly if they encode some sequence of scalar values |
| `Unicode.WhitespaceMeaning` | src/domain/mod.rs:15-23 | the characters trimming removes are exactly the code points with the White_Space property |
| `Unicode.TrimmedMeaning` | src/domain/mod.rs:15-23 | text is trimmed exactly if neither its first nor its last code point is white space |
| `CompactIo.ListRoundTrip` | src/snapshot/compact/io.rs:111-117 | a counted list is read back, because every element takes at least one byte |
| `CompactIo.MapRoundTrip` | src/snapshot/compact/mod.rs:46-71 | so is a map written in key order |
| `CompactIo.EntriesMeaning` | src/snapshot/compact/mod.rs:56-71 | a map is read exactly where the list of its entries is, in any order, and no key is repeated; it then holds those entries |
| `CompactIo.LexMeaning` | src/snapshot/compact/mod.rs:46-54 | keys are ordered by the first byte in which they differ, a prefix coming first |
| `CompactIo.ListExtends` | src/snapshot/compact/io.rs:111-117 | a list that parses still parses alike when bytes are appended, despite the remaining-bytes test |
| `CompactLaws.FactRead` | src/snapshot/compact/domain.rs:49-110 | a fact is read back if its confidence is in range and refused otherwise |
| `CompactLaws.NodeInverts` | src/snapshot/compact/domain.rs:10-47 | every node is read back |
| `CompactLaws.HistoryInverts` | src/snapshot/compact/mod.rs:133-159 | every node history is read back |
| `CompactLayout.NodeLayout` | src/snapshot/compact/domain.rs:10-22 | the bytes of a node, field by field: id, kind, label, optional repository and branch, attributes |
| `CompactLayout.EvidenceLayout` | src/snapshot/compact/domain.rs:112-119 | the bytes of a piece of evidence |
| `CompactLayout.HistoryLayout` | src/snapshot/compact/mod.rs:133-138 | the bytes of a history: the number of revisions, then node, recording time and position of each |
| `CompactLayout.FactLayout` | src/snapshot/compact/domain.rs:49-70 | the bytes of a fact, in the order in which the crate writes its fields |
| `CompactLayout.SupersessionLayout` | src/snapshot/compact/mod.rs:86-92 | the bytes of a supersession: prior fact, replacement, validity, recording time |
| `CompactLayout.RetractionLayout` | src/snapshot/compact/mod.rs:93-98 | the bytes of a retraction: fact, end, recording time |
| `CompactLayout.CursorLayout` | src/snapshot/compact/mod.rs:46-54 | the bytes of a cursor: optional position, then streams with their versions |
| `CompactLayout.SnapshotLayout` | src/snapshot/compact/mod.rs:26-32 | the bytes of a snapshot: header, cursor, histories, facts, supersessions, retractions, position |
| `CompactLaws.RoundTrip` | src/snapshot/compact/mod.rs:26-44 | decoding an encoded snapshot gives it back if and only if it is consistent, its positions agree and all confidences are in range; otherwise decoding fails |
| `CompactLaws.PrefixFree` | src/snapshot/compact/mod.rs:34-43 | no strict extension, hence no strict prefix, of accepted bytes is accepted |
| `CompactLaws.DecodedIsStable` | src/snapshot/compact/mod.rs:34-43 | whatever decodes, decodes again from its own encoding to the same snapshot |
| `CompactCanon.CanonicalIsEncoded` | src/snapshot/compact/mod.rs:26-44 | accepted bytes are what the encoder writes, if and only if no integer is padded and every map stands in strictly ascending key order |
| `CompactCanon.VarintExact` | src/snapshot/compact/io.rs:92-105 | an integer that is read is its own print exactly when it does not end in a zero group |
| `CompactCanon.MapExact` | src/snapshot/compact/mod.rs:56-71 | a map that is read is its own print exactly when count and entries are and the keys ascend as they stand |
| `CompactWriter.Writer.Varint` | src/snapshot/compact/io.rs:18-24 | the loop appends exactly the printed number |
| `CompactWriter.Writer.WriteFact` | src/snapshot/compact/domain.rs:49-70 | appends exactly the printed fact |
| `CompactWriter.Writer.WriteProjection` | src/snapshot/compact/mod.rs:73-101 | appends exactly the printed projection |
| `CompactWriter.EncodeSnapshot` | src/snapshot/compact/mod.rs:27-32 | succeeds on every typed snapshot and returns its encoding |
| `CompactReader.Reader.Varint` | src/snapshot/compact/io.rs:92-105 | the loop returns what the parser yields, stops where it stops, and fails where it fails |
| `CompactReader.Reader.Count` | src/snapshot/compact/io.rs:111-117 | likewise for a count and its remaining-bytes test |
| `CompactReader.Reader.ReadOneFact` | src/snapshot/compact/domain.rs:72-110 | likewise for a fact |
| `CompactReader.Reader.ReadProjectionData` | src/snapshot/compact/mod.rs:103-131 | likewise for the projection sections |
| `CompactReader.DecodeSnapshot` | src/snapshot/compact/mod.rs:34-44 | succeeds exactly when the format accepts, and the rebuilt object is valid and has the decoded value |
| `Resumption.ReplayedRoundTrip` | src/snapshot/compact/mod.rs:26-44 | the snapshot of replayed, well-typed events survives the codec if no recorded confidence exceeds the bound, and fails to decode otherwise |
| `Resumption.EndToEndResume` | src/projection/replay.rs:91-122 | replay a, encode, decode, resume with b: loading succeeds exactly when a is confident, and the result is that of replaying a + b, if and only if b repeats no id of a |
| `Resumption.OverlongAccepted` | src/snapshot/compact/io.rs:92-105 | padded integers are accepted although the encoder never writes them |
| `Crc32c.MixLaws` | src/store/frame.rs:198-213 | eight bit steps are linear, injective and shift a clear low byte |
| `Crc32c.Table` | src/store/frame.rs:198-213 | the table holds eight bit steps of every byte |
| `Crc32c.Checksum` | src/store/frame.rs:188-195 | the table-driven loop equals the bit-by-bit definition on every byte string |
| `Crc32c.CheckValue` | src/store/frame.rs:245-247 | the checksum of the digits 1 to 9 is the standard check value |
| `Crc32c.BurstChangesChecksum` | src/store/frame.rs:232-242 | any change confined to four consecutive bytes changes the checksum |
| `Frames.PayloadRoundTrip` | src/store/frame.rs:123-148 | an encoded batch payload decodes to its events |
| `Frames.FrameLayout` | src/store/frame.rs:43-49 | the bytes of a frame: marker, payload length in eight bytes and checksum in four, low byte first, payload |
| `Frames.PayloadLayout` | src/store/frame.rs:28-36 | a payload starts with the number of events in four bytes |
| `Frames.EventLayout` | src/store/frame.rs:31-36 | each event is its length in eight bytes and its encoding |
| `Frames.HeaderLayout` | src/store/frame.rs:8 | the file header spells the format and its version |
| `Frames.BatchRefusals` | src/store/frame.rs:28-42 | which batches are not encoded, and the error of each |
| `Frames.PayloadMeaning` | src/store/frame.rs:123-148 | a payload decodes to a list of events exactly if it is their number and, for each, its length and that many bytes that decode to it, with nothing behind the last; other payloads are corrupt at the offset of their frame unless the codec refuses an event |
| `Frames.PeekCases` | src/store/frame.rs:73-112 | what stands at the start of a frame, decided by its bytes: nothing, a cut, corruption, or a whole frame |
| `Frames.FramePeeks` | src/store/frame.rs:72-112 | a whole frame is recognised, whatever follows |
| `Frames.CutFramePeeks` | src/store/frame.rs:72-108 | a frame cut anywhere is seen as cut, never as corrupt or whole |
| `Frames.ScanOn` | src/store/frame.rs:70-120 | a complete scan consumed everything, and scanning on is scanning what follows |
| `Frames.TruncationCompletes` | src/store/frame.rs:52-121 | the part before a partial tail is a complete journal of the same events |
| `Frames.AppendScans` | src/store/frame.rs:23-121 | appending an encoded batch to a complete journal appends its events |
| `Frames.CutScans` | src/store/frame.rs:52-121 | appending part of a frame leaves the events and shows a partial tail |
| `Frames.ForeignBytesAreCorrupt` | src/store/frame.rs:91-98 | bytes behind a complete journal without the marker, or that announce more than the limit, are corruption at that offset and not a tail to cut away |
| `Frames.HeaderRequired` | src/store/frame.rs:57-69 | a file without the header is refused |
| `Frames.JournalScans` | src/store/frame.rs:23-121 | a journal of any batches scans to their concatenation |
| `Frames.CutJournalScans` | src/store/frame.rs:52-121 | a journal cut at any byte behind its header holds exactly the batches wholly before the cut, and says whether something was cut off |
| `Frames.BurstDetected` | src/store/frame.rs:98-112 | damage within four neighbouring payload bytes makes the scan fail at that frame, whatever precedes and follows |
| `FrameReader.WriteBatch` | src/store/frame.rs:23-50 | the loops write exactly the frame of the format, or its error |
| `FrameReader.ReadPayload` | src/store/frame.rs:123-148 | the cursor loop decodes exactly what the format says |
| `FrameReader.ReadOrPartial` | src/store/frame.rs:156-170 | however reads are split, the outcome depends only on what is left of the file |
| `FrameReader.ScanFile` | src/store/frame.rs:52-121 | scanning through any schedule of short reads gives the format's meaning of the file; only a failing read makes a difference |
| `Stores.NumberingMeaning` | src/store/in_memory/mod.rs:29-73 | a well-numbered log has positions 0..n-1, versions 0..k-1 in each stream and unique ids |
| `Stores.PrepareKeepsNumbering` | src/store/in_memory/mod.rs:29-73 | an accepted batch keeps the log well numbered |
| `Stores.PreparedEvents` | src/store/in_memory/mod.rs:46-70 | an accepted batch stores one event for each new one with the same payload and metadata, field by field, numbered on from stream and log |
| `Stores.PrepareMeaning` | src/store/in_memory/mod.rs:29-73 | an append is accepted exactly if the stream is in the expected state, no id is known or repeated, and there are numbers left; otherwise the first of these decides the error |
| `Stores.StreamVersionMeaning` | src/store/in_memory/mod.rs:268-273 | a stream has the version of its last event, and none if it has no events |
| `Stores.FirstDuplicateMeaning` | src/store/in_memory/validation.rs:33-43 | the id reported is the first new one that is known or repeats an earlier new one |
| `Stores.RunsAreNumbered` | src/store/in_memory/mod.rs:214-223 | so does every run of appends, failed ones included, and the log only grows |
| `Stores.ExactWinsOnce` | src/store/in_memory/validation.rs:9-31 | of all non-empty appends that expect one version of a stream, at most one succeeds, whatever lies between |
| `Stores.ReplayAcceptsNumbered` | src/projection/replay.rs:146-188 | replay's cursor checks accept exactly the well-numbered sequences |
| `Stores.RestoreAcceptsNumbered` | src/store/in_memory/mod.rs:169-210 | so does restoring |
| `Stores.MisfitMeaning` | src/store/in_memory/mod.rs:173-201 | which error a misfit is: position, stream capacity, version, or a known id |
| `Stores.FirstMisfitIsFirst` | src/store/in_memory/mod.rs:173-208 | the error reported is that of the first event that does not fit behind those before it |
| `Stores.InMemoryStore.PrepareAppend` | src/store/in_memory/mod.rs:29-73 | the object prepares what `Prepare` says, errors in order, and changes nothing; `Stores.PreparedEvents` says what that is, field by field |
| `Stores.InMemoryStore.CommitPrepared` | src/store/in_memory/mod.rs:119-142 | committing appends the events and keeps both indexes exact |
| `Stores.InMemoryStore.AppendEvents` | src/store/in_memory/mod.rs:214-223 | prepare then commit: what was prepared is behind the log, and a failed append changes nothing |
| `Stores.InMemoryStore.Restore` | src/store/in_memory/mod.rs:169-210 | rebuilds an equal, valid store or reports the first misfit |
| `Stores.UniqueIds` | src/store/in_memory/validation.rs:33-43 | reports the first id that is known or repeated |
| `FileStores.CutRecovers` | src/store/file.rs:97-129 | a write cut after k bytes is recovered as the whole batch or nothing, and strict mode refuses exactly 0 < k < length |
| `FileStores.AppendKeepsSound` | src/store/file.rs:136-193 | every append, whatever the device answers, leaves a recoverable file in step with memory |
| `FileStores.FailedAppendLeavesNoTrace` | src/store/file.rs:136-175 | a failed append whose rollback completed leaves file, log and durable length as they were, and, once a byte was written, the file synced with nothing that could come back |
| `FileStores.IncompleteRollback` | src/store/file.rs:167-175 | a rollback that stops at any call leaves the tail in the file or able to come back |
| `FileStores.HealthyAppendSucceeds` | src/store/file.rs:136-193 | a file in step accepts the next append: on a healthy device a batch that can be prepared and encoded is acknowledged, written behind the file, synced and committed |
| `FileStores.AcknowledgedIsSynced` | src/store/file.rs:183-193 | only a batch whose whole frame is written and synced is acknowledged |
| `FileStores.AppendRefusals` | src/store/file.rs:136-165 | why an append fails, and that nothing is touched unless the device failed |
| `FileStores.CrashIsAtomic` | src/store/file.rs:68-193 | after a crash at any byte of an append, unsynced bytes lost or not, reopening finds the committed events or those and the whole batch; strict mode errs exactly on a non-empty incomplete rest |
| `FileStores.WedgedRecovers` | src/store/file.rs:167-175 | after a failed truncation the store accepts nothing more, yet its file is recovered with the failed batch whole or absent |
| `FileStores.TailReopens` | src/store/file.rs:68-129 | whatever start of a frame stands behind the durable part, reopening succeeds and adds the batch exactly if its frame is whole |
| `FileStores.OpenDecides` | src/store/file.rs:97-129 | a file that scans completely is left as it is; a partial tail is cut off, or refused in strict mode; and the events found are restored or refused |
| `FileStores.OpenRefuses` | src/store/file.rs:68-113 | what opening refuses before it looks at the events |
| `FileStores.RunsAreAtomic` | src/store/file.rs:68-218 | over any run of appends, device failures, rollbacks that fail at any of their calls and crashes that lose unsynced bytes or bring unsynced truncations back, every reopening succeeds and the log grows only by whole batches: each acknowledged one in full, and nothing of a failed call unless its rollback did not complete |
| `FileStores.CompletedRollbacksAreExact` | src/store/file.rs:68-218 | over any run in which every rollback completes, the file is in step after every step, a failed call adds nothing then or later, and a crash adds at most the batch it interrupted |
| `FileStores.NewFileIsSound` | src/store/file.rs:87-97 | an empty file opens as an empty store, from which runs start |
| `FileStores.FileEventStore.RollbackTail` | src/store/file.rs:167-175 | truncates to the durable length, seeks and syncs, and reports the first of them that fails; until the sync the tail may come back |
| `FileStores.FileEventStore.PersistBatch` | src/store/file.rs:136-165 | error, file and durable length are those of the value-level write, for every device; a failed write or sync is rolled back |
| `FileStores.FileEventStore.AppendEvents` | src/store/file.rs:183-193 | memory changes only after the frame is written and synced |
| `FileStores.OpenStore` | src/store/file.rs:68-129 | opening gives exactly the value-level store or error and leaves exactly that file, for every schedule of reads that does not fail |
| `Neighborhoods.BallsArePaths` | src/context/compiler.rs:144-198 | the balls that define distances are what walks from the seeds reach |
| `Neighborhoods.LevelComplete` | src/context/compiler.rs:163-193 | while a node is expanded, everything as near as it is already known |
| `Neighborhoods.PushStep` | src/context/compiler.rs:183-190 | a newly met node gets its true distance and keeps the queue in order |
| `Neighborhoods.FindNeighborhood` | src/context/compiler.rs:144-198 | nodes are the ball of radius `max_depth` with true hop distances, facts are exactly the live facts inside it, the excluded count is exact, and a bad seed is reported |
| `Neighborhoods.ScopedNode` | src/context/compiler.rs:200-209 | returns the node exactly when it is visible and in scope |
| `Neighborhoods.ScopeMeaning` | src/context/scope.rs:4-19 | a node is in scope exactly if its repository and its branch are among those asked for, where any are; likewise a relation |
| `Neighborhoods.AdjacentMeaning` | src/context/compiler.rs:165-190 | a node leads to another exactly if that is visible and in scope and a live fact joins them, in either direction |
| `Neighborhoods.FirstBadMeaning` | src/context/compiler.rs:154-158 | the seed reported is the first, in byte order, of those not visible or not in scope, and there is none exactly if all are |
| `Neighborhoods.NeighborhoodRefinesView` | src/context/compiler.rs:144-198 | the facts found are exactly those of the temporal view of an allowed relation with both ends in the ball |
| `Neighborhoods.ExcludedRefinesView` | src/context/compiler.rs:176-182 | the excluded count is the number of facts of the temporal view, of an allowed relation, that lead from the ball to a node out of scope |
| `Compiler.GreedyAccounts` | src/context/compiler.rs:63-84 | the estimate stays within the budget and is the true cost plus what self-loops were charged twice; selected + omitted = examined |
| `Compiler.GreedyMeaning` | src/context/compiler.rs:65-84 | one turn of the selection in numbers: what a candidate costs, when it is taken, and what is then selected and used |
| `Compiler.NothingTwice` | src/context/compiler.rs:66-74 | nothing is charged twice, if and only if every taken self-loop found its node selected already or free |
| `Compiler.GreedySelects` | src/context/compiler.rs:79-84 | selected nodes are the start and the endpoints of selected facts |
| `Compiler.OmittedFits` | src/context/compiler.rs:75-78 | an omitted fact fits at the end, if and only if it is a self-loop whose node was selected after all and whose own cost is left |
| `Compiler.WithoutStrayLoops` | src/context/compiler.rs:53-107 | if every live self-loop inside the ball sits on a seed, the estimate is the cost of what is returned and nothing omitted fits |
| `Compiler.LoopsDecide` | src/context/compiler.rs:53-84 | nothing is charged twice under any costs, if and only if every live self-loop inside the ball sits on a seed or the budget is below two tokens |
| `Compiler.FollowersDecide` | src/context/compiler.rs:53-84 | nothing omitted fits at the end under any costs, if and only if no self-loop off the seeds is followed, in the order of keys, by another kind of live fact at its node, or the budget is zero |
| `Tokens.TwiceMeansIntroduced` | src/context/token.rs:49-87 | with the crate's token counts no node is free: a taken self-loop is charged twice exactly when it brought its node in |
| `Tokens.BytesEstimate` | src/context/token.rs:39-42 | the least positive number of tokens that covers the bytes |
| `Tokens.EvidenceAdds` | src/context/token.rs:73-87 | the tokens of evidence add up over its pieces |
| `Compiler.OrderIsUnique` | src/context/compiler.rs:53-61 | the candidate order is determined by the keys, whose meaning `Compiler.OrderMeaning` states |
| `Compiler.OrderMeaning` | src/context/compiler.rs:53-61 | of two candidates the earlier one has the nearer end no farther; at equal distance it is no less confident, at equal confidence recorded no earlier, and otherwise its id comes first |
| `Compiler.AbsentSeed` | src/context/compiler.rs:117-123 | of the seeds without a node, the one that comes first in byte order is reported |
| `Compiler.BudgetRefusal` | src/context/compiler.rs:127-132 | a compilation is refused exactly if the seeds alone cost more than the budget, and says both numbers |
| `Compiler.SelectSeeds` | src/context/compiler.rs:110-134 | distinct seeds are charged once each; the first seed without a node, or else too small a budget with the exact requirement, is the error |
| `Compiler.ChooseFacts` | src/context/compiler.rs:63-84 | the loop computes the greedy choice |
| `Compiler.Compile` | src/context/compiler.rs:38-108 | the whole compilation: its errors, its neighborhood, its order and its bundle |
| `Compiler.ReceiptIsTrue` | src/context/compiler.rs:92-107 | the receipt's numbers are the cost and the counts of what is returned |
| `Compiler.ReceiptForm` | src/context/compiler.rs:92-105 | the receipt repeats the request and the position, and counts the facts inside the ball and those excluded by scope |
| `Compiler.BundleIsOrdered` | src/context/compiler.rs:85-90 | nodes and facts are returned in ascending order of their ids |
| `Compiler.BundleIsClosed` | src/context/compiler.rs:85-90 | every returned fact comes with both endpoints and belongs to the temporal view |
| `Compiler.CompileIsDeterministic` | src/context/compiler.rs:32-61 | the same projection and request compile to the same result |
| `Subscriptions.LoadIsSlice` | src/store/in_memory/mod.rs:259-266 | on a well-numbered log, filtering by position is slicing |
| `Subscriptions.Subscribe` | src/store/subscription.rs:26-38 | an empty batch size is refused; otherwise a subscription at its checkpoint with nothing delivered |
| `Subscriptions.FreshIsCovered` | src/store/subscription.rs:26-38 | a new subscription satisfies the delivery invariant from its own checkpoint on |
| `Subscriptions.DeliveredAtLeastOnce` | src/store/subscription.rs:46-81 | over every interleaving the checkpoint never moves back and everything it passed was returned by an earlier poll |
| `Subscriptions.RepollExtends` | src/store/subscription.rs:46-54 | polling again without acknowledging extends the same batch |
| `Subscriptions.PollMeaning` | src/store/subscription.rs:46-54 | a poll returns the events behind the checkpoint, at most a batch, and marks the position of the last |
| `Subscriptions.AcknowledgeMeaning` | src/store/subscription.rs:62-81 | every position from the checkpoint to the delivery mark is accepted, and nothing else |
| `Subscriptions.CatchUpSubscription.Poll` | src/store/subscription.rs:46-54 | returns the next batch and moves only the delivery mark |
| `Subscriptions.CatchUpSubscription.Acknowledge` | src/store/subscription.rs:62-81 | accepts exactly positions between checkpoint and delivery mark; a refusal changes nothing |
| `Subscriptions.Drain` | src/store/subscription.rs:46-81 | the poll-and-acknowledge-last loop ends and has delivered the tail exactly once, in order |
| `Fusion.RankingMeaning` | src/context/retrieval.rs:160-170 | a ranking holds matching hits only, in order, one per entity and each entity by its best hit |
| `Fusion.RankedOrder` | src/context/retrieval.rs:160-171 | a ranking has at most `limit` matching hits, one for each entity, by descending raw score and then by entity |
| `Fusion.RankedBest` | src/context/retrieval.rs:160-171 | no matching hit of a ranked entity scores higher than the one it is ranked by; an entity is left out only of a full ranking, and then scores no higher than any ranked one |
| `Fusion.MatchingMeaning` | src/context/retrieval.rs:161 | a hit matches if no channel is asked for or its own is |
| `Fusion.ProvidersForgetOrder` | src/context/retrieval.rs:151-158 | the result, errors included, does not depend on the order of providers |
| `Fusion.HitsForgetOrder` | src/context/retrieval.rs:160-170 | nor on the order in which providers list their hits |
| `Fusion.RescalingIsInvisible` | src/context/retrieval.rs:143-170 | a change of one provider's raw scores that is strictly increasing on the scores it reports leaves entities, order, ranks and fused scores alone |
| `Fusion.ScoresAreExact` | src/context/retrieval.rs:171-181 | up to 2^40 providers no addition saturates: a fused score is the exact sum of its contributions, and an entity is fused exactly if some provider ranks it |
| `Fusion.RankInMeaning` | src/context/retrieval.rs:171-172 | a rank is the place in the ranking, counted from one |
| `Fusion.FusedSources` | src/context/retrieval.rs:182-187 | the sources of a returned hit are those of its entity, provider by provider: name, channel, rank and raw score |
| `Fusion.FusedScoresAreExact` | src/context/retrieval.rs:171-199 | every returned hit carries that sum |
| `Fusion.FuseIsBest` | src/context/retrieval.rs:190-199 | the list returned is sorted by score and entity, has one hit per entity, is as long as the limit allows, and whatever is left out comes after it |
| `Fusion.FusedNumbers` | src/context/retrieval.rs:190-198 | the list returned in numbers: descending scores, then entities in byte order; a ranked entity is missing only from a full list, and then comes after all of it |
| `Fusion.ProviderOrder` | src/context/retrieval.rs:155-156 | providers are asked in the byte order of their names |
| `Fusion.NameErrorMeaning` | src/context/retrieval.rs:201-216 | names are accepted exactly if all are proper and different; otherwise the first unfit one is reported, as a duplicate only if it is proper |
| `Fusion.FuseRefusals` | src/context/retrieval.rs:155-160 | fusion is refused for an unfit name, then for the first provider in name order that fails, and otherwise not |
| `Fusion.ValidateNames` | src/context/retrieval.rs:201-216 | reports the first empty, untrimmed or repeated name |
| `Fusion.FuseRetrieval` | src/context/retrieval.rs:151-199 | the loops compute the fusion whose laws are stated above |
| `Limits.SecondRetractionRewrites` | src/projection/memory/mod.rs:214-220 | a run of accepted events whose second retraction changes a view already known |
| `Limits.OverconfidenceIsLost` | src/snapshot/compact/domain.rs:72-110 | a replayed snapshot that cannot be decoded again |
| `Limits.RepeatedIdResumes` | src/projection/replay.rs:91-99 | a tail that resumes although the straight replay refuses it |
| `Limits.BulkAllowsForwardReplacement` | src/projection/memory/parts.rs:59-74 | a bulk construction whose replacement precedes what it replaces |
| `Limits.SwappedAccepted` | src/snapshot/compact/mod.rs:56-71 | so are map entries out of key order |
| `LoopLimits.LoopChargedTwice` | src/context/compiler.rs:66-74 | a request on a projection built from nothing, with default token counts, whose estimate is 131 for a bundle that costs 81 |
| `LoopLimits.OmittedLoopWouldFit` | src/context/compiler.rs:66-84 | another on which the self-loop is omitted for its double charge and would fit at the end |

## Left out

- Operating system effects: locks, paths, memory maps, directory listing; the journal is a byte sequence, syncing succeeds or fails, and a file found at opening has survived as it is. A tail cut off without a sync may come back in a crash, but not mixed with bytes written over it later.
- Durability levels: "synced" means what the chosen level protects, so that with `Flush` it means handed to the operating system and a crash is one of the process.
- A crash inside the first eight bytes of a new file, and failures of the header write or of the truncation while opening: the crate promises no recovery for them.
- Error texts and field names; the several decoding errors of the compact reader are one codec error.
- Counter overflow that needs more than 2^64 objects in memory: the checked additions of `set_incidents` and the token sums are unbounded integers here.
- The owned and receipt variants of apply, append and commit, which differ in copying and not in effect, and `load_stream`.
- Capacity reservation and the scheduling of threads in `prepare_facts`; the chunks are prepared in order, which is how their results are joined.
- The quality of the hash behind the id index; any function is allowed.
- Compiler.Compile: the graph of the bundle and its possible failure are not modelled, because the graph library is not part of the repository; the view it is built from is.
- The name of the estimator in the receipt.
- JSON, LZ4 and encryption envelopes, which rest on libraries outside the repository.
- The graph projection and everything built on the graph library, including belief cascades and reports.
- Extraction, entity linking, analytics scores and retrieval evaluation, which would add mostly easy branch-by-branch members.
- Sorting and filtering calls of the standard library (`sort_by`, `retain`, `dedup`, `take`) are functions with proved laws, not models of their implementation.
- Varint reading and writing: the shifts and masks of the loops are written as division and remainder by 128; zigzag and CRC32C are also proved on bit-vectors.
