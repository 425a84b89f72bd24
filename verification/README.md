# Congestion Observatory: a verified model

Congestion Observatory is a single-process engine that takes in evidence about network congestion, decides which of it may
still be believed, classifies subjects, localizes causes, keeps episodes, and saves its state across restarts. This project
models its deterministic core in Dafny and proves what the design promises of it, for all inputs, runs and interleavings.

| part | files | what is proved |
|---|---|---|
| Durability | SnapshotStore, SnapshotDurability | saving and loading as file-system steps with a fault or crash possible at every one; when a run of saves keeps the committed snapshot loadable, exactly |
| Snapshot format | SnapshotWire, SnapshotIo, SnapshotRange, SnapshotTopology, SnapshotRebuild, SnapshotSections, SnapshotRecords, SnapshotEpisodes, SnapshotContainer, SnapshotIntegrity, SnapshotOpening, SnapshotFormat, SnapshotSurvival, SnapshotContents, SnapshotCodec, LittleEndian, Limits | encoding and decoding, which files open under which configuration, which contents come back, exactly, and what damage is noticed |
| Checksum and frames | Crc64, CheckValue, Burst, Fold, Frame | CRC-64/XZ (section 6 of the .xz file format) as a linear map that notices every eight-byte burst; the incremental frame decoder on any chunking |
| JSON | JsonText, JsonGrammar, JsonParser, JsonWriter, JsonStrings, JsonRows, JsonSpelling, JsonReading, JsonAccepted, JsonRoundTrip, Decimals | the recursive parser and printer against one grammar (RFC 8259); a text is accepted exactly when it spells a value, in any of the spellings there are; and parsing undoes printing |
| Time and arithmetic | Calendar, Iso8601, Checked | the Gregorian calendar in closed form, UTC timestamps (section 5.6 of RFC 3339), overflow-checked arithmetic |
| Fences and evidence | Model, Fence, EvidenceLog, EvidenceViews, EvidenceRuns, EvidenceQuery, EvidenceStore | which observations count, over any run; the doubly indexed store as views of one insertion-ordered list |
| Agreement | Clustering, Agreement, Sorting, Observations | greedy clustering is the fewest-groups clustering; majorities |
| Classification | Classify, Readings, Verdicts, Assessment, Pipeline | verdict, severity and blockers from the records, as equivalences; rules depend on usable records only, are monotone, and every assertion is backed |
| Localization | Graph, VisitOrder, Search, Localize, Culprits | the causal graph with two adjacency indexes; the breadth-first search finds true distances and records the first edge it meets; which subjects are ranked, with which score, and which are reported, from the records; why the report is determined |
| Histories and concurrency | Episode, EpisodeAnswers, Correlation, WorkerPool | bounded history kept in balance, first-fit grouping, a worker pool as interleaved steps with a fair shutdown |

The model follows the form of the source: objects whose methods update fields are classes, algorithms with loops are methods,
and each is proved against a specification function or predicate about which the properties are then proved. Base holds the
shared vocabulary. Bytes are numbers below 256, names and texts are byte strings, machine integers are bounded or reduced
explicitly where the source bounds or wraps them, and a mutex-guarded method is one atomic step.

Parameters stand for what cannot be seen: the faults of the file system and of its existence probes, the moment at which a
cancellation token turns, the digests and identities computed by hashing, and the conversion between doubles and text. Ordered
maps are walked in key order wherever that shows in a result; where it does not, the order is arbitrary in the model.

## Model

| member | source | states |
|---|---|---|
| Durability.SnapshotStore.constructor | src/persistence/store.cpp:105-111 | a new store owns no files, has committed nothing and is in order |
| Durability.SnapshotStore.Save | src/persistence/store.cpp:113-152 | a save whose encoding fails changes nothing; otherwise files, committed snapshot and report are those of the step machine run under the same faults; afterwards the store is in order if and only if this attempt is not one that loses the committed snapshot |
| Durability.SnapshotStore.WriteFileAtomic | src/persistence/store.cpp:51-77 | writing the temporary, removing the old file and renaming behave as the last three steps of the machine, under any fault at any of them, and report success, I/O error or nothing at all accordingly |
| Durability.SnapshotStore.Load | src/persistence/store.cpp:154-201 | the outcome and content are those of trying the primary and then the fallback, each with its own existence probe, read bound and decoder |
| Durability.StepKeepsInv | src/persistence/store.cpp:113-152 | one step of a save, with any fault, keeps the crash invariant if and only if it is not an existence probe that errs while a primary exists that the fallback does not yet hold |
| Durability.FinishKeepsInv | src/persistence/store.cpp:113-152 | so does the rest of a save, however it fails or crashes, unless it goes blind in that way |
| Durability.BlindSave | src/persistence/store.cpp:127-141 | a save that went past the probe blindly still leaves the committed snapshot recoverable unless writing and removing work and the rename does not |
| Durability.SaveRecoversExactly | src/persistence/store.cpp:113-152 | from any settled state, one save attempt with any plan of faults ends settled (the committed snapshot lies whole in the primary, or in the fallback with no primary before it) if and only if it is not a losing attempt: directory made, probe erring, a primary that the fallback does not equal, write and removal working, rename not |
| Durability.SaveCommits | src/persistence/store.cpp:113-152 | the committed snapshot changes exactly when the save reports success, and then to the bytes of this save |
| Durability.RunKeepsCommitted | src/persistence/store.cpp:113-201 | after any run of attempts none of which loses, the state is settled and the committed snapshot is the one most recently saved with success |
| Durability.RunRecoversExactly | src/persistence/store.cpp:113-201 | every prefix of a run is settled if and only if no attempt of the run loses |
| Durability.LoadReturnsCommitted | src/persistence/store.cpp:154-201 | from a settled state with a readable committed snapshot, loading returns its content and names the file it came from; with nothing committed it loads nothing |
| Durability.FlagsExactly | src/persistence/store.cpp:154-201 | when each failure flag is set: a mismatch exactly for a readable primary that its decoder calls one; an integrity failure exactly for a primary that cannot be read, is too long or fails its checks, or for a fallback that is there but not loaded |
| Durability.FallbackMismatchHidden | src/persistence/store.cpp:179-193 | a fallback of another version, alone on disk, is reported as an integrity failure and not as a mismatch |
| Durability.CommittedLoadsExactly | src/persistence/store.cpp:28-49 | the file holding the committed snapshot is what a load returns if and only if its probe sees it, it is within the read bound and it decodes |
| Durability.RunThenLoad | src/persistence/store.cpp:113-201 | any run of saves from an empty directory, none losing, followed by a load returns the last successfully saved content |
| Durability.BlindProbeLosesSnapshot | src/persistence/store.cpp:127-141 | for any two snapshots: a clean save followed by a save whose probe errs and which crashes before the rename leaves nothing to load |
| SnapshotDurability.LoadRestoresLastSaved | src/persistence/store.cpp:113-201 | with the snapshot format itself as encoder and decoder: after any run of saves of well-formed contents, none losing, a load returns what the format restores of the last saved content |
| SnapshotDurability.AcceptedLoadsExactly | src/persistence/snapshot.cpp:640-643 | an accepted snapshot can be read back from a file if and only if its payload is at most the bound less header and section table (180 bytes) |
| SnapshotDurability.AcceptedButNotLoaded | src/persistence/store.cpp:28-49 | for any policy version the text bound admits, with four sections allowed, there is a byte bound under which a blank snapshot is accepted for saving and, alone on the disk, loads nothing |
| SnapshotContents.HoldingRoundTrip | src/persistence/snapshot.cpp:570-1021 | episodes and evidence as the analysis knows them: decoding an encoding gives back the topology, and any episodes and evidence whose rows were read are the bounded prefixes of those saved, records equal but for the store's own index |
| SnapshotContents.EpisodesDetermined | src/persistence/snapshot.cpp:266-321 | the stored rows of episodes determine the episodes |
| SnapshotFormat.SnapshotRoundTrip | src/persistence/snapshot.cpp:570-1021 | decoding what was encoded from well-formed content, under the same limits and policy, succeeds with the topology unchanged, the bounded prefixes of episodes and evidence, nothing truncated, and the metadata with its stamps (well-formed: a sound topology with at most 64 labels an object, of the active policy, every record within the format and carrying its own identity) |
| SnapshotSurvival.SnapshotReturnsExactly | src/persistence/snapshot.cpp:570-1021 | an accepted content decodes from its snapshot to what the format restores of it if and only if it is well-formed: of the active policy, four sections allowed, its topology sound and within the format with at most 64 labels a node, every entry carrying its own identity, every name, text and list one the reader admits |
| SnapshotFormat.SectionsRoundTrip | src/persistence/snapshot.cpp:788-1019 | the same for the four sections once the container is open |
| SnapshotFormat.OnlyWholeDecodes | src/persistence/snapshot.cpp:747-750 | of an input and a proper extension of it at most one decodes, so no proper prefix or extension of an encoding does |
| SnapshotFormat.DecodedIsSound | src/persistence/snapshot.cpp:689-1021 | whatever bytes decode, the topology obeys every check of the builder and every episode and evidence record carries the identity computed from its own content |
| SnapshotIntegrity.OnlyWholeOpens | src/persistence/snapshot.cpp:747-750 | the container alone: an input and a proper extension of it do not both open |
| SnapshotIntegrity.LengthDeclared | src/persistence/snapshot.cpp:747-750 | whatever opens has exactly the length that its own header declares |
| SnapshotIntegrity.FileBoundExactly | src/persistence/snapshot.cpp:640-643 | a packed file is within a bound if and only if its payload is within that bound less header and table |
| SnapshotIntegrity.DamagedPayloadRefused | src/persistence/snapshot.cpp:751-758 | if a file opens, the same file with different bytes in a window of up to eight consecutive payload bytes is refused with an integrity failure |
| SnapshotIntegrity.PackOpens | src/persistence/snapshot.cpp:611-781 | a packed file opens, under the limits and policy it was packed with, to exactly its sections by id |
| SnapshotContainer.LayOut | src/persistence/snapshot.cpp:646-659 | the loop over pending sections writes the table of consecutive extents with their checksums, and their concatenation |
| SnapshotContainer.CollectSections | src/persistence/snapshot.cpp:766-786 | the loop over the section table gives the sections by id, or the first extent, checksum or duplicate error |
| SnapshotTopology.AddKeepsSound | src/model/topology.cpp:271-414 | a builder call that succeeds keeps the tables sound: unique ids, capacities, references to rows already present |
| SnapshotTopology.BuildAccepts | src/model/topology.cpp:416-528 | sound tables pass every cross-reference check of the final build |
| SnapshotTopology.ReadIsSound | src/persistence/snapshot.cpp:381-566 | any topology section that decodes gives sound tables |
| SnapshotRebuild.Rebuild | src/model/topology.cpp:271-414 | adding the rows of one sound table, in any enumeration of it, is accepted row by row and rebuilds that table |
| SnapshotRebuild.ClippedRoundTrip | src/persistence/snapshot.cpp:212-217 | reading a written topology gives it back with every label list cut to 64 |
| SnapshotRebuild.TopologySurvivesExactly | src/persistence/snapshot.cpp:212-217 | a sound topology that fits the format is read back unchanged if and only if no object carries more than 64 labels |
| SnapshotSurvival.TopologyReturnsExactly | src/persistence/snapshot.cpp:323-566 | any topology at all is read back from its section unchanged if and only if its references and bounds are sound, every row fits the format, and no node has more than 64 labels |
| SnapshotSurvival.FabricRange | src/persistence/snapshot.cpp:381-566 | whatever bytes are read as a topology, the result is sound and fits the format |
| SnapshotSurvival.UnattributedFlowLost | src/model/topology.cpp:399-414 | erasing the tenant of a flow leaves a topology sound for the builder, and it never comes back from its section |
| SnapshotRecords.EvidenceRowInjective | src/persistence/snapshot.cpp:228-264 | two evidence records with timestamps in the 64-bit range and the same stored row are equal but for the store's index |
| SnapshotRecords.RecordsRoundTrip | src/persistence/snapshot.cpp:228-264 | evidence records that the format can hold, with their own identities, are read back as the same rows, not truncated |
| SnapshotEpisodes.EpisodeRowInjective | src/persistence/snapshot.cpp:266-321 | two episodes with timestamps in the 64-bit range and the same stored row are equal, history and all |
| SnapshotEpisodes.EpisodesSurvive | src/persistence/snapshot.cpp:266-321 | episodes that the format can hold, with their own identities, are read back as the same rows, in order |
| SnapshotSections.MetadataRoundTrip | src/persistence/snapshot.cpp:602-615 | a metadata section that fits is read back field for field |
| SnapshotSections.ReadIsAuthentic | src/persistence/snapshot.cpp:902-907 | only episodes and evidence whose recomputed identity equals the stored one are ever read, from any bytes |
| SnapshotWire.RowsRoundTrip | src/persistence/snapshot.cpp:20-177 | written rows of any column layout are read back at the position they were written, consuming exactly their bytes |
| SnapshotRange.EntriesRange | src/persistence/snapshot.cpp:381-566 | what fitting entries preserve holds of everything that a counted loop read without a failure |
| SnapshotWire.SubjectRoundTrip | src/model/identities.cpp:58-96 | the text of a valid subject with a canonical name parses to that subject |
| SnapshotWire.ReadNumber | src/persistence/snapshot.cpp:86-116 | for any bytes and position: reading an integer never leaves the buffer or moves back, and if it succeeds moves exactly its width |
| SnapshotWire.ReadCount | src/persistence/snapshot.cpp:158-168 | for any bytes: a count never exceeds its bound and reading it never leaves the buffer |
| SnapshotWire.EntriesKeep | src/persistence/snapshot.cpp:381-566 | an added row leaves the tables as specified, or leaves them unchanged and reports the first failing check, an invalid identity (src/model/topology.cpp:19-30) among them |
| SnapshotRange.RowRange | src/persistence/snapshot.cpp:86-210 | whatever bytes are read as a row without a failure, the row fits its columns: numbers their width, texts and tables their bounds, names canonical, subjects valid |
| SnapshotIo.ByteWriter.PutRow | src/persistence/snapshot.cpp:20-70 | the writer appends the bytes of the row to its buffer and changes nothing before them |
| SnapshotIo.ByteReader.TakeNumber | src/persistence/snapshot.cpp:86-116 | the reader's value, position and sticky failure after an integer are those of the specification, on any input |
| SnapshotIo.ByteReader.TakeText | src/persistence/snapshot.cpp:122-134 | the same for a length-prefixed text and its bound |
| SnapshotIo.ByteReader.TakeRow | src/persistence/snapshot.cpp:72-177 | the limits are checked first and a broken one is reported; under sound limits the sections are built and checked in the code's order, and the result is the specified file or the first error |
| SnapshotCodec.TopologyBuilder.AddRow | src/model/topology.cpp:271-414 | an added row leaves the tables as specified, or leaves them unchanged and reports the first failing check |
| SnapshotCodec.TopologyBuilder.Build | src/model/topology.cpp:416-528 | building gives the tables, or the first dangling reference |
| SnapshotCodec.DecodeTopology | src/persistence/snapshot.cpp:381-566 | the decode loops over all seven tables give exactly the specified topology or error |
| SnapshotCodec.OpenContainer | src/persistence/snapshot.cpp:689-786 | reading header and table step by step opens exactly what the specification opens, with the same error otherwise |
| SnapshotCodec.DecodeSnapshot | src/persistence/snapshot.cpp:689-1021 | the imperative decoder equals the decoder the round trip is about, on every input |
| SnapshotOpening.FileLayout | src/persistence/snapshot.cpp:663-685 | the bytes of a file: each number of the header and of the section table at its place and width, then the payload |
| SnapshotOpening.OpensExactly | src/persistence/snapshot.cpp:689-786 | a file with any header, table and payload opens, to exactly its sections, if and only if magic, version, both digests and both bounds are admitted and lengths, checksums, extents and numbers hold; otherwise the first thing wrong decides the error |
| SnapshotOpening.SealedElsewhere | src/persistence/snapshot.cpp:689-786 | what one process sealed opens for another with the same checksum if and only if limits and policy digests agree and its sections and payload are within the bounds of the other; too many sections are an integrity failure, too long a payload exceeds the limit, either digest is a version mismatch |
| SnapshotOpening.EncodedElsewhere | src/persistence/snapshot.cpp:718-731 | an encoded snapshot is refused the same way after a change of limits or policy |
| SnapshotOpening.DecodedIsCurrent | src/persistence/snapshot.cpp:723-830 | whatever decodes names the limits, the policy and the policy version of the process that reads it, and the digest of its own topology |
| SnapshotCodec.EncodeSnapshot | src/persistence/snapshot.cpp:570-687 | the imperative encoder equals the encoder the round trip is about, errors included |
| ResourceLimits.Validate | src/core/limits.cpp:20-80 | limits are refused exactly when the worker bound or the search depth is out of range, a bound that must be positive is zero, or one exceeds another that contains it, in this order of errors |
| LittleEndian.GetPut | src/transport/frame.cpp:14-40 | an integer that fits its width is read back from its little-endian bytes |
| LittleEndian.PutGet | src/transport/frame.cpp:14-40 | any bytes are the little-endian bytes of what is read from them, and that fits the width |
| Checksum.Crc64.Update | src/core/crc64.cpp:7-18 | the nested loops leave the state that folding the byte step over the data gives, so that updates over pieces compose |
| CheckValue.PublishedValue | src/core/crc64.cpp:7-18 | the checksum of the digits one to nine is the published check value 995DC9BBDF1939FA |
| Checksum.Crc64.Reset | include/congestion/core/crc64.hpp:24 | a reset register is that of a new one |
| Checksum.BitStepInvertible | src/core/crc64.cpp:11-16 | the reflected bit step can be undone |
| Burst.WindowDetected | src/core/crc64.cpp:7-18 | two byte strings of equal length that differ only within eight consecutive bytes have different CRC-64 |
| Burst.UndetectedDifference | src/core/crc64.cpp:7-18 | two byte strings of equal length have the same CRC-64 if and only if their bytewise difference drives a zero register to zero |
| Framing.EncodeFrame | src/transport/frame.cpp:60-85 | encoding succeeds exactly when payload and trailer are within the frame bound, and otherwise says which bound was broken |
| Framing.FrameDecoder.constructor | src/transport/frame.cpp:60-85 | a new decoder is empty and holds no frame |
| Framing.FrameDecoder.Feed | src/transport/frame.cpp:87-100 | bytes are appended if and only if the buffer then stays within its 64-bit bound, and refused without change otherwise, also while a frame is held |
| Framing.FrameDecoder.Next | src/transport/frame.cpp:102-149 | the result is what the buffered bytes decode to: more needed, a protocol error, or one frame and its extent |
| Framing.FrameDecoder.Consume | src/transport/frame.cpp:151-159 | the recursive-descent parser with its position and node counter returns, for every input and limits, exactly what the grammar says: the value or the error |
| Framing.FrameDecoder.TakeAll | src/transport/frame.cpp:102-159 | repeating next and consume yields exactly the frames, remainder and error that draining the buffer means |
| Framing.PeekOnlyEncodings | src/transport/frame.cpp:102-149 | whenever a frame is found it carries its own checksum and its encoding is the bytes consumed |
| Framing.PeekPartial | src/transport/frame.cpp:102-149 | a proper prefix of an encoding is never an error: more is needed |
| Framing.WaitsExactly | src/transport/frame.cpp:102-149 | the decoder waits exactly while the header is incomplete, or is that of a frame and its body is; another magic or version, or a body shorter than its checksum, is a protocol error as soon as the header is there, and a body past the bound a limit error; any other error is a wrong checksum of a complete body |
| Framing.PeekTampered | src/transport/frame.cpp:137-144 | a frame whose payload and trailer were replaced is accepted exactly when the new trailer is the checksum of the new payload |
| Framing.StreamRoundTrip | src/transport/frame.cpp:60-159 | any chunking of encoded frames that is not refused yields exactly those frames in order and an empty buffer |
| Framing.DeliveredExactly | src/transport/frame.cpp:87-159 | a chunking of encoded frames is delivered whole if and only if each chunk fits beside what is held back before it, a condition on lengths alone |
| Framing.RoomExactly | src/transport/frame.cpp:92-97 | after draining any part of any valid stream one more byte is accepted, always, if and only if the frame bound plus the header does not wrap in 64 bits |
| Framing.ByteAtATime | src/transport/frame.cpp:87-159 | where it does not wrap, every stream of encodable frames fed byte by byte is delivered |
| Framing.TwoFramesTogetherRefused | src/transport/frame.cpp:92-97 | two frames of maximal size fed as one chunk are refused, though fed one by one they are delivered |
| FrameIntegrity.DamagedPayloadRefused | src/transport/frame.cpp:137-144 | a frame whose payload was altered within eight consecutive bytes is a protocol error |
| FrameIntegrity.DamagedTrailerRefused | src/transport/frame.cpp:137-144 | so is a frame whose trailer was altered |
| JsonWriter.Dump | src/core/json.cpp:42-99 | the recursive printer, appending to one buffer, writes the text the grammar gives the value at any indent |
| JsonWriter.JsonEscape | src/core/json.cpp:565-589 | escaping byte by byte gives the escaped text |
| JsonParser.ParseJson | src/core/json.cpp:119-446 | the recursive-descent parser with its position and node counter returns, for every input and limits, exactly what the grammar says: the value or the error |
| JsonParser.Parser.ParseValue | src/core/json.cpp:178-205 | from any position, depth and node count, the value, the rest of the text and the nodes counted, or the error, are those of the grammar |
| JsonParser.Parser.ParseObject | src/core/json.cpp:391-440 | the same for an object, duplicate keys refused |
| JsonParser.Parser.ParseArray | src/core/json.cpp:352-389 | the same for an array |
| JsonParser.Parser.ParseString | src/core/json.cpp:285-350 | the same for a string with escapes and surrogate pairs |
| JsonParser.Parser.ScanNumber | src/core/json.cpp:217-240 | the scan stops at the first byte that cannot belong to a number and knows whether it saw only an integer, and any digit |
| JsonParser.Parser.ParseNumber | src/core/json.cpp:217-262 | the number token is converted as the grammar says, out-of-range integers included |
| JsonAccepted.AcceptsExactly | src/core/json.cpp:119-446 | a text is accepted as a value if and only if it spells that value within the bounds on bytes, depth and nodes: any of the four white-space bytes between tokens, any escape, hexadecimal digits in either case, numbers, literals and distinct keys, each spelled out independently of the parser |
| JsonStrings.StringExactly | src/core/json.cpp:264-350 | a string is read if and only if its quotes enclose bytes that stand for themselves, the eight short escapes, escapes of scalars in either case and surrogate pairs, and then means what these mean one after the other |
| JsonStrings.HexExactly | src/core/json.cpp:264-283 | the value of a hexadecimal digit is its position among the lower-case or the upper-case digits, and no other byte has one |
| JsonReading.ValueRead | src/core/json.cpp:178-440 | whatever spells a value is read as that value in the middle of a text, with what follows unread and its nodes counted |
| JsonAccepted.ValueFound | src/core/json.cpp:178-440 | whatever the parser reads in front of a text spells the value it gives, within depth and node bounds |
| JsonParser.JsonObject.TryInsert | src/core/json.cpp:457-467 | a member is appended if and only if its key is new, and index and members stay in step |
| JsonParser.JsonObject.Assign | src/core/json.cpp:469-481 | the member with the key is replaced in place, or appended; no other member or position changes; a scan then finds the value |
| JsonParser.JsonObject.Find | src/core/json.cpp:483-494 | indexed lookup finds what a scan of the members finds |
| JsonRoundTrip.DocumentRoundTrip | src/core/json.cpp:42-99 | every value whose doubles survive, within the depth, node and size limits, at every indent, is parsed back from its text exactly, members in order, strings of any bytes |
| JsonRoundTrip.ValueRoundTrip | src/core/json.cpp:119-446 | the same for a value in the middle of a text, at any depth and node count, with what follows left unread and its nodes counted |
| JsonRoundTrip.WriteSpells | src/core/json.cpp:42-99 | what the writer writes, at any indent, is one of the spellings of the value |
| JsonRoundTrip.DoubleSurvivesExactly | src/core/json.cpp:21-34 | a double survives printing and parsing if and only if its text reads as a double (an integral one prints as an integer and does not) and converts back |
| JsonRoundTrip.IntegralDoubleTurnsWhole | src/core/json.cpp:21-34 | any double whose text is that of an integer is read back as that integer |
| JsonRoundTrip.QuotedRoundTrip | src/core/json.cpp:285-350 | any bytes, control bytes and quotes included, are read back from their quoted form with what follows left unread |
| JsonText.UnicodeRoundTrip | src/core/json.cpp:264-350 | every Unicode scalar is read back from its escape, by a surrogate pair where it needs one |
| JsonText.Utf8Decodes | src/core/json.cpp:101-117 | the bytes appended for a scalar are its UTF-8 form and decode to it |
| JsonText.LoneSurrogateRefused | src/core/json.cpp:325-342 | a surrogate half without its partner is an error |
| JsonText.NumberRoundTrip | src/core/json.cpp:217-262 | every 64-bit integer is read back from its decimal text |
| Calendar.DaysRoundTrip | src/core/time.cpp:19-39 | every day count gives a valid date, which counts back to it |
| Calendar.DateRoundTrip | src/core/time.cpp:19-39 | every valid date is given by its own day count |
| Calendar.CountsCalendarDays | src/core/time.cpp:19-30 | day 0 is 1 January 1970, and each next count is the next day of the Gregorian calendar |
| Iso8601.FromIso8601 | src/core/time.cpp:131-218 | the parser returns what the text means under the profile, or the first error, checked arithmetic included |
| Iso8601.TextRoundTrip | src/core/time.cpp:102-218 | for every 64-bit timestamp: its text parses to it from the earliest representable second on, and below that overflow is reported, never a wrong value |
| Iso8601.AcceptedRoundTrips | src/core/time.cpp:102-218 | every accepted text denotes a 64-bit timestamp, and printing and parsing that again gives the same |
| Iso8601.ReadInt | src/core/time.cpp:43-56 | a field is its decimal value, or invalid when it leaves the text or holds a non-digit |
| Iso8601.ReadFraction | src/core/time.cpp:166-187 | the first nine digits of a fraction are scaled to nanoseconds and further digits are dropped; a missing point or a non-digit is invalid |
| Checked.CheckedAdd | include/congestion/core/checked.hpp:21-37 | signed addition succeeds exactly when the sum is representable, and gives it |
| Checked.CheckedAddUnsigned | include/congestion/core/checked.hpp:21-37 | so does unsigned addition |
| Checked.CheckedMulExact | include/congestion/core/checked.hpp:39-71 | signed multiplication, with truncating division in its guards, succeeds exactly when the product is representable, and gives it |
| Checked.CheckedMulUnsignedExact | include/congestion/core/checked.hpp:39-71 | in any interleaving of ingests of many sources, recoveries, sweeps and liveness resets, the records stored for one source are exactly the accepted run of what its fence was shown: every ingest of it that nothing refused before the fence was looked at, those denied included, but for one accepted without a name to be stored under |
| Fencing.CompareFlips | src/model/generation.cpp:12-34 | swapping two generations flips their comparison if and only if epoch and generation do not point in opposite directions |
| Fencing.CompareNotAntisymmetric | src/model/generation.cpp:25-33 | a concrete pair that compares as older one way and incomparable the other |
| Fencing.AcceptsExactly | src/model/generation.cpp:91-192 | an observation is accepted if and only if it has a source, enough authority, and its fence follows the last accepted one |
| Fencing.DecisionNamed | src/model/generation.cpp:91-192 | which decision is given: after the missing source, the authority and the first observation, it is named after the first of boot, incarnation, epoch, generation and revision that differs, behind or ahead; a higher epoch with a lower generation is incomparable, and otherwise the sequence number decides |
| Fencing.OutcomeFlags | src/model/generation.cpp:112-190 | the oldest record of all leaves at the global cap, then the oldest of the subject at the subject cap, and nothing leaves otherwise; the count of evictions is exact and both caps leave room |
| Fencing.AcceptedIncrease | src/model/generation.cpp:91-192 | in any run of observations of one source each accepted fence follows every earlier one: boot, epoch, generation, revision, sequence ascend, and within a boot the incarnation is constant |
| Fencing.NoReplay | src/model/generation.cpp:91-192 | no fence is accepted twice |
| Fencing.GapsAccountForSequence | src/evidence/store.cpp:85-170 | for every record and policy: refused early with the right error and no change, denied by the fence, or stored; in each case the list, the fence table and the outcome, what had to leave stated over the lists themselves; a new boot retires the older records of its source first |
| EvidenceRuns.StoredAreAccepted | src/evidence/store.cpp:172-209 | a recovered record is stored as history without touching any fence, under the same caps and with what leaves stated the same way, with the error cases |
| EvidenceRuns.StoredIncrease | src/evidence/store.cpp:85-209 | so the fences stored for a source strictly follow one another |
| EvidenceRuns.StoredAccountForSequence | src/evidence/store.cpp:85-209 | and gaps and steps account for their sequence numbers |
| EvidenceRuns.AcceptedAgainExactly | src/evidence/store.cpp:150-166 | a record whose fence was accepted is accepted again when repeated if and only if its subject has no index name |
| EvidenceRuns.NamelessSubject | src/evidence/store.cpp:30-38 | there is such a subject: a valid kind with a canonical name of maximal length |
| EvidenceStorage.EvidenceStore.constructor | src/evidence/store.cpp:28-28 | exactly some outdated records leave the list, at most the budget, bucket by bucket in the order of their names and each from its front; a completed sweep removes the smaller of budget and number outdated; survivors keep their order; a cancelled one stays consistent |
| EvidenceStorage.EvidenceStore.MakeRoom | src/evidence/store.cpp:46-73 | the answer is the one the list gives: the records asked for in bucket order, as many as the budget allows, in time order; a query for live records answers with current incarnations only |
| EvidenceLog.AdmitsExactly | src/evidence/store.cpp:46-73 | the list after an admission lacks a record of the list before exactly when that was the first one and the store held its bound, or was the oldest left of the subject and that many were left of it; the rest keep their order and the new record is last |
| EvidenceLog.AdmissionUnique | src/evidence/store.cpp:30-83 | only one list meets that description |
| EvidenceLog.RoomAppends | src/evidence/store.cpp:46-73 | below both bounds the new record is appended and nothing leaves |
| EvidenceStorage.EvidenceStore.AdmitLocked | src/evidence/store.cpp:238-250 | the loops over buckets, in key order and stopped by the budget, collect the first of the records asked for as the list holds them |
| EvidenceStorage.EvidenceStore.IngestFenced | src/evidence/store.cpp:114-170 | of a record that passed the early checks: the three cases denied, accepted without an index name, stored, each with list, fence table and outcome |
| EvidenceStorage.EvidenceStore.Ingest | src/evidence/evidence.cpp:298-362 | a record can be assessed fresh only if it is of the current incarnation |
| EvidenceStorage.EvidenceStore.IngestRecovered | src/evidence/store.cpp:172-209 | a recovered record is stored as history without touching any fence, under the same caps, with the error cases |
| EvidenceStorage.EvidenceStore.AdmitRecovered | src/evidence/store.cpp:195-209 | the admission of a recovered record whose source is known: the list, the outcome and the evictions, or the error of a subject without an index name |
| EvidenceStorage.EvidenceStore.ResetLiveness | src/evidence/store.cpp:341-346 | every source becomes not live and nothing else changes |
| EvidenceStorage.EvidenceStore.SweepBucket | src/evidence/store.cpp:305-336 | the chain of rules concludes the verdict, mechanisms and severity of the specification and raises exactly the specified blockers, in order; what these are in terms of the records is said by VerdictExactly and BlockersExactly |
| EvidenceStorage.EvidenceStore.Sweep | src/evidence/store.cpp:292-339 | exactly some outdated records leave the list, at most the budget; a completed sweep removes the smaller of budget and number outdated; survivors keep their order; a cancelled one stays consistent |
| EvidenceViews.InTurnUnique | src/evidence/store.cpp:305-336 | the order of the buckets and the number removed decide which records a sweep removes |
| EvidenceStorage.EvidenceStore.Query | src/evidence/store.cpp:211-254 | the answer holds records of the list that match, as many as the budget allows, in time order: of one subject the oldest stored, of all subjects exactly the matching ones when they fit; a query for live records answers with current incarnations only |
| EvidenceQueries.Collect | src/evidence/store.cpp:233-252 | the same for the loops over buckets in whatever order they come |
| EvidenceQueries.AnswerMeaning | src/evidence/store.cpp:211-254 | an answer is sorted, holds the smaller of the budget and the number asked for, and only matching records of the list, of the subject if one is named |
| EvidenceQueries.AllFit | src/evidence/store.cpp:211-254 | without a subject and within the budget the buckets do not show: the answer is all matching records of the list, sorted |
| EvidenceQueries.LeftOutExactly | src/evidence/store.cpp:211-236 | a record is kept out of an answer exactly for its kind, for a moment outside a window that is not zero, for being recovered unless both recovered and inactive ones are asked for, or for being retired unless inactive ones are |
| EvidenceQueries.PresentedForgetsOrder | src/evidence/store.cpp:10-24 | the sorted answer depends only on which records were collected, not on the order of the buckets |
| EvidenceLog.DropOldestBuckets | src/evidence/store.cpp:62-73 | evicting a subject's oldest record from the list takes the front of its bucket and leaves every other bucket |
| EvidenceLog.HeadIsOldest | src/evidence/store.cpp:46-60 | the smallest insertion index names the head of the list, which is the front of its bucket |
| EvidenceViews.ViewsAppend | src/evidence/store.cpp:75-77 | appending to bucket, index and count is appending to the list |
| EvidenceViews.ViewsRetire | src/evidence/store.cpp:138-148 | retiring in every bucket is retiring in the list, and keeps order, caps and index |
| EvidenceViews.LiveAfterAccept | src/evidence/store.cpp:130-166 | after an accepted observation every record neither retired nor recovered belongs to its source's last accepted boot and incarnation |
| EvidenceViews.FreshIsCurrent | src/evidence/evidence.cpp:298-362 | only records of the current incarnation can be assessed fresh |
| Readings.FreshExactly | src/evidence/evidence.cpp:298-362 | a record is fresh exactly when it is not recovered, retired or too far in the future and its age is within the fresh, aging and stale bounds and its own validity; unknown, expired and aging are told apart the same way |
| Readings.RolesExactly | src/evidence/evidence.cpp:17-110 | which kinds of evidence speak of demand, backlog, contention, harm, load and capacity |
| EvidenceViews.SweepCompletes | src/evidence/store.cpp:292-339 | a sweep that visited every bucket removed the smaller of its budget and the number of outdated records |
| Model.KeyInjective | src/model/identities.cpp:58-73 | two valid subjects with the same non-empty index name are the same subject |
| Agreeing.AssessAgreement | src/evidence/evidence.cpp:364-500 | for every list of records and tolerance the verdict is that of the specification; counts, extremes, spread and citations are exact; the representative is the mean of the first of the largest clusters, which is that of the strict majority when there is one |
| Agreeing.AgreementExactly | src/evidence/evidence.cpp:364-500 | the verdict from units, semantics, sources and values: unknown, incomparable, a single source, all close to the least value, a cluster that more than half of the sources are first heard in, or none |
| Agreeing.Cluster | src/evidence/evidence.cpp:434-454 | a score never exceeds 100 |
| Agreeing.CountSources | src/evidence/evidence.cpp:456-463 | the counts per cluster are the numbers of sources first heard there |
| Agreeing.CountsAddUp | src/evidence/evidence.cpp:456-463 | the counts of the greedy clusters add up to the number of distinct sources |
| Agreeing.FewestPositions | src/evidence/evidence.cpp:434-454 | the number of positions that a list of records holds is the least number of groups, each within tolerance of its smallest value, that they can be split into |
| Agreeing.OneMajority | src/evidence/evidence.cpp:465-494 | at most one cluster holds a strict majority of the sources |
| Agreeing.MajorityRepresented | src/evidence/evidence.cpp:465-479 | the chain of rules concludes the verdict, mechanisms and severity of the specification and raises exactly the specified blockers, in order |
| Agreeing.LargestDecides | src/evidence/evidence.cpp:465-494 | the largest count is a strict majority if and only if some cluster holds one |
| Agreeing.OrderIrrelevantExactly | src/evidence/evidence.cpp:374-385 | a request is refused exactly when its subject is invalid or its window reversed; otherwise judgement and blockers follow from the extracted features |
| Clustering.GreedyIsMinimal | src/evidence/evidence.cpp:434-454 | no grouping whose groups lie within tolerance of their least value has fewer groups than the greedy clusters |
| Clustering.GreedyCovers | src/evidence/evidence.cpp:434-454 | the greedy clusters are such a grouping |
| Clustering.GreedyRuns | src/evidence/evidence.cpp:434-454 | they are contiguous runs of the sorted points |
| Clustering.OneClusterExactly | src/evidence/evidence.cpp:434-454 | there is one cluster if and only if every value is within tolerance of the least |
| Clustering.FirstFit | src/evidence/evidence.cpp:434-454 | the chosen cluster is the first whose head fits |
| Clustering.WithinIsWindowed | src/evidence/evidence.cpp:441-443 | the relative tolerance test is a window: whatever lies between a cluster's first value and a value that fits it fits as well |
| Clustering.FitsExactly | src/evidence/evidence.cpp:441-443 | a value fits when its distance from the reference, divided by the size of that, is at most the tolerance; sizes below a millionth of a millionth count as that |
| Classifying.ExtractFeatures | src/assessment/classify.cpp:671-944 | the feature loops give the features that the usable records show: presence, rates, peaks, loads and counts |
| Classifying.ObserveRate | src/assessment/classify.cpp:85-116 | the rate is the largest ratio among the kind's records, an unquantified amount and a lifetime-only counter are each flagged exactly when such a record exists, and harm counts as observed exactly when some record shows it |
| Classifying.ObserveLatency | src/assessment/classify.cpp:885-909 | latency counts as inflated if and only if there are two positive samples and some pair of them lies the policy factor apart |
| Classifying.RuleEngine.AssessRules | src/assessment/classify.cpp:203-346 | the chain of rules concludes the verdict, mechanisms and severity of the specification, and only adds blockers |
| Classifying.EarlyBlockers | src/assessment/classify.cpp:203-239 | absence, another generation and unsupported data are blamed exactly when the records show them: none of the subject, one of another generation, one unsupported while not all are of another generation |
| Classifying.HarmAnswered | src/assessment/classify.cpp:272-282 | fresh harm that does not decide is answered by a blocker of its own, and such a blocker is raised only then |
| Classifying.UtilizationNamed | src/assessment/classify.cpp:327-335 | high utilization alone is named exactly when the verdict is healthy utilization |
| Classifying.VerdictsExplained | src/assessment/classify.cpp:203-346 | a verdict that decides nothing says why, and an assertion leaves only the blockers it was made in spite of |
| Classifying.RuleEngine.Block | src/assessment/classify.cpp:191-201 | a blocker is listed once and at most up to the bound |
| Classifying.ClassifySubject | src/assessment/classify.cpp:946-992 | a request is refused exactly when its subject is invalid or its window reversed; otherwise the judgement follows from the extracted features |
| Verdicts.VerdictExactly | src/assessment/classify.cpp:203-369 | verdict, mechanisms and severity from the records alone, as equivalences: which records assert congestion, which harm and how strong give which severity, and when the answer is saturated, pressure, contention, healthy, idle, no evidence or indeterminate |
| Verdicts.BlockersExactly | src/assessment/classify.cpp:203-346 | each of the eleven blockers is raised exactly when the records call for it |
| Classifying.AssertedExactly | src/assessment/classify.cpp:348-369 | congestion is asserted if and only if the usable records are decisive: one of them is an impairment amount, or a ratio at its threshold, or latency is inflated |
| Classifying.OnlyUsableMatters | src/assessment/classify.cpp:671-944 | two record lists with the same usable records give the same assertion, and the same verdict, mechanisms and severity as soon as one is usable |
| Classifying.AssertionMonotone | src/assessment/classify.cpp:348-369 | adding usable records never withdraws an assertion |
| Classifying.AssertionHardens | src/assessment/classify.cpp:138-151 | nor, once asserted, does it remove a mechanism or lower the severity |
| Classifying.AssertionIsBacked | src/assessment/classify.cpp:594-603 | behind every assertion there is a usable impairment record with a positive value, and a mechanism is named |
| Classifying.FeaturesForgetOrder | src/assessment/classify.cpp:671-944 | the breadth-first search stops and reaches exactly the subjects at reverse distance 1 to the depth bound, each once at its shortest distance; each is recorded with a stored edge, the one by which a breadth-first walk in key order first meets it, towards a subject one step nearer; the examined paths are the edges into nearer subjects; the depth flag is set exactly when a subject at the bound has an edge into it |
| Assessing.PrimaryExactly | src/assessment/classify.cpp:594-603 | there is a primary mechanism exactly when there is any |
| Assessing.PrimaryIsFirst | src/assessment/classify.cpp:594-603 | the primary mechanism is the one present with the lowest number |
| Pipeline.ObserveClassified | src/episode/episode.cpp:199-204 | the registry never refuses a classification for lack of a mechanism: observing one opens or refreshes an episode exactly when the usable records are decisive, and otherwise leaves none open on that subject |
| CausalGraphs.CausalGraph.AddNode | src/localization/graph.cpp:44-62 | a node is added, was there, or is refused for an invalid subject or the bound |
| CausalGraphs.CausalGraph.AddEdge | src/localization/graph.cpp:64-122 | nodes, edges and error after any call, in the order of the checks; the first edge of a key stays; both adjacency indexes keep agreeing with the edges |
| CausalGraphs.CausalGraph.OutEdges | src/localization/graph.cpp:140-148 | a score never exceeds 100 |
| CausalGraphs.CausalGraph.InEdges | src/localization/graph.cpp:150-166 | exactly the stored edges into a node, once each |
| CausalGraphs.CitedExactly | src/localization/graph.cpp:101-108 | stored citations are sorted, without repetition, within the bound and never empty when any were given |
| Searching.Search | src/localization/localize.cpp:101-139 | the breadth-first search stops, reaches exactly the subjects at reverse distance 1 to the depth bound, each once at its shortest distance by an edge that lies on a shortest path; the examined paths are the edges into nearer subjects; the depth flag is set exactly when a subject at the bound has an edge into it |
| Searching.SearchUnique | src/localization/localize.cpp:97-139 | two searches of the same edges from the same symptom to the same depth find and record the same |
| VisitOrders.VisitOrderUnique | src/localization/graph.cpp:150-166 | there is one order in which a breadth-first walk in key order meets a set of subjects: causes of an earlier subject first, those of one subject by their own names |
| Searching.BallIsPaths | src/localization/localize.cpp:101-139 | being within a distance is having a path of that length |
| Searching.DistanceUnique | src/localization/localize.cpp:101-139 | a subject at a distance is within a depth exactly when the distance is at most that depth |
| Localizing.Gather | src/localization/localize.cpp:141-213 | the loop over records gives what the countable records of the subject show |
| Localizing.Localize | src/localization/localize.cpp:68-321 | every case of the outcome: refused, not attempted, empty graph, and else the search above, the ranking of all its scored candidates, and the decision |
| Culprits.RankedExactly | src/localization/localize.cpp:150-225 | a subject that the search reached is among the ranked candidates if and only if no decisive evidence is required or some record of it in the window, neither recovered, retired nor unsupported, is fresh and of a kind that speaks of demand, backlog, contention or harm |
| Culprits.ScoreExactly | src/localization/localize.cpp:210-241 | the score of a candidate, capped at 100, is the sum of fixed points for what its records and the edge to it show |
| Culprits.RankedInOrder | src/localization/localize.cpp:244-250 | the ranking goes by score, highest first, then by kind and name |
| Culprits.ReportedExactly | src/localization/localize.cpp:251-300 | the outcome from the first two ranks, and for every rank whether it is reported: within the cap, at least the minimum score and, when the leaders are too close, within the margin |
| Culprits.ConfidenceExactly | src/localization/localize.cpp:303-306 | a report carries its score when records of two sources count for its subject, and seven tenths of it otherwise |
| Localizing.ScoreOf | src/localization/localize.cpp:226-239 | a score never exceeds 100 |
| Localizing.EvidenceOutranksStructure | src/localization/localize.cpp:226-250 | every case of an observation with its store, count of dropped episodes and result; after a non-asserting one no episode of that scope is open; an eviction never removes an open or quiescent episode |
| Localizing.RankingUnique | src/localization/localize.cpp:243-250 | the candidates have only one ranking |
| Localizing.LocalizationUnique | src/localization/localize.cpp:68-321 | a victim is found exactly when some episode is terminal; it is terminal and least recently updated, the first by identity among those |
| Localizing.UnlocalizedExactly | src/localization/localize.cpp:255-268 | every open episode of the scope becomes quiescent, no other changes, and the update reports the first of them by identity |
| Localizing.LocalizedMeaning | src/localization/localize.cpp:282-288 | time is applied to all episodes, or, when cancelled, to as many as were polled, the first in order of identity; each change is reported once and nothing else is, in that order, with the state, revision and severity it led to |
| Localizing.AmbiguousMeaning | src/localization/localize.cpp:270-281 | when ambiguous, at least two are reported: exactly the qualifying ones closer to the leader than the margin |
| Localizing.ReportedIsBacked | src/localization/localize.cpp:215-224 | with decisive evidence required, every reported subject is joined to the symptom by a path within the bound and has a fresh decisive record of its own |
| Localizing.CandidatesForgetOrder | src/localization/localize.cpp:141-241 | the candidates do not depend on the order or repetition of records |
| Episodes.AppendTransition | src/episode/episode.cpp:111-118 | the loop that trims history keeps the newest transitions within the bound and counts the dropped |
| Episodes.AppendAssessment | src/episode/episode.cpp:120-127 | the nested loops poll the token before each episode and before each comparison; they are cancelled exactly when one of these polls finds it turned, and otherwise give the specified groups |
| Episodes.StepAccounted | src/episode/episode.cpp:111-127 | each revision keeps the books: revision is retained plus dropped transitions, observations are retained plus dropped assessments, retained revisions are consecutive and end at the current one, truncation is flagged exactly when something was dropped, peak severity is at least the current |
| Episodes.CreateAccounted | src/episode/episode.cpp:237-262 | a new episode starts with its books in order |
| Episodes.EpisodeRegistry.Observe | src/episode/episode.cpp:133-328 | every case of an observation with its store and result; after a non-asserting one no episode of that scope is open; an eviction never removes an open or quiescent episode |
| Episodes.EpisodeRegistry.Assert | src/episode/episode.cpp:199-328 | an assertion refreshes the episode of its key, or opens one, evicting a terminal one at the bound, or is refused when none is terminal |
| EpisodeAnswers.AnsweredExactly | src/episode/episode.cpp:199-328 | an assertion is answered by the episode of its scope, tenant, mechanism, generation and policy version, field by field, known or new; at the bound a new one replaces the episode that is over and was updated longest ago, is refused exactly when none is over, and no other episode changes |
| Episodes.EpisodeRegistry.Victim | src/episode/episode.cpp:216-235 | in every infinite interleaving that is fair to each thread, a stop that has begun ends if and only if it found workers or no start added some before it was over, and then with no worker left, the queue empty and everything submitted completed |
| Episodes.EpisodeRegistry.Calm | src/episode/episode.cpp:147-197 | every open episode of the scope becomes quiescent, no other changes, and the update reports one of them |
| EpisodeAnswers.QuietExactly | src/episode/episode.cpp:147-197 | an assessment that asserts nothing makes the open episodes of its scope quiescent, field by field, and leaves every other as it was |
| Episodes.EpisodeRegistry.AdvanceAll | src/episode/episode.cpp:330-400 | time is applied to all episodes, or to as many as were visited before cancellation, and each change is reported once |
| Episodes.EpisodeRegistry.Restore | src/episode/episode.cpp:464-485 | a restored episode replaces an older revision of itself, or is refused with the right error |
| Episodes.TimeOnlyCloses | src/episode/episode.cpp:339-398 | time never opens an episode, never moves an expired one, and counts one revision per change |
| Episodes.TimeDescends | src/episode/episode.cpp:339-398 | each change by time goes strictly down the lifecycle and leaves the last sighting |
| Episodes.TimeSettles | src/episode/episode.cpp:339-398 | at one moment at most three changes happen |
| Episodes.SettledState | src/episode/episode.cpp:338-392 | where time takes an episode at one moment, from its state, its idle time and the two thresholds: open up to the resolution time, then quiescent, resolved past twice that, and expired past the expiry time |
| Correlating.Correlate | src/correlation/group.cpp:64-223 | the nested loops give the specified groups, or stop at a cancellation that was asked for |
| Correlating.AcceptsExactly | src/correlation/group.cpp:98-134 | a group accepts an episode if and only if it matches the reference on every required field and interval and there is room |
| Correlating.GapIsDistance | src/correlation/group.cpp:11-18 | two episodes are within the gap exactly when they were seen at a common moment or at two no further apart |
| Correlating.CodeNamed | src/correlation/group.cpp:98-134 | a refusal is named after the first requirement that fails, in the order of the code, and a merge after the scopes |
| Correlating.JoinsEarliest | src/correlation/group.cpp:90-158 | an episode joins the earliest-opened group that accepts it; no group's members change otherwise |
| Correlating.CorrelationSound | src/correlation/group.cpp:90-173 | every episode is in exactly one group or left out, groups keep their caps, members match their reference, and one is left out only at the group cap |
| Correlating.CorrelationForgetsOrder | src/correlation/group.cpp:64-223 | with distinct ids the result does not depend on the order of the input |
| Correlating.WindowStartsExactly | src/correlation/group.cpp:147-149 | a group's window starts at its first sighting if and only if that is not the zero time, or all its sightings are |
| Correlating.SourcesExactly | src/correlation/group.cpp:203-213 | a group's sources are those of its members, each once, in order |
| Correlating.ZeroStartMisread | src/correlation/group.cpp:147-149 | for any two matching episodes, the first seen at zero and the second later: they form one group whose window starts at the second |
| WorkerPools.WorkerPool.StartWorkers | src/runtime/runtime.cpp:61-73 | starting is one step of the machine: nothing if workers exist, else the workers, the bound and no stop |
| WorkerPools.WorkerPool.SubmitTask | src/runtime/runtime.cpp:75-102 | a submission is accepted and queued last, or refused for stopping, not running or a full queue, and counted so |
| WorkerPools.WorkerPool.TakeTask | src/runtime/runtime.cpp:43-58 | a worker takes the first task, or exits when stopping with nothing queued |
| WorkerPools.WorkerPool.FinishTask | src/runtime/runtime.cpp:53-56 | a worker whose task has run becomes idle and the count of completed tasks grows by one |
| WorkerPools.WorkerPool.RequestStop | src/runtime/runtime.cpp:104-108 | the stop flag is set and nothing else |
| WorkerPools.WorkerPool.JoinNext | src/runtime/runtime.cpp:110-114 | one more exited worker has been joined, in order, and nothing else changes |
| WorkerPools.WorkerPool.ClearWorkers | src/runtime/runtime.cpp:115-116 | the joined workers are dropped and the stop is over |
| WorkerPools.StepKeepsInv | src/runtime/runtime.cpp:32-123 | every step of every thread keeps the invariant |
| WorkerPools.Conservation | src/runtime/runtime.cpp:32-123 | in every interleaving: submitted are queued, running or completed; the queue is within its bound; tasks start in the order they were accepted and the unstarted ones are the queue |
| WorkerPools.JoinedIsDrained | src/runtime/runtime.cpp:104-117 | when stop has joined every worker, nothing is queued, all submitted tasks completed and all accepted ones started |
| WorkerPools.ShutdownNeverStuck | src/runtime/runtime.cpp:104-117 | once stopping, some worker or the stopper can always move |
| WorkerPools.StopEnds | src/runtime/runtime.cpp:43-117 | in every infinite interleaving that is fair to each thread, a stop that has begun reaches its end, with the queue empty and everything submitted completed |
| WorkerPools.JoiningEnds | src/runtime/runtime.cpp:104-117 | a stop that found workers joins them all and ends with the queue drained |
| WorkerPools.OvertakenNeverEnds | src/runtime/runtime.cpp:64-76 | a start that adds workers while a stop that found none is under way takes its flag away, and the stop never ends |

## Findings

Each line names a property that the code does not have as one would first state it, the lemma that exhibits the input, and the
lemma that says exactly when the code does have it.

| property | where it fails | the input | exactly when it holds |
|---|---|---|---|
| A save never costs the snapshot committed before it | src/persistence/store.cpp:127-141: a probe that errs on an existing primary skips the fallback copy, and the primary is then removed before the rename | Durability.BlindProbeLosesSnapshot | Durability.SaveRecoversExactly for one save, Durability.RunRecoversExactly for a run |
| What is accepted for saving can be loaded | src/persistence/snapshot.cpp:640 bounds the payload, src/persistence/store.cpp:34 the whole file, 180 bytes more | SnapshotDurability.AcceptedButNotLoaded | SnapshotDurability.AcceptedLoadsExactly, SnapshotIntegrity.FileBoundExactly |
| A topology comes back as it was | src/persistence/snapshot.cpp:212-217 writes 64 labels whatever the configured bound; the tenant and class of a flow may be empty when written and not when read (src/persistence/snapshot.cpp:374-377,535-545) | SnapshotSurvival.UnattributedFlowLost, SnapshotRebuild.ClipChanges | SnapshotSurvival.TopologyReturnsExactly, SnapshotRebuild.TopologySurvivesExactly |
| Encodable frames are delivered whatever the chunking | src/transport/frame.cpp:92-97 refuses a chunk that spans frames when it does not fit beside what is held | Framing.TwoFramesTogetherRefused | Framing.DeliveredExactly |
| A drained decoder takes at least one more byte | src/transport/frame.cpp:92: the bound wraps in 64 bits for a frame bound near the top | Framing.NoRoom | Framing.RoomExactly |
| A finite double survives JSON | src/core/json.cpp:21-34 prints an integral double without a point, which parses as an integer | JsonRoundTrip.IntegralDoubleTurnsWhole | JsonRoundTrip.DoubleSurvivesExactly |
| Comparing generations is antisymmetric | src/model/generation.cpp:25-33 decides by the epoch before looking at a generation that disagrees | Fencing.CompareNotAntisymmetric | Fencing.CompareFlips |
| An accepted fence is never accepted again | src/evidence/store.cpp:138-154: a subject whose rendered name is too long for the index is refused after the fence was accepted, and after older records were retired, so nothing is recorded | EvidenceRuns.NamelessSubject | EvidenceRuns.AcceptedAgainExactly; EvidenceStorage.EvidenceStore.Ingest states the case |
| Agreement does not depend on the order of the records | src/evidence/evidence.cpp:374-385 looks at the semantics of the first record only | Agreeing.OrderIrrelevantExactly, for any other list | Agreeing.OrderIrrelevantExactly |
| A snapshot of another version is reported as such | src/persistence/store.cpp:186-193 reports any fallback that does not load as an integrity failure | Durability.FallbackMismatchHidden | Durability.FlagsExactly |
| A group's window starts at its first sighting | src/correlation/group.cpp:147 reads a zero start as unset | Correlating.ZeroStartMisread | Correlating.WindowStartsExactly |
| A stop that has begun ends | src/runtime/runtime.cpp:64-76,104-117: a start while a stop that found no workers is under way clears the flag, and the stop then joins workers that never exit | WorkerPools.OvertakenNeverEnds | WorkerPools.StopEnds |

Where the documentation says more than the code does, the model follows the code: docs/persistence.md presents the previous
snapshot as always kept before the primary is replaced, which the first finding refutes.

## Left out

- SnapshotSurvival.SnapshotReturnsExactly: assumes that the document bound admits the five letters of an absent subject, so bounds of one to four bytes are not covered; SnapshotRoundTrip has no such assumption.
- SnapshotCodec.DecodeSnapshot: works on rows driven by a column layout, not on one statement per field; SnapshotEpisodes and SnapshotRecords map episodes and evidence to those rows and back.
- JsonRoundTrip.DocumentRoundTrip: doubles are reals with an abstract conversion to and from text, so NaN, infinities and rounding are not covered.
- JsonAccepted.AcceptsExactly: what a number with a point or an exponent is worth is left to that abstract conversion.
- Correlating.GapIsDistance: speaks of a distance between intervals only where neither episode ends before it begins; a clock that ran back is covered endpoint by endpoint.
- Iso8601.TextRoundTrip: only the calendar, timestamp and checked-arithmetic code bounds time to 64 bits; ages and intervals elsewhere are unbounded integers.
- Agreeing.AssessAgreement: values and tolerances are reals, and reason codes are left out.
- Classifying.ClassifySubject: confidence points, citations, explanation steps, the blockers added when an assessment is finished (src/assessment/classify.cpp:371-410,472-488) and the feature digest are left out.
- Localizing.Localize: citations, rules, named basis points and explanation are left out of candidates.
- Correlating.Correlate: the detail texts of merge decisions are left out.
- Durability.SnapshotStore.Load: the notes of the report are left out.
- SnapshotSurvival.UnattributedFlowLost: states that such a topology does not come back, not which error is reported.
- WorkerPool: task bodies, the empty task and spurious wake-ups are left out; a worker's wait is its step becoming enabled. One stop is under way at a time, and its last look at the threads and its clearing of them are one step, so a start between the two, which would destroy running threads, is not modelled.
- Hashing of identities and digests is an uninterpreted function, because freedom from collisions is not provable.
- Sockets, the server and client loops, the command line tool, benchmarks and real threads outside the worker pool are not modelled.
- Enum and string tables, error messages, metrics, JSON exports and the episode and topology lookup functions would only add easy members.
