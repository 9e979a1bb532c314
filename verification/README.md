# A verified model of tracehash

tracehash instruments two ports of one program, usually a Rust one and a C one. A probe call hashes its inputs and
outputs with FNV-1a, writes one row per call to a text trace, and can also keep the values themselves in a binary
`.dclog` file per function. A comparator reads two traces and reports through its exit status whether they match.

This project models that path from end to end and proves what holds along it:

1. **The two recorders.** `RustCall` is the Rust `Call`: two running hashes and two lists of captured values, serialised
   at the end. `CCall` and `CBuffer` are the C `TraceHashCall`: hash loops, values encoded straight into growing
   buffers, and an entry assembled from those bytes. `CallSpec` gives the meaning of a run of probe operations, and
   `Agreement` proves that both recorders end with equal hashes, lengths and entry bytes for every run of operations.
2. **The wire format.** `Wire`, `WireProofs`, `Entries`, `Frames` and `WireIo` hold the encoder and decoder of values,
   entries and length-framed logs, as functions and as the loops that write a sink and read a source. The decoder
   accepts exactly the encodings, with the normalising cases (bool bytes, flag bits) spelled out. `WireTable` writes the
   format out a second time, tag by tag, with the answer to each kind of malformed input; `Utf8` says what text is.
3. **The log writers.** `Sampling` and `DeepLogs` are the Rust sampler and log writer over whole runs of calls and
   flushes; `Registries` holds one log per function; `CLog` is the C log file used by one thread and its relation to the
   Rust log; `CThreads` is the C log file under every interleaving of threads.
4. **The hash.** `Fnv` proves the FNV-1a step (draft-eastlake-fnv, section 2) a bijection and what that means for
   collisions; `Probes`, `Decodability` and `TypedHash` prove which hashed byte streams determine their operations.
5. **The traces and the comparator.** `TraceFile` and `TraceRead` are the row writers and the reader; `Compare` and
   `CompareRuns` are the three comparison passes and the meaning of the exit status; `EndToEnd` joins everything: what
   each recorder writes of its calls, and that the comparator accepts the two files exactly when the calls have the
   same functions and hashes up to a harmless reordering.
6. **Two small languages.** `PolicyText` is the text form of sampling policies with its Rust parser, its printer and the
   C parser; `Derive` is the token loop of the derive macro.

Integers are unbounded and every width is written out: hashes are taken modulo 2^64, counters modulo 2^32 where the code
has 32 bits, and `as u32` casts truncate. Floats are bit patterns. Strings on the wire are byte sequences with the
well-formedness of section 4 of RFC 3629; text files are sequences of characters. The random stream of a sampling
policy is an arbitrary function that says for each draw whether it falls below the probability. A source that splits
its reads is a class whose `Read` may return any non-empty prefix.

## Where the code differs from its documentation or from its other half

- A buffered last call that is flushed has no trace row pointing at it, although the documentation says that
  `deep_seq` points at the entry (`DeepLogs.RowNamesEntry`, `DeepLogs.FlushedCallHasNoRow`).
- With a probabilistic policy that keeps the last call, the file need not hold its calls in call order
  (`DeepLogs.IncreasingIffInOrder` gives the exact condition on the draws, `DeepLogs.NumbersIncrease` what it means for
  the numbers of at most 2^32 calls).
- The C counter has 32 bits and the limit has 64: from a limit of 2^32 on, the C recorder never stops while the Rust one
  does (`CLog.LogsCorrespond` gives the exact condition), and with several threads the limit holds exactly while limit
  plus threads fits in the counter (`CThreads.LimitIffCounterFits`).
- Struct probes carry no field count, so a field name of 68 bytes or more can spell other operations
  (`Decodability.NameLengthMatters` says for which lengths); a C bytes field is tagged unlike a derived vector of bytes
  (`TypedHash.DerivedStructIff`).
- The derive macro rejects every field whose type spells a path, and takes a lone colon behind a comma of a type for
  another field (`Derive.PathsAreRejected`, `Derive.LoneColonAddsField`; `Derive.ListIffColonsNamed` says exactly when
  it returns a list, and when a wrong one).
- The Rust recorder fills its placeholders in over the whole row, so a function or file name that spells one is changed
  (`TraceFile.RustRowIsFilled`, `TraceFile.SameRowsIff`).
- The two parsers of the sampling mode differ on some text (`PolicyText.ModesAgree` says exactly when they agree).

## Model

| member | source | states |
|---|---|---|
| `Agreement.RecordBoth` | c/tracehash_c.c:319-325 | each recorder, run on any interleaving of input and output operations, reports the hashes, lengths and entry bytes of its own specified run, and the two reports are equal |
| `Agreement.ReportsAgree` | c/tracehash_c.c:319-325 | for every sequence of operations the report of the Rust run equals that of the C run; when the rows or the deep log are on, the hashes are those of its two byte streams and the lengths count the bytes of its byte probes and one for every other operation, modulo 2^64; otherwise nothing is recorded |
| `Agreement.EntryOfCall` | src/lib.rs:174-206 | with the deep log on, the entry holds the values of the input probes and of the output probes in order, under their own names or in0, in1, … and out0, out1, …, integers as the 64 bits that stand for them |
| `Agreement.RecordRust` | src/lib.rs:119-693 | the report of a call recorded as a list of values and serialised at the end is the one specified for the Rust run |
| `Agreement.RecordC` | c/tracehash_c.c:1003-1042 | the report of a call encoded into buffers and assembled is the one specified for the C run |
| `CallSpec.RecordersAgree` | c/tracehash_c.c:327-861 | on one side of a call the C steps and the Rust steps lead to the same hash, length and captured values, for every run of operations |
| `CallSpec.HashOfCall` | src/lib.rs:121-160 | the running hash of an active call is the FNV-1a hash of one byte stream: the function name and then the operations |
| `CallSpec.LengthIs` | src/lib.rs:313-331 | the length of an active side is the bytes of its byte probes plus one for every other operation, modulo 2^64 |
| `CallSpec.CapturedAre` | src/lib.rs:174-206 | with the deep log on, the captured list holds exactly the values of the probes, in order and under their names, automatic names counting in 32 bits; otherwise it is empty |
| `Probes.OpIs` | src/lib.rs:207-351 | the bytes each operation feeds: a letter, 64-bit lengths, and the values in little-endian order, a signed integer as the unsigned one that differs by a multiple of 2^64 |
| `Probes.SignedBytes` | src/lib.rs:222-236 | a signed and an unsigned probe feed the same bytes exactly when their values differ by a multiple of 2^64 |
| `CallSpec.NamesAreNotHashed` | src/lib.rs:359-461 | replacing every named probe by the positional one changes neither hash, length nor captured values, only the captured names |
| `CallSpec.AutoNamesDistinct` | src/lib.rs:174-189 | automatic names of one side never repeat |
| `CallSpec.AutoNameFits` | c/tracehash_c.c:327-347 | an automatic name of a 32-bit counter fits the C name buffer, is well-formed UTF-8 and holds no terminator |
| `RustCall.RustLane.Do` | src/lib.rs:208-461 | one probe operation advances hash, length, captured list and counter as the specification step does |
| `RustCall.RustLane.RecordStruct` | src/lib.rs:333-340 | hashing a derived struct through its fields adds the bytes of a struct probe |
| `RustCall.Call.Do` | src/lib.rs:95-118 | an operation touches only its own side of the call, and that side follows the specification |
| `RustCall.RecordCall` | src/lib.rs:119-206 | a call recorded with any sequence of operations ends in the state that the specification gives that sequence |
| `CBuffer.DeepBuf.Reserve` | c/tracehash_c.c:270-285 | contents survive; the capacity is 128 times a power of two, large enough, and at most 128 or under twice the need; all reallocations of a run together move fewer bytes than the final capacity |
| `CBuffer.DeepBuf.Append` | c/tracehash_c.c:306-311 | appending to the buffer is sequence append |
| `CBuffer.DeepBuf.U32` | c/tracehash_c.c:292-298 | the four shifted bytes appended are the little-endian form of the value |
| `CBuffer.DeepBuf.U64` | c/tracehash_c.c:300-304 | two 32-bit halves appended are the eight little-endian bytes of the value |
| `CBuffer.DeepBuf.Str` | c/tracehash_c.c:313-317 | a length prefix and the bytes are appended as the wire form of a name |
| `CCall.HashBytes` | c/tracehash_c.c:48-51 | the C byte loop computes the FNV-1a fold |
| `CCall.HashU32` | c/tracehash_c.c:53-60 | hashing a 32-bit value byte by byte is the fold over its little-endian bytes |
| `CCall.HashU64` | c/tracehash_c.c:62-67 | hashing a 64-bit value byte by byte is the fold over its little-endian bytes |
| `CCall.CLane.Do` | c/tracehash_c.c:445-861 | one probe operation keeps the buffer equal to the encoding of the captured values and follows the specification step |
| `CCall.CLane.CaptureScalar` | c/tracehash_c.c:349-386 | a captured scalar is appended as the encoding of a named value |
| `CCall.CLane.CaptureBytes` | c/tracehash_c.c:388-395 | a captured byte string is appended as the encoding of a named value |
| `CCall.CLane.RecordStruct` | c/tracehash_c.c:668-748 | a struct probe hashes tag, name and fields in order, bytes fields included |
| `CCall.CLane.StructField` | c/tracehash_c.c:682-714 | a struct field hashes its name and then its scalar or its counted bytes |
| `CCall.CallHandle.Do` | c/tracehash_c.c:445-861 | an operation touches only its own side of the handle |
| `CCall.RecordCall` | c/tracehash_c.c:226-256 | a C call run through any sequence of operations ends in the state that the specification gives that sequence |
| `CCall.DeepContentHash` | c/tracehash_c.c:1003-1017 | hashing a zero byte, the count and the input buffer is the content hash of the captured inputs |
| `CCall.AssembleBody` | c/tracehash_c.c:1027-1042 | the assembled body is the encoding of the entry with the captured inputs and outputs |
| `WireProofs.RoundTrip` | src/spec/wire.rs:76-261 | decoding an encoded value followed by any bytes gives the value and exactly those bytes |
| `WireProofs.AcceptsExactly` | src/spec/wire.rs:173-261 | the decoder accepts a value exactly when the consumed bytes spell its encoding, where a bool byte may be any non-zero byte for true |
| `WireProofs.DecodeSound` | src/spec/wire.rs:173-261 | an accepted value is well formed, consumes as many bytes as its encoding has, differs from it only where the reading allows, and has no more nodes than bytes |
| `WireProofs.DecodeComplete` | src/spec/wire.rs:173-261 | every spelling of a well-formed value is accepted, whatever follows |
| `WireProofs.PrefixFree` | src/spec/wire.rs:76-171 | equal streams that start with encodings start with the same value and go on alike |
| `WireProofs.DecodeExtends` | src/spec/wire.rs:48-67 | more input never changes an accepted value or an error other than a premature end |
| `WireProofs.CutShort` | src/spec/wire.rs:40-46 | every proper prefix of an encoding fails with a premature end |
| `WireProofs.FieldsRoundTrip` | src/spec/wire.rs:333-339 | a list of named values decodes to itself and leaves the rest |
| `Utf8.ValidIffText` | src/spec/wire.rs:69-74 | the byte-by-byte test accepts exactly the concatenations of encoded scalar values, the encoding being the arithmetic one of section 3 of RFC 3629 |
| `Utf8.HeadOfEncoded` | src/spec/wire.rs:69-74 | at every encoded number below 0x110000 the test takes exactly its bytes, and none if it is a surrogate |
| `WireTable.TextIsRead` | src/spec/wire.rs:69-74 | a text behind its tag and length is read back exactly when its bytes encode scalar values, and is answered with InvalidUtf8 otherwise |
| `WireTable.BoolIsRead` | src/spec/wire.rs:214-214 | a bool is read as true from any byte but zero |
| `WireTable.TagOf` | src/spec/tags.rs:3-21 | the tag byte of every kind of value |
| `WireTable.BehindTag` | src/spec/wire.rs:76-171 | what stands where behind the tag of every kind of value |
| `WireTable.ValueErrors` | src/spec/wire.rs:173-261 | no input is a premature end, an unknown tag or weak marker is named in the error, and an array, struct or shared value fails with the error of its content |
| `WireTable.ItemsErrors` | src/spec/wire.rs:223-230 | a list that is not accepted fails with the error of its first element that is not accepted |
| `WireTable.FieldsErrors` | src/spec/wire.rs:231-241 | a field list that is not accepted fails with the error of the first name or value that is not accepted |
| `WireIo.WriteValue` | src/spec/wire.rs:76-171 | writing to a sink appends the encoding |
| `WireIo.WriteFields` | src/spec/wire.rs:285-289 | the loop over named values appends their encoding |
| `WireIo.ReadValue` | src/spec/wire.rs:173-261 | reading from a source returns what the decoder returns, errors included, and leaves the rest; it terminates on every input |
| `WireIo.ReadItems` | src/spec/wire.rs:223-230 | the element loop stops at the first failure and otherwise returns exactly the declared number of elements |
| `WireIo.ReadFields` | src/spec/wire.rs:231-241 | the field loop stops at the first failure and otherwise returns exactly the declared number of named values |
| `WireIo.WriteEntryBody` | src/spec/wire.rs:273-327 | writing an entry appends its encoding |
| `WireIo.WriteOutcome` | src/spec/wire.rs:298-323 | both kinds of outcome are written behind their tag |
| `WireIo.ReadEntryBody` | src/spec/wire.rs:329-391 | reading an entry returns what the decoder returns and leaves the rest |
| `WireIo.CanonicalInputBytes` | src/spec/wire.rs:445-463 | the written canonical bytes are the presence byte, the receiver and the counted inputs |
| `Entries.EntryRoundTrip` | src/spec/wire.rs:273-391 | decoding an encoded entry followed by any bytes gives the entry and exactly those bytes |
| `Entries.EntryAcceptsExactly` | src/spec/wire.rs:329-391 | an entry is accepted exactly when the consumed bytes spell it, where of the flags byte only the two known bits are read |
| `Entries.EntrySound` | src/spec/wire.rs:329-391 | an accepted entry is well formed and consumed a spelling of its encoding |
| `Entries.EntryComplete` | src/spec/wire.rs:329-391 | every spelling of a well-formed entry is accepted |
| `Entries.EntryLayout` | src/spec/wire.rs:273-327 | an entry is number, flags, inputs, receiver before, receiver after, outcome and content hash, in this order |
| `WireTable.EntryBytes` | src/spec/tags.rs:23-27 | number, flag bits and input count of an entry stand at fixed positions |
| `WireTable.FlagsAreRead` | src/spec/wire.rs:340-349 | the two low bits of the flags byte say which receivers an accepted entry has |
| `WireTable.OutcomeBytes` | src/spec/wire.rs:298-323 | both kinds of outcome byte by byte |
| `WireTable.OutcomeErrors` | src/spec/wire.rs:354-379 | an unknown outcome kind or presence byte is named in the error |
| `Entries.CanonicalInputInjective` | src/spec/wire.rs:445-463 | equal canonical bytes mean the same receiver and the same inputs |
| `Frames.FrameRoundTrip` | src/spec/wire.rs:419-441 | a frame reads back as its entry when the body is shorter than 2^32 bytes; a longer one loses its length to the cast and reads as a premature end |
| `Frames.AnyFrame` | src/spec/wire.rs:427-441 | a frame of any body is answered as the body is decoded: its entry, or its error |
| `Frames.CorruptLog` | src/deep/reader.rs:46-52 | a body that does not decode ends the log with its error, behind the entries before it |
| `Frames.LogRoundTrip` | src/deep/reader.rs:42-52 | a stream of framed entries reads back as those entries and then the end |
| `Frames.TruncatedLog` | src/spec/wire.rs:427-441 | any prefix of a stream gives exactly the frames wholly inside it, then the end on a frame boundary and a premature end elsewhere |
| `Frames.EntryExtends` | src/spec/wire.rs:329-391 | more input never changes an accepted entry or an error other than a premature end |
| `Frames.EntryCutShort` | src/spec/wire.rs:40-46 | every proper prefix of an entry fails with a premature end |
| `Frames.ChunkSource.ReadExact` | src/spec/wire.rs:40-46 | reading an exact count gives the same bytes or the same error however the source splits its reads |
| `Frames.ReadFramedEntry` | src/spec/wire.rs:427-441 | the next entry, the end or the error depends only on the bytes of the source, not on how reads are split |
| `Frames.CollectEntries` | src/deep/reader.rs:46-52 | collecting gives all entries, or the first error and no entries |
| `Fnv.StepIsBijective` | src/stable_hash.rs:16-20 | for each byte the hash step is undone by the inverse of the prime, in both directions |
| `Fnv.StepInjectiveInByte` | src/stable_hash.rs:16-20 | for each state different bytes lead to different states |
| `Fnv.PrimeInverse` | src/stable_hash.rs:3-7 | the product of the prime and its inverse is 1 modulo 2^64 |
| `Fnv.CommonSuffix` | src/stable_hash.rs:32-37 | streams with a common suffix collide exactly when they collided before it |
| `Fnv.OneByteNeverCollides` | src/stable_hash.rs:32-37 | streams of equal length that differ in one byte never collide |
| `Fnv.EveryHashReached` | src/stable_hash.rs:32-37 | before any suffix exactly one state leads to a given hash |
| `Fnv.FoldConcat` | src/stable_hash.rs:32-37 | hashing a concatenation is hashing the parts one after the other |
| `Fnv.KnownAnswers` | src/stable_hash.rs:1-20 | the test vectors of the draft for the empty text and for the letter a |
| `Fnv.XorBit` | src/stable_hash.rs:16-20 | a bit of the exclusive or is set exactly when one of the two bits is |
| `Fnv.Fnv64.Byte` | src/stable_hash.rs:16-20 | one byte advances the state by one step of the fold |
| `Fnv.Fnv64.Slice` | src/stable_hash.rs:32-37 | the byte loop advances the state by the fold over the slice |
| `Fnv.Fnv64.Str` | src/stable_hash.rs:38-42 | a string is hashed as its 64-bit length and its bytes |
| `Fnv.ContentHash` | src/deep/writer.rs:21-28 | the unrolled loop of the log writer computes the same fold |
| `Decodability.UniquelyDecodable` | src/lib.rs:129-134 | calls whose struct field names have no confusable length have equal streams exactly when function name and operations are equal, struct probes included, up to probe names, the raw bits of quantised floats, and integers that differ by a multiple of 2^64 |
| `Probes.OpPrefixFree` | src/lib.rs:207-351 | the bytes of an operation other than a struct probe continue no other operation |
| `Decodability.StructProbesAmbiguous` | c/tracehash_c.c:668-748 | an operation with a struct whose field name has 85 bytes, and four other operations, have the same bytes |
| `Decodability.FirstOp` | c/tracehash_c.c:668-748 | equal streams of such operations begin with the same operation and go on alike, also behind a struct probe that carries no field count |
| `Decodability.NameLengthMatters` | c/tracehash_c.c:668-748 | for every length: streams that also allow struct field names of this length stay uniquely decodable exactly when the length is not confusable |
| `Decodability.ConfusableNameExists` | c/tracehash_c.c:668-748 | for every confusable length some field name of that length spells other operations |
| `Decodability.ConfusableLengths` | c/tracehash_c.c:682-714 | below 2^16 bytes a length is confusable exactly when its low byte is one of six operation tags, so no name shorter than 68 bytes is |
| `TypedHash.TracePrefixFree` | src/lib.rs:767-873 | for any fixed type of integers, bools, floats, strings, vectors, options and derived structs equal streams start with the same value |
| `TypedHash.TypeTags` | src/lib.rs:767-873 | the tag letter of every type, and the lengths and values behind it |
| `TypedHash.SignedValue` | src/lib.rs:779-790 | a signed value is fed like the unsigned one that differs by a multiple of 2^64 |
| `TypedHash.DerivedStructIff` | tracehash-rs-derive/src/lib.rs:41-56 | a struct probe has the bytes of the derived struct behind the struct tag exactly when it has no bytes field |
| `TypedHash.GeneratedFeedsStruct` | tracehash-rs-derive/src/lib.rs:41-56 | the text generated for a declared struct, read statement by statement, feeds exactly the encoding of the struct: its name, then the declared fields in order |
| `Sampling.Sampler.Decide` | src/deep/sampling.rs:55-88 | the decision on a call follows the policy and uses a draw only past the calls that are always recorded: call i uses draw i minus that number |
| `DeepLogs.DeepLog.Record` | src/deep/writer.rs:70-115 | recording a call leads to the state of the run with that call added, and reports a number exactly when the entry was written |
| `DeepLogs.DeepLog.FlushLast` | src/deep/writer.rs:123-129 | a flush writes the buffered entry once and empties the buffer |
| `DeepLogs.DeepLog.WriteFramed` | src/deep/writer.rs:117-121 | a body is appended behind its 32-bit length |
| `DeepLogs.DirectIffWritten` | src/deep/writer.rs:97-106 | of the calls decided for recording exactly the first occurrences by content hash are in the log |
| `DeepLogs.BufferedIffFlushed` | src/deep/writer.rs:107-112 | a buffered call is in the log exactly when it was the most recent one at some flush |
| `DeepLogs.RecordedByPolicy` | src/deep/sampling.rs:55-88 | policy by policy: written at once are the calls of new content among all calls, among the first n, or among the first ones and those drawn below p |
| `DeepLogs.LastCallsWritten` | src/deep/sampling.rs:65-71 | past the first n of first-n-and-last exactly those calls are in the log that were the newest at a flush |
| `DeepLogs.UndrawnCallsWritten` | src/deep/sampling.rs:72-86 | of the calls not drawn exactly those are in the log that were the newest such call at a flush, if the policy keeps the last call |
| `DeepLogs.PendingIs` | src/deep/writer.rs:107-129 | the call that a flush would write is the newest one decided for the buffer since the last flush |
| `DeepLogs.WrittenOrder` | src/deep/writer.rs:70-115 | no call is in the log twice, and calls with one decision keep their order |
| `DeepLogs.WrittenIncreasing` | src/deep/sampling.rs:55-88 | the calls in the log are in call order, flushed ones included, unless a draw records a call after one has buffered a call |
| `DeepLogs.OutOfOrderRun` | src/deep/sampling.rs:72-86 | a draw that buffers before a draw that records gives a run whose log holds a later call before an earlier one |
| `DeepLogs.IncreasingIffInOrder` | src/deep/sampling.rs:18-88 | for every policy and random stream: the calls in the log are in call order in every run exactly when the policy keeps no last call, or uses no draws, or no draw records after one has buffered |
| `DeepLogs.NumbersIncrease` | src/deep/writer.rs:70-95 | under that condition, in a run of at most 2^32 calls, the numbers strictly increase from entry to entry |
| `DeepLogs.NewestKept` | src/deep/sampling.rs:65-72 | past n calls of first-n-and-last the newest call is buffered or is the last entry |
| `DeepLogs.FlushWritesLastCall` | src/deep/mod.rs:153-163 | after a flush under first-n-and-last with more than n calls the final entry is the last call made |
| `DeepLogs.RowNamesEntry` | src/deep/writer.rs:67-70 | of the entries in the log exactly those recorded directly were reported for a trace row |
| `DeepLogs.FlushedCallHasNoRow` | src/deep/writer.rs:107-129 | a flushed call is in the log although no number was reported for it |
| `DeepLogs.EntryOfLog` | src/deep/writer.rs:88-95 | every entry holds its call's receivers, inputs, outcome and content hash, and the low 32 bits of its index |
| `DeepLogs.ReadBack` | src/deep/reader.rs:46-52 | reading a log back gives exactly its entries, with pairwise distinct numbers and content hashes that match the decoded inputs |
| `DeepLogs.ReportedNamesOne` | src/deep/writer.rs:97-106 | a reported number names exactly one entry, and it is the entry of that call |
| `DeepLogs.StateAfterIsStateOf` | src/deep/writer.rs:70-129 | the state reached event by event is the state that the run as a whole defines: count, file, buffer and seen hashes |
| `Registries.Registry.Record` | src/deep/mod.rs:134-149 | a finished call opens the log of its function if needed and records there, unless there is a list of functions without it, when nothing happens; the registry stays where the steps of all threads lead |
| `Registries.Registry.RecordIn` | src/deep/mod.rs:144-148 | from any state that the steps of all threads led to, recording in one log touches no other log and reports what that log's own run says |
| `Registries.Registry.RecordHandle` | src/deep/mod.rs:143-148 | the log object of one function records the call and every other log object stays as it was |
| `Registries.Registry.FlushOne` | src/deep/mod.rs:157-159 | from any such state, flushing one log touches no other log |
| `Registries.Registry.FlushAll` | src/deep/mod.rs:153-163 | every open log is flushed exactly once, one after the other in some order |
| `Registries.Registry.OpenLog` | src/deep/mod.rs:104-130 | an open log is reused, a new one starts empty, and no other log changes |
| `Registries.TrackedIs` | src/deep/mod.rs:104-163 | exactly the opened functions have a log, all of them on the list if there is one, and each log is where the events of its own function lead, whatever came between for other logs |
| `Registries.LogsAreValid` | src/deep/mod.rs:104-163 | in every reachable registry each log object is a valid log of its own events |
| `Registries.OneEachIsPermutation` | src/deep/mod.rs:153-163 | an order of flushing that leaves no log over holds every log exactly once |
| `Registries.DirectNumbersIncrease` | src/deep/mod.rs:143-148 | in every interleaving the numbers of directly recorded entries strictly increase along each log |
| `CLog.LogFile.Finish` | c/tracehash_c.c:1087-1098 | used by one thread, a finished call is written and numbered exactly when the counter is below the limit, and the file is always the stream of the entries so far |
| `CLog.CHoldsPrefix` | c/tracehash_c.c:1019-1063 | the C file holds the entries of the first calls up to the limit, or of all calls when the counter can never reach the limit |
| `CLog.RustHoldsDedup` | src/deep/writer.rs:70-115 | under all and first:N the Rust log is the list of sampled entries with later entries of a seen content hash removed |
| `CLog.LogsCorrespond` | c/tracehash_c.c:1087-1098 | the Rust log is the deduplicated C log, with equal numbers and bytes, exactly when the limit is below 2^32, or is not exceeded, or the further calls only repeat inputs |
| `CLog.SameProbesSameLogs` | c/tracehash_c.c:1019-1063 | under any configuration the same probe calls on both recorders give logs that read back as each other, the C one deduplicated, exactly when the limit is below 2^32, or is not exceeded, or the further calls only repeat inputs |
| `CThreads.AlwaysGood` | c/tracehash_c.c:1055-1059 | under every interleaving the file is whole frames plus at most one in progress, one thread is inside the lock, and the entry at position k has a number of at most k |
| `CThreads.OthersOnlyRead` | c/tracehash_c.c:1087-1098 | in every reachable state, while one thread holds the lock another can only read the counter |
| `CThreads.SerialIsSequential` | c/tracehash_c.c:1027-1098 | calls that do not overlap, whichever threads make them, leave the counter, the entries and the file that one thread alone would leave |
| `CThreads.NeverBeyondLimit` | c/tracehash_c.c:1087-1098 | with a limit n of at least 1 and T threads, n + T at most 2^32, the file never holds more than n + T - 1 entries |
| `CThreads.BoundReached` | c/tracehash_c.c:1027-1059 | some schedule reaches the bound, and the last T entries all carry the number n - 1 |
| `CThreads.BoundBroken` | c/tracehash_c.c:1027-1059 | when n + T exceeds 2^32 some schedule writes n + T entries |
| `CThreads.LimitIffCounterFits` | c/tracehash_c.c:1087-1098 | the bound holds under every schedule exactly when n + T is at most 2^32 |
| `PolicyText.ParsePolicy` | src/deep/sampling.rs:105-155 | the parser with its loop over settings returns the specified policy or error for every text: the first bad setting decides, the last good one wins |
| `PolicyText.ParseSettings` | src/deep/sampling.rs:134-145 | the loop over settings returns the first error, or the last value of each setting with the defaults |
| `PolicyText.ParseIs` | src/deep/sampling.rs:105-155 | the answer to every mode word and parts joined by colons, with the error for each malformed shape |
| `PolicyText.ProbAlone` | src/deep/sampling.rs:129-151 | a probability without settings records no call always and keeps the last call |
| `PolicyText.Defaults` | src/deep/sampling.rs:134-135 | without a first= setting no call is always recorded, without a last= setting the last call is kept |
| `PolicyText.FirstByPosition` | src/deep/sampling.rs:136-145 | of several first= settings the one at the last position counts |
| `PolicyText.KeepByPosition` | src/deep/sampling.rs:136-145 | of several last= settings the one at the last position counts |
| `PolicyText.ErrorByPosition` | src/deep/sampling.rs:136-145 | the error is that of the part at the first position that is no setting |
| `PolicyText.SettingIs` | src/deep/sampling.rs:137-144 | what a key and a value mean: first= takes 64 bits, last= 32 bits and is true unless zero, another key is malformed |
| `PolicyText.NoSetting` | src/deep/sampling.rs:137-139 | a part without an equals sign is malformed |
| `PolicyText.EmptyText` | src/deep/sampling.rs:108-110 | the empty text has its own error |
| `PolicyText.ParseUnsignedIs` | src/deep/sampling.rs:113-127 | a number is read exactly from its decimal form with any zeros, and perhaps a plus sign, before it |
| `PolicyText.StrToUllReads` | c/tracehash_c.c:218-219 | what the C parser reads of white space, a sign and digits, saturating and wrapping included |
| `PolicyText.ParseOfPrint` | src/deep/sampling.rs:157-176 | parsing the printed form of any policy gives that policy |
| `PolicyText.PrintReachesFixedPoint` | src/deep/sampling.rs:105-176 | for every accepted text one print reaches a fixed point: the printed text is accepted, prints as itself and reads as the same policy again |
| `PolicyText.PrintIs` | src/deep/sampling.rs:157-176 | the printed form of every policy |
| `PolicyText.ParseOfPrintRereads` | src/deep/sampling.rs:157-176 | parsing the printed form of any policy gives that policy with its float printed and read once |
| `PolicyText.ModesAgree` | c/tracehash_c.c:213-222 | the exact texts on which both recorders select the same mode: behind first:, when Rust reads the number or C reads 100; otherwise all text but all:, firstlast:N and prob:p with settings |
| `PolicyText.PrintedModesAgree` | c/tracehash_c.c:213-222 | on every printed all and first:N both parsers select that mode |
| `PolicyText.TrailingTextDiffers` | c/tracehash_c.c:216-217 | text behind all: is ignored by Rust and makes the mode unknown to C |
| `PolicyText.NegativeCountDiffers` | c/tracehash_c.c:218-219 | a negative count is rejected by Rust and wraps around in C |
| `Derive.ParseNamedFields` | tracehash-rs-derive/src/lib.rs:62-94 | the token loop computes the specified run over the tokens |
| `Derive.NamesIffNoColons` | tracehash-rs-derive/src/lib.rs:62-94 | on every well-formed field list the loop returns the declared names in order exactly when no type holds a colon outside a group, commas inside types included |
| `Derive.PathsAreRejected` | tracehash-rs-derive/src/lib.rs:76-83 | with colons only in path separators the loop returns the declared names, or an error as soon as one type spells a path |
| `Derive.AdjacentFails` | tracehash-rs-derive/src/lib.rs:76-83 | two colons in a row always end in an error, from every state of the loop |
| `Derive.LoneColonAddsField` | tracehash-rs-derive/src/lib.rs:76-87 | a lone colon behind a comma of a type adds a field that was not declared |
| `Derive.ListIffColonsNamed` | tracehash-rs-derive/src/lib.rs:62-94 | on every well-formed field list the loop returns a list exactly when every colon of a type has, since the last comma of that type, a word other than pub and no other colon; the list is a wrong one exactly when some type also holds a colon |
| `Derive.Expand` | tracehash-rs-derive/src/lib.rs:11-60 | the macro returns the specified error, or the text generated for the struct name and the fields found |
| `Derive.Generate` | tracehash-rs-derive/src/lib.rs:41-56 | the text grown piece by piece is the head, one statement for the struct name and two for each field in order, and the tail |
| `Derive.GeneratedReads` | tracehash-rs-derive/src/lib.rs:41-56 | the generated text, read statement by statement by its own wording, is the struct name and then name and value of every field in order |
| `Derive.StructExpands` | tracehash-rs-derive/src/lib.rs:11-36 | a struct declaration yields its name and declared fields in order exactly when there is a field and no type holds a colon |
| `Derive.OtherDeclarations` | tracehash-rs-derive/src/lib.rs:16-39 | the error for a declaration that is no struct, has no name, no named fields or no fields |
| `TraceFile.RustRow` | src/lib.rs:731-758 | the row built with placeholders and filled in at the end is the C row of blank data with both replacements applied |
| `TraceFile.RustRowIsFilled` | src/lib.rs:731-757 | for all data the filled-in Rust row is the C row of the data with the placeholders of every text filled in |
| `TraceFile.RowIs` | c/tracehash_c.c:1110-1126 | the columns of a row in the order of the format string, tabs between them and a line feed behind |
| `TraceFile.HexAt` | src/lib.rs:731-739 | a hash column is in lower case, most significant digit first, with leading zeros |
| `TraceFile.SameRows` | c/tracehash_c.c:1107-1126 | without stray placeholders both recorders write the same row for the same data |
| `TraceFile.SameRowsIff` | src/lib.rs:731-757 | when run id and side hold no brace, both recorders write the same row for the same data exactly when no function, file or values text spells a placeholder |
| `TraceFile.StrayPlaceholder` | src/lib.rs:754-756 | a function named like a placeholder makes the two rows differ |
| `TraceFile.SideHidesReplacement` | src/lib.rs:754-756 | a side spelled like its own placeholder hides the replacement, so the condition on braces is needed |
| `TraceFile.HashTextInjective` | src/lib.rs:731-739 | equal hash columns mean equal hashes |
| `Text.JoinOfSplit` | src/bin/tracehash-compare.rs:170-170 | splitting a line loses nothing, and no piece holds the separator |
| `Text.SplitOfJoin` | src/bin/tracehash-compare.rs:170-170 | joining pieces without the separator and splitting again gives the pieces |
| `TraceRead.ReadRows` | src/bin/tracehash-compare.rs:162-196 | the reading loop returns the rows of all lines that are neither blank nor short |
| `TraceRead.ReadWrittenLine` | src/bin/tracehash-compare.rs:165-193 | a written row reads back with its function, hashes and values, with or without a values column |
| `TraceRead.FileRoundTrip` | src/bin/tracehash-compare.rs:162-196 | a written trace reads back as its rows in order |
| `TraceRead.LegacyValues` | src/bin/tracehash-compare.rs:174-187 | a thirteenth column of the older layout is kept as values exactly when it is empty or is neither a dash nor all digits |
| `TraceRead.LineIs` | src/bin/tracehash-compare.rs:165-193 | what is read of a line of any number of columns: function and hashes by position, and the values of twelve, thirteen and more columns |
| `TraceRead.LineEnds` | src/bin/tracehash-compare.rs:165-165 | a line ends at a line feed, with or without a carriage return before it, or at the end of the file |
| `TraceRead.BlankIs` | src/bin/tracehash-compare.rs:167-169 | the characters that make a line blank |
| `TraceRead.ValuesAreNoDeepField` | src/lib.rs:163-171 | a text of label=value items is never taken for a deep_seq column |
| `TraceRead.FilesMatchIff` | src/bin/tracehash-compare.rs:224-309 | comparing two written traces finds nothing exactly when for every function and input hash the same output hashes come in the same order |
| `Compare.OccurrenceMap` | src/bin/tracehash-compare.rs:311-319 | the map holds exactly the keys of the trace, each with its rows in order |
| `Compare.PairMap` | src/bin/tracehash-compare.rs:412-421 | the map holds exactly the keys of the trace, each with the tally of its outputs |
| `Compare.CompareCounts` | src/bin/tracehash-compare.rs:198-222 | zero exactly when every function is called equally often in both traces |
| `Compare.CompareOccurrences` | src/bin/tracehash-compare.rs:224-309 | the differences are the sum over keys of the longer length less the agreeing positions, which is the number of pairs of a key and a position where the traces differ; what is printed is that number up to the limit |
| `Compare.TotalCounts` | src/bin/tracehash-compare.rs:252-297 | the total is the number of pairs of a key and a position at which the two traces differ |
| `Compare.ComparePairs` | src/bin/tracehash-compare.rs:346-410 | missing counts the keys of one trace only, mismatched the shared keys with different multisets of outputs |
| `Compare.TallyIsMultiset` | src/bin/tracehash-compare.rs:412-421 | equal tallies mean equal multisets of outputs |
| `Compare.FilterRows` | src/bin/tracehash-compare.rs:155-160 | the rows kept are, in order, those of the functions asked for, or of all functions when none is, that are not skipped |
| `CompareRuns.ZeroIffReachable` | src/bin/tracehash-compare.rs:224-309 | the occurrence pass finds nothing exactly when the right trace is the left one with neighbours of different keys exchanged any number of times |
| `CompareRuns.ReachableIffSameOuts` | src/bin/tracehash-compare.rs:224-309 | two traces are reorderings of each other by such exchanges exactly when they agree key by key |
| `CompareRuns.AgreeForcesOthers` | src/bin/tracehash-compare.rs:35-51 | traces that agree key by key pass the other two comparisons |
| `CompareRuns.TotalSymmetric` | src/bin/tracehash-compare.rs:224-309 | exchanging the sides does not change the number of differences |
| `CompareRuns.TotalCoversRowCounts` | src/bin/tracehash-compare.rs:224-309 | the number of differences is at least the difference in row counts |
| `CompareRuns.TotalCoversPairs` | src/bin/tracehash-compare.rs:346-410 | the number of differences is at least the missing and mismatched keys together |
| `CompareRuns.KeptOutputs` | src/bin/tracehash-compare.rs:155-160 | a filter keeps all outputs of a key if its function is asked for, or none is, and it is not skipped; otherwise none |
| `CompareRuns.FilterKeepsMatch` | src/bin/tracehash-compare.rs:155-160 | filtering both sides alike keeps a match |
| `CompareRuns.FilteredMatch` | src/bin/tracehash-compare.rs:155-160 | filtered traces match exactly when the outputs agree for every key whose function is asked for, or none is, and not skipped |
| `CompareRuns.MatchesByFunction` | src/bin/tracehash-compare.rs:155-160 | traces match exactly when they match filtered to each function |
| `CompareRuns.ExitStatus` | src/bin/tracehash-compare.rs:25-63 | the exit status is zero exactly when the outputs agree for every key whose function is asked for, or none is, and not skipped; that is when the filtered right trace is a reordering of the filtered left one as above, whichever side is which |
| `EndToEnd.WriteRust` | src/lib.rs:709-760 | the file that the Rust recorder writes of some calls is made row by row of the reports of its runs and of the given settings, and is empty with the trace off |
| `EndToEnd.WriteC` | c/tracehash_c.c:1076-1129 | the file that the C recorder writes of some calls is made row by row of the reports of its runs and of the given settings, and is empty with the trace off |
| `EndToEnd.RowOfReport` | src/lib.rs:731-757 | the hashes and lengths of a report stand in the sixth to ninth column of its row, between what the setting gives, in both recorders |
| `EndToEnd.FilesMatchIffReordered` | src/bin/tracehash-compare.rs:224-309 | the comparator finds no difference between the Rust file of some calls and the C file of other calls exactly when the trace is off or the others are calls with the same function, input hash and output hash, reordered only between different functions or input hashes, whatever the settings |
| `EndToEnd.SameProgramsMatch` | src/bin/tracehash-compare.rs:25-63 | the Rust file and the C file of the same calls show no difference under any filter |
| `EndToEnd.RunAndCompare` | src/bin/tracehash-compare.rs:25-63 | both files are written as specified, the status is the comparator's answer on them, and it is zero for every such reordering; without filters, for no other calls unless the trace is off |

## Left out

- Environment variables, file opening, `mkdir`, clocks, thread ids, process exit and zstd: outside calls; their results are parameters (`Config`, `Setting`) or absent.
- The JSON header of a log file: the modelled streams start behind the file prefix.
- The arithmetic of `quantize_f32`: the quantised integer is a parameter that both recorders share.
- Failed C allocations and sizes beyond `size_t`: `realloc` is taken to succeed, and it would only switch capture off; Rust's abort on a huge `with_capacity` and the depth of its stack are not modelled either.
- `Value::as_*`, `field`, `EntryView` and `ReplayReport`: small lookups and counts.
- `sanitize_filename` and `sanitize_function`: character maps; two functions whose file names become equal are not modelled.
- The identity rules of Shared, Ref and Weak (`DuplicateId`, `UnknownId`): no shown code raises these errors; the variants are modelled as encoded shapes.
- The `label=value` text of each single value: the values column is any text, or items of any text in `ValuesText`.
- A trace that is not UTF-8: the reader fails with an I/O error there; the modelled files are text.
- What the comparator prints, apart from how many differences it prints: its sets are visited in an arbitrary order.
- Arguments of the comparator: its options are parameters.
- C strings are the bytes before the terminator; the Rust recorder is given the same bytes.
- Input and output lengths wrap as in a release build; a debug build would stop there.
- The unlocked read of the C counter: it is one atomic step of a thread, so torn reads are not covered.
- RustCall.RustLane.Do: value and field probes carry scalars (probes also byte strings); `input_value` and `input_field` take any hashable value, whose bytes `TypedHash` models on their own.
- RustCall.RustLane.RecordStruct: the fields are scalars; `TypedHash.DerivedStructIff` relates their bytes to those of the derived implementation.
- Registries.Registry.RecordIn: function names are any values that can be compared, not text, because nothing else is done with them there.
- CThreads.NeverBeyondLimit: requires that limit plus threads fits the 32-bit counter, because the bound is false otherwise; `CThreads.LimitIffCounterFits` has both directions.
- PolicyText.ParseOfPrint: the float in a probabilistic policy is taken to read back as the same bits, which leaves out NaN; `PolicyText.ParseOfPrintRereads` and `PolicyText.PrintReachesFixedPoint` cover NaN too.
- TraceFile.SameRowsIff: the run id and the side are taken without braces, because with them a replacement can restore what another one took (`TraceFile.SideHidesReplacement`); `TraceFile.RustRowIsFilled` says what Rust writes for all data.
- EndToEnd.FilesMatchIffReordered: the texts of the rows are taken without tabs, line feeds and placeholders; other rows are read or written differently.
- Whether the text that the derive macro generates is valid Rust: it is not for a struct with generic parameters.
- TraceRead.FileRoundTrip: requires texts without tabs and line feeds, and a values column that does not end in a carriage return, because such rows are read differently.
- Agreement.RecordBoth: byte probes are taken shorter than 2^64 bytes, as any slice is, and struct probes without bytes fields, which only the C recorder has; `CCall.RecordCall` covers those.
- Decodability.UniquelyDecodable: function names, field names and byte probes are taken shorter than 2^64 bytes, as any slice is.
- TypedHash.TracePrefixFree: lengths of strings and vectors are taken below 2^64.
- CLog.SameProbesSameLogs: entries are taken short enough for their 32-bit frame length; `Frames.FrameRoundTrip` says what happens to longer ones.
