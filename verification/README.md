# Verified model of Codas

Codas are documents that describe data types; the `codas` crate encodes such data in a
self-describing binary format, and `codas-flow` moves it between threads. This project
models both and proves what they promise.

**The flow** (`FlowProtocol`, `FlowInvariant`, `FlowLog`, `FlowFull`, `FlowCode`,
`FlowWitnesses`, `Stages`) is a lock-free multicast ring buffer. Every atomic load, compare-exchange, fetch-max, `Weak`
upgrade, release of an upgraded `Arc` and slot borrow is one step of a state machine, and
any number of producers and subscribers interleave their steps, with subscribers leaving
at any time. One inductive invariant gives the exclusive slot access that the unsafe code
relies on, and the machine refines a bounded multicast log. The methods run against
arbitrary interference by other threads before each of their atomic steps.

**The codec** has two halves. `Wire`, `Reader`, `Dynamic`, `Codec` and `Schema` say what
encoding and decoding mean, as functions of a value or of a reader's state (`St`: input,
position, depth, limits). `ReaderCode`, `DynamicCode`, `DecodeCode` and `EncodeCode` are
the code itself, with its loops, counters and reused destinations, proved to do what the
functions say. About the functions it is proved

- that decoding inverts encoding, for statically typed and dynamic values, exactly for the
  values where it can (`DynamicTrip`, `Compatibility`, `Guarantees`);
- what a reader of one version of a type makes of data of another version, and exactly when
  it makes the right thing of all of it (`Evolution`, `Compatibility`, `Unsafe`);
- where a value's bytes are, which headers a type takes, and what a field is that is not there
  (`WireLayout`, `DynamicChecks`, `Absence`), what text is (`Unicode`) and what a map holds
  (`MapContents`);
- how far a value reaches (`Extent`, `Framing`, `SchemaExtent`), that limits only limit
  (`LimitTransparency`), and that schema descriptions survive exactly when they can
  (`SchemaTrip`);
- that accepted schemas have the formats of their fields and of the code generated from
  them (`Parse`, `SchemaFormats`).

**The packed stream** (`PackedFormat`, `PackedRuns`, `Packed`) follows Cap'n Proto's packing. The
stateful writer and reader refine a word-by-word format, which round-trips, has a tight
size bound and costs exactly what its blocks of words cost.

**The text encodings** (`BitStrings`, `Radix`, `Alphabet`, `Base32`, `Base64`) are regroupings
of a bit string; Base64 is the URL-safe alphabet of section 5 of RFC 4648 without padding.

Where the code and its documentation disagree, the model follows the code:

- `try_claim_publishable` documents `None` as "iff the flow is full". It is returned iff
  another producer claimed a sequence during the call or one of the call's own loads found no
  room (`FlowFull.RefusedIff`). So a flow that is full refuses, but a refusal only means that
  it was full at some moment of the call, or that a race was lost (`FlowFull.NoneMeans`,
  `FlowFull.FullMeansNone`). For a call that nobody disturbs, `None` does mean exactly that the
  flow is full before it (`FlowFull.UndisturbedNoneIffFull`). Three runs end in `None` with a
  slot free: a lost race, a subscriber that makes room after its cursor was loaded, and a
  departed subscriber whose cursor another scan holds (`FlowWitnesses`).
- The README promises that old readers ignore appended fields. `FieldReader::read` does not
  skip leftover blob bytes before a structured field, so the promise holds exactly under
  `Guarantees.ForwardReady` (`Guarantees.ForwardIffReady`, `Guarantees.AppendingIsNotEnough`).
- A `Stage` over a subscriber that has already received something fails its assertion at the
  first `proc` (`Stages.Stage.Proc`, `Stages.UsedSubscriberPanics`), and `end_of_procs` runs
  only when nothing receivable remains, not after every batch.
- After `DepthLimitExceeded` the reader's depth stays one higher than it was.
- `DataType::new` forgets that a field may be optional, unlike `DataType::with`
  (`SchemaFormats.NewAgreesWithAdding`, `SchemaFormats.OptionalIsForgotten`).
- `type_from_name` compares the names of data types in any case, but those of built-in types
  exactly, so that `U8` is an unknown type (`Parse.CaseOfNames`, `Parse.FromNameIff`).
- A data type with more than 255 structured fields passes every guard of the parser and fires
  an assertion of `Format::with` (`Parse.CodaStopsIff`, `Parse.TooManyStructuredPanics`).

Conventions: numbers are unbounded and every width is written out; text is its bytes;
floating point numbers are their bit patterns; `At(st, bytes)` says that `bytes` come next,
with anything after them.

## Model

| member | source | states |
|---|---|---|
| FlowInvariant.SlotIsRemainder | codas-flow/src/lib.rs:255-263 | masking a sequence with one less than a power-of-two capacity is its remainder |
| FlowInvariant.InitialInv | codas-flow/src/lib.rs:44-82 | a new flow satisfies the invariant |
| FlowInvariant.WindowStep | codas-flow/src/lib.rs:204-242 | every atomic step of any thread keeps every live cursor <= publishable <= writable <= min(publishable, live cursors) + capacity |
| FlowInvariant.ScansStep | codas-flow/src/lib.rs:205-216 | whatever steps interleave with a scan, its running minimum stays a lower bound on everything it has passed |
| FlowInvariant.ClaimsInWindowStep | codas-flow/src/lib.rs:218-242 | outstanding claims stay inside publishable..writable |
| FlowInvariant.ClaimsUniqueStep | codas-flow/src/lib.rs:218-242 | no two producers ever hold the same sequence |
| FlowInvariant.CoverStep | codas-flow/src/lib.rs:218-242 | every sequence of publishable..writable keeps a holder |
| FlowInvariant.ContentsStep | codas-flow/src/lib.rs:255-299 | whatever a live subscriber has yet to release still holds what was published there |
| FlowInvariant.ReadsStep | codas-flow/src/lib.rs:343-371 | every subscriber has been shown exactly a prefix of the published log, however it is interrupted |
| FlowInvariant.StepInv | codas-flow/src/lib.rs:204-299 | every enabled step of every thread keeps the whole invariant |
| FlowInvariant.ReachableInv | codas-flow/src/lib.rs:144-179 | the invariant holds in every reachable state, with any number of producers and subscribers |
| FlowInvariant.ClaimAvoidsUnread | codas-flow/src/lib.rs:265-299 | a claimed slot is never one that a live subscriber holds or has yet to read |
| FlowInvariant.ClaimsAvoidEachOther | codas-flow/src/lib.rs:265-299 | two outstanding claims never share a slot |
| FlowInvariant.SlotsAreExclusive | codas-flow/src/lib.rs:265-299 | the safety contract of `get` and `get_mut`: in every reachable state a claimed slot has one writer and no reader, and every index is in bounds |
| FlowLog.StepRefines | codas-flow/src/lib.rs:204-371 | every step is a step of a bounded multicast log, or invisible to it |
| FlowLog.RunRefines | codas-flow/src/lib.rs:204-371 | every run is a run of the bounded multicast log |
| FlowLog.SubscribersSeePrefixes | codas-flow/src/lib.rs:343-371 | each subscriber was shown a prefix of the one log: no gap, duplicate or overwritten value, and any two agree |
| FlowLog.LogOnlyGrows | codas-flow/src/lib.rs:238-242 | what has been published never changes |
| FlowLog.ClaimWaitsForRelease | codas-flow/src/lib.rs:204-233 | a slot becomes claimable only after every live cursor has been released past it |
| FlowLog.OnlyLeastClaimPublishes | codas-flow/src/lib.rs:453-459 | only the holder of the least claim advances `next_publishable_seq`, by one, publishing its slot |
| FlowLog.OneHolderEach | codas-flow/src/lib.rs:204-242 | each outstanding sequence has exactly one holder |
| FlowLog.WaitingShrinks | codas-flow/src/lib.rs:453-459 | for a waiting publisher the number of lower claims never grows, and shrinks exactly when the least is published |
| FlowLog.PublishLeast | codas-flow/src/lib.rs:432-459 | at most three steps of its holder publish the least claim |
| FlowLog.ClaimsDrain | codas-flow/src/lib.rs:453-459 | from every state the holders alone can publish every outstanding claim |
| FlowLog.WaitsForExactly | codas-flow/src/lib.rs:453-459 | over any run in which a claim is kept, as many sequences are published by others as its waiting shrinks; its next `try_publish` that does not fail spuriously succeeds iff they were as many as the lower claims |
| FlowFull.RefusedIff | codas-flow/src/lib.rs:204-233 | over any run of a call, `None` iff another producer claimed meanwhile or one of the call's own loads found no room |
| FlowFull.NoneMeans | codas-flow/src/lib.rs:202-233 | `None` means that another producer claimed meanwhile, or that the flow was full at some moment of the call |
| FlowFull.FullMeansNone | codas-flow/src/lib.rs:202-233 | a flow full of unpublished data, or a lap ahead of a live subscriber, refuses every claim however stale the scan |
| FlowFull.UndisturbedNoneIffFull | codas-flow/src/lib.rs:202-233 | a call during which nothing is claimed, published, received or dropped by others returns `None` iff the flow is full before it |
| FlowFull.SoleProducerNoneIffFull | codas-flow/src/lib.rs:202-233 | the same for an only producer, in terms of the counters: `None` iff `next_writable_seq` is a lap ahead of `next_publishable_seq` or of a live cursor |
| FlowWitnesses.RaceLoserRefused | codas-flow/src/lib.rs:202-233 | a run in which the loser of a race is told `None` although the flow is not full |
| FlowWitnesses.StaleScanRefused | codas-flow/src/lib.rs:211-232 | a run in which a lone producer is told `None` although the subscriber has made room since the scan |
| FlowWitnesses.DroppedCursorRefuses | codas-flow/src/lib.rs:211-232 | a run in which the cursor of a subscriber that left, held by another scan, makes a claim fail |
| FlowCode.StableStep | codas-flow/src/lib.rs:144-179 | what a thread relies on survives every step of another thread |
| FlowCode.SharedFlow.New | codas-flow/src/lib.rs:44-82 | with overflow checked, construction succeeds iff the capacity is a power of two, and gives an initial state |
| FlowCode.SharedFlow.ScanCursor | codas-flow/src/lib.rs:211-215 | one turn of the loop over the cursors, amid interference |
| FlowCode.SharedFlow.TryClaimPublishable | codas-flow/src/lib.rs:204-233 | a claimed sequence is held by this producer and was not writable before; otherwise nothing is held, and another producer claimed meanwhile or the flow was full at some moment |
| FlowCode.SharedFlow.TryPublish | codas-flow/src/lib.rs:238-242 | success publishes this claim, and its slot still held what this producer stored |
| FlowCode.SharedFlow.Publish | codas-flow/src/lib.rs:432-459 | once the drop loop ends, the log holds the data at exactly the claimed sequence |
| FlowCode.SharedFlow.ReceivableSeqs | codas-flow/src/lib.rs:360-363 | the range from the own cursor to a later snapshot of what is publishable |
| FlowCode.SharedFlow.Get | codas-flow/src/lib.rs:255-263 | the borrowed value is the one published at that sequence |
| FlowCode.SharedFlow.ReceiveUpTo | codas-flow/src/lib.rs:368-371 | the cursor moves past everything borrowed |
| FlowCode.SharedFlow.TryNext | codas-flow/src/lib.rs:343-355 | the next value of the log, once; `Ahead` only when everything published had been read |
| Stages.Stage.constructor | codas-flow/src/stage.rs:146-157 | the context starts at zero, so it agrees with the cursor iff that is zero |
| Stages.Stage.AddProc | codas-flow/src/stage.rs:50-65 | a new processor starts at the current cursor with no calls |
| Stages.Stage.Invoke | codas-flow/src/stage.rs:85-88 | every processor gets exactly one more call, with the number of sequences remaining |
| Stages.Stage.ProcessNext | codas-flow/src/stage.rs:80-95 | one iteration delivers the next sequence of the log to every processor |
| Stages.Stage.BeginBatch | codas-flow/src/stage.rs:71-74 | the start-equality assertion passes iff context and cursor agree |
| Stages.Stage.EndBatch | codas-flow/src/stage.rs:100-103 | the cursor is released once, past everything the batch read |
| Stages.Stage.Proc | codas-flow/src/stage.rs:70-108 | each processor runs on every receivable sequence once, in order; Ok(n) has 1 <= n <= max_procs_per_batch + 1; after the first success the assertion cannot fail |
| Stages.DeliverySurvivesOthers | codas-flow/src/stage.rs:70-108 | what was delivered is not disturbed by other threads between calls |
| Stages.Stage.Drive | codas-flow/src/stage.rs:50-108 | over any sequence of `proc` and `add_proc` calls amid other threads the assertion never fails, every processor has run on everything since its registration, and the results add up to what was received |
| Stages.ProcOverUsed | codas-flow/src/stage.rs:71-74 | a stage over any subscriber that has received something fails its assertion |
| Stages.UsedSubscriberPanics | codas-flow/src/stage.rs:71-74 | it does so in a state reached by publishing and receiving one value |
| FlowWitnesses.ReceivedOne | codas-flow/src/lib.rs:343-371 | a subscriber between calls whose cursor is not zero is reachable |
| PackedFormat.TagFacts | codas/src/stream/packed.rs:106-117 | the tag has a bit for each non-zero byte |
| PackedFormat.TagBit | codas/src/stream/packed.rs:108-117 | bit `i` of the tag tells whether byte `i` is zero |
| PackedFormat.SpreadInverts | codas/src/stream/packed.rs:206-217 | spreading the non-zero bytes over the tag gives back the word |
| PackedFormat.FlushUnpacks | codas/src/stream/packed.rs:123-134 | a written run of 1 to 256 words reads back as those words, so its count byte is exact |
| PackedFormat.PackWordUnpacks | codas/src/stream/packed.rs:85-121 | each word packed reads back after everything before it, in every state of the run |
| PackedFormat.UnpackInvertsPacked | codas/src/stream/packed.rs:76-134 | unpacking inverts packing, for every sequence of words |
| PackedFormat.UnpackInvertsPack | codas/src/stream/packed.rs:76-149 | unpacking inverts packing for every byte sequence, zero-padded to whole words |
| PackedFormat.PackedSizeBound | codas/src/stream/packed.rs:85-134 | W words pack to at most 8W + W/2 + 2 bytes |
| PackedFormat.SizeBoundIsTight | codas/src/stream/packed.rs:85-134 | the bound is attained at every odd number of words |
| PackedRuns.PackedDivides | codas/src/stream/packed.rs:91-101 | packing divides wherever the next word does not join the run before it |
| PackedRuns.PackedZeros | codas/src/stream/packed.rs:91-94 | n zero words pack to two bytes for every 256 of them, or part of 256 |
| PackedRuns.ZeroBlock | codas/src/stream/packed.rs:91-104 | inside any stream a maximal block of zero words costs exactly that, and what is around it packs as if it were not there |
| PackedRuns.VerbatimBlock | codas/src/stream/packed.rs:95-106 | a block of up to 256 words with at most one zero byte each, the first with none, costs two bytes more than its words |
| PackedRuns.SingleWord | codas/src/stream/packed.rs:107-119 | any other word is its tag and its non-zero bytes |
| Packed.PackedWriter.PackWord | codas/src/stream/packed.rs:85-121 | one word changes run and output as the format says |
| Packed.PackedWriter.WriteRun | codas/src/stream/packed.rs:123-134 | the tallied run is written and forgotten |
| Packed.PackedWriter.Write | codas/src/stream/packed.rs:137-149 | the writer holds the packed state of everything written so far plus a partial word |
| Packed.PackedWriter.Finish | codas/src/stream/packed.rs:76-82 | the output is the packing of all input |
| Packed.PackChunks | codas/src/stream/packed.rs:137-149 | the packed bytes do not depend on how the input is split into writes |
| Packed.PackedReader.UnpackWord | codas/src/stream/packed.rs:178-221 | the next word, the end of the stream, or an error, as the format says |
| Packed.PackedReader.Read | codas/src/stream/packed.rs:231-240 | a read hands out the next pending bytes, and none only at the end |
| Packed.PackedReader.ReadExact | codas/src/stream/packed.rs:242-253 | exactly the next bytes, and an error iff too few whole words are left, whether or not the stream is cut off later; `Empty` if it ends |
| Packed.RoundTrip | codas/src/stream/packed.rs:137-253 | any writes followed by any non-empty reads give the input padded to whole words |
| Wire.HeaderRoundTrip | codas/src/codec.rs:511-582 | a header parses from its bytes |
| Wire.HeaderBytesRoundTrip | codas/src/codec.rs:511-582 | every eight bytes are the encoding of the header they parse to |
| WireLayout.HeaderLayout | codas/src/codec.rs:511-582 | the count in four bytes, the blob size in two, the number of structured fields, the ordinal |
| Bytes.NumberRoundTrip | codas/src/types/number.rs:26-43 | little-endian numbers read back |
| WireLayout.LittleEndianByte | codas/src/types/number.rs:26-43 | byte i has the weight 256 to the power of i |
| Scalars.ScalarRoundTrip | codas/src/types/number.rs:26-81 | numbers of every kind, signed ones and `bool` included, read back |
| Scalars.OnlyOneIsTrue | codas/src/types/number.rs:76-86 | of all bytes only 1 decodes to true |
| Unicode.Utf8Iff | codas/src/types/text.rs:183-186 | the bytes accepted as text are exactly the UTF-8 encodings of sequences of Unicode scalar values |
| SortedMap.InsertAllAscending | codas/src/types/map.rs:60-63 | inserting pairs in ascending order makes the map of exactly those pairs |
| MapContents.InsertAllContents | codas/src/types/map.rs:60-63 | pairs inserted in any order, with any repetitions, make an ascending map of the last value of every key |
| MapContents.LexIff | codas/src/types/map.rs:60-63 | texts are ordered as strings are: by the first byte that differs, a prefix first |
| MapContents.TypedMapContents | codas/src/types/map.rs:50-63 | a decoded map: unequal lengths are an error, otherwise the last value of every key |
| MapContents.DynamicMapContents | codas/src/types/dynamic.rs:671-694 | a decoded dynamic map: made exactly from lists of equal length with text keys, with the last value of every key |
| Reader.SkipData | codas/src/codec/decode.rs:199-215 | a successful skip moves on by what it returns and leaves the scope it entered |
| Reader.Capture | codas/src/types/dynamic.rs:496-512 | a successful capture moves on by as many bytes as it returns |
| ReaderCode.LimitedReader.constructor | codas/src/codec/decode.rs:467-478 | a reader at the start of its input with nothing counted |
| ReaderCode.LimitedReader.ReadOver | codas/src/codec/decode.rs:510-519 | reads what is there within the byte limit, and fails only at the limit |
| ReaderCode.LimitedReader.ReadExact | codas/src/codec/decode.rs:521-529 | exactly the next bytes, checked against the limit before the input |
| ReaderCode.LimitedReader.EnterScope | codas/src/codec/decode.rs:531-537 | the depth is raised even when it then exceeds the limit |
| ReaderCode.LimitedReader.ExitScope | codas/src/codec/decode.rs:539-541 | the depth goes down by one, not below zero |
| ReaderCode.LimitedReader.ReadHeader | codas/src/codec.rs:561-582 | the header in the next eight bytes |
| ReaderCode.LimitedReader.SkipBlob | codas/src/codec/decode.rs:179-194 | the chunked loop moves on by the length, or fails with the error of whichever end comes first |
| ReaderCode.LimitedReader.SkipData | codas/src/codec/decode.rs:199-215 | the loops skip exactly what the format describes; on error every scope but a refused one is left |
| ReaderCode.LimitedReader.SkipDataWithFormat | codas/src/codec/decode.rs:220-232 | one entry: its blob and its fields |
| ReaderCode.LimitedReader.CaptureData | codas/src/types/dynamic.rs:496-512 | appends what the specification captures |
| ReaderCode.LimitedReader.CaptureDataWithFormat | codas/src/types/dynamic.rs:516-534 | appends one entry |
| Extent.CaptureIsSkip | codas/src/types/dynamic.rs:496-534 | on every stream capturing succeeds iff skipping does, stops at the same place and yields exactly the bytes between |
| Extent.SkipIsLocal | codas/src/codec/decode.rs:199-232 | a skip depends only on the bytes it skips |
| Extent.CaptureIffFramed | codas/src/types/dynamic.rs:699-707 | opaque bytes are captured again, wherever they stand, iff they are exactly what their header describes |
| Framing.SkipsWhole | codas/src/types/dynamic.rs:173-270 | every encodable dynamic value is skipped exactly |
| Framing.SkipsStruct | codas/src/codec.rs:87-99 | one struct is as many blob bytes and self-describing fields as its format says |
| Framing.SkipsWrite | codas/src/codec/decode.rs:199-232 | every encoded structured value is skipped exactly |
| Framing.BlobBodySize | codas/src/types/binary.rs:176-197 | a fixed-size value is as many bytes as its format says |
| DynamicTrip.PayloadDecodes | codas/src/types/dynamic.rs:583-711 | a value decodes from its payload under its own header |
| DynamicTrip.WholeDecodes | codas/src/types/dynamic.rs:173-270 | a relayable value decodes from its encoding, leaving what follows |
| DynamicTrip.InnerDecodes | codas/src/types/dynamic.rs:279-370 | lists of one scalar kind, of one structured type, of several types, and empty ones all decode to their items |
| DynamicTrip.DecodedIsRelayable | codas/src/types/dynamic.rs:583-711 | opaque data inside any decoded value has an uninterpreted ordinal and a well-framed payload |
| DynamicTrip.RoundTripsIffRelayable | codas/src/types/dynamic.rs:168-270 | of the values that encode, exactly the relayable ones decode back to themselves |
| DynamicTrip.RelayIsLossless | codas/src/types/dynamic.rs:699-707 | data under an uninterpreted ordinal is accepted iff it can be skipped, and re-encoding it reproduces the bytes read |
| DynamicChecks.DynChecksHeader | codas/src/types/dynamic.rs:388-399 | a built-in ordinal is accepted only with the format of its type, lists and maps only once |
| DynamicChecks.InnerChecksHeader | codas/src/types/dynamic.rs:414-445 | the inner header of a list: packed numbers in the format of their kind, nothing else built in is packed |
| DynamicChecks.OrdinalZeroIsSkipped | codas/src/types/dynamic.rs:600-608 | data under ordinal zero are passed over exactly as a skip does, with the same outcome |
| DynamicChecks.NumbersByCount | codas/src/types/dynamic.rs:561-579 | under a number's ordinal the count decides between `Default`, the number and a list |
| DynamicCode.DecodeNumber | codas/src/types/number.rs:36-43 | reads a number of its width |
| DynamicCode.TryDecodeString | codas/src/types/text.rs:165-190 | the string is the bytes read if they are UTF-8, and empty after any failure |
| DynamicCode.DecodeString | codas/src/types/text.rs:110-160 | the text does not depend on what the buffer held |
| DynamicCode.DecodeScalarsInto | codas/src/types/dynamic.rs:538-549 | the loop decodes `count` numbers |
| DynamicCode.DecodeOneOrMore | codas/src/types/dynamic.rs:561-579 | `Default`, one number or a list, by the count |
| DynamicCode.BuildMap | codas/src/types/dynamic.rs:671-694 | unequal lengths and the first key that is not text are errors; otherwise all pairs are inserted |
| DynamicCode.DecodeList | codas/src/types/dynamic.rs:414-492 | decodes a list as its inner header says |
| DynamicCode.Decode | codas/src/types/dynamic.rs:584-711 | decodes a value as its ordinal says, with the error of the first failure |
| DynamicCode.Read | codas/src/codec/decode.rs:146-156 | reads a value and its header inside one scope |
| EncodeCode.WriteDynHeader | codas/src/types/dynamic.rs:206-270 | writes the value's header; only a text too long fails |
| EncodeCode.EncodeDyn | codas/src/types/dynamic.rs:173-204 | writes the payload |
| EncodeCode.WriteDyn | codas/src/codec/encode.rs:90-95 | succeeds iff the value can be encoded, appending header and payload |
| EncodeCode.Scan | codas/src/types/dynamic.rs:286-309 | rejects lists with a `Default`, and tells whether all items are of one type |
| EncodeCode.EncodeItems | codas/src/types/dynamic.rs:279-370 | succeeds iff every item can be encoded, appending the inner header and the items |
| WireLayout.NumbersLayout | codas/src/types/dynamic.rs:316-333 | n numbers of one kind are eight bytes of header under their kind and n times its width, each in its place |
| WireLayout.SharedLayout | codas/src/types/dynamic.rs:316-370 | other items that share an ordinal are written whole, as one field each, under it |
| WireLayout.MixedLayout | codas/src/types/dynamic.rs:316-370 | items of several types, or none, are written whole under ordinal zero |
| WireLayout.EveryListHasALayout | codas/src/types/dynamic.rs:286-333 | every list that can be read back is one of the three |
| WireLayout.DynamicMapIsTwoLists | codas/src/types/dynamic.rs:173-204 | a map is the list of its keys and then the list of its values |
| Evolution.ReconcileSelf | codas/src/types.rs:1106-1172 | between a type and itself nothing is lost |
| Compatibility.BlobAt | codas/src/types/binary.rs:176-211 | fixed-size values decode from their encoding |
| Compatibility.BlobFieldsAt | codas/src/codec/decode.rs:325-343 | fixed-size fields: known ones are read, missing ones get their defaults, and what is left is counted |
| Compatibility.HeaderAccepted | codas/src/codec/decode.rs:44-79 | the header a writer of one version writes passes the check of a reader of another |
| Compatibility.StructAt | codas/src/codec/decode.rs:324-372 | a struct read by another safe version is the reconciled struct, from exactly its encoding |
| Compatibility.DatasAt | codas/src/codec/decode.rs:345-371 | structured fields are read in order and unknown ones skipped |
| Compatibility.NextAt | codas/src/codec/decode.rs:160-176 | items of packed and prefixed sequences |
| Compatibility.ManyAt | codas/src/types/list.rs:68-97 | the items of a list, whatever versions they are |
| Compatibility.MapAt | codas/src/types/map.rs:34-66 | a map as two parallel lists |
| Compatibility.DataAt | codas/src/codec/decode.rs:146-156 | any structured value under its header |
| Compatibility.ReadAt | codas/src/codec/decode.rs:146-156 | between safe versions, reading what was written gives the reconciled value from exactly the encoding |
| Unsafe.OtherCount | codas/src/codec/decode.rs:44-79 | a header with another count never decodes to a value of count one |
| Unsafe.LeftoverMisread | codas/src/codec/decode.rs:345-366 | blob bytes left unread are taken for the header of the first structured field |
| Unsafe.BadRead | codas/src/codec/decode.rs:345-366 | every unsafe pair of versions misreads the value made for it, at any depth of nesting |
| Unsafe.SafeIffReconciles | codas/src/codec/decode.rs:324-372 | evolution keeps its promise for all values iff the versions are safe |
| Guarantees.RoundTrip | codas/src/codec/decode.rs:146-176 | every value decodes from its encoding and leaves exactly what follows |
| Guarantees.EncodingIsPrefixFree | codas/src/codec.rs:87-119 | no encoding is a proper prefix of another of the same type, and encoding is injective |
| Guarantees.ExtentsAgree | codas/src/codec/decode.rs:179-233 | skipping, capturing and decoding cover exactly the same bytes |
| Guarantees.RelayedStruct | codas/src/types/dynamic.rs:199-202 | a struct relayed as opaque data is read as if it had been sent directly |
| Guarantees.BackwardIsSafe | codas/README.md:120-122 | old data always read as a newer type, appended fields by default |
| Guarantees.AppendingCounts | codas/src/codec/decode.rs:242-249 | any fields after those there are, and any appending inside a nested type, count as appending |
| Guarantees.BackwardReconciles | codas/src/codec/decode.rs:158-176 | old values of a type always read as the newer type, from exactly their encoding, at the top, in lists, options and maps |
| Absence.AbsentIffDefault | codas/src/codec/decode.rs:337-355 | a missing field is nothing of its kind: zero bytes, count zero and no body, no keys, or missing in every field; of every type exactly one value is that |
| Guarantees.ReconciledFields | codas/src/codec/decode.rs:242-249 | known fields are kept, missing ones are absent, unknown ones are gone |
| Guarantees.ForwardIffReady | codas/README.md:107-118 | old readers ignore exactly what was appended, for all values, iff every type they know kept its blob size or has no structured fields |
| Guarantees.AppendingIsNotEnough | codas/README.md:107-118 | the unrestricted promise fails for a concrete pair of types |
| DecodeCode.ReadInto | codas/src/codec/decode.rs:146-156 | decodes into a used destination; the result depends on the input alone |
| DecodeCode.ReadNextInto | codas/src/codec/decode.rs:160-176 | blob, data and self-describing items |
| DecodeCode.DecodeBlobInto | codas/src/types/number.rs:36-43 | fixed-size values |
| DecodeCode.DecodeElements | codas/src/types/binary.rs:199-211 | array elements in place |
| DecodeCode.DecodeInto | codas/src/codec/decode.rs:44-79 | checks the header and decodes by type |
| WireLayout.ChecksHeader | codas/src/codec/decode.rs:44-79 | the headers each type takes: its own ordinal if it has one, else exactly its own format, and a count of one for structs and maps; any other is the error stated |
| WireLayout.OtherStructIsRejected | codas/src/codec/decode.rs:56-71 | no struct is ever taken for one of another ordinal |
| WireLayout.BlobsEndBetweenFields | codas/src/codec/decode.rs:333-343 | fixed-size fields are accepted only if the header's blob ends between two of them or beyond the last |
| DecodeCode.DecodeVec | codas/src/types/list.rs:68-97 | reused, pushed and truncated elements end up as the decoded list |
| DecodeCode.DecodeMap | codas/src/types/map.rs:34-66 | mismatched lengths are an error; otherwise the pairs make the map |
| DecodeCode.DecodeStruct | codas/src/langs/rust.rs:213-236 | the shape of every generated `decode` |
| DecodeCode.FieldReader.constructor | codas/src/codec/decode.rs:312-319 | starts with everything the header announces |
| DecodeCode.FieldReader.Read | codas/src/codec/decode.rs:324-358 | decodes the next field, or makes it absent if the header has no more of its kind |
| DecodeCode.FieldReader.Finish | codas/src/codec/decode.rs:362-372 | skips the leftover blob, then the leftover fields |
| DecodeCode.ReadSlice | codas/src/codec/decode.rs:421-423 | a top-level decode runs under the default limits |
| EncodeCode.TryCount | codas/src/codec.rs:665-667 | counts over `u32::MAX` are errors |
| EncodeCode.WriteData | codas/src/codec/encode.rs:90-95 | succeeds iff every count fits, appending exactly the encoding |
| EncodeCode.WriteSequenceData | codas/src/codec/encode.rs:99-105 | packed items without, others with their header |
| EncodeCode.EncodeHeader | codas/src/codec/encode.rs:48-64 | appends the header, nothing for fixed-size types |
| WireLayout.HeaderIs | codas/src/codec.rs:197-211 | the header of every type of value, by the type alone: its format and what it counts |
| WireLayout.OptionIsShortList | codas/src/types.rs:697-722 | an option is encoded as a list of the same length |
| WireLayout.MapIsTwoLists | codas/src/types/map.rs:20-30 | a map is the list of its keys and then the list of its values, under its own header |
| WireLayout.TextIsBytes | codas/src/types/text.rs:110-160 | a text is encoded as the list of its bytes |
| EncodeCode.Encode | codas/src/codec/encode.rs:40-40 | appends the body |
| EncodeCode.EncodeAll | codas/src/types/list.rs:44-50 | appends every item |
| EncodeCode.WriteVec | codas/src/types/list.rs:44-62 | appends a list with its header |
| EncodeCode.WriteFields | codas/src/langs/rust.rs:200-207 | appends one field after another |
| EndToEnd.SendAndReceive | codas/src/codec/decode.rs:421-423 | encoding then decoding under the default limits gives the reconciled value, and fails iff a count or a limit is exceeded |
| LimitTransparency.SkipDataTransparent | codas/src/codec/decode.rs:199-232 | limits only cut off skipping |
| LimitTransparency.DecodeDynTransparent | codas/src/types/dynamic.rs:584-711 | limits only cut off dynamic decoding |
| LimitTransparency.ReadDataTransparent | codas/src/codec/decode.rs:146-156 | limits only cut off typed decoding, from any state |
| LimitTransparency.LimitsOnlyLimit | codas/src/codec/decode.rs:509-542 | a limited decode succeeds iff the unlimited one does within both limits, with the same value, exact byte count and depth restored |
| SchemaTrip.FormatAt | codas/src/codec.rs:365-465 | formats decode from their descriptions |
| SchemaTrip.TypeTrips | codas/src/types.rs:447-590 | a type description decodes to the type if it is describable, and is rejected if not |
| SchemaTrip.DataTypeTrips | codas/src/types.rs:627-660 | a data type description, through its fields and their types |
| SchemaTrip.FieldTrips | codas/src/types.rs:662-695 | a field description |
| SchemaTrip.TypeRoundTripsIffDescribable | codas/src/types.rs:447-590 | type descriptions round-trip iff every nested data type has an ordinal of its own |
| SchemaTrip.CodaRoundTripsIffDescribable | codas/src/types.rs:592-625 | whole codas round-trip under the same condition |
| SchemaTrip.TypeChecksHeader | codas/src/types.rs:492-590 | a type description is accepted only under the header its type is written with |
| SchemaTrip.FieldLayout | codas/src/types.rs:662-678 | a field: a byte for each flag, its name, its docs, its type |
| SchemaTrip.DataTypeLayout | codas/src/types.rs:627-643 | a data type: its name, its docs, its fixed-size fields, its structured ones, its format |
| SchemaTrip.CodaLayout | codas/src/types.rs:592-609 | a coda: its names, its docs, its data types |
| SchemaTrip.FormatBytesAreHeaders | codas/src/codec.rs:365-420 | a format is described by the bytes that state it in a header |
| SchemaExtent.SkipsFormat | codas/src/codec.rs:365-420 | a skip covers a format description exactly |
| SchemaExtent.SkipsType | codas/src/types.rs:447-490 | a skip covers a type description exactly |
| SchemaExtent.SkipsDataType | codas/src/types.rs:627-643 | a skip covers a data type description exactly |
| SchemaExtent.SkipsCoda | codas/src/types.rs:592-609 | a skip covers a coda exactly |
| Parse.ResolveName | codas/src/types.rs:260-268 | a name is the first data type with it in any case, else a built-in type, else a fluid data type; the type is sound |
| Parse.KnownIsFirst | codas/src/types.rs:260-265 | the first match wins |
| Parse.CaseOfNames | codas/src/types.rs:260-268 | names that differ only in case are the same data type if there is one, and never the same built-in or unknown type |
| Parse.FromNameIff | codas/src/types.rs:201-218 | a built-in type is recognised by exactly its name |
| Parse.Resolve | codas/src/parse.rs:103-145 | exactly the type or the error specified; accepted types are sound and no assertion fires on the way |
| Parse.ResolvedIffMeans | codas/src/parse.rs:103-145 | a parsed type resolves to a type iff it describes that type: names, dimensions, key and value, size and elements |
| Parse.RejectedIffFaulty | codas/src/parse.rs:121-141 | and is rejected with an error iff that is what is wrong with it |
| Parse.ResolvedIsSound | codas/src/parse.rs:103-145 | every type the specification gives has a format, and resolving fires no assertion |
| Parse.ProductFits | codas/src/parse.rs:130-137 | the product of array sizes fits in 32 bits |
| Parse.AddField | codas/src/types.rs:357-370 | a field keeps the format accounted for; the one assertion that can fire is on a 256th structured field |
| Parse.AcceptsIff | codas/src/parse.rs:66-92 | a data type is accepted iff each field resolves by itself and together they have at most 65535 blob bytes and 255 structured fields |
| Parse.StopsIff | codas/src/parse.rs:66-92 | adding fields panics iff a 256th structured field comes before anything is rejected, and is rejected with an error iff that is the first thing wrong |
| Parse.ParseData | codas/src/parse.rs:66-92 | exactly the data type specified, or its error or panic: every field keeps its name, docs and flags and has the type described; fields are split by kind, otherwise in order, and the format is their sum |
| Parse.CodaStopsIff | codas/src/parse.rs:45-95 | parsing panics iff the first data type that stops it does so on its 256th structured field, and reports an error iff that data type is one too many or is rejected with it |
| Parse.FewStructuredNeverPanicCoda | codas/src/parse.rs:45-95 | with at most 255 structured fields in every data type no assertion fires |
| Parse.TooManyStructuredPanics | codas/src/codec.rs:232-294 | a data type of 256 maps fires one |
| Parse.ParseCoda | codas/src/parse.rs:45-95 | exactly the data types specified, each with the format of its fields under its position as ordinal, or the error or panic |
| SchemaFormats.FormatsAgree | codas/src/types.rs:970-1027 | the format of a schema type is the format of the generated code |
| SchemaFormats.BodyMatchesFormat | codas/src/codec.rs:87-99 | an encoded body is the stated number of blob bytes and then of self-describing fields |
| SchemaFormats.NewAgreesWithAdding | codas/src/types.rs:305-338 | building a data type at once gives the same format as adding its fields iff no structured field is so only by being optional |
| SchemaFormats.OptionalIsForgotten | codas/src/types.rs:305-338 | a data type of one optional number for which they differ |
| BitStrings.NumberAppend | codas/src/types/binary.rs:518-527 | shifting a number and adding another concatenates their bits |
| BitStrings.DigitOfNumber | codas/src/types/binary.rs:523-527 | a digit of a number is what shifting and masking extract |
| Radix.UndigitsInvertsDigits | codas/src/types/binary.rs:512-569 | regrouping bits into digits of any width up to eight and back is the identity |
| Radix.ExtractDigit | codas/src/types/binary.rs:523-527 | the shift and mask expression is the intended digit |
| Base64.FromBytes | codas/src/types/binary.rs:613-632 | the chunk loop computes the regrouped bits in the alphabet |
| Base64.AlphabetIs | codas/src/types/binary.rs:674-674 | the alphabet, written out |
| Base64.ToBytes | codas/src/types/binary.rs:638-666 | rejects text iff a lone character trails or one is outside the alphabet, with the first reason found; otherwise the bytes it stands for |
| Base64.DecodedInvertsText | codas/src/types/binary.rs:613-666 | decoding inverts encoding for every byte sequence |
| Base64.TextLength | codas/src/types/binary.rs:613-632 | the exact length |
| Base64.RoundTrip | codas/src/types/binary.rs:613-666 | through the code, every byte sequence survives |
| Base32.FromBytes | codas/src/types/binary.rs:512-539 | the chunk loop and the trimming compute the regrouped bits in the alphabet |
| Base32.AlphabetIs | codas/src/types/binary.rs:577-577 | the alphabet, written out |
| Base32.CharIndexIff | codas/src/types/binary.rs:581-603 | a character is taken iff it is in the alphabet in either case, for its place there |
| Base32.ToBytes | codas/src/types/binary.rs:543-569 | rejects text iff a character is outside the alphabet; otherwise the bytes it stands for |
| Base32.DecodedInvertsText | codas/src/types/binary.rs:512-569 | decoding inverts encoding, and the text has exactly the characters its bits need |
| Base32.TrimmedBytes | codas/src/types/binary.rs:565-568 | the exact number of bytes, and the trimmed ones are the right ones |
| Base32.CaseDoesNotMatter | codas/src/types/binary.rs:581-603 | texts that differ only in case decode alike |
| Base32.RoundTrip | codas/src/types/binary.rs:512-569 | through the code, every byte sequence survives, in any case |

## Left out

- Wrap-around of 64-bit sequence numbers in the flow, and guards that are leaked instead of dropped.
- FlowCode.SharedFlow.New: assumes that overflow is checked, as in debug builds. In a release build `capacity - 1` wraps at a capacity of zero, the assertion passes, and the flow has no slot and never grants a claim.
- FlowCode.SharedFlow.Publish: the drop loop runs for as many turns as the scheduler grants, since no fairness is assumed; that it can always end is `FlowLog.ClaimsDrain`, and when it does is `FlowLog.WaitsForExactly`.
- FlowCode.SharedFlow.Interfere: stands for other threads; its contract admits every run of theirs, and callers use nothing else.
- Stages.Stage.Invoke: a processor is the record of its calls; closures that only accept some formats of data, and the tasks they may spawn, are not modelled.
- Futures, wakers and `proc_loop`, which only repeat the operations that are modelled.
- Writers other than a byte vector and readers other than a byte slice, and so the errors of a wrapped stream; which `StreamError` a slice that is too short gives.
- Destinations of decoding are values passed in and returned, so aliasing between them and sharing of text buffers are not captured; what a destination holds after an error is not specified.
- The codecs of `Type`, `DataType`, `DataField`, `Format` and `Coda` are modelled on values (`Schema`, `SchemaTrip`), without their assignments in place.
- EncodeCode.WriteDyn: which of several reasons for failing is reported first is not specified.
- Capacity reservations and other allocation details, `encode_default_value` and `encode_default_header`, `default_of` and `as_type`.
- Types with recursive or non-generated codecs other than those above, and decoders called directly without a header.
- Parse.ParseCoda: starts from parsed fields; lexing Markdown and the ranges of documentation are not modelled.
- Generated code in other languages, the command line, cryptography, Serde, hexadecimal text, and the language bindings.
