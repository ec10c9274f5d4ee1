# A verified model of the CSIL transports and compiler core

CSIL is an interface language in the family of CDDL (RFC 8610). Its repository holds a compiler
core in Rust and transports in several languages that exchange CBOR (RFC 8949) envelopes. This
project models the parts of it in which most can go wrong and proves what they are for. It is
plain Dafny: `dafny verify dfyconfig.toml` checks all of it.

Code that computes by expressions is a function here. Code that changes state is a class or a
method with the same fields and loops, proved equal to a function of its inputs or its old state;
the lemmas about that function are then statements about the code. These pairs live in separate
modules: `GoCbor` and `GoCborCode`, `RustCbor` and `RustCborCode`, `MergeChoices` and `MergeCode`,
`Hoist` and `HoistCode`, `TypeParser` and `ParserCode`, `TypePrinter` and `PrinterCode`.

## The wire

- `CborSyntax` gives CBOR a concrete syntax: a tree that records every choice an encoder has
  (head widths, definite or indefinite length, chunking), and its bytes. The syntax is shown
  unambiguous and prefix-free once, and everything else about CBOR rests on that. `Utf8` is
  section 4 of RFC 3629 as an automaton,
  which accepts exactly the octets of lists of characters (section 3).
- `GoCbor`, `GoRoundTrip`: the Go codec accepts exactly the renderings in its subset, so decoding
  undoes encoding, encoding is injective and prefix-free, and re-encoding never grows.
- `RustCbor`, `RustSoundness`, `RustSpans`, `CborAgreement`: the Rust decoder accepts exactly the
  renderings of all trees up to 64 levels, reports the same data for all renderings of one item,
  agrees with the Go decoder, and puts faithful byte spans on every node. `RustCuts` says which error,
  at which byte, any input ends with that stops inside an item or goes on behind it.
- `CanonMap`: map keys in the order of section 4.2.1 of RFC 8949.
- `Conventions`, `Rpc`, `Events`, `Datagrams`: every envelope decodes back to itself; `RpcRuns`
  follows a client and a server through every interleaving; the sequence tracker is followed
  through every list of arrivals. `WireLayout` gives every envelope's bytes, field by field, and
  `RpcAcceptance` what the RPC decoders make of any fields at all.
- `Framing`, `FrameQueue`, `Carrier`: frames on a byte stream read in arbitrary pieces, with reads and
  writes that may fail, and the compacting, growing queue of the C transport.

## The compiler

- `Ast`, `ChoiceShape`, `Hoist`, `HoistShape`, `HoistInverse`, `HoistNames`, `HoistOrigins`, `HoistCode`:
  hoisting inline composites to named rules. It is undone by putting the bodies back, leaves nothing to
  hoist, keeps every choice's wire shape, never reuses a name, and names every rule after the path to
  the composite it was made for.
- `MergeChoices`, `MergeParts`, `MergeCode`: `/=` extensions (section 2.2.2 of RFC 8610). The index
  surgery on the rule vector equals a simple fold; what becomes of every name is known; merging in two
  stages gives the one-stage rules up to the order of arms, and exactly when that order agrees.
- `Tokens`, `TypeParser`, `TypePrinter`, `TypeScan`, `TypeAppend`, `TypeRoundTrip`: the type grammar
  and the formatter, over tokens. What is printed parses back and nothing behind it is read, for the
  type expressions described by `TypePrinter.Faithful`.
- `AnnotationParser`, `AnnotationPrinter`, `ConditionRoundTrip`, `AnnotationRoundTrip`: literals, field
  annotations and the conditions of `@depends-on`, token by token. What a printed annotation is read
  as, when it is refused, and exactly which ones come back.
- `TypeLosses`, `TypeStops`: what becomes of the others. `TypeLosses.Kept` is the type expression that
  printing keeps of one; where it is faithful it is what comes back. `TypeStops` says which printed
  arrays, tuples, maps and groups the parser refuses.
- `TypeSpellings`, `TypeCounts`: other spellings (parentheses, the three places of `?`, annotations in
  front, `//`, bracketed keys, ranges, occurrences in front of elements, members and map keys) mean what
  they should.
- `TypeLayout`: the lines of printed text and how far in they start.
- `Dependency`: the import-cycle search and the entry points of acyclic graphs.
- `EditDistance`: the matrix routine computes the least cost of any edit script, and that is a
  metric.

## Results that are not what one would hope

- `EditDistance.LengthFilterExact`: the length filter of the name suggestions counts UTF-8 bytes while
  the distance counts characters. It never drops a name that is close enough exactly when all names
  are written in ASCII characters alone; `EditDistance.LengthFilterMatters` shows two names one edit
  apart that it separates.
- `HoistInverse.HoistedExpandsBack`: putting hoisted bodies back where they are referenced restores a
  specification exactly when none of its references names a rule that hoisting makes for it.
  `HoistInverse.ExpandsBackExactly` says from the names alone when no specification is lost: when none of
  the names referred to is a rule's name, an underscore and more, with a canonical key that no rule has.
  `HoistInverse.ForeignNameIsLost` is the rule `A` with an inline group at `x` and a reference to `A_x`.
- `MergeParts.PartwiseMerge`: merging file by file and then as a whole gives the one-pass rules
  exactly when `InOrder` holds; otherwise the arms of a choice, and with them their wire indices,
  are permuted (`MergeParts.StagesCanReorderArms` names such parts). A base that never stands in a
  later part than its extensions is enough; it is not necessary, because two runs of arms that read
  the same both ways round may be swapped.
- `Datagrams.CompactReencode`: a compact datagram decodes and comes back exactly when its reserved
  flag bits are zero; `Datagrams.SpareBitIsLost` is one that does not.
- `TypeLosses.KeptComesBack`: a type expression comes back from its printed text exactly when it is
  faithful, whenever what is kept of it is. In particular the formatter drops what an array or a map
  repeats (`ArrayComesBack`, `MapComesBack`), prints a choice inside a choice without parentheses
  (`ChoiceComesBack`), moves the operators of a choice to its last arm (`ConstrainedChoiceComesBack`),
  drops a tuple member's occurrence, its metadata and every key that is not bare (`TupleComesBack`), and
  prints a count right behind an entry's key, where it becomes part of the key (`Kept`).
- `TypeStops.ArrayIsRead`, `TypeStops.TupleIsRead`, `TypeStops.MapIsRead`, `TypeStops.GroupIsRead`: printed
  text that the parser refuses. An integer in front of an array element, a tuple member or a map key is
  taken for a count; a group is refused exactly when some entry, as it is kept, has a type or bytes for
  a key, an occurrence other than `?` behind a bare key, any behind a literal one, or an annotation that
  is not readable (see the next item).
- `AnnotationRoundTrip.AnnotationReads`, `AnnotationRoundTrip.AnnotationComesBack`: of the annotations whose
  parts lex, those are refused that are a simple `@depends-on` with a value, a condition in which a field
  is no path of names, a part of one spells a control operator, or a comparison is missing, a size bound
  from 2^63 on, and a custom one with a parameter whose name is none. A description or a literal with a
  backslash in its text is read as another (`EscapeIsLost`), since texts are printed without escapes; a
  quote in it ends the text early, and what follows is refused (`QuoteEndsDescription`). A custom
  constraint is read as a custom annotation.
- `ConditionRoundTrip.ConditionReads`, `ConditionRoundTrip.ConditionComesBack`: conditions are printed
  without parentheses, so an `Any` below an `All` is read as another condition, with `&` before `|`
  (`AnyBelowAllIsLost`). A condition comes back exactly when its comparisons do, only `Any` holds `All`,
  neither holds its own kind directly, and each has two terms or more.
- `TypeLayout.LaidOutExactly`: every line of printed text starts where the braces around it say, exactly
  when each group behind an `.and` or `.within` is printed at the margin: the formatter starts such operands
  there wherever they are (`TypeLayout.OperandOffMargin`).
- `TypeSpellings.RangeComesBack`: a range in the tree is printed with `..` even where its end does not
  belong to it, and comes back as a number type with bounds.

## Model

| member | source | states |
|---|---|---|
| CborSyntax.Unambiguous | transports/go/cbor.go:147-267 | Two well-formed syntax trees whose renderings both start the same bytes are the same tree: CBOR is unambiguous and no item is a proper prefix of another |
| Utf8.ValidExactly | transports/go/cbor.go:178-186 | Bytes are valid text if and only if they are the octets of a list of character numbers, none a surrogate |
| GoCbor.AcceptsRendering | transports/go/cbor.go:147-230 | Every rendering of a supported tree, with any head widths and anything behind it, decodes to the value it denotes and uses exactly its own bytes |
| GoCbor.AcceptedIsRendering | transports/go/cbor.go:147-267 | Whatever the decoder accepts is the rendering of a well-formed, valid-text tree within the nesting limit, with the value that tree denotes |
| GoRoundTrip.RoundTrip | transports/go/cbor.go:45-230 | Decoding an encoding with any suffix succeeds exactly when the text is UTF-8 and the value nests at most 64 levels, and then gives the value (a non-negative signed integer as unsigned) and its exact length |
| GoRoundTrip.EncodeInjective | transports/go/cbor.go:45-104 | An encoding that is a prefix of another encoding is equal to it and comes from the same value |
| GoRoundTrip.Reencode | transports/go/cbor.go:45-104 | Encoding what a tree denotes is never longer than the tree's bytes and has their length only if all heads were shortest |
| GoRoundTrip.ReencodeNeverLonger | transports/go/cbor.go:45-230 | Re-encoding a decoded item gives back the bytes read exactly when every head in them was the shortest possible, and is never longer |
| GoCborCode.WriteHead | transports/go/cbor.go:45-61 | Appends the shortest head for a major type and argument to the buffer |
| GoCborCode.EncodeInto | transports/go/cbor.go:63-97 | Appends the encoding of a value to what the buffer held |
| GoCborCode.EncodeValue | transports/go/cbor.go:100-104 | Returns the encoding the round-trip lemmas are about |
| GoCborCode.DecodeEnvelopeBytes | transports/go/cbor.go:122-131 | Decodes one item and refuses trailing bytes, as the specification function does, errors included |
| GoCborCode.DecodeValueDepth | transports/go/cbor.go:147-230 | The decoder's loops give the value, length and error of the specification function on every input |
| GoCborCode.DecodeElements | transports/go/cbor.go:186-200 | The element loop collects the items the specification decodes one after the other |
| GoCborCode.DecodeMapEntries | transports/go/cbor.go:201-220 | The entry loop collects keys and values alternately, in input order |
| GoCborCode.ReadArgBytes | transports/go/cbor.go:235-267 | The head argument assembled byte by byte is the big-endian number in the bytes behind the head |
| RustCbor.AcceptsRendering | crates/csilgen-schema/src/cbor.rs:105-322 | Every rendering of a well-formed, valid-text tree within the depth limit is accepted wherever it stands, with its node and spans |
| RustCbor.AcceptsChunks | crates/csilgen-schema/src/cbor.rs:164-231 | An indefinite-length string decodes to its chunks joined, however it was chunked |
| RustSoundness.AcceptedIsRendering | crates/csilgen-schema/src/cbor.rs:105-322 | Whatever the decoder accepts at an offset is the rendering of a well-formed tree there, and the result is that tree's node |
| RustCborCode.DecodeBytes | crates/csilgen-schema/src/cbor.rs:90-97 | The decoder object gives the result of the specification function, error offsets included, and refuses trailing bytes |
| RustCborCode.Decoder.ReadValue | crates/csilgen-schema/src/cbor.rs:105-140 | One value read at the cursor: same value, spans, error and new cursor as the specification |
| RustCborCode.Decoder.ReadArgument | crates/csilgen-schema/src/cbor.rs:142-152 | The head argument or the error for a reserved or indefinite one |
| RustCborCode.Decoder.ReadByteString | crates/csilgen-schema/src/cbor.rs:164-189 | A byte string, definite or in chunks |
| RustCborCode.Decoder.ReadTextString | crates/csilgen-schema/src/cbor.rs:191-230 | A text string, definite or in chunks, each chunk checked as UTF-8 |
| RustCborCode.Decoder.ReadArray | crates/csilgen-schema/src/cbor.rs:232-255 | The items of a counted or open array |
| RustCborCode.Decoder.ReadMap | crates/csilgen-schema/src/cbor.rs:257-291 | The entries of a counted or open map, and the error for a key without a value |
| RustCborCode.Decoder.ReadSimple | crates/csilgen-schema/src/cbor.rs:293-322 | Simple values and float bits of each width |
| CborAgreement.EveryRenderingDecodesAlike | crates/csilgen-schema/src/cbor.rs:90-399 | Any rendering of a data item, at most 64 levels high, is accepted and reported, spans aside, as that item with known tags recognised |
| CborAgreement.RustAcceptsExactly | crates/csilgen-schema/src/cbor.rs:90-322 | An input is accepted if and only if it is the rendering of some well-formed, valid-text tree of at most 64 levels |
| CborAgreement.GoAcceptsExactly | transports/go/cbor.go:122-267 | The same for the Go decoder, with trees of its subset |
| CborAgreement.GoAcceptedIsRustAccepted | transports/go/cbor.go:122-267 | Every input the Go decoder accepts the Rust decoder accepts, with the same data up to semantic tags |
| CborAgreement.RustAcceptedIsGoAccepted | crates/csilgen-schema/src/cbor.rs:90-399 | An input the Rust decoder accepts has exactly one syntax tree, and the Go decoder accepts it if and only if that tree has no indefinite length, no major type 7 and no integer below -2^63 |
| CborAgreement.TextsAreUtf8 | crates/csilgen-schema/src/cbor.rs:191-230 | Text checked chunk by chunk is valid UTF-8 as a whole |
| CborAgreement.TagsRecognised | crates/csilgen-schema/src/cbor.rs:370-399 | Tag 4 is a decimal fraction with its exponent first if and only if it is over two integers, tags 0 and 1 are timestamps with their content if and only if they are over text or a number, and any other tag is kept as it is |
| RustCuts.CutInputFails | crates/csilgen-schema/src/cbor.rs:90-362 | Any first part of a rendering that is not all of it is refused, with the error and the byte that belong to the place of the cut |
| RustCuts.TrailingInputFails | crates/csilgen-schema/src/cbor.rs:90-97 | A rendering with more bytes behind it is refused where these start |
| RustSpans.SpansAreFaithful | crates/csilgen-schema/src/cbor.rs:90-291 | On accepted input the root spans everything, every retained node's children are ordered, adjacent and inside it, and decoding just a node's bytes gives that node with its offsets shifted |
| RustSpans.ReachedNode | crates/csilgen-schema/src/cbor.rs:105-140 | The bytes of any retained node's span are the rendering of a tree whose node it is |
| CanonMap.CanonicalMap | transports/go/cbor.go:109-116 | Sorts a copy of the entries by encoded key, stably |
| CanonMap.CanonStablySorts | transports/go/cbor.go:109-116 | The result is in bytewise key order and keeps the entries of each key in their order |
| CanonMap.StableSortUnique | transports/go/cbor.go:109-116 | There is only one list with that property, so any stable sort gives this result |
| CanonMap.OrderDoesNotMatter | transports/go/cbor.go:109-116 | For entries with distinct keys the canonical map and its bytes are the same for every order of the entries |
| CanonMap.SortingKeepsLookups | transports/go/conventions.go:171-182 | A text-key lookup finds in the sorted map what it finds in the unsorted list, duplicate keys included |
| Conventions.FieldsReadBack | transports/go/conventions.go:171-265 | A map of optional named fields, encoded and decoded, yields under each name what was put there, or nothing |
| Conventions.UntagsItself | transports/go/conventions.go:149-168 | A payload wrapped in tag 24 unwraps to itself |
| Rpc.RequestRoundTrip | transports/go/rpc.go:49-100 | Every request with valid UTF-8 strings decodes back to itself, for all ids and optional fields |
| Rpc.ResponseRoundTrip | transports/go/rpc.go:118-167 | Every response decodes back to itself, for all ids, status codes and optional fields |
| Rpc.PushRoundTrip | transports/go/rpc.go:188-227 | Every push decodes back to itself |
| RpcAcceptance.RequestAccepted | transports/go/rpc.go:65-100 | For fields of any kind: a request is accepted if and only if version, service, operation and payload are right, and then as these fields say; a wrong version is reported as such |
| RpcAcceptance.ResponseAccepted | transports/go/rpc.go:136-167 | The same for responses: a missing payload is an empty one, and a large status becomes negative |
| RpcAcceptance.PushAccepted | transports/go/rpc.go:198-227 | The same for pushes |
| RpcAcceptance.MalformedIsReported | transports/go/rpc.go:316-344 | The answer to a frame that is no request reaches the client as status 1 with the description |
| WireLayout.FieldsOnTheWire | transports/go/cbor.go:106-116 | A map envelope is a head with the number of its fields and then these in the order of their names, however they were listed |
| WireLayout.RequestLayout | transports/go/rpc.go:49-63 | The bytes of every request: names, order, heads, tag and optional fields |
| WireLayout.ResponseLayout | transports/go/rpc.go:118-134 | The bytes of every response |
| WireLayout.PushLayout | transports/go/rpc.go:188-196 | The bytes of every push |
| WireLayout.VerboseLayout | transports/go/events.go:81-96 | The bytes of every verbose event |
| WireLayout.CompactEventLayout | transports/go/events.go:98-112 | The bytes of every compact event |
| WireLayout.HelloLayout | transports/go/events.go:221-241 | The bytes of every hello |
| WireLayout.HelloAckLayout | transports/go/events.go:320-329 | The bytes of every hello-ack |
| WireLayout.HeartbeatLayout | transports/go/events.go:353-359 | The bytes of every heartbeat |
| WireLayout.CloseLayout | transports/go/events.go:379-385 | The bytes of every close |
| WireLayout.DatagramLayout | transports/go/datagrams.go:24-32 | The bytes of every array datagram |
| Rpc.RpcClient.Call | transports/go/rpc.go:247-277 | Sends one request with the next id, counts up, and reports the next inbound frame as a response, a status error or a decode error |
| Rpc.RpcServer.ServeOne | transports/go/rpc.go:316-344 | Takes one inbound frame, runs the handler once and sends one response with the request's id; a malformed frame is answered without the handler |
| RpcRuns.EveryRunIsInStep | transports/go/rpc.go:247-344 | In every interleaving the handler has seen the calls once each, in order, with ids 1, 2, 3, ..., and each call got the outcome of its own request, or the status error for a non-zero code |
| RpcRuns.StepKeepsInvariant | transports/go/rpc.go:247-344 | Every enabled move keeps exactly one frame on its way while the client waits and none otherwise |
| RpcRuns.NoRunDeadlocks | transports/go/rpc.go:247-344 | While a client waits, the server or the client can move |
| RpcRuns.CallIsTwoMoves | transports/go/rpc.go:247-277 | What the client method promises is the result of its send and its receive in the system of runs, whatever the server does in between |
| RpcRuns.ServeIsTwoMoves | transports/go/rpc.go:316-344 | What the server method promises is the result of its receive and its send in the system of runs, whatever the client does in between |
| Carrier.LoopbackFrameCarrier.RecvFrame | transports/go/carrier.go:147-154 | Hands out the oldest inbound frame |
| Carrier.LoopbackFrameCarrier.SendFrame | transports/go/carrier.go:140-145 | Appends a copy of the frame to the outbound queue |
| Events.VerboseRoundTrip | transports/go/events.go:81-148 | A verbose event encodes exactly when it has an event name, and decodes back to itself without ordinals |
| Events.CompactRoundTrip | transports/go/events.go:98-191 | A compact event encodes exactly when it has both ordinals, and decodes back to itself without names |
| Events.HelloRoundTrip | transports/go/events.go:221-282 | A hello decodes back to itself, with its lists and optional fields |
| Events.HelloAckRoundTrip | transports/go/events.go:320-345 | A hello-ack decodes back to itself |
| Events.HeartbeatRoundTrip | transports/go/events.go:353-371 | A heartbeat decodes back to itself |
| Events.CloseRoundTrip | transports/go/events.go:379-397 | A close decodes back to itself |
| Events.Negotiate | transports/go/events.go:287-311 | Succeeds exactly when the version is offered and some offered profile is supported, and picks the first such profile |
| Events.EncodeHelloBytes | transports/go/events.go:221-241 | The list-building loops give the encoding of the round trip |
| Events.ForeignItemsSkipped | transports/go/events.go:256-279 | A version that is no number or a profile that is no text is passed over, and the rest of the list counts |
| Events.DecodeHelloBytes | transports/go/events.go:243-282 | The list-reading loops give the decoding of the round trip, errors included |
| Datagrams.DatagramRoundTrip | transports/go/datagrams.go:24-66 | A datagram decodes back to itself for all ordinals and sequence numbers |
| Datagrams.CompactRoundTrip | transports/go/datagrams.go:92-132 | A compact datagram decodes back to itself, with or without epoch |
| Datagrams.CompactReencode | transports/go/datagrams.go:92-132 | Re-encoding a decoded compact datagram gives its bytes back if and only if no reserved flag bit was set |
| Datagrams.SeqTracker.Observe | transports/go/datagrams.go:173-201 | One arrival moves the tracker as the specification of a single step says |
| Datagrams.RestartExactly | transports/go/datagrams.go:173-181 | An arrival is a restart if and only if the one before it had an epoch and this is not it |
| Datagrams.EveryEventAsExpected | transports/go/datagrams.go:173-201 | Every arrival is classified, and its gap counted, as the numbers and epochs of all arrivals so far say |
| Datagrams.TrackerFollowsRun | transports/go/datagrams.go:158-201 | After any list of arrivals the tracker holds the largest of the anchor and the numbers since, and the reported gaps plus one add up to the distance from the anchor |
| Datagrams.LateExactlyWhenNotNewer | transports/go/datagrams.go:173-201 | An arrival is late or duplicate exactly when it is sequenced, starts no new epoch, and is at most that largest number |
| Framing.FramesReadBack | transports/go/carrier.go:42-81 | A stream of frames cut after any byte reads back as the frames whole before the cut; then comes a clean end exactly when the cut is between frames and no read failed, and an error otherwise |
| Framing.WriteLengthPrefixed | transports/go/carrier.go:42-55 | Refuses an oversized frame and writes nothing; otherwise the framed bytes are on the stream, or after a failed write some first part of them and an error |
| Framing.ReadLengthPrefixed | transports/go/carrier.go:59-81 | Reads one frame, a clean end, or an error, also for a failed read, and leaves the stream behind the frame |
| Framing.ReadFull | transports/c/src/carrier.c:16-33 | Fills the buffer from reads of any size; an end before the first byte is no error, a later one and a failed read are; says whether anything came |
| Framing.StreamSend | transports/c/src/carrier.c:35-52 | Sends the big-endian length and the data as the Go writer does, with the same outcome for oversized frames and failed writes |
| Framing.StreamRecv | transports/c/src/carrier.c:54-95 | Gives what one receive makes of the whole remaining stream, whatever sizes the reads come in and whether they end or fail; without memory, an error once the length is known and allowed |
| FrameQueue.Queue.Push | transports/c/src/carrier.c:140-166 | Appends a fresh copy unless an allocation fails, and then leaves the queue as it was |
| FrameQueue.Queue.Compact | transports/c/src/carrier.c:141-144 | Moves the live entries to the front without changing the queue |
| FrameQueue.Queue.Grow | transports/c/src/carrier.c:145-153 | Doubles the capacity, from 8, without changing the queue |
| FrameQueue.Queue.Pop | transports/c/src/carrier.c:168-179 | Hands out the oldest copy once, or nothing |
| FrameQueue.Queue.Dispose | transports/c/src/carrier.c:181-187 | Frees what is left: then every copy ever pushed was either handed out or freed, never both and none twice |
| EditDistance.Levenshtein | crates/csilgen-common/src/error.rs:214-257 | The matrix routine returns the effort of some edit script and no script takes less |
| EditDistance.MatrixDistance | crates/csilgen-common/src/error.rs:214-257 | The nested loops fill in the recursive distance |
| EditDistance.DistanceReached | crates/csilgen-common/src/error.rs:214-257 | Some script of inserts, deletes, replacements and keeps reaches the distance |
| EditDistance.DistanceLeast | crates/csilgen-common/src/error.rs:214-257 | No script beats it |
| EditDistance.ZeroOnlyOnEqual | crates/csilgen-common/src/error.rs:214-257 | The distance is zero exactly on equal strings |
| EditDistance.Symmetric | crates/csilgen-common/src/error.rs:214-257 | The distance is symmetric |
| EditDistance.Triangle | crates/csilgen-common/src/error.rs:214-257 | The distance satisfies the triangle inequality |
| EditDistance.LengthFilterRedundant | crates/csilgen-common/src/error.rs:188-211 | Between ASCII names the length filter removes nothing the distance filter keeps |
| EditDistance.LengthFilterExact | crates/csilgen-common/src/error.rs:188-211 | Over any alphabet, the length filter removes nothing the distance filter keeps if and only if all characters are ASCII |
| EditDistance.SuggestSimilarNames | crates/csilgen-common/src/error.rs:188-211 | Returns up to three of the kept names, in order of distance and then of name |
| Dependency.FileDependencyGraph.BuildFromFiles | crates/csilgen-core/src/dependency.rs:40-80 | Fails exactly when reading some file fails; otherwise the two maps are each other's reverse and hold the known imports |
| Dependency.CycleSearch.Visit | crates/csilgen-core/src/dependency.rs:138-175 | Returns a real cycle, or settles the file with all it reaches and restores path and stack |
| Dependency.HasCircularDependencies | crates/csilgen-core/src/dependency.rs:104-136 | Ends, and returns a path if and only if the imports have a cycle; the path is a closed walk along imports |
| Dependency.NoCycleThrough | crates/csilgen-core/src/dependency.rs:138-175 | No cycle starts at a settled file, so a search that finds nothing has missed nothing |
| Dependency.EveryFileHasAnEntryPoint | crates/csilgen-core/src/dependency.rs:82-88 | Without a cycle every file is reached by imports from some entry point, which no file imports |
| Dependency.EntryPointsExactly | crates/csilgen-core/src/dependency.rs:82-88 | A file is an entry point if and only if no file imports it |
| MergeCode.RuleVector.MergeTypeChoiceExtensions | crates/csilgen-core/src/ast.rs:102-204 | The in-place index surgery leaves exactly the rules of the simple fold |
| MergeCode.FateWithBase | crates/csilgen-core/src/ast.rs:149-176 | What becomes of each rule of a name that has a definition |
| MergeCode.FateOfOrphan | crates/csilgen-core/src/ast.rs:177-197 | What becomes of each extension of a name that has none |
| MergeChoices.MergedByName | crates/csilgen-core/src/ast.rs:102-204 | For every name and mode, the rules it has after merging: a base with all arms behind its own, one gathered rule, or what it had |
| MergeChoices.OrphanCollapses | crates/csilgen-core/src/ast.rs:177-197 | In the final pass a name that is only extended ends as its lone arm or the choice of all its arms |
| MergeChoices.MergeIdempotent | crates/csilgen-core/src/ast.rs:102-204 | Merging twice changes nothing more, with or without collapsing |
| MergeParts.PartwiseMerge | crates/csilgen-core/src/ast.rs:102-204 | When no name is defined twice and only types are extended, merging parts and then the whole gives the one-pass rules up to arm order, and exactly them if and only if the arms are in order |
| MergeParts.PartwiseMergeExact | crates/csilgen-core/src/ast.rs:102-204 | In particular when no base lies in a later part than one of its extensions |
| MergeParts.StagesCanReorderArms | crates/csilgen-core/src/ast.rs:102-204 | For every type and every two different arms, two parts whose staged merge differs from the one-pass merge |
| ChoiceShape.EnumExactly | crates/csilgen-common/src/choice.rs:71-100 | A choice is an enum if and only if it has arms and all carry literals, and every arm is kept under its index |
| ChoiceShape.SameLiteralsSameShape | crates/csilgen-common/src/choice.rs:40-100 | Choices with the same literal at each index have the same class, literals and wire indices |
| ChoiceShape.UnionEncodeOrder | crates/csilgen-common/src/choice.rs:115-119 | Orders the arms' indices with literals first, each group in declaration order, every index once |
| Hoist.FirstFree | crates/csilgen-common/src/hoist.rs:289-297 | The search for a free name ends, with the first candidate whose canonical key is not taken |
| Hoist.KeyByCharacter | crates/csilgen-common/src/hoist.rs:81-92 | Letters count in lower case and digits as they are, in their order, and nothing else counts |
| Hoist.CandidateKeysDiffer | crates/csilgen-common/src/hoist.rs:87-92 | Different numeric suffixes give different canonical keys, which is why the search ends |
| HoistShape.HoistedIsFlat | crates/csilgen-common/src/hoist.rs:56-311 | After hoisting no position of any rule is hoistable, old rules keep name and place, and every new name has a canonical key of its own |
| HoistShape.HoistIdempotent | crates/csilgen-common/src/hoist.rs:56-311 | A second hoist adds nothing and changes nothing |
| HoistShape.ChoiceShapeKept | crates/csilgen-common/src/hoist.rs:213-282 | A rewritten choice keeps its enum or union class, its literals and every arm's wire index |
| HoistInverse.HoistedExpandsBack | crates/csilgen-common/src/hoist.rs:56-311 | Putting the synthesized bodies back, constraint wrappers included, gives a specification back if and only if none of its references names a rule that hoisting made for it |
| HoistInverse.UnmadeNamesExpandBack | crates/csilgen-common/src/hoist.rs:56-311 | In particular when it refers to no name that hoisting could make from its rules' names, declared or not |
| HoistInverse.ExpandsBackExactly | crates/csilgen-common/src/hoist.rs:56-311 | For any rule names and any further names: all specifications with these rules and references come back if and only if none of the further names is one hoisting could make |
| HoistInverse.SynthesizedSeparate | crates/csilgen-common/src/hoist.rs:56-311 | Synthesized rules are composites with names of their own, each an original rule's name, an underscore and more, with a canonical key that no original rule has |
| HoistInverse.ExpandRewrite | crates/csilgen-common/src/hoist.rs:213-282 | One rewritten position expands back to what it was if and only if it referred to no synthesized rule |
| HoistOrigins.NamesTellPositions | crates/csilgen-common/src/hoist.rs:56-311 | Every composite faces a rule of its own, named after the path to it (`_item`, `_key`, `_value`, field, place, arm), with a number only where the names before that were taken; the rules made are these, in order, and everything else stays |
| HoistCode.RewriteByKind | crates/csilgen-common/src/hoist.rs:106-139 | Finding the composite under its constraints and re-wrapping the reference is rewriting under the constraints |
| HoistCode.Hoister.Reserve | crates/csilgen-common/src/hoist.rs:289-297 | The loop claims the name the specification reserves |
| HoistCode.Hoister.RewriteRule | crates/csilgen-common/src/hoist.rs:159-190 | One rule rewritten in place, with the hoister's new state |
| HoistCode.Hoister.RewriteGroup | crates/csilgen-common/src/hoist.rs:192-206 | The entries of a group rewritten one after the other, with the hoister's new state |
| HoistCode.Hoister.RewriteType | crates/csilgen-common/src/hoist.rs:213-237 | One position rewritten, with the hoister's new state |
| HoistCode.Hoister.RewriteChildren | crates/csilgen-common/src/hoist.rs:242-282 | What is nested in a position rewritten, its own shape kept |
| HoistNames.NamesTellOrigin | crates/csilgen-common/src/hoist.rs:144-282 | Every synthesized name starts with the name of an original rule and an underscore |
| HoistCode.HoistInlineComposites | crates/csilgen-common/src/hoist.rs:56-79 | The whole pass returns the rewritten rules followed by the synthesized ones |
| TypeRoundTrip.PrintedParsesBack | crates/csilgen-core/src/parser.rs:254-874 | A printed faithful type expression parses back to itself and leaves the delimiter behind it unread |
| TypeRoundTrip.TypeReadsBack | crates/csilgen-core/src/formatter.rs:131-302 | The same in front of anything that does not continue a type, skipping only trivia |
| TypeRoundTrip.EntriesRoundTrip | crates/csilgen-core/src/parser.rs:586-714 | The entries of a printed group are read, with their annotations as these are read, with or without trailing commas, at any indentation |
| TypeRoundTrip.MembersRoundTrip | crates/csilgen-core/src/parser.rs:476-542 | The members of a printed tuple parse back |
| TypeRoundTrip.ControlsRoundTrip | crates/csilgen-core/src/parser.rs:1013-1155 | Printed control operators parse back: literals, sizes, patterns, bits, and types, which come last |
| TypeRoundTrip.AnnotationsRoundTrip | crates/csilgen-core/src/parser.rs:1362-1372 | The readable annotations printed behind an entry are read one by one, each from its own tokens, and nothing behind them |
| TypeRoundTrip.FaithfulIsReadable | crates/csilgen-core/src/parser.rs:655-714 | What is read of a printed faithful entry is the entry itself, annotations included |
| AnnotationRoundTrip.AnnotationReads | crates/csilgen-core/src/parser.rs:1392-1735 | A printed annotation whose parts lex is read from its own tokens as `ReadAnnotation` says, or it is refused or leaves an operator behind, exactly when it is not readable |
| AnnotationRoundTrip.AnnotationComesBack | crates/csilgen-core/src/formatter.rs:478-543 | Such an annotation comes back if and only if it is faithful: a field path without a value, a faithful condition that is not simple, bounds the lexer reads, literals and texts that lex as themselves, named parameters with names |
| AnnotationRoundTrip.QuoteEndsDescription | crates/csilgen-core/src/parser.rs:1570-1599 | A description whose text ends early, because of a quote in it, is refused, unless a closing parenthesis follows the quote |
| AnnotationRoundTrip.EscapeIsLost | crates/csilgen-core/src/formatter.rs:524-526 | A backslash and an `n` in a description come back as a line break |
| AnnotationRoundTrip.ParametersRead | crates/csilgen-core/src/parser.rs:1678-1756 | Printed parameters are read back, named ones with their names, or refused exactly when one's name is no name |
| ConditionRoundTrip.ConditionReads | crates/csilgen-core/src/parser.rs:1481-1568 | A printed condition is read as the disjunction of conjunctions its marks give, however it was nested, or refused exactly when a comparison in it is missing or has no field path |
| ConditionRoundTrip.ConditionComesBack | crates/csilgen-core/src/formatter.rs:442-476 | That is the condition itself if and only if only `Any` holds `All`, both hold two terms or more, and the comparisons are faithful |
| ConditionRoundTrip.AnyBelowAllIsLost | crates/csilgen-core/src/formatter.rs:442-476 | `a` or `b`, and `c`, is read as `a`, or `b` and `c`, for any three comparisons |
| ConditionRoundTrip.LiteralReads | crates/csilgen-core/src/parser.rs:1924-1992 | Printed literals without floats, nested arrays included, are read with their texts unescaped |
| ConditionRoundTrip.LiteralComesBack | crates/csilgen-core/src/formatter.rs:545-571 | A literal is read as itself if and only if it holds no float and each text in it lexes as itself |
| ConditionRoundTrip.LiteralRoundTrip | crates/csilgen-core/src/parser.rs:1924-1992 | Such a literal parses back from what it prints as |
| TypeRoundTrip.GroupLooksLikeGroup | crates/csilgen-core/src/parser.rs:616-653 | The map lookahead never takes a printed group for a map, whatever maps it holds |
| TypeRoundTrip.MapLooksLikeMap | crates/csilgen-core/src/parser.rs:616-653 | The map lookahead recognises every printed map, whatever its key holds |
| TypeRoundTrip.NoKeyAhead | crates/csilgen-core/src/parser.rs:818-874 | The key lookahead takes no printed unkeyed value for a key |
| TypeRoundTrip.NoOccurrenceAhead | crates/csilgen-core/src/parser.rs:889-905 | The occurrence lookahead sees none in front of a faithful array member |
| TypeLosses.KeptText | crates/csilgen-core/src/formatter.rs:131-440 | Every type expression prints exactly as what is kept of it |
| TypeLosses.KeptComesBack | crates/csilgen-core/src/formatter.rs:131-440 | Where what is kept is faithful, it is what parses back; that is the type expression itself if and only if that one is faithful |
| TypeLosses.ArrayComesBack | crates/csilgen-core/src/formatter.rs:144-151 | An array with a faithful element parses back without its occurrence, so it is itself if and only if it has none |
| TypeLosses.MapComesBack | crates/csilgen-core/src/formatter.rs:152-162 | The same for maps |
| TypeLosses.TupleComesBack | crates/csilgen-core/src/formatter.rs:163-176 | A tuple parses back with bare keys and values only, as an array if that leaves one unkeyed member; it is itself if and only if nothing was dropped and it is not that tuple |
| TypeLosses.ChoiceComesBack | crates/csilgen-core/src/formatter.rs:180-187 | A choice parses back with the arms of nested choices spliced in, in every position; it is itself if and only if no arm is a choice |
| TypeLosses.ConstrainedChoiceComesBack | crates/csilgen-core/src/formatter.rs:233-302 | Operators on a choice come back on its last arm |
| TypeStops.ArrayIsRead | crates/csilgen-core/src/parser.rs:514-542 | A printed array with a faithful element is read if and only if the element is a literal or does not start with an integer |
| TypeStops.TupleIsRead | crates/csilgen-core/src/parser.rs:514-542 | A printed tuple is read if and only if no unkeyed member starts with an integer and goes on |
| TypeStops.MapIsRead | crates/csilgen-core/src/parser.rs:544-575 | A printed map is read if and only if its key does not start with an integer |
| TypeStops.GroupIsRead | crates/csilgen-core/src/parser.rs:586-714 | A printed group is read if and only if every entry, as far as it is kept, is one the parser knows, then with the annotations that are read, and comes back if and only if every entry is faithful |
| TypeSpellings.Parenthesized | crates/csilgen-core/src/parser.rs:441-456 | Parentheses around a type change nothing but leave what follows them alone |
| TypeSpellings.GroupInParens | crates/csilgen-core/src/parser.rs:441-456 | Keyed entries in parentheses are read as the group they would be in braces |
| TypeSpellings.OptionalSpellings | crates/csilgen-core/src/parser.rs:655-714 | A question mark before the key, behind the key or behind the value gives the same optional field, with the annotations read from their tokens behind it |
| TypeSpellings.AnnotationsAround | crates/csilgen-core/src/parser.rs:655-714 | Annotations in front of an entry and behind it, read from their tokens, are all its own, in order |
| TypeSpellings.EitherMarkSeparates | crates/csilgen-core/src/parser.rs:254-305 | Arms with `/` or `//` between them, in any mixture, are the choice of these arms |
| TypeSpellings.OperandSpellings | crates/csilgen-core/src/parser.rs:1013-1155 | A lone size in parentheses, a negative one, and bits given as text |
| TypeSpellings.BracketedKey | crates/csilgen-core/src/parser.rs:716-762 | An array or tuple in front of a colon is a type-shaped key |
| TypeCounts.TupleCountsRead | crates/csilgen-core/src/parser.rs:476-542 | Members with or without an occurrence in front and a `?` behind the key are read with it, the one in front first, as a tuple or as the array of a lone unkeyed one |
| TypeCounts.ArrayCountReads | crates/csilgen-core/src/parser.rs:498-511 | The occurrence in front of an array's element is the array's |
| TypeCounts.MapCountReads | crates/csilgen-core/src/parser.rs:544-575 | The occurrence in front of a map's key is the map's |
| TypeSpellings.OccurrenceRoundTrip | crates/csilgen-core/src/parser.rs:764-816 | Every occurrence as printed reads back, a missing lower bound as zero |
| TypeSpellings.RangesMean | crates/csilgen-core/src/parser.rs:311-357 | A range parses to a type whose bounds hold of exactly the numbers of the range, integers unless a bound is a float |
| TypeSpellings.RangeComesBack | crates/csilgen-core/src/formatter.rs:188-202 | A printed range node parses to the number type with its bounds, the end included, and to an error without bounds |
| TypeScan.PassType | crates/csilgen-core/src/parser.rs:616-653 | Printed types are balanced: both lookahead scans come out of one as deep as they went in |
| TypeAppend.TypeAppends | crates/csilgen-core/src/formatter.rs:131-302 | Printing only appends: what follows does not change a type's own tokens |
| TypeLayout.LaidOutExactly | crates/csilgen-core/src/formatter.rs:327-440 | Every entry stands on a line of its own, one step further in than its brace, and the closing brace as far in as the line of the opening one, if and only if groups behind `.and` and `.within` are at the margin |
| TypeLayout.PlainTypesFit | crates/csilgen-core/src/formatter.rs:131-302 | Types without these operators always are laid out so |
| TypeLayout.LastEntryEnds | crates/csilgen-core/src/formatter.rs:424-431 | The last entry has a comma if and only if the configuration asks for one, and its line ends |
| ParserCode.Parser.ParseTypeExpression | crates/csilgen-core/src/parser.rs:254-305 | The cursor-moving parser gives the tree, error and remaining tokens of the specification |
| ParserCode.Parser.ParsePrimaryType | crates/csilgen-core/src/parser.rs:359-474 | The same for one type with its control operators |
| ParserCode.Parser.ParseArrayType | crates/csilgen-core/src/parser.rs:476-511 | The same for arrays and tuples, members collected in a loop |
| ParserCode.Parser.ParseMapType | crates/csilgen-core/src/parser.rs:544-575 | The same for maps |
| ParserCode.Parser.ParseGroupEntries | crates/csilgen-core/src/parser.rs:586-614 | The same for group entries, collected in a loop |
| ParserCode.Parser.ParseGroupEntry | crates/csilgen-core/src/parser.rs:655-714 | The same for one entry: annotations, question marks, key and value in every place they may stand |
| ParserCode.Parser.ParseMetadataAnnotations | crates/csilgen-core/src/parser.rs:1362-1372 | The annotation loop collects what the specification reads, or stops at its error |
| ParserCode.Parser.ParseSingleAnnotation | crates/csilgen-core/src/parser.rs:1392-1449 | The same for one annotation of any kind |
| ParserCode.Parser.ParseDependsOnAnnotation | crates/csilgen-core/src/parser.rs:1451-1478 | The same for a dependency, in its simple or its full form |
| ParserCode.Parser.ParseDependsCondition | crates/csilgen-core/src/parser.rs:1480-1497 | The loop over `|` collects the terms of the specification |
| ParserCode.Parser.ParseDependsAnd | crates/csilgen-core/src/parser.rs:1499-1516 | The loop over `&` collects the comparisons of the specification |
| ParserCode.Parser.ParseDependsCompare | crates/csilgen-core/src/parser.rs:1534-1568 | A field path, gathered in a loop, with or without an operator and a value |
| ParserCode.Parser.ParseCustomAnnotation | crates/csilgen-core/src/parser.rs:1666-1676 | A custom annotation, with or without parentheses |
| ParserCode.Parser.ParseMetadataParameters | crates/csilgen-core/src/parser.rs:1678-1705 | The parameter loop collects what the specification reads |
| ParserCode.Parser.CheckForNamedParameter | crates/csilgen-core/src/parser.rs:1737-1757 | The index scan decides what the specification decides |
| ParserCode.Parser.ParseGroupKey | crates/csilgen-core/src/parser.rs:716-762 | The same for entry keys |
| ParserCode.Parser.ParseOccurrence | crates/csilgen-core/src/parser.rs:764-816 | The same for occurrences |
| ParserCode.Parser.CheckForMapSyntax | crates/csilgen-core/src/parser.rs:616-653 | The index scan with three depth counters decides what the specification decides |
| ParserCode.Parser.CheckForGroupKey | crates/csilgen-core/src/parser.rs:818-874 | The index scan decides what the specification decides |
| ParserCode.Parser.ArrayMemberStartsWithOccurrence | crates/csilgen-core/src/parser.rs:889-905 | The index scan decides what the specification decides |
| ParserCode.Parser.ParseControlOperators | crates/csilgen-core/src/parser.rs:1013-1155 | The operator loop collects what the specification reads |
| PrinterCode.Formatter.FormatType | crates/csilgen-core/src/formatter.rs:131-302 | Appends the tokens of a type expression to the shared output |
| PrinterCode.Formatter.FormatGroup | crates/csilgen-core/src/formatter.rs:327-440 | Appends the tokens of a group, indented, with its trailing comma rule |
| PrinterCode.Formatter.FormatAnnotation | crates/csilgen-core/src/formatter.rs:478-543 | Appends the tokens of a field annotation of any kind |
| PrinterCode.Formatter.FormatDependsCondition | crates/csilgen-core/src/formatter.rs:442-463 | Appends the tokens of a condition |
| PrinterCode.Formatter.FormatJoinedConditions | crates/csilgen-core/src/formatter.rs:465-476 | Appends the terms of a condition with the mark between them |
| PrinterCode.FormatTypeExpression | crates/csilgen-core/src/formatter.rs:131-302 | The text of a type expression on its own is what the round trip starts from |

## Left out

- TypeLayout.LaidOutExactly: for indentations of at least one space.
- Error texts: errors are told apart by kind, offset and offending token; their wording is a
  parameter where it reaches the wire and absent otherwise.
- Streams: a failed read or write is told from success, not what the operating system says about it;
  UDP, the datagram carriers and their size checks are not modelled.
- Machine limits beyond the wire's: `int` and `usize` are 64 bits wide, sizes in `calloc` and
  `realloc` do not overflow, lengths of values in memory fit a signed 64-bit integer, and the 32-bit
  suffix counter of the name search does not overflow.
- Library sorts: the stable sorts of Go and Rust are written as insertions; `CanonMap` shows that
  any stable sort gives the same map.
- Hash tables: the order in which the cycle search takes its start files is arbitrary.
- Floats: kept as bits; the half-precision conversion to a 64-bit float is left out.
- `allow_break` of the Rust decoder's value reader is false at every call and is not a parameter
  here; its second depth check in the chunk loops can never fail and is left out.
- Dependency.FileDependencyGraph.BuildFromFiles: reading a file and resolving its import paths is a
  parameter, because both are I/O.
- Service signatures, and the types inside type-shaped group keys, are copied by hoisting and so
  opaque to it here too.
- TypeRoundTrip.PrintedParsesBack: covers the trees `Faithful` describes. `TypeLosses` and `TypeStops` cover
  trees outside it whose parts are faithful; what nested refused parts do to the types around them, an
  arm before the last that ends in `.and` or `.within`, a list literal as a type and a choice without
  arms are not described.
- TypeStops.GroupIsRead: a number behind an integer key joins it; where the joined number is too large
  for the lexer, the entry is not covered. Nor is an entry with an annotation whose parts do not lex.
- AnnotationRoundTrip.AnnotationReads: covers the annotations whose parts lex as such: no float, no text
  that ends early, no custom name that is one of the known words or not made of letters, digits, `-` and
  `_`, and no field or parameter name with other characters than these and dots.
- ParserCode.Parser.ParseGroupEntry: entries have no documentation comments here, as their tokens are left
  out.
- Characters: the parser and the formatter are modelled over tokens. Names, text literals, sockets and
  numbers that do not lex as such are tokens of their own (`Tokens.Other`), never names; positions are
  left out, and a float is taken to print as a float.
- Documentation comments and the rule level of the grammar have no tokens here.
- The resolver, the validator, descriptors, diagnostics, the linter and the code generators, and the
  transports in the other languages.
