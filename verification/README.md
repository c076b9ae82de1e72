# A verified model of the Kalkan Go wrapper

The repository wraps the native KalkanCrypt SDK. This project models the parts of it that are Go code of its own and
proves what they are for:

- **SOAP signature structure** (`XmlTokens`, `SoapScan`, `SoapPolicy`, `SoapProof`, `SoapMeaning`). One pass over the
  tokens of a document, with an ancestor stack, ten counters and a depth-marker automaton, decides a property of the
  document tree, which is spelled out in names and attributes.
- **Isolated worker** (`IsolatedProtocol`, `IsolatedSafety`, `IsolatedOutcomes`). Parent, worker, both pipes, the process
  waiter and the shutdown goroutine form one state machine; order, and what each call makes of its execution, are stated
  for every state of every interleaving.
- **Its wire format** (`Wire`, `Codec`, `Schema`, `SchemaProof`, `SchemaSize`, `RecordWriters`, `RecordReaders`, `Records`,
  `DecoderSafety`, `Framing`, `FramingProof`, `FrameLimits`, `PipeIO`). Sticky-error encoders and decoders, the named
  fields that every record encoder writes and every record decoder reads, frames and streams: what comes back, what is
  accepted, and what is done with arbitrary bytes.
- **Its errors** (`ErrorTree`, `ErrorTyped`, `ErrorProof`, `ErrorSize`, `ErrorCodec`). Error trees cross the pipe with their
  answers and typed errors intact.
- **Root client** (`RootClient`, `RootSafety`, `RootOutcomes`, `TrustedCertificates`). Call gate, close-once, PEM cache and
  the restoration of native trust after key-store loads, again over every interleaving.
- **Native output buffers** (`OutputBuffers`, `RetryLoops`, `MultiOutput`, `OutputEstimate`, `ProcessSlot`). Retry
  loops against an arbitrary native side, saturating estimates, and the process-wide client slot.
- **GOST arithmetic** (`ModularArithmetic`, `AdditiveGroup`, `Gost3410`, `GostProof`, `GostRfc`, `GostKeys`, `SmallCurve`,
  `Endian`, `Streebog`, `StreebogProof`, `StreebogHash`, `Rfc6986`). Signature verification and the streaming hash, each
  against the text of its RFC.
- **Byte-exact editing** (`XmlTag`, `XmlScanView`, `XmlUtf16`, `XmlEdit`, `XmlCertificate`, `Pem`). Removing Id
  attributes from a document in any encoding, and the PEM encoder.

`dafny verify dfyconfig.toml` checks everything. Nothing here executes the Go program.

How to read it. Code that updates things in place is imperative here too: codec objects, the pipe, the hash, big
integers, the offset mappers, the slot and the retry loops are classes and loops. Each such method is proved equal to
a function on values, and the theorems are about those functions. The two concurrent clients are state machines whose
actions are the atomic sections of the goroutines. Native calls, the XML decoder, the pipe's failures and the clock are
parameters or nondeterministic choices.

Five results differ from what one might expect of the code:

- A zero time outside UTC loses its zone on the wire, because the encoder writes a single flag for a zero instant.
  `Records.ZeroInstantLosesItsZone` is the concrete time; every round trip is stated as an equivalence with
  `Records.Faithful`, which asks that zero instants are UTC and that sources are of a form the constructors build.
- The hash counts bits in 64 bits where section 9 of RFC 6986 has 512. `StreebogProof.StreamingHash` gives what is
  computed for every message, with equality with the RFC below 2^64 bits; `StreebogProof.LengthBlockDiffers` says that
  from there on the length block is another one, and `StreebogProof.SumLengthBlock` says so of every sequence of writes.
- Signature verification reports an infinite multiple of the public key as an error and not as an invalid signature.
  For keys that pass the subgroup check, as the certificate check demands, this never happens (`GostProof.AdmittedKeyAnswers`);
  it can happen for a key exactly if some multiple below q sends the key to infinity (`GostProof.KeyFailsExactly`), and
  `SmallCurve.FailingKey` is a concrete input.
- Removing Ids from signature tags leaves some in place. `XmlCertificate.IdSurvivesExactly` says when the edit removes
  one: the decoder finished, no signature tag has duplicate attributes, and the tag does not break off, at an attribute
  without a value for instance, before its first complete Id attribute. `XmlCertificate.SurvivingId` is a well-formed
  signature element, as the lenient decoder reads it, that keeps its Id.
- A SOAP body ID that XML admits as a name is refused if it begins or ends with the Ogham space mark U+1680, which names
  may contain and Go trims as white space. `SoapMeaning.ValidIDExactly` is the exact condition and
  `SoapMeaning.OghamNameRefused` a concrete name.

## Model

| member | source | states |
|---|---|---|
| `SoapScan.ValidateUniqueXMLAttributes` | xml.go:1015-1042 | answers whether attribute names are pairwise distinct, both by linear search and by seen-set |
| `SoapScan.CollectSOAPVerificationState` | xml.go:611-669 | the token loop over mutable counters, depth markers and stack computes the scan function, with every early rejection |
| `SoapScan.ValidateXMLVerificationStructure` | xml.go:453-512 | the whole validation, with the check of the expected ID and the retry of the root scan with the lenient decoder, computes the function that the theorems below decide |
| `SoapProof.RunFlatten` | xml.go:611-669 | scanning the flattened tokens of a forest is a recursion over the forest, for any tokens that follow |
| `SoapProof.RunCounters` | xml.go:837-875 | an accepting scan restores its stack, and its counters have seen every element exactly once with its true ancestors |
| `SoapProof.InsideReference` | xml.go:685-835 | between the tags of the Body reference the depth-marker automaton ends acceptably exactly when the children obey the transform policy |
| `SoapProof.ScanOutside` | xml.go:671-683 | outside any reference the automaton accepts exactly the admissible forests and returns to its idle state |
| `SoapProof.CountersDecide` | xml.go:555-593 | the final comparison of ten counters is the statement that each required element occurs exactly once where it must |
| `SoapProof.CollectDecides` | xml.go:611-669 | behind the root, the scan ends well exactly for well-structured forests |
| `SoapProof.ScanDecidesSignedEnvelope` | xml.go:453-512 | for every balanced forest and every valid expected ID, validation accepts if and only if the tree property `SignedEnvelope` holds |
| `SoapProof.OnlyTheBodyCarriesTheID` | xml.go:909-944 | in an accepted document exactly one attribute carries the expected ID, it is the wsu:Id of the only Body, and that Body is the child of the root envelope |
| `SoapProof.UnfinishedIsRejected` | xml.go:611-669 | a document that the strict decoder cannot finish is never accepted with an expected ID |
| `SoapProof.WithoutExpectedID` | xml.go:453-529 | without an expected ID, whatever the two decoders yield and however they end, exactly the documents pass whose root, the strict decoder's or else the lenient one's, can be found and is no SOAP envelope |
| `SoapMeaning.ValidIDExactly` | xml.go:295-357 | an expected ID passes its check exactly if it is an NCName, stated by the characters that names admit and may begin with, and no Ogham space mark is at its ends |
| `SoapMeaning.InvalidIDs` | xml.go:295-310 | the invalid IDs are exactly those that are blank, have outer white space or are no NCName |
| `SoapMeaning.OghamNameRefused` | xml.go:295-310 | a concrete two-character NCName that is refused as an expected ID |
| `SoapMeaning.InvalidIDRejected` | xml.go:453-458 | whatever the two decoders yield, a nonempty expected ID that is not valid is rejected, for the reason that concerns the ID |
| `SoapMeaning.AcceptsExactly` | xml.go:453-512 | for every nonempty expected ID and every balanced document: accepted if and only if the ID is valid and, in words of names and attributes alone, there is one root, an Envelope, one Signature, one SignedInfo in it, one Body under the root whose wsu:Id is the only declaration of the ID, and one reference to it under that SignedInfo which obeys the transform policy |
| `IsolatedSafety.InitInv` | isolated/process.go:104-138 | the state in which the process starts, gate taken by Open, satisfies the invariant |
| `IsolatedSafety.StepInv` | isolated/client.go:155-256 | every one of 26 actions of parent, worker, waiter and shutdown keeps the invariant on gate, numbering, order and both pipes |
| `IsolatedSafety.EveryStateSafe` | isolated/worker.go:124-226 | in every state of every run: gate tokens plus holders is one, request IDs are 1, 2, 3, … without gaps, Open first, Close once and last, execution and answers in order and matching, no unexpected request, nothing after an execution that asked to quit, one close result |
| `IsolatedSafety.TooLargeKeeps` | isolated/client.go:155-215 | a request whose metadata is too large was never written and gives its number back, so numbering stays without gaps |
| `IsolatedSafety.ReceiveKeeps` | isolated/client.go:155-256 | the response that a caller reads answers that caller's request; the mismatch branch is unreachable |
| `IsolatedSafety.RunSettles` | isolated/client.go:78-94 | along every run the terminal error and the close result are written once, the histories only grow, and quitting is final |
| `IsolatedSafety.NothingAfterClose` | isolated/client.go:368-427 | once the Close request is on the pipe, no request ever follows |
| `IsolatedOutcomes.EveryCallAccounted` | isolated/worker.go:259-331 | in every state of every run: every request has its own sender, who reads its response; answer i carries the failure of execution i, or a failure after a fallback; a call is over with success exactly if its execution succeeded, its answer went out unreplaced and it waited for and decoded it; the client is handed out exactly if Open did so; an unusable answer ends the client; quit is asked for exactly after Close, a failed Open or a protocol error; CloseContext reports no error only after such a Close and the end of the worker |
| `IsolatedOutcomes.ReadOutcome` | isolated/client.go:192-256 | the reader of a response reports success exactly if it was not cancelled, the answer is no error and its payload decodes, and stops the client on a protocol error, an unreadable payload or a failed Open or Close |
| `IsolatedOutcomes.NeverOutOfOrder` | isolated/worker.go:265-303 | whatever is executed first is Open and finds no session, and everything later finds the session that Open created |
| `IsolatedOutcomes.TerminalExactly` | isolated/client.go:78-121 | in every state of every run the terminal error is the cause of the first step that ends the client, and there is none if no such step was taken |
| `IsolatedOutcomes.OnlyCloseFollows` | isolated/client.go:59-153 | once the client refuses work and no exchange is between its check and its request, nothing but Close is ever sent |
| `IsolatedOutcomes.NobodyBegins` | isolated/client.go:59-153 | a client that refuses work goes on refusing, and no call begins any more |
| `Codec.PayloadEncoder.Reserve` | isolated/protocol.go:62-73 | metadata beyond the limit sets the sticky error and appends nothing |
| `Codec.PayloadEncoder.Length` | isolated/protocol.go:133-147 | a collection length is written plus one, zero for nil |
| `Codec.PayloadEncoder.Append` | isolated/protocol.go:272-294 | blocks get one-based references under the count and size limits |
| `Codec.PayloadEncoder.ByteField` | isolated/protocol.go:296-309 | nil, empty and non-empty bytes are written distinguishably |
| `Codec.PayloadDecoder.TakeBytes` | isolated/protocol.go:154-168 | the reader advances by what it takes, or sets its sticky error |
| `Codec.PayloadDecoder.Length` | isolated/protocol.go:234-247 | a length is accepted only if that many items of the minimum size can still follow |
| `Codec.PayloadDecoder.ByteField` | isolated/protocol.go:337-354 | a block reference is resolved or rejected |
| `SchemaProof.EncodeGrew` | isolated/protocol_results.go:65-81 | a value that the encoder accepts only extends metadata and blocks, by at least the layout's minimum size |
| `SchemaProof.DecodeEncoded` | isolated/protocol_operations.go:229-533 | for every layout, value, later blocks and later metadata, decoding by that layout returns the value and leaves exactly what followed |
| `SchemaSize.EncodeTakes` | isolated/protocol.go:62-147 | for every layout with true minima and every value: the encoder accepts it exactly if its metadata size, its blocks and their total size fit and no byte field exceeds the input limit, and then writes exactly that many bytes and those blocks |
| `SchemaSize.AcceptedExactly` | isolated/protocol.go:272-309 | from an empty encoder: exactly 64 KiB of metadata and 1024 blocks fit |
| `DecoderSafety.DecodeTyped` | isolated/protocol.go:154-256 | whatever bytes and blocks arrive, the decoder yields values of the layout's types, with 64-bit numbers and valid times |
| `DecoderSafety.PrimitivesExact` | isolated/protocol.go:196-247 | a flag is accepted only as 0 or 1, a block reference only if the block exists, a length only if that many minimal items fit into what is left |
| `DecoderSafety.DecodeLocal` | isolated/protocol.go:154-256 | what decodes, decodes to the same value when more bytes follow, and those are left over |
| `DecoderSafety.OtherLengthsRejected` | isolated/protocol.go:249-259 | the metadata of an accepted value is rejected with anything behind it and in every shorter piece |
| `Records.RequestsAgree` | isolated/protocol_operations.go:271-533 | for every operation, the fields that the request decoder reads are those that the encoder writes: same names, same types, same order |
| `Records.ResultsAgree` | isolated/protocol_results.go:197-323 | the same for every result |
| `Records.ConfigAgrees` | isolated/protocol_config.go:40-98 | the same for the configuration with its nested records, and for observations |
| `Records.LayoutsSized` | isolated/protocol_results.go:144-323 | every minimum item size in every request and result decoder is a true lower bound of what its encoder writes |
| `Records.ConfigSized` | isolated/protocol_config.go:64-87 | the same for the configuration record |
| `Records.ObservationsSized` | isolated/protocol.go:586-602 | the same for observations: an item takes at least 41 bytes |
| `Records.PayloadRoundTrip` | isolated/protocol_operations.go:199-213 | for every value, decoding succeeds without trailing metadata, also when other blocks were appended in transit, except where nothing is expected and a block follows; it returns the value exactly when it is faithful |
| `Records.NullPayload` | isolated/protocol_results.go:107-112 | the result of a void operation, and the request without arguments, decode from the null payload and from no other |
| `Records.RequestRoundTrip` | isolated/protocol_operations.go:77-197 | every request the encoder accepts comes back from its own decoder as itself exactly when it is faithful |
| `Records.ResultRoundTrip` | isolated/protocol_results.go:11-116 | the same for every result |
| `Records.ConfigRoundTrip` | isolated/protocol_config.go:40-87 | the same for the configuration |
| `Records.RequestFieldArrives` | isolated/protocol_operations.go:271-533 | whatever the other fields are, every field of a request is stored by the decoder under the name under which the encoder took it, as the image of its value, and as that value exactly when the field is faithful |
| `Records.ResultFieldArrives` | isolated/protocol_results.go:197-323 | the same for the fields of a result |
| `Records.ConfigFieldArrives` | isolated/protocol_config.go:40-87 | every field of the configuration arrives under its name as itself |
| `Records.ImageIsValue` | isolated/protocol_results.go:161-195 | what arrives is the value itself exactly when it is faithful |
| `Records.ZeroInstantLosesItsZone` | isolated/protocol_results.go:161-174 | a concrete zero time with a zone arrives as the UTC zero time |
| `ErrorCodec.PutError` | isolated/protocol_errors.go:15-75 | the recursive encoder writes the error tree's encoding, or sets the sticky error at depth 32 |
| `ErrorCodec.PutKind` | isolated/protocol_errors.go:15-75 | the three typed errors are recognized and their fields written |
| `ErrorCodec.SentinelBits` | isolated/protocol_errors.go:15-75 | bit i of the mask says whether errors.Is holds for sentinel i |
| `ErrorProof.ErrorDecoded` | isolated/protocol_errors.go:77-132 | decoding an encoded tree yields its remote image and leaves exactly what followed |
| `ErrorProof.AcceptedDepth` | isolated/protocol_errors.go:15-75 | the encoder accepts only trees less than 32 levels deep |
| `ErrorSize.ErrorTakes` | isolated/protocol_errors.go:15-75 | the encoder accepts an error exactly if its deepest node is less than 32 levels down and its metadata and texts fit, and then takes exactly that room |
| `ErrorTyped.RemoteAs` | isolated/protocol_errors.go:77-143 | for each of the three types, the first error in pre-order that errors.As finds in a tree is found in its remote image with every field, but for the zone of a zero revocation time |
| `ErrorTyped.TypedCodes` | ckalkan/errors.go:86-89 | the limit error stands for the code of a small buffer, the revocation error for the code of a revoked certificate, and for no other |
| `DecoderSafety.ErrorSafe` | isolated/protocol_errors.go:77-132 | whatever arrives, a decoded tree holds valid numbers and times and is bounded in depth by the limit |
| `ErrorProof.RemoteAnswers` | isolated/protocol_errors.go:134-154 | an error and its remote image give the same answer for every sentinel, the same first native code in pre-order and the same answer for every native code |
| `ErrorProof.ErrorTransport` | isolated/protocol_errors.go:15-143 | end to end, for every error tree that the encoder accepts: same text, same answers, and the typed errors that errors.As finds, field by field |
| `PipeIO.WriteAll` | isolated/protocol.go:618-633 | short writes are continued; the pipe gets a prefix of the data, all of it on success |
| `PipeIO.WriteMessage` | isolated/protocol.go:491-568 | a refused message writes no byte; otherwise the pipe carries a prefix of the message's one frame, all of it on success |
| `PipeIO.PutValue` | isolated/protocol_operations.go:271-533 | the field-by-field encoder computes the layout's encoding |
| `PipeIO.ReadBlock` | isolated/protocol.go:450-489 | reading in doubling chunks yields exactly the announced bytes, or fails when the pipe ends early |
| `PipeIO.ReceiveMessage` | isolated/protocol.go:360-444 | reading from the pipe yields what the frame format says and leaves the rest of the pipe |
| `FramingProof.FrameRoundTrip` | isolated/protocol.go:360-444 | reading a frame followed by anything yields the message and exactly that anything; payload blocks are a prefix, and all of the blocks when there is no error |
| `FramingProof.StreamRoundTrip` | isolated/protocol.go:491-568 | any sequence of accepted messages on one stream is read back one by one |
| `FramingProof.DetailsBack` | isolated/protocol.go:570-602 | observations and error come back from the details of a frame, and anything behind them makes it malformed |
| `FramingProof.PayloadThroughFrame` | isolated/protocol.go:421-436 | a payload decodes at the far end of a frame as it would have at home, whatever error texts follow its blocks; where nothing is expected, error texts make it malformed |
| `FrameLimits.FrameExactly` | isolated/protocol.go:491-568 | a message becomes a frame exactly if its error is at most 32 levels deep, it has at most 1024 blocks, its header takes at most 64 KiB and the frame size fits 64 bits |
| `FrameLimits.ReadConsumes` | isolated/protocol.go:360-444 | the reader consumes the size word and exactly as many bytes as it announces |
| `FrameLimits.PrefixMalformed` | isolated/protocol.go:360-444 | every nonempty proper prefix of a frame that can be read is malformed |
| `FrameLimits.FrameIsLocal` | isolated/protocol.go:360-444 | what follows a frame does not change how it is read |
| `TrustedCertificates.TrustedList.Remember` | certificate.go:83-93 | a certificate is appended unless an equal one is retained |
| `TrustedCertificates.RetainedOrder` | certificate.go:83-93 | what is retained is exactly what was loaded, in the order of first loads |
| `TrustedCertificates.NoDuplicates` | certificate.go:83-93 | nothing is retained twice |
| `RootSafety.InitInv` | client.go:350-350 | the freshly built client satisfies the invariant, and so does one without a library; the calls with which Open sets it up are ordinary steps |
| `RootSafety.StepInv` | client.go:129-298 | each of 26 actions of callers, CloseContext callers and the close goroutine keeps the invariant |
| `RootSafety.EveryStateSafe` | client.go:446-495 | in every state of every run: gate tokens plus holders is one, native calls never overlap, native Close begins at most once and nothing begins after it, CloseContext returns only the saved result, done leaves cache and list empty, cached and used PEM is the encoder's; until the close, every certificate whose native load succeeded is retained once its caller is past the gate, in the order of first loads, and after a successful key-store load the native store trusts all of them |
| `RootSafety.RunSettles` | client.go:174-231 | along every run the close result is written once, done stays closed and histories only grow |
| `RootSafety.NothingAfterDone` | client.go:174-214 | after done, cache and retained list are empty in every later state and the log of native calls never changes again |
| `RootSafety.LateCloseReturns` | client.go:216-231 | whoever calls CloseContext after done has, in every later state, returned the saved result or can do nothing else, even with a cancelled context |
| `RootSafety.TrustKept` | certificate.go:262-298 | a successful native load is owed to the retained list from the moment it returns; a key-store load that clears native trust leaves the list as it was and claims trust only after restoration |
| `RootSafety.ReloadKept` | certificate.go:98-115 | restoration goes through the retained list in order; a failed step loses nothing |
| `RootSafety.CacheHoldsPem` | certificate_info.go:378-394 | in every run a cached entry is the PEM document of its certificate and decodes back to it |
| `RootOutcomes.EveryCallAccounted` | client.go:446-495 | in every state of every run: a call that is over succeeded exactly if it called the library and every native call it made succeeded, restorations included; a caller whose key-store load succeeded leaves with all loaded certificates trusted; the cache holds the certificate encoded last, and none is encoded twice in a row |
| `RootOutcomes.NoEntryWhileClosing` | client.go:233-285 | from the moment that closing begins, no caller that is not at the gate ever comes to it, and none that is not yet past the second state check ever gets past it |
| `OutputBuffers.Limit` | ckalkan/buffer.go:264-270 | the limit is positive, at most the native maximum, a configured maximum in that range is respected, and 64 MiB stand for none |
| `OutputBuffers.BoundedCapacity` | ckalkan/buffer.go:233-242 | an initial capacity is in 1..limit, and a request in that range is respected |
| `OutputBuffers.Grow` | ckalkan/buffer.go:272-290 | below the limit a capacity at least doubles or reaches the limit and covers the request; at the limit it stays |
| `OutputBuffers.MinimumGrowth` | ckalkan/buffer.go:315-335 | names a size that the current capacity cannot hold |
| `OutputBuffers.DoublingsLogarithmic` | ckalkan/buffer.go:272-290 | the number of growth steps is the logarithm of limit over capacity, rounded up |
| `OutputBuffers.AtMost31` | ckalkan/buffer.go:272-290 | under the native maximum no capacity grows more than 31 times |
| `OutputBuffers.NextOutputBufferCapacities` | ckalkan/buffer.go:125-203 | for any number of outputs: when it succeeds, what every next capacity is, when a length is rejected, and that a limit error asks for more than the limit |
| `OutputBuffers.GrowsExactly` | ckalkan/buffer.go:108-203 | of any number of outputs exactly those grow that ask, or all in use when a buffer is too small and none asks, and each to the larger of twice its capacity and what it wants, within the limit |
| `RetryLoops.GrowReported` | ckalkan/buffer.go:213-217 | says whether the capacity changed: never at or above the limit, always for a positive capacity below it, which spends one of the remaining doublings |
| `RetryLoops.CallList` | ckalkan/buffer.go:12-49 | against any native side: the first size is the configured one or 1 MiB, offered sizes are in 1..limit and double from call to call, logarithmically many calls, every earlier call asked for another, and what each result means |
| `RetryLoops.CallBuffer` | ckalkan/buffer.go:53-102 | the same for a length-aware output from the requested first size; success returns data of exactly the reported length within the offered size |
| `MultiOutput.RetrySelects` | ckalkan/buffer.go:125-160 | a decision to retry always selects some output to grow |
| `MultiOutput.PlatformPolicy` | ckalkan/output_policy_linux.go:5-25 | the last-error slot is read exactly on Linux; data is returned exactly for attached CMS and only from an active buffer; a saturated buffer is retried exactly on Linux where data is returned, with the signature size as its hint |
| `MultiOutput.NextVerifyDataCapacities` | ckalkan/verify.go:185-211 | for any reply: rejected exactly for a negative active length; from capacities within the limit none shrinks, one grows, an inactive one stays and reported lengths are covered; a limit error after a retry decision means that a report exceeds the limit or all that ask are at the limit |
| `MultiOutput.VerifyData` | ckalkan/verify.go:11-131 | on both platforms and against any native side: the first capacities, why each further call was made, growth over the whole run with three outputs, and what each result means; on Linux a success with a nonzero last error always ends with that error |
| `MultiOutput.VerifyCallBound` | ckalkan/verify.go:29-131 | at most 93 retries |
| `MultiOutput.NextValidateCapacities` | ckalkan/x509.go:145-165 | as for verification and for any reply, with the OCSP buffer counted only when it is requested |
| `MultiOutput.ValidateCertificate` | ckalkan/x509.go:100-195 | against any native side: the same over a whole run with two outputs |
| `MultiOutput.ValidateCallBound` | ckalkan/x509.go:119-190 | at most 62 retries |
| `MultiOutput.BeforeNUL` | internal/nativebytes/text.go:6-17 | native text is the longest prefix without a zero byte |
| `OutputEstimate.SaturatingAdd` | ckalkan/output_estimate.go:125-132 | equals the exact sum up to saturation, without overflow of 64-bit integers |
| `OutputEstimate.SaturatingMultiply` | ckalkan/output_estimate.go:134-146 | for all 64-bit operands: the exact product up to saturation, or zero unless both are positive, without overflow |
| `OutputEstimate.CeilQuotient` | ckalkan/output_estimate.go:116-123 | equals the quotient rounded up, for every positive divisor |
| `OutputEstimate.EncodedEstimate` | ckalkan/output_estimate.go:91-114 | equals the exact Base64 or PEM size up to saturation |
| `OutputEstimate.EstimateSignedXML` | ckalkan/output_estimate.go:60-66 | equals input size plus overhead, or the limit where that is smaller |
| `OutputEstimate.EstimateIsExact` | ckalkan/output_estimate.go:25-49 | for every size and every flag combination the estimate is the exact unbounded formula, or the limit where that is smaller |
| `ProcessSlot.Slot.New` | ckalkan/client.go:145-195 | New's outcome and the slot after it, including the release of the slot when loading fails |
| `ProcessSlot.Client.Close` | ckalkan/client.go:201-244 | Close's outcome, the slot and the client after it, including repeated and failed closes |
| `ProcessSlot.OneOwner` | ckalkan/client.go:100-107 | in every run over any number of clients at most one owns the slot and at most one is open |
| `ProcessSlot.NoNewWhileOpen` | ckalkan/client.go:145-195 | between two successful News lies a successful Close of the first client |
| `ProcessSlot.NoNewAfterFailure` | ckalkan/client.go:201-244 | after a failed native close no New ever succeeds again |
| `Gost3410.ModInverse` | internal/certsig/internal/gogost/gost3410/curve.go:147-193 | the inverse in 0..n-1 if there is one, and none only if there is none |
| `Gost3410.AddInPlace` | internal/certsig/internal/gogost/gost3410/curve.go:147-193 | writes the chord or tangent sum into the first point, also when both points are the same objects, and leaves it alone when the sum is infinite |
| `Gost3410.Exp` | internal/certsig/internal/gogost/gost3410/curve.go:195-224 | the bit loop with its infinity flag computes double-and-add |
| `Gost3410.IsInSubgroup` | internal/certsig/internal/gogost/gost3410/curve.go:119-132 | membership is canonical coordinates on the curve, and an infinite q-fold multiple unless the cofactor is one |
| `Gost3410.VerifyDigest` | internal/certsig/internal/gogost/gost3410/public.go:105-155 | the verification steps in place compute the verdict function that the theorems below decide, with each error |
| `GostProof.DoubleAndAddIsTimes` | internal/certsig/internal/gogost/gost3410/curve.go:195-224 | double-and-add is k-fold repeated addition for every k and every point, through intermediate infinities |
| `GostProof.SubgroupIsOrderQ` | internal/certsig/internal/gogost/gost3410/curve.go:119-132 | the subgroup check holds exactly for points whose q-fold sum is infinity |
| `GostProof.VerifiesExactly` | internal/certsig/internal/gogost/gost3410/public.go:105-155 | for every public point and scalars in range the answer is the check of section 6.2 of RFC 7091, except that an infinite second multiple is an error |
| `GostProof.SubgroupKeyAnswers` | internal/certsig/internal/gogost/gost3410/public.go:105-155 | for every key of order q the answer is the RFC's check and never an error |
| `GostProof.AdmittedKeyAnswers` | internal/certsig/gost.go:84-97 | the same for every key that the subgroup check admits |
| `GostProof.KeyFailsExactly` | internal/certsig/internal/gogost/gost3410/public.go:138-146 | for every key on the curve: some digest and signature end in an error exactly if some multiple below q sends the key to infinity |
| `GostProof.HalfPointKeyFails` | internal/certsig/internal/gogost/gost3410/public.go:138-146 | for a key with y = 0 verification ends in an error exactly when the second scalar is even |
| `SmallCurve.SixIsGroup` | internal/certsig/internal/gogost/gost3410/curve.go:147-193 | on a curve of six points the code's addition is closed and associative |
| `SmallCurve.SixHasGenerator` | internal/certsig/internal/gogost/gost3410/curve.go:73-100 | that curve meets every hypothesis of the verification theorems |
| `SmallCurve.FailingKey` | internal/certsig/internal/gogost/gost3410/public.go:138-146 | a concrete key that the subgroup check refuses and for which verification ends in an error |
| `GostProof.HonestSignatureVerifies` | internal/certsig/internal/gogost/gost3410/public.go:105-155 | every signature made by section 6.1 of RFC 7091 is accepted, whatever key, nonce and digest |
| `GostRfc.AdditionIsRfc` | internal/certsig/internal/gogost/gost3410/curve.go:147-193 | over every odd prime field and for every two points of the curve, the sum is that of section 5.2 of RFC 7091: none for opposite points, else the one on the chord or tangent |
| `GostRfc.ContainsIsWeierstrass` | internal/certsig/internal/gogost/gost3410/curve.go:103-115 | a point is on the curve exactly if p divides y² − (x³ + ax + b) |
| `GostRfc.PointSizeExact` | internal/certsig/internal/gogost/gost3410/utils.go:36-41 | scalars take 32 bytes exactly for fields below 2^256, else 64 |
| `GostRfc.DigestScalarIs` | internal/certsig/internal/gogost/gost3410/public.go:121-126 | the digest scalar is the number in 1..q-1 that is congruent to the integer of the digest, or 1 where that integer is a multiple of q |
| `GostRfc.RejectsMalformed` | internal/certsig/internal/gogost/gost3410/public.go:105-119 | for every curve, key, digest and signature: the length error exactly for a wrong length, and false for a scalar, read from its half of the signature, that is not in 1..q-1 |
| `GostRfc.VerdictExactly` | internal/certsig/internal/gogost/gost3410/public.go:105-155 | for every key on the curve, digest and signature: true means that section 6.2 of RFC 7091 accepts, false that it does not, and another error needs the right length and scalars in range |
| `GostRfc.AdmittedVerdict` | internal/certsig/gost.go:84-97 | for every key that the subgroup check admits, and every digest and signature: a length error, or exactly the answer of section 6.2 |
| `GostRfc.SignedIsAccepted` | internal/certsig/internal/gogost/gost3410/public.go:105-155 | every signature that section 6.1 of RFC 7091 makes, with the digest integer as the RFC defines it, is accepted |
| `GostKeys.NewPublicKeyLE` | internal/certsig/internal/gogost/gost3410/public.go:35-51 | reads LE(X) followed by LE(Y), or rejects a wrong length |
| `GostKeys.RawLE` | internal/certsig/internal/gogost/gost3410/public.go:76-85 | writes LE(X) followed by LE(Y) |
| `GostKeys.ReverseInPlace` | internal/certsig/internal/gogost/gost3410/utils.go:26-30 | mirrors a buffer in place |
| `GostKeys.KeyRoundTrip` | internal/certsig/internal/gogost/gost3410/public.go:76-85 | a rendered key parses back |
| `GostKeys.RawRoundTrip` | internal/certsig/internal/gogost/gost3410/public.go:35-51 | a parsed key renders back to the same bytes |
| `GostKeys.VerifyReversed` | internal/certsig/internal/gogost/gost3410/public.go:197-211 | verifies mirrored copies of digest and signature |
| `GostKeys.HonestReversedVerifies` | internal/certsig/internal/gogost/gost3410/public.go:197-211 | an honest signature written as LE(r) followed by LE(s) passes the mirrored verification |
| `StreebogHash.Add512Bit` | internal/certsig/internal/gogost/internal/gost34112012/hash.go:77-84 | the carry loop computes the sum modulo 2^512, whichever buffers coincide |
| `StreebogHash.MixLength` | internal/certsig/internal/gogost/internal/gost34112012/hash.go:102-112 | mixing eight bytes of the length is mixing its 512-bit vector |
| `StreebogHash.Rounds` | internal/certsig/internal/gogost/internal/gost34112012/hash.go:120-131 | twelve rounds over reused and aliased buffers compute the block cipher |
| `StreebogHash.G` | internal/certsig/internal/gogost/internal/gost34112012/hash.go:102-118 | the compression function, also when the destination is the chaining value |
| `Streebog.XorIsExclusive` | internal/certsig/internal/gogost/internal/gost34112012/hash.go:102-131 | exclusive or of bytes, bit by bit, and doing it twice undoes it |
| `Rfc6986.CompressIsRfc` | internal/certsig/internal/gogost/internal/gost34112012/hash.go:102-131 | the compression function is that of section 8 of RFC 6986: thirteen keys from the first one, twelve rounds, and the last key, last state, chaining value and block combined |
| `StreebogHash.Hash.Reset` | internal/certsig/internal/gogost/internal/gost34112012/hash.go:54-65 | back to the fresh state of the same size |
| `StreebogHash.Hash.Write` | internal/certsig/internal/gogost/internal/gost34112012/hash.go:135-146 | the new state is the old one fed the data, with fewer than 64 bytes buffered |
| `StreebogHash.Hash.Sum` | internal/certsig/internal/gogost/internal/gost34112012/hash.go:150-162 | appends the digest of the state and changes nothing |
| `StreebogHash.Hash.MarshalBinary` | internal/certsig/internal/gogost/internal/gost34112012/marshal.go:29-44 | the saved bytes are the state's saved form |
| `StreebogHash.Hash.UnmarshalBinary` | internal/certsig/internal/gogost/internal/gost34112012/marshal.go:49-80 | loads the state, or names the first fault and leaves the hash unchanged |
| `StreebogProof.CheckSum` | internal/certsig/internal/gogost/internal/gost34112012/hash.go:77-84 | the checksum of two blocks is their integer sum modulo 2^512 |
| `StreebogProof.DrainIsAbsorb` | internal/certsig/internal/gogost/internal/gost34112012/hash.go:135-146 | draining the buffer is stage 2 of section 9 of RFC 6986, and the remainder is what stage 2 leaves |
| `StreebogProof.FeedTwice` | internal/certsig/internal/gogost/internal/gost34112012/hash.go:135-146 | two writes are one write of both inputs |
| `StreebogProof.StreamingHash` | internal/certsig/internal/gogost/internal/gost34112012/hash.go:135-162 | however a message is split into writes, Sum answers its one-shot hash, which is the RFC's below 2^64 bits |
| `Rfc6986.HashIsRfc` | internal/certsig/internal/gogost/internal/gost34112012/hash.go:135-162 | with 512-bit lengths the one-shot hash, read backwards, is that of the three stages of section 9 of RFC 6986, which consume the message from its end, for every message and both sizes |
| `Rfc6986.StreamingIsRfc` | internal/certsig/internal/gogost/internal/gost34112012/hash.go:135-162 | however a message below 2^64 bits is split into writes, Sum answers the hash of those stages |
| `StreebogProof.LengthCounted` | internal/certsig/internal/gogost/internal/gost34112012/hash.go:150-157 | the length that is compressed last is the bit length of the whole message modulo the limit |
| `StreebogProof.LengthBlockDiffers` | internal/certsig/internal/gogost/internal/gost34112012/hash.go:155-156 | counting in 64 bits gives the block of the 512-bit length exactly when that length fits 64 bits |
| `StreebogProof.SumLengthBlock` | internal/certsig/internal/gogost/internal/gost34112012/hash.go:135-157 | however a message is split into writes, the length block that Sum compresses is the RFC's exactly below 2^64 bits |
| `StreebogProof.LoadsWhatWasSaved` | internal/certsig/internal/gogost/internal/gost34112012/marshal.go:29-80 | a saved state loads back as itself |
| `StreebogProof.SavesWhatWasLoaded` | internal/certsig/internal/gogost/internal/gost34112012/marshal.go:49-80 | accepted bytes are exactly the saved form of what they load |
| `StreebogProof.ResumeContinues` | internal/certsig/internal/gogost/internal/gost34112012/marshal.go:29-80 | saving, loading and writing on is the same as writing on |
| `XmlScanView.DecodeEncoded` | certificate_xml_input.go:155-168 | decoding a UTF-8 character gives back its rune and width |
| `XmlScanView.LegacyView` | certificate_xml_input.go:102-109 | the view of a legacy document, byte by byte |
| `XmlScanView.LegacyInjective` | certificate_xml_input.go:83-109 | distinct legacy documents have distinct views, so no two names collide |
| `XmlScanView.AsciiIsCharacter` | certificate_xml_input.go:87-169 | an ASCII byte of a view is a whole character |
| `XmlScanView.BoundaryOffset` | certificate_xml_input.go:113-123 | at every character boundary the view offset leads to the same boundary of the document |
| `XmlEdit.UnitsGood` | certificate_xml_input.go:87-169 | under every detected encoding the characters of a document spell exactly the document |
| `XmlEdit.Utf16View` | certificate_xml_input.go:129-151 | the view of a UTF-16 document with surrogate pairs, or none for odd lengths and lone surrogates |
| `XmlUtf16.DecodesExactly` | certificate_xml_input.go:129-151 | in either byte order a document decodes exactly if it is the UTF-16 encoding of some text |
| `XmlUtf16.TextIsViewed` | certificate_xml_input.go:87-151 | a text that begins with a byte order mark or a tag is detected in the byte order it was written in, and its view is its UTF-8 form |
| `XmlEdit.OffsetMapper.Lookup` | certificate_xml_input.go:113-168 | both stateful mappers return the document offset of any later view offset and stay usable for ascending boundaries |
| `XmlEdit.ScanView` | certificate_xml_input.go:87-124 | detects the encoding and returns the view with a mapper that belongs to it |
| `XmlTag.SignatureIDAttribute` | certificate_xml_input.go:175-227 | the index-driven scanner terminates and computes the scan function |
| `XmlTag.ScanExact` | certificate_xml_input.go:175-227 | a span is found exactly when the tag parses into complete attributes up to an unqualified Id attribute, and then it is that attribute and never text inside a quoted value |
| `XmlTag.MissesExactly` | certificate_xml_input.go:175-227 | nothing is found exactly when, after complete attributes of other names, the tag continues with something that is no complete attribute |
| `XmlTag.ValuelessHidesId` | certificate_xml_input.go:195-200 | in a tag that starts in this way an attribute without a value hides a complete Id attribute, whatever follows |
| `XmlTag.FoundEdges` | certificate_xml_input.go:175-227 | the span starts at the name and ends after the closing quote |
| `XmlEdit.SpansAscend` | certificate_xml_input.go:36-73 | the removed spans are ascending, disjoint and inside their own tokens |
| `XmlEdit.DeleteIsWithout` | certificate_xml_input.go:64-80 | deleting ascending spans leaves the length less their lengths, and every position outside them at its index less what is removed before it |
| `XmlCertificate.CertificateInput` | certificate_xml_input.go:20-81 | returns the document in which every byte outside the removed spans is kept in its order, and the document itself on a decoder error or duplicate attributes |
| `XmlCertificate.OnlyIdsVanish` | certificate_xml_input.go:12-81 | the result consists of whole characters of the document; the view and the document lose exactly the ascending spans of the Id attributes, and every other position is kept, moved by what is gone before it |
| `XmlCertificate.EditedWithout` | certificate_xml_input.go:36-81 | whatever the decoder did, the edit keeps every byte outside the removed spans in its order; after a decoder error or duplicate attributes there are none |
| `XmlCertificate.RemovedIsId` | certificate_xml_input.go:46-73 | whatever is removed is a complete attribute of the name Id inside a signature tag in which the decoder saw one |
| `XmlCertificate.IdSurvivesExactly` | certificate_xml_input.go:36-81 | from a signature tag in which the decoder saw an Id something is removed exactly when the decoder finished, no signature tag has duplicate attributes, and the tag does not break off before its first complete Id attribute |
| `XmlCertificate.SurvivingId` | certificate_xml_input.go:20-81 | a concrete signature element, with the tokens that the decoder yields for it, is returned with its Id |
| `Pem.EncodeCertificatePEM` | certificate_info.go:398-421 | writes in bounds, fills exactly the computed size, leaves a zero byte behind it, and the bytes are the PEM document |
| `Pem.NextLine` | certificate_info.go:398-421 | Base64 of a 48-byte chunk is the next line of the Base64 of the whole input |
| `Pem.GroupSpells` | certificate_info.go:398-421 | four symbols spell the 24 bits of three bytes, and missing bytes count as zero bits |
| `Pem.SymbolIsTable` | certificate_info.go:398-421 | the symbols are those of table 1 of RFC 4648 |
| `Pem.DocumentSize` | certificate_info.go:371-376 | the computed size is the size of the document |
| `Pem.Base64RoundTrip` | certificate_info.go:398-421 | Base64 decodes back, with one, two or no padding characters |
| `Pem.DocumentRoundTrip` | certificate_info.go:398-421 | the certificate comes back from its PEM document |

## Left out

- The cgo and Windows drivers, OCSP over HTTP, file and directory handling, process start and kill: foreign calls and I/O; the native side is an arbitrary function or a nondeterministic result, the pipe a byte sequence that may break.
- Tokenization by encoding/xml, UTF-8 validity and Unicode white space: token streams, the validity flag and the decoder's flags per token are inputs, and names, texts and the expected SOAP ID are sequences of Unicode scalar values.
- `ocsp.go`, `certsig.go`, `gost.go`, `ocsp_certificate.go`: their branches rest on ASN.1 and X.509 parsing.
- Option setters, flag and enum mapping, logging, timings, proxy and endpoint validation, and property parsing: single checks without cross-cutting properties.
- Open before it builds a root client (options, loading the library): the machine starts with the new client, and the setup calls and the Close after a failed setup are ordinary steps of it.
- Native operations other than key-store and certificate loading are taken not to change native trust.
- Elliptic-curve associativity and closure: assumed of the code's own addition on curve points (`GostProof.GroupLaws`), as are a base point of prime order q and, for a cofactor of one, that q is the order of the curve; `GostRfc.AdditionIsRfc` says which addition that is, `SmallCurve` shows a curve on which they hold, and the parameter tables are not modelled.
- The LPS transformation and the iteration constants of the hash are parameters, so the tables are not checked.
- The SOAP counters and depth markers are values in local variables instead of a struct behind a pointer.
- Record decoders are functions on values; only the primitive reader methods are modelled in place.
- Blocks are byte sequences: whether a block came from a string or a slice, and the reuse of copy buffers, are not captured.
- Request IDs are unbounded; wrap-around after 2^64 requests is not modelled.
- Errors with their own `As` method, typed nil errors and cyclic error chains.
- The retry loop that fetches the last error text (`ckalkan/client_errors.go`) and the collection of signer certificates (`certificate_info.go`) follow the patterns of the loops that are modelled.
- Capacity of returned slices (`capacityLimitedBytes`) has no counterpart for value sequences.
- MultiOutput.VerifyData: signer ID and flag conversion come before the loop and are not modelled.
