# A verified model of the NEAR AI inference SDKs

The repository implements one inference SDK twice, in Rust (`rs/src`) and in Go (`go`). This
project models the parts whose correctness is not visible from one function body, and proves what
they are for. Where the two languages do the same thing in different ways, both forms are modelled
against one definition and the places where they differ are stated exactly.

* **Server-sent events** (WHATWG HTML, sections 9.2.5 and 9.2.6). `SseRecords` defines lines and
  records; `SseDecoder` is Rust's resumable decoder; `SseFields` the two tokenizers;
  `SseTransform` and `SseBom` the rewriting of `data` lines; `SseMessages` the Messages automaton;
  `SseReader` Go's reader that holds back the end of a stream until it is registered; `GoStream`
  puts Go's closures into that reader; `StreamSdks` compares the streams the two SDKs register and
  what they hand out.
* **Oblivious HTTP** (RFC 9292, RFC 9000 section 16, RFC 9458 section 4.4, draft-ietf-ohai-chunked-ohttp
  section 6). `Varint`, `OhttpFrames` (sealing and opening of chunk frames), `BhttpRequest`,
  `BhttpFields`, `BhttpResponse` (Rust's decoder), `BhttpBody` (Go's streaming body reader),
  `OhttpMessages` (the readers and encoders stacked on the encrypted frames).
* **Client caches.** `Admission` is session creation in both SDKs. `RustSessions` and
  `RustReceipts` are the Rust client's session and response caches, `Receipts` the examination of a
  captured response, `GoClient`, `GoClientRuns` and `GoClientProgress` the Go client. Each is a state machine whose steps are the
  critical sections; classes carry out the steps, functions specify them, and the results hold in
  every run, whatever the interleaving of callers, cancellations, clears and closes.
* **Structural transforms.** `Rtmr3` and `Rtmr3Binding` with `Hex` (event log replay and what it binds), `Der` (recursive search of a
  certificate extension), `E2ee`, `E2eePaths` and `E2eeWalk` (decrypting the protected fields of a response),
  `Canonical` and `CanonicalActions` (canonical text of compose manager actions).

`Bytes`, `Octets`, `Wrappers`, `Streams` and `Json` hold the types the others share.

## Assumptions

* JSON and UTF-8 libraries, header validity, hexadecimal addresses and attestation verifiers are
  parameters. A JSON codec is only assumed to print text without CR or LF that parses back
  (`Json.Codec.Faithful`), and only where a statement says so.
* The AEAD of the OHTTP frames is an ideal box: it opens what was sealed under the same nonce and
  associated data and nothing else. The field cipher of `E2ee` is an arbitrary partial function;
  that it undoes an encryptor is a hypothesis of the round trip alone.
* SHA-384 is any function with 48-byte results. Since no such function is injective, `Rtmr3` states
  that disagreement exhibits a collision, or a preimage of the zero block, among the inputs that
  were actually hashed.
* A byte stream stays at its end once it has ended; how much a buffered reader reads ahead, and how
  much a read returns, is arbitrary.
* Time is a natural number that never decreases; the clear generation is a natural number (the
  programs use a 64-bit counter that wraps). Pointer identity is an index into the history of
  objects made.

## What the proofs found

* A known-length OHTTP body in Go whose content exceeds a declared Content-Length can end well or
  badly depending on the caller's buffer sizes (`BhttpBody.FalseEndExists`); exactly when, is
  `BhttpBody.ScheduleFreeExactly`.
* Stripping a byte order mark from the first record commutes with cutting a stream into records,
  except when the first line is nothing but the mark (`SseBom.StripCommutes`); exactly then the
  client's output is not cut into its own records again (`SseBom.ClientStreamDecodes`).
* A record that is one blank line is complete for Rust and not for Go (`SseFields.CompleteAgree`).
* The SDKs do not register the same streams (`StreamSdks.SdksPart`). In Chat and Responses Go looks
  at no record behind `data: [DONE]`: an ID named only there is registered by Rust alone, and
  another ID there, or choices its key does not open, are refused by Rust alone. Up to that point
  Go refuses error events, events with an `error` member and data that is not a JSON object, and
  Rust refuses records that are not UTF-8. With exactly these excluded the two agree
  (`StreamSdks.SdksAgreeExactly`), and hand out the same (`StreamSdks.SdksHandOutTheSame`).
* Rust reads the event payload `0x` as empty and Go refuses it; the replays agree otherwise
  (`Rtmr3.SdksAgreeExactly`, `Rtmr3.BarePrefixDivides`).
* RTMR3 determines the measurements among logs whose register-3 entries are runtime events in the
  same places, under names without a colon (`Rtmr3Binding.MeasurementsDetermined`). Both conditions
  are needed: an entry of another type may state the same digest and measures nothing
  (`Rtmr3Binding.QuoteLeavesMeasurementsOpen`), and text can move across the colon between a name
  and its payload (`Rtmr3Binding.ColonLeavesMeasurementsOpen`).

## Model

| member | source | states |
|---|---|---|
| SseRecords.LinesCharacterized | rs/src/sse.rs:60-83 | the lines of a text are the one way to cut it into break-free texts with endings CR, LF or CRLF (only the last may lack one, no CR before LF): cutting and joining are inverse in both directions |
| SseRecords.RecordsAreGroupsOfLines | go/stream.go:25-52 | records are the runs of lines up to and including each blank line |
| SseRecords.RecordsPartition | go/stream.go:25-52 | records are nonempty and concatenate to the whole stream: no byte lost, repeated or moved |
| SseRecords.RecordsOfGroups | rs/src/sse.rs:14-59 | joining properly closed groups of lines and decoding again gives back exactly those groups |
| SseDecoder.Decoder.ScanRecords | rs/src/sse.rs:31-58 | takes up where the last scan stopped, emits the records now decided, never rescans: iterations stay within bytes plus scans |
| SseDecoder.Decoder.Push | rs/src/sse.rs:15-30 | any bytes, any internal part size, a cut inside CRLF: what was emitted plus what is pending is what was fed, and after the final push all records are out |
| SseDecoder.Decoder.PushParts | rs/src/sse.rs:15-30 | the part-by-part copy of a long push feeds the same bytes as one push |
| SseDecoder.DecodeStream | rs/src/sse.rs:14-59 | for every way of cutting a stream into pushes the decoder yields the records of the uncut stream |
| SseFields.SplitLines | rs/src/sse.rs:60-83 | Rust's line loop computes the lines |
| SseFields.GoFields | go/stream.go:59-76 | Go's replace-and-split yields the same data and the same last event name as Rust's tokenizer, and whether there was one |
| SseFields.GoSplitIsRustLines | go/stream.go:59-63 | after Go's replacements, splitting at LF gives Rust's lines plus the unterminated rest |
| SseFields.CompleteAgree | go/stream.go:78-81 | Go's completeness test holds exactly when Rust's does and the record has at least two lines |
| SseFields.FieldMeans | rs/src/sse.rs:84-104 | a line gives a field exactly this value: its name alone gives the empty one, and one space behind the colon is dropped |
| SseFields.LastEventCounts | rs/src/sse.rs:92-104 | of several event lines the last gives the name |
| SseFields.DataAccumulates | rs/src/sse.rs:112-115 | each further data line goes behind what there is and a line feed |
| SseTransform.RewriteCounting | rs/src/sse.rs:156-174 | Rust's output loop replaces the last data line by the new JSON and deletes the others |
| SseTransform.RewriteLast | go/stream.go:176-212 | Go's output loop computes the same rewriting |
| SseTransform.RewriteKeepsOthers | rs/src/sse.rs:156-174 | all other lines stay in order with their endings, and the data of the result is the new JSON |
| SseTransform.ApplyEachKeepsBoundaries | rs/src/sse.rs:156-174 | rewriting any of a stream's records neither makes nor swallows a record boundary |
| SseTransform.TransformRecord | rs/src/sse.rs:105-176 | one record, with or without a key: passed through, refused or rewritten, and the receipt ID now known |
| SseTransform.ReceiptPlaces | rs/src/sse.rs:128-149 | where the three dialects keep the receipt ID: at the top, in the response, in the message of a message_start event and of no other |
| SseTransform.TransformKnows | rs/src/sse.rs:105-176 | under every key: a record passes if and only if it is text, carries no other ID than the one known and opens if it must; and the ID known from then on is its own, or else the earlier one |
| SseTransform.StreamKnows | rs/src/inference.rs:634-673 | a stream is handed on whole if and only if each record is text and opens if it must and no two carry different IDs; the ID known at the end is the one they carry, and there is none exactly when none does |
| SseTransform.TransformedStreamDecodes | rs/src/sse.rs:105-176 | decoding the concatenated output gives exactly the transformed records, for any mix of line endings |
| SseTransform.TransformedRecordMeans | rs/src/sse.rs:105-176 | under a key, a record with choices comes out with the JSON of its decrypted body as its data and every other line of its input; every other record comes out as it was |
| SseBom.StripCommutes | rs/src/inference.rs:636-643 | stripping the mark before or after cutting is the same if and only if the first line is not a lone mark |
| SseBom.ClientStreamDecodes | rs/src/inference.rs:634-663 | what a client with a response key hands on has one piece per record, and is cut into exactly those pieces again if and only if the stream does not start with a lone mark |
| SseBom.ClientStreamReceipt | rs/src/inference.rs:634-673 | when an encrypted stream is handed on whole, and that its receipt ID is the one its records carry, if any does |
| SseMessages.MessageStreamState.Observe | rs/src/sse.rs:185-223 | one record moves the automaton, or is refused and leaves it as it was |
| SseMessages.CheckStream | rs/src/sse.rs:184-230 | observing all records and finishing accepts exactly the runs that end started and stopped |
| SseMessages.AcceptedStreams | rs/src/sse.rs:184-230 | accepted if and only if every record is text, complete and no error event, every event is typed and agrees with its name, exactly one is message_start, and the last is the only message_stop |
| SseReader.CapturedSource.ReadRecord | go/stream.go:25-52 | reading byte by byte ends where the next record ends, and everything read is captured |
| SseReader.NextIsFirstRecord | go/stream.go:25-52 | reading record after record is the decoding of the stream |
| SseReader.Reader.Advance | go/stream.go:95-143 | one round of the loop: an ordinary record is buffered, a terminal one only after the rest was read and registered |
| SseReader.Reader.Read | go/stream.go:83-152 | for any buffer sizes: output is a prefix of the promised one, the first error comes when all of it is out and says how the stream ended, finish runs at most once and on the whole source, and no byte from a terminal record on appears before that |
| SseReader.ReadWith | go/stream.go:83-152 | the schedule of read sizes does not change what a caller receives or how it ends; whoever has a byte of the record that ends the stream has a registered stream |
| GoStream.StreamClosures.Transform | go/client.go:566-624 | one record through Go's closure, with or without a response key: what it remembers, what it hands out, and whether it refuses |
| GoStream.StreamClosures.TransformSSE | go/stream.go:159-217 | Go's line loops decrypt the data of a record with choices and leave any other as it is |
| GoStream.PlayIsAccepted | go/client.go:558-633 | the reader with these closures ends a stream well exactly when the records up to the first `[DONE]` (in Messages, all of them) are accepted and can be handed out and their ID registers with the bytes of the whole stream; then it has handed out exactly those records, decrypted |
| GoStream.ReadStream | go/stream.go:83-152 | the same for every schedule of buffer sizes, and for a broken source, which never ends well; more than the ordinary records is handed out only once the stream is registered |
| StreamSdks.SdksAgreeExactly | go/client.go:566-630 | the exact difference, under any key: Go registers under an ID, with its records text and those behind `[DONE]` naming no other ID and opening, if and only if Rust registers under it and the records up to `[DONE]` name an ID and hold no error event, error member, data other than JSON objects or, for Messages, incomplete record or `[DONE]` |
| StreamSdks.SdksHandOutTheSame | go/stream.go:159-217 | of a stream both accept, what Go hands out is what Rust hands out up to `[DONE]` |
| StreamSdks.StreamsAgreeExactly | rs/src/inference.rs:634-673 | the same about the bytes of a stream, between Go's reader with its closures and Rust's decoder |
| StreamSdks.SdksPart | rs/src/inference.rs:652-673 | two streams Rust registers and Go does not: an ID and then an error event; an ID named only behind `[DONE]` |
| Varint.EncodersAgree | rs/src/ohttp.rs:140-158 | Rust's and Go's encoders produce the same bytes below 2^62 |
| Varint.RoundTrip | go/ohttp.go:79-118 | an encoded integer is read back from anywhere in a stream and consumed exactly |
| Varint.ShortestEncoding | go/ohttp.go:79-96 | no shorter form of RFC 9000 holds the value |
| Varint.Layout | go/ohttp.go:79-96 | read in network order, the bytes are the value below a tag of 0, 1, 2 or 3 in the two top bits that tells how many they are |
| Varint.Stream.ReadVarint | go/ohttp.go:100-118 | Go's reader computes the definition, including end of file as zero |
| Varint.Stream.Integer | rs/src/ohttp.rs:418-438 | Rust's reader computes the same one |
| Varint.SliceVector | rs/src/ohttp.rs:492-510 | the cursor form computes the same length-prefixed slice |
| Varint.VectorRoundTrip | rs/src/ohttp.rs:159-162 | an encoded vector is sliced back and the cursor stands right after it |
| OhttpFrames.NoncesDistinct | go/ohttp.go:377-397 | chunk nonces below the counter limit are pairwise distinct |
| OhttpFrames.NonceLayout | go/ohttp.go:384-387 | the counter is exclusive-ored bit by bit, big-endian, into the last eight bytes of the base, and nowhere else; the first nonce is the base |
| OhttpFrames.Authentic | go/ohttp.go:360-406 | on any wire at all the plaintext is a prefix of the sealed message, and end of file means all of it, after a final frame |
| OhttpFrames.FinishesExactly | go/ohttp.go:360-406 | what a wire must be to be read to its end, byte limits included: every frame but the last opens under the nonce of its place and no associated data, the last has length zero, runs to a clean end and opens under the five bytes "final" |
| OhttpFrames.HonestDecrypts | go/ohttp.go:360-406 | for every chunk framing the honest wire gives the whole message and then end of file |
| OhttpFrames.TruncationFails | go/ohttp.go:360-406 | no strict prefix of the wire is accepted |
| OhttpFrames.SealRequest | go/ohttp.go:200-217 | the loop sends 16384 bytes at a time, sealed under their number and no associated data behind their length, and the rest under "final" behind a zero |
| OhttpFrames.SealedRequestOpens | go/ohttp.go:201-218 | what the loop seals, the reader opens: any nonempty message within the limit comes back whole |
| OhttpFrames.DecryptReader.Read | go/ohttp.go:360-406 | for any buffer size: a prefix of what the wire decrypts to, the first error when all of it is out |
| OhttpFrames.ReadWith | go/ohttp.go:360-406 | the schedule of buffer sizes does not change what is delivered or the first error, and end of file means a wire as `FinishesExactly` says |
| BhttpRequest.EncodeGo | go/ohttp.go:147-173 | Go's encoder writes the known-length request and its padding |
| BhttpRequest.EncodeRust | rs/src/ohttp.rs:163-208 | Rust's encoder writes the same bytes |
| BhttpRequest.RequestLayout | go/ohttp.go:147-173 | the message part by part: 0, method, scheme, authority, path, header section, content, no trailers, zeros |
| BhttpRequest.KeptMeans | go/ohttp.go:129-160 | of the headers exactly the connection's own are left out, and the others keep their order |
| BhttpRequest.RequestRoundTrip | go/ohttp.go:147-173 | a section 3.1 decoder recovers method, scheme, authority, path, fields and body, and what is left is zeros |
| BhttpRequest.PaddingIsLeast | go/ohttp.go:167-168 | the length is the least multiple of 16384 that holds the request |
| BhttpFields.FieldsRust | rs/src/ohttp.rs:439-477 | Rust's loop computes the field section, in both framings |
| BhttpFields.FieldsGo | go/ohttp.go:408-464 | Go's loop computes the same field section |
| BhttpFields.FieldsRoundTrip | go/ohttp.go:408-464 | every acceptable field list is read back, in either framing, and its section is consumed exactly |
| BhttpResponse.Decode | rs/src/ohttp.rs:290-356 | Rust's decoding loop computes the response the bytes encode, and fails on every other input |
| BhttpResponse.ReadContent | rs/src/ohttp.rs:319-352 | the content loop concatenates the chunks within the limits |
| BhttpResponse.DrainPadding | rs/src/ohttp.rs:387-406 | succeeds exactly when all that follows is zeros within the limit |
| BhttpResponse.ResponseRoundTrip | rs/src/ohttp.rs:290-356 | any response (up to 32 informational heads, any chunks, trailers, padding) decodes to its status, headers and content from both framings and from the truncations of section 3.8 |
| BhttpResponse.DecodedIsWhole | rs/src/ohttp.rs:290-356 | of whatever bytes arrive, what is decoded has a final status, acceptable headers and a content of no other length than its Content-Length, none where there may be none, within the limit, ended cleanly behind acceptable trailers and zeros |
| BhttpResponse.TooManyInformational | rs/src/ohttp.rs:292-312 | more than 32 informational heads are refused, whatever follows |
| BhttpResponse.FieldsBounded | rs/src/ohttp.rs:439-477 | a field section of more than 2^20 bytes is refused in either framing |
| BhttpBody.BodyReader.Read | go/ohttp.go:499-552 | one read of the body is one step of the pure reader |
| BhttpBody.BodyReader.Finish | go/ohttp.go:553-570 | end of file only after the trailers parse, the length agrees and all that remains is zeros |
| BhttpBody.EveryScheduleAgrees | go/ohttp.go:499-570 | unless the content exceeds the Content-Length, every schedule of buffer sizes delivers a prefix of the body, all of it if the body ends well, and meets the body's own first error |
| BhttpBody.EndedIsWhole | go/ohttp.go:499-570 | under every schedule, and whatever the Content-Length: never more bytes than declared, and end of file only with as many, a clean end, acceptable trailers and zeros |
| BhttpBody.StartedIsWhole | go/ohttp.go:319-331 | a body that is over when it starts has met the same conditions with nothing read |
| BhttpBody.ScheduleFreeExactly | go/ohttp.go:499-570 | the outcome is independent of buffer sizes if and only if the declared length does not end inside the content at what reads as trailers and padding |
| BhttpBody.FalseEndExists | go/ohttp.go:499-570 | a body that ends well when read byte by byte and badly when read two bytes at once |
| BhttpBody.MessageIsDelivered | go/ohttp.go:319-347 | every encoded response with a right Content-Length or none is delivered whole, in both framings |
| OhttpMessages.BodyNeedsFinalFrame | go/ohttp.go:490-570 | on any wire, any headers and any buffer sizes, a body that ends well was read from the whole sealed message after its final frame, and the wire was not cut |
| OhttpMessages.ResponseThroughFrames | go/ohttp.go:279-347 | an encoded response in any frames: decrypting gives the message, its heads are found, and every schedule of buffer sizes delivers the content whole and then end of file |
| OhttpMessages.SealedRequest | go/ohttp.go:175-217 | encoding and sealing refuse exactly the requests that are too long padded; any other wire opens to one message, which a section 3.1 decoder reads back as the request with the headers it keeps |
| Admission.CreationAdmits | rs/src/inference.rs:888-1025 | Rust's creation returns a session exactly when it is admitted, and no session otherwise |
| Admission.GoVerifyReports | go/client.go:369-394 | the loop ends with every report verified and the first usable one selected, or there is a report that does not verify |
| Admission.GoCreateSession | go/client.go:257-408 | Go's creation returns an admitted session (Gateway or direct), and errs only when none is |
| Admission.AdmissionGuarantees | go/client.go:257-408 | an admitted Gateway session has a Gateway its verifier accepted, of the client's algorithm, pinned and with OHTTP evidence if asked for; E2EE or any policy means a nonempty list; each model of the list is what the report verifier returned for the report in its place; the key selected is the first that fits; the deployment checks accepted every report for this model |
| Admission.AdmissibleExactly | go/client.go:257-408 | when a session can be had at all: the Gateway proves itself, and the model serves no attestations and none are demanded, or every report verifies and passes and some key fits |
| Admission.DirectAdmissionGuarantees | go/client.go:257-408 | an admitted direct session has no Gateway, a nonempty list of what the report verifier returned and a key of the client's algorithm from it, the serving machine's under OHTTP, whose evidence was checked for the signer of the last report equal to the serving one; the deployment checks accepted every report |
| Admission.DirectAdmissibleExactly | go/client.go:257-408 | when a direct session can be had at all |
| RustSessions.SessionCache.Enter | rs/src/inference.rs:257-292 | the first critical section: live entry, else live creation, else new creation; a session handed out at once was made for this model and admitted for it |
| RustSessions.SessionCache.Leave | rs/src/inference.rs:293-311 | the second: only the creation still pending is removed and stored; a session handed out was made for the model asked for and admitted for it |
| RustSessions.StepKeeps | rs/src/inference.rs:257-311 | every step, of any caller, cancellation or clock, keeps the invariant |
| RustSessions.SingleFlight | rs/src/inference.rs:269-296 | callers waiting for unfinished creations of one model wait for the same one |
| RustSessions.NobodyStuck | rs/src/inference.rs:269-311 | a waiting caller can leave, or its creation can finish and then it can, whoever was dropped |
| RustSessions.StoredOnce | rs/src/inference.rs:298-309 | each creation is cached at most once, only if it succeeded, in the order made; a zero lifetime keeps the cache empty |
| RustSessions.SupersededNeverStored | rs/src/inference.rs:298-309 | a creation that another of its model has followed is never stored afterwards |
| RustSessions.JoinedGetsItsResult | rs/src/inference.rs:269-311 | whatever happens meanwhile, a caller is answered with the one result of the creation it joined |
| RustSessions.JoinsOrCreates | rs/src/inference.rs:269-292 | a caller waits with a creation another caller still holds, if there is one, and else makes its own; one that all have dropped is never joined |
| RustSessions.CreatedIsReused | rs/src/inference.rs:298-309 | the first caller that leaves a successful creation caches its session, and in every run every caller that asks before it expires is handed that session at once |
| RustSessions.EverySessionIsAdmitted | rs/src/inference.rs:257-311 | every session handed to a caller was created for the model asked for and admitted for it, and one from the cache has not expired |
| Receipts.ExamineMeaning | rs/src/inference.rs:759-830 | a response is proved exactly when its signature, under this ID and algorithm, verifies over its own bytes by evidence of its own session, and is a Gateway's where one is required; it may be asked again exactly when the signature was unavailable; all else is rejected for good |
| RustReceipts.ResponseCache.Register | rs/src/inference.rs:690-730 | retained once with its bytes, under an ID nobody holds, unless the cache was cleared since the request began; a duplicate changes no record |
| RustReceipts.ResponseCache.Lookup | rs/src/inference.rs:735-745 | finds the unexpired record registered under this ID, or reports none |
| RustReceipts.ResponseCache.Join | rs/src/inference.rs:746-822 | starts a verification of the captured bytes or joins the one there is; in a client that runs, the `expect` needs no precondition |
| RustReceipts.ResponseCache.Complete | rs/src/inference.rs:823-842 | only the record's current verification forgets itself or releases the bytes; an answer of proved is about the bytes registered under the record's ID |
| RustReceipts.StepKeeps | rs/src/inference.rs:690-842 | every step keeps the invariant of records, verifications, readers and retained responses |
| RustReceipts.ExpectNeverFires | rs/src/inference.rs:748-749 | a reader at the second lock always finds a verification or the bytes |
| RustReceipts.SingleVerification | rs/src/inference.rs:746-820 | a record has at most one unfinished verification |
| RustReceipts.TerminalReleases | rs/src/inference.rs:823-842 | a terminal outcome releases the bytes in the step that reports it; a retryable one keeps them |
| RustReceipts.TerminalIsFinal | rs/src/inference.rs:823-842 | after any further steps the outcome stands and no other verification of the record was terminal |
| RustReceipts.LookupFindsItsId | rs/src/inference.rs:735-745 | a reader gets the unexpired record registered under the ID it asked for |
| RustReceipts.ProofsAreOfRegisteredBytes | rs/src/inference.rs:731-842 | a reader is told "proved" only of the bytes registered under the record's ID |
| RustReceipts.ClearedStaysGone | rs/src/inference.rs:237-241 | after a clear everything retained was begun after it |
| RustReceipts.NeverRebound | rs/src/inference.rs:690-730 | without a clear an unexpired ID stays with its record, bytes and session through any run |
| RustReceipts.DuplicateRefused | rs/src/inference.rs:711-713 | a second registration is refused exactly while the first is unexpired, and changes no record |
| RustReceipts.RegisteredIsFound | rs/src/inference.rs:690-745 | in every run without a clear, a registered response is found under its ID until it expires, as the record of the very bytes, session and flag handed in, which it holds until a verification ends for good |
| RustReceipts.JoinVerifiesTheRecord | rs/src/inference.rs:746-822 | a reader waits for the verification its record has, or for a new one of the bytes registered, under their ID |
| RustReceipts.WaitingIsAnswered | rs/src/inference.rs:823-842 | a waiting reader's verification has ended or can, whatever the service says, and the reply is the examination of the bytes registered |
| RustReceipts.OvertakenIsDropped | rs/src/inference.rs:700-703 | a request that a clear overtakes retains nothing, however long after it it ends |
| GoClientRuns.InferenceClient.GetSession | go/client.go:206-255 | refused when closed; else the live session, else the pending creation, else a new one; a session found was made for this model and admitted for it |
| GoClientRuns.InferenceClient.FinishCreation | go/client.go:229-244 | the pending entry removed is this creation's own, and it is cached for its lifetime if and only if it succeeded, the client is open and there is one |
| GoClientRuns.InferenceClient.Register | go/client.go:649-673 | refused when closed, dropped after a clear, refused as a duplicate of a live record and then without effect on the cache, or retained with the session it was sent under |
| GoClientRuns.InferenceClient.VerifyResponse | go/client.go:675-708 | the verification started or joined is of the live record the ID names |
| GoClientRuns.InferenceClient.FinishJob | go/client.go:691-705 | after a retryable outcome the record is free and holds its registered bytes; after any other the bytes are gone and the verification stays |
| GoClientRuns.StepKeeps | go/client.go:206-255 | every step keeps the invariant of both caches and all requests under way |
| GoClientRuns.EveryDispatchIsAdmitted | go/client.go:419-512 | in every run every request was sent under a session created for the model it names and admitted for it, with a model key under E2EE |
| GoClientRuns.SingleCreation | go/client.go:224-245 | a model has at most one creation running, the one callers join |
| GoClientRuns.CachedSessionIsLive | go/client.go:216-223 | a session from the cache is unexpired, made for the model, and the client is open with a nonzero lifetime |
| GoClientRuns.ClosedStaysEmpty | go/client.go:161-178 | after closing, in every run, both caches stay empty, nothing is started, and what has ended stays ended |
| GoClientRuns.RunningJobHasBytes | go/client.go:683-707 | a running verification's record still holds the registered bytes |
| GoClientRuns.TerminalReleases | go/client.go:694-705 | a terminal outcome releases the bytes in its own step; a retryable one keeps them and frees the record |
| GoClientRuns.TerminalIsFinal | go/client.go:682-707 | a terminal outcome never changes and no other verification of its record was terminal |
| GoClientRuns.ProofsAreOfRegisteredBytes | go/client.go:675-761 | "proved" is only said of registered bytes, by evidence of a session admitted for the request's model |
| GoClientRuns.VerifiesWhatItNames | go/client.go:675-708 | the verification joined is of the live record the ID names |
| GoClientRuns.ClearedStaysGone | go/client.go:148-153 | after a clear everything retained was begun after it |
| GoClientRuns.NeverRebound | go/client.go:649-673 | without clear or close an unexpired ID stays with its record through any run |
| GoClientRuns.DuplicateRefused | go/client.go:661-663 | a second registration is refused exactly while the first is unexpired |
| GoClientProgress.CreatedIsReused | go/client.go:216-244 | in every run in which the client stays open, a session created is given to every request for its model until its lifetime is over |
| GoClientProgress.WaitingGetsItsSession | go/client.go:206-255 | whatever happens meanwhile, a request that waits goes on with the session of the creation it waits for, and fails exactly when that failed |
| GoClientProgress.RegisteredIsFound | go/client.go:649-708 | in every run without clear or close, whoever asks for a registered ID before it expires gets a verification of the record of the request, response and flag handed in and the session it was sent under |
| GoClientProgress.WaitingIsAnswered | go/client.go:683-723 | a waiting caller's verification has ended or can, whatever the service says, and the answer is the examination of the bytes registered |
| GoClientProgress.OvertakenIsDropped | go/client.go:649-657 | a request that a clear overtakes retains nothing, however long after it it ends |
| Rtmr3.RustReplay | rs/src/event_log.rs:20-66 | accepts exactly the complete logs with an entry of register 3 that leave the quote in it, starting from 48 zeros; reports under each of the two names the payload of the last runtime event of that name in register 3 |
| Rtmr3.GoReplay | go/verification.go:285-350 | the one-loop form accepts and reports the same, with absent measurements as empty strings |
| Rtmr3.AcceptedMeans | rs/src/event_log.rs:117-155 | acceptance by dstack's format: each entry extends the register by its stated 48 bytes, or for a runtime event by the hash of 01 00 00 08, its name and its payload between colons, which a stated digest must equal |
| Rtmr3.OtherRegistersIgnored | rs/src/event_log.rs:35-38 | logs with the same register-3 entries have the same verdict and measurements |
| Rtmr3.DroppedEntry | rs/src/event_log.rs:35-38 | an entry of another register can be dropped from anywhere |
| Rtmr3.LastPayloadMeaning | rs/src/event_log.rs:46-52 | a measurement is the last runtime event of its name in register 3 |
| Rtmr3.RegisterBinds | rs/src/event_log.rs:39-44 | equal registers come from equal digest sequences of whatever length, or the hashed inputs hold a collision or a zero |
| Rtmr3.AcceptedLogsAgree | rs/src/event_log.rs:20-66 | two logs accepted against one quote have the same register-3 digests, or their replays break the hash |
| Rtmr3.RuntimeEventBinds | rs/src/event_log.rs:117-155 | equal digests of runtime events with colon-free names mean equal names and payload bytes, or a collision |
| Rtmr3.SdksAgreeExactly | go/verification.go:285-350 | Go accepts exactly the logs Rust accepts whose register-3 payloads are not a bare 0x |
| Rtmr3.BarePrefixDivides | go/verification.go:285-350 | a log that Rust accepts and Go refuses, whatever is quoted |
| Rtmr3Binding.MeasurementsDetermined | rs/src/event_log.rs:20-66 | two logs accepted against one quote report the same bytes under every name, if their register-3 entries are runtime events in the same places, with colon-free names, and nothing the replays hashed breaks the hash |
| Rtmr3Binding.QuoteLeavesMeasurementsOpen | rs/src/event_log.rs:46-52 | without the condition on kinds: beside every accepted log there is one accepted against the same quote by the same digests that measures nothing |
| Rtmr3Binding.ColonLeavesMeasurementsOpen | rs/src/event_log.rs:117-155 | without the condition on names: two logs accepted against one quote, of which only one measures anything under a name |
| Der.ParseLength | go/internal/dcap/pck.go:61-81 | the accumulator loop computes the definite length |
| Der.LengthMeans | go/internal/dcap/pck.go:61-81 | one octet below 0x80, or one that announces one to four and these in network order, and nothing else |
| Der.ParseElement | go/internal/dcap/pck.go:84-99 | tag, contents and consumption, or nothing |
| Der.ParseChildren | go/internal/dcap/pck.go:102-116 | the loop computes the list of elements, or nothing |
| Der.FindInSequenceValue | go/internal/dcap/pck.go:135-177 | ends on all byte strings and computes the search |
| Der.FindRecursive | go/internal/dcap/pck.go:123-133 | the search of an outer sequence |
| Der.LengthRoundTrip | go/internal/dcap/pck.go:61-81 | every length below 2^32 in shortest form is parsed back |
| Der.ElementRoundTrip | go/internal/dcap/pck.go:84-99 | every element with contents below 2^32 is parsed back and consumed exactly |
| Der.ChildrenRoundTrip | go/internal/dcap/pck.go:102-116 | every list of elements is parsed back |
| Der.SearchFindsFirst | go/internal/dcap/pck.go:135-177 | on the encoding of any tree of named values, the value of the first preorder match, or nothing |
| Der.ExtensionLookup | go/internal/dcap/pck.go:123-177 | the same for the whole extension, whatever follows it |
| Der.FoundIsNamed | go/internal/dcap/pck.go:135-177 | on any bytes at all, what is found stands right after the identifier asked for |
| E2ee.SucceedsExactly | rs/src/e2ee.rs:347-421 | decryption of a value succeeds if and only if its objects and arrays are where the schema wants them and every protected position is null or opens |
| E2ee.OpensExactly | rs/src/e2ee.rs:347-421 | on success the outline is unchanged and each protected position holds what its own ciphertext opened to |
| E2ee.DecryptUndoesEncrypt | rs/src/e2ee.rs:347-421 | decryption returns every plain value of any size and depth from its encryption, with a ciphertext per position |
| E2ee.ResponseRoundTrip | rs/src/e2ee.rs:347-421 | so for whole Chat responses, streaming or not |
| E2eePaths.EveryPosition | rs/src/e2ee.rs:347-421 | by the names that lead there, for every position of a response: the protected ones hold what their own ciphertext opens to, all others what they held; and decryption succeeds if and only if every position holds what it may |
| E2eeWalk.Fields | rs/src/e2ee.rs:216-234 | the loop over names carries out those fields, opening each once |
| E2eeWalk.DecryptLogprobs | rs/src/e2ee.rs:402-421 | the recursive walk of log probabilities carries out the recursive part of the schema |
| E2eeWalk.DecryptMessage | rs/src/e2ee.rs:354-391 | a message or delta, member by member |
| E2eeWalk.DecryptResponse | rs/src/e2ee.rs:347-401 | the walk does what `EveryPosition` says of every named position, succeeds exactly when it can, and opens each ciphertext exactly once and in order |
| Canonical.CanonicalString | go/compose_manager.go:100-128 | the escaping loop computes the quoted form |
| Canonical.EscapedForms | go/compose_manager.go:100-128 | what is escaped, and that the short forms are used where there are any |
| Canonical.PlainStaysPlain | go/compose_manager.go:99-128 | text without quotes, backslashes and controls is written as it is, HTML characters and U+2028 included |
| Canonical.StringRoundTrip | go/compose_manager.go:100-128 | a JSON string parser returns every string of scalar values from its quoted form, and stops right after it |
| Canonical.UnmarshalAction | go/compose_manager.go:56-92 | accepts exactly objects of strings and string arrays with an action and a timestamp, six members being strings and services an array, and yields the action of that value, in whatever order the map is traversed |
| Canonical.ActionValueInjective | go/compose_manager.go:56-92 | an action is determined by its JSON value |
| Canonical.AscendingUnique | go/compose_manager.go:146-150 | a set of keys has one ascending enumeration, so sorting forgets the map's order |
| Canonical.BelowMeans | go/compose_manager.go:146-150 | the order of keys is by the first character in which they differ, a prefix first |
| CanonicalActions.PrintActions | go/compose_manager.go:129-175 | writes the canonical text of the actions the values stand for, or nothing if some value is not an allowed action; the text parses back to actions that are those of the values |
| CanonicalActions.SampleText | go/compose_manager.go:129-175 | an action written out: no spaces, members in ascending order |
| CanonicalActions.PrintedIsReadBack | go/compose_manager.go:212-215 | the values have one canonical text however their maps are traversed, and reading it back yields the actions they stand for |
| CanonicalActions.CanonicalRoundTrip | go/compose_manager.go:212-215 | parsing the canonical text of any list of allowed actions returns the list |
| CanonicalActions.CanonicalInjective | go/compose_manager.go:129-175 | two lists of allowed actions have one canonical text exactly when they are the same list |

## Left out

- Network calls, TLS pinning, redirects, URL building, header copying and environment handling: plumbing without an unbounded property.
- HPKE, Ed25519, secp256k1, the field ciphers and DCAP quote verification: parameters, as said above.
- General JSON, YAML and ASN.1 parsing: values are datatypes. The parser of `CanonicalActions` reads the canonical form and the string escapes of RFC 8259 other than surrogate pairs, without white space.
- The request side of field encryption (rs/src/e2ee.rs:270-346, go/e2ee.go:285-339): the same kind of walk over another schema, whose result no local code decrypts.
- Go's form of the response walk (go/e2ee.go:270-283, 341-471): it visits the same members in the same order, a missing member reading as null.
- Invalid UTF-8 in caller-built actions: Go's marshalling replaces it before the text is written, so strings here are sequences of scalar values.
- Update in place: `E2eeWalk` returns new values where Rust rewrites a tree through mutable references. A body whose decryption failed half way is discarded there, so no partial result is modelled.
- Rust's direct client (rs/src/direct.rs): in `RustSessions` a direct client's creations may end with any session. Go's direct client is modelled.
- The direct client's list of matching attestations in a verification result.
- Nonce choice of the field encryptor: it may give every position its own ciphertext, which is all the round trip needs.
- The parsing of Connection headers into the set of hop-by-hop names, and of Content-Length: parameters of the BHTTP models.
- Later reads after the first error: the readers' contracts are about the first one. Go's decrypting reader may report end of file afterwards.
- Varint.Encode: only for values below 2^62, as RFC 9000 defines; the programs never pass larger ones.
- Image selection, provenance pagination, attestation binding checks, System One responses, examples and the Python and TypeScript packages.
