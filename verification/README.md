# S3 encryption gateway: verified core

A Dafny model of the parts of the gateway whose correctness spans many steps, requests or bytes.

* **aws-chunked uploads** (`Chunked*.dfy`): the framing grammar of the signed, the unsigned and the anonymous mode, the signature chain and the encoders as functions, with the accepted language of each mode and the meaning of every error; the decode loop, its line reader, chunk copy and spool copy as imperative code proved to compute them. The framing is that of AWS Signature Version 4 chunked uploads.
* **Encrypted multipart uploads** (`MpuStore`, `MpuProtocol`, `MpuTheorems`, `MpuRecords`, `MpuFinalize`): the state store's atomic scripts, and any number of UploadPart workers that arrive, reserve, renew, fail, crash, send, panic and commit in any order while leases expire, replies are lost and the upload completes, aborts or disappears.
* **Ranged reads of multipart objects** (`MpuManifest`, `MpuObject`, `MpuRangeReader`, `MpuEmptyPart`, `MpuCutAnswer`): the layout check, the plaintext-to-ciphertext range mapping, the streaming reader and the ranged GET, over an arbitrary backend and any buffer sizes.
* **Authorization and routing** (`Requests`, `Routes`, `Authorization`, `AuthorizationTheorems`, `AuthorizationQueries`, `AuthorizationExact`): the request classifier and the ordered route table as two independent decision procedures over every method, path and query map, also when they read different maps from one query text.
* **Browser form uploads** (`PostScanner*`, `PostWireReader`, `PostPolicy`, `PostSpool`): the byte-level delimiter scanner with its bounded window (delimiter lines as in section 5.1.1 of RFC 2046), the bounded wire reader, policy matching and spooling.
* **Budgets** (`SpoolManager`, `RateLimiter*`): the shared spool budget with its reservations, and the admin listener's token buckets and global window.
* **Smaller state machines and codecs** (`RangeHeader`, `CopySource`, `CorsLifecycle`, `CorsWriter`, `PlaintextCache`).

`Bytes`, `Text` and `Integers` hold what these share: byte searches and hexadecimal numbers, splitting at a separator, and 64-bit integers with their wrap-around.

HMAC and AEAD appear as functions: `mac` is any function; a cipher seals and opens the object's own chunks and opens nothing else. Claims on part content are taken as collision-free and reservation tokens as distinct. Times, cancellation, disk and network results are parameters that range over all values. Integers are unbounded; 64-bit limits and wrap-around are written out where the code meets them.

## Where the code does not do what was expected of it

* **A part's plaintext can change.** `docs/adr/0009-encrypted-multipart-uploads.md:5-10` says that changed plaintext stays rejected for good. The deferred cleanup of a failed UploadPart releases the reservation it holds, and the release script deletes the part's field with its claim, also when the reservation had been re-acquired after an earlier send. UploadPart also clears its cleanup flag only after the backend call returns, so a panic inside the call releases a reservation whose plaintext may have been sent (UploadPartCopy clears it before). `MpuTheorems.ReplacingRunUnsafe` and `MpuTheorems.PanickingRunUnsafe` are runs in which two plaintexts are sent under one part number; `MpuTheorems.NonceSafetyIff` proves that all runs are safe if and only if cleanup leaves alone re-acquired reservations and those whose call has begun. The model follows the code.
* **An empty part in the middle of a range stops the read.** For a part without chunks the reader's last-chunk test fails, so it asks for a full chunk under that part's number. `MpuRangeReader.RangeReader.ReadAll` and `MpuRangeReader.ServeRange` prove that a genuine range is read to its end if and only if no part strictly between its first and last part is empty; `MpuEmptyPart.EmptyPartStopsRead` is an instance.
* **A backend answer that ends where a chunk begins looks finished.** The reader passes on the end of file it gets when no byte of the next chunk is there, so the copy ends without an error and the response counts as complete. `MpuRangeReader.ServeRange` proves that a committed response is complete if and only if the answer holds the whole range or is good up to a chunk's beginning and ends there, and that a complete body is the requested slice if and only if the answer is at least as long as was asked for. `MpuCutAnswer.FirstChunkOnly` shows it for every range of several chunks whose first chunk alone is sent; `MpuCutAnswer.CutAnswerIsComplete` is a concrete object of two bytes of which one is served.
* **Range headers can describe other bytes than the body.** A buffered range keeps the range planned from the metadata's size and cuts the body at the actual length. `RangeHeader.HeadersDescribeBody` proves that they agree if and only if nothing was planned, the sizes are equal, or the header names a last byte below both; in `RangeHeader.StalePlanInstance` three bytes are announced and one is sent.
* **A verified chunk can be spooled in part.** When the destination refuses a block in the middle of a chunk, the blocks before it stay. `ChunkedTheorems.RefusalIff` proves that the destination refuses a block if and only if the verified chunks are longer than its room, and that otherwise it holds exactly those chunks; a request that declares no more than the room is never refused (`ChunkedTheorems.DeclaredFits`). `ChunkedTheorems.PartlySpooled` is a body that ends with one block of a chunk of one block and one byte.
* **The bare header `bytes=`** makes the range cut index past its text, and of an empty plaintext the two range readings differ: `RangeHeader.FaultsOnlyOnBareUnit`, `RangeHeader.EmptyPlaintext`, with `bytes=0-0` as the instance in `RangeHeader.EmptyPlaintextInstance`.
* **Map order** decides some select requests: `AuthorizationTheorems.MixedDependsOnOrder`, with the exact family in `AuthorizationTheorems.DecisionOrderFree` and one such request in `AuthorizationTheorems.MixedInstance`.
* **Admission depends on the router reading the same query.** `AuthorizationQueries.AdmissionSafeIff` gives the exact requests for which a differing query makes an admitted request reach a handler the credential may not run, with `AuthorizationQueries.MisreadInstance` as one of them.
* **A cached body can be short** if a response stream ends early without an error at exactly the length its metadata declares. `PlaintextCache.CacheServesSeenVersion` proves that the cache serves only what was seen if and only if no version's metadata declares less than its plaintext or no stream ends early unnoticed; `PlaintextCache.ShortRunServesShort` is the failing run.

## Model

| member | source | states |
|---|---|---|
| `ChunkedTheorems.RunDelivers` | internal/api/aws_chunked_reader.go:47-189 | In every run in every mode, whatever fails around it: a declared length is never exceeded. Unless copying the last chunk was stopped, the destination is the concatenation of the chunks and `total` its length; otherwise `total` counts the chunks before the last and the destination holds those and part of the last. A refusal happens only when the chunks exceed the room, and always then unless reading back fails first; it leaves exactly the whole blocks that fit. |
| `ChunkedTheorems.RunDeliversOnlyVerified` | internal/api/aws_chunked_reader.go:47-189 | In every run of the signed decoder moreover the wire starts with the signed encoding of the delivered chunks, and an accepted run ends with the last link of the chain. |
| `ChunkedTheorems.RefusalIff` | internal/api/aws_chunked_reader.go:177-187 | Without read-back failures the destination refuses a block if and only if the verified chunks exceed its room, and holds exactly the verified chunks if and only if they do not. |
| `ChunkedTheorems.DeclaredFits` | internal/api/aws_chunked_reader.go:139-144 | A request that declares no more than the destination's room is never refused. |
| `ChunkedTheorems.OversizedChunk` | internal/api/aws_chunked_reader.go:191-207 | A signed chunk that does not fit ends the run with its whole fitting blocks at the destination. |
| `ChunkedTheorems.PartlySpooled` | internal/api/aws_chunked_reader.go:191-207 | A concrete request and body whose destination ends with a proper, non-empty part of a verified chunk. |
| `ChunkedTheorems.DecodeInvertsEncode` | internal/api/aws_chunked_reader.go:47-189 | Decoding the signed encoding of any list of non-empty chunks of at most 64 MiB, followed by nothing or one CRLF, or by anything where trailers are read next, accepts and returns exactly those chunks. |
| `ChunkedTheorems.AcceptedIsEncoding` | internal/api/aws_chunked_reader.go:47-189 | A body the decoder accepts is the encoding of the chunks it delivered, with a correct chain and length. |
| `ChunkedTheorems.AcceptsExactlyEncodings` | internal/api/aws_chunked_reader.go:47-189 | The signed decoder, with and without trailers, accepts a body if and only if it encodes some legal chunk list that fits the destination and is followed only by what may follow. |
| `ChunkedTheorems.EncodingUnique` | internal/api/aws_chunked_reader.go:62-102 | A body encodes at most one chunk list: canonical sizes leave no second reading. |
| `ChunkedTheorems.HeaderSound` | internal/api/aws_chunked_reader.go:62-102 | A signed header line that parses is the canonical size, the marker and 64 lower-case hex digits, and nothing else. |
| `ChunkedTheorems.HeaderParses` | internal/api/aws_chunked_reader.go:62-102 | Every size of at most sixteen digits and 64-digit signature parses back. |
| `ChunkedTheorems.AuthenticateIff` | internal/api/aws_chunked_reader.go:314-347 | A supplied signature authenticates a chunk if and only if it is the hex text of the chained HMAC. |
| `ChunkedPlain.AcceptsExactlyFramings` | internal/api/aws_chunked_reader.go:79-187 | Without a chain, in the unsigned and in the anonymous mode, a body is accepted if and only if it frames legal chunks that fit: each with its size, CRLF, its data and CRLF, then `0` and CRLF; anonymous headers may carry a signature that is not looked at. |
| `ChunkedPlain.DecodeInvertsFraming` | internal/api/aws_chunked_reader.go:137-187 | Decoding such a framing accepts it, delivers exactly its chunks in order and counts them. |
| `ChunkedPlain.AcceptedIsFraming` | internal/api/aws_chunked_reader.go:79-187 | An accepted body is a framing of the chunks that were delivered. |
| `ChunkedPlain.RunFramed` | internal/api/aws_chunked_reader.go:79-187 | In every run, however it ends, the wire starts with a framing of the chunks that were decoded. |
| `ChunkedPlain.PlainHeaderSound` | internal/api/aws_chunked_reader.go:79-102 | A header line that parses without a chain is a canonical size and a proper extension. |
| `ChunkedPlain.PlainHeaderParses` | internal/api/aws_chunked_reader.go:79-102 | Every such line parses back to its size. |
| `ChunkedFailures.RejectionMeans` | internal/api/aws_chunked_reader.go:47-189 | A rejected signed run has a fault right after the verified chunks that its error names: no line yet, no header, a length too large or too small, a missing CRLF, a wrong signature, trailing bytes, a cancellation or a temporary file that failed. |
| `ChunkedFailures.PlainRejectionMeans` | internal/api/aws_chunked_reader.go:47-189 | So has a rejected run without a chain. |
| `ChunkedFailures.FailureMeans` | internal/api/aws_chunked_reader.go:47-175 | One pass of the loop that fails says truly why. |
| `ChunkedFailures.ParsesIff` | internal/api/aws_chunked_reader.go:54-102 | In every mode the first line is read as a header if and only if it is a size of at most sixteen digits with a proper extension. |
| `ChunkedDecoder.VerifyChunked` | internal/api/aws_chunked_reader.go:25-189 | The decode loop delivers to the destination, counts and answers exactly as the specification of a run says, with cancellation at any block and failures of the staging file at any step. |
| `ChunkedDecoder.ReadEvent` | internal/api/aws_chunked_reader.go:47-189 | One iteration of the loop: same event and same remaining input as the specification. |
| `ChunkedDecoder.ReadAWSLine` | internal/api/aws_chunked_reader.go:218-233 | Over any buffer size, the line up to the first LF within the header limit, or the right error. |
| `ChunkedDecoder.ParseHeaderLine` | internal/api/aws_chunked_reader.go:62-102 | Parses exactly the header grammar of the request's mode. |
| `ChunkedDecoder.CopyChunk` | internal/api/aws_chunked_reader.go:235-275 | Stages exactly the next `size` bytes, or stops with the error that the first missing, cancelled or unwritable block gives. |
| `ChunkedDecoder.CopySpoolFile` | internal/api/aws_chunked_reader.go:191-207 | Appends the chunk in blocks up to the first one that cannot be read back or is refused; no error exactly when all of it was copied. |
| `ChunkedDecoder.ExpectCRLF` | internal/api/aws_chunked_reader.go:305-312 | Consumes CRLF if and only if the input starts with it. |
| `ChunkedDecoder.IndexByteString` | internal/api/aws_chunked_reader.go:296-303 | The first occurrence, or -1. |
| `ChunkedDecoder.ValidLowerHex` | internal/api/aws_chunked_reader.go:277-287 | True exactly for that many lower-case hex digits. |
| `MpuTheorems.NonceSafetyIff` | internal/api/handlers.go:2648-2655 | All interleavings of all workers, with crashes and panics, send at most one plaintext per part if and only if cleanup never releases a re-acquired reservation nor one whose backend call has begun. |
| `MpuTheorems.RunSafe` | internal/mpu/state.go:217-334 | Every run that releases no re-acquired reservation and none whose call has begun keeps the protocol's invariant and sends at most one plaintext per part. |
| `MpuTheorems.ReplacingRunUnsafe` | internal/mpu/state.go:319-334 | With the handlers' cleanup, a run of ten steps sends two plaintexts for one part. |
| `MpuTheorems.PanickingRunUnsafe` | internal/api/handlers.go:2811-2814 | So does a run of seven steps in which the backend call of a freshly reserved part panics. |
| `MpuTheorems.StepKeeps` | internal/api/handlers.go:2702-2851 | Every step of every worker keeps the invariant: exposed plaintexts agree, the record covers them, tokens are distinct, a creating owner is alone, what is committed was sent. |
| `MpuTheorems.ReserveKeeps` | internal/mpu/state.go:217-249 | Reserving, including a lost reply and re-acquisition after expiry, keeps the invariant. |
| `MpuTheorems.CommittedForever` | internal/mpu/state.go:278-302 | A committed part's record is never changed by any later step while the upload's record exists. |
| `MpuTheorems.RunRevision` | internal/mpu/state.go:342-358 | Revisions never go back, and an upload that is not open at an unchanged revision is unchanged. |
| `MpuTheorems.SelectionCommitted` | internal/mpu/state.go:370-396 | A selection that begins completion is strictly ascending, and each of its parts is committed under the selected ETag. |
| `MpuRecords.CompletionSeesSnapshot` | internal/api/handlers.go:2985-3071 | In every run, under every cleanup: if finalization at the revision that began completion succeeds, whatever ran in between, the parts are those of the snapshot, sent, ascending, and each recorded exactly as some commit before said. |
| `MpuRecords.CommittedAsSaid` | internal/mpu/state.go:278-302 | In every run every committed record carries the ETag, length and chunk count of a commit in that run, by a worker with its claim and token. |
| `MpuRecords.StandingReservationCommits` | internal/mpu/state.go:278-302 | A worker whose reservation still stands in an open upload commits at its revision, and changes nothing else. |
| `MpuRecords.UndisturbedUploadCommits` | internal/api/handlers.go:2702-2851 | A new part of an open upload that nobody disturbs is reserved, sent and committed as it was claimed. |
| `MpuRecords.SelectionIff` | internal/mpu/state.go:370-396 | A selection matches if and only if it is strictly ascending in 1..10000 and each part is committed under the selected ETag. |
| `MpuRecords.CompletionBeginsIff` | internal/mpu/state.go:370-396 | Completion begins exactly for matching non-empty selections of an open upload at its revision, and can then be finished with the same parts. |
| `MpuRecords.FinalForever` | internal/mpu/state.go:342-358 | A completed or aborted upload never changes again while its record exists. |
| `MpuRecords.LeaseIsExclusive` | internal/mpu/state.go:217-249 | In every run, under every cleanup, a reservation stays as it is until its lease has passed, its own worker uses its token or the upload disappears. |
| `MpuRecords.RunTokens` | internal/mpu/state.go:217-249 | In every run no token belongs to two workers. |
| `MpuRecords.ReserveReplies` | internal/mpu/state.go:217-249 | Reserving answers by the record: not found, wrong phase, another revision, fresh, done with its ETag, another plaintext, in progress, or taken over after expiry; only a fresh or taken-over reservation changes it. |
| `MpuRecords.CommitReplies` | internal/mpu/state.go:278-302 | A commit reports success if and only if its claim and token are reserved or already committed alike in an open upload at its revision; then the record is exactly what was committed, and otherwise nothing has changed. |
| `MpuRecords.HolderReplies` | internal/mpu/state.go:257-334 | Renewing and releasing succeed exactly for the holder of a reservation in an open upload at its revision. |
| `MpuRecords.TransitionReplies` | internal/mpu/state.go:342-358 | A phase change succeeds exactly from its phase at its revision and leaves the parts alone. |
| `MpuRecords.PhaseMoves` | internal/mpu/state.go:342-358 | No step leaves the order of the phases, and every move in it can be made. |
| `MpuRecords.WorkersOnlyAdvance` | internal/api/handlers.go:2702-2851 | A worker keeps its claim and never goes back; a failed, crashed or refused one is finished. |
| `MpuTheorems.RunRecorded` | internal/mpu/state.go:278-302 | Every run under every cleanup keeps that committed parts were sent and that records are filed under their part number. |
| `MpuFinalize.SortedParts` | internal/api/handlers.go:3704-3713 | The in-place insertion sort on a copy returns a sorted permutation. |
| `MpuFinalize.ManifestParts` | internal/api/handlers.go:3428-3463 | A manifest is built if and only if no length is negative and the total fits 64 bits; its parts are a sorted permutation of the snapshot and its total is their exact sum. |
| `MpuFinalize.SumSnapshot` | internal/api/handlers.go:3075-3081 | The later sum without a guard neither wraps nor differs from the manifest's total, though it runs over the unsorted snapshot. |
| `MpuFinalize.SumPermuted` | internal/api/handlers.go:3075-3081 | The total does not depend on the order of the parts. |
| `MpuManifest.ValidateLayout` | internal/crypto/mpu_manifest.go:126-163 | Accepts exactly the empty manifest and the consistent layouts. |
| `MpuManifest.PlainOffsetToPartChunk` | internal/crypto/mpu_manifest.go:203-225 | Finds the chunk that holds an offset, if and only if the offset is inside the plaintext. |
| `MpuManifest.EncRangeForPlaintextRange` | internal/crypto/mpu_manifest.go:276-328 | Maps every satisfiable range, and no other, to the ciphertext of the chunks from the one holding its start to the one holding its end. |
| `MpuObject.PlainWindow` | internal/crypto/mpu_manifest.go:203-225 | Each chunk lies in the plaintext where the manifest's offsets say. |
| `MpuObject.CipherWindow` | internal/crypto/mpu_manifest.go:230-248 | Each sealed chunk lies in the ciphertext where the manifest's offsets say. |
| `MpuRangeReader.RangeReader.Read` | internal/api/object_stream.go:551-608 | Over any source, also a tampered one: what is returned is always the next bytes of the range, a chunk is accepted if and only if it is the object's own, and end of file comes exactly at the end of the range or where the source ends before the next chunk. |
| `MpuRangeReader.RangeReader.ReadAll` | internal/api/object_stream.go:551-608 | Any sequence of buffer sizes returns the range's bytes in order; with enough reads it ends in end of file if and only if the source holds every chunk of the range with no empty part between, or is good up to some chunk and ends there; the bytes then stop at the end of the range or at that chunk. |
| `MpuRangeReader.RangeReader.ReadFirst` | internal/api/object_stream.go:714-733 | The read-ahead yields the first chunk's share of the range if and only if that chunk authenticates. |
| `MpuRangeReader.ServeRange` | internal/api/handlers.go:3364-3406 | Over any backend: the partial response is committed if and only if the first chunk at the start of the answer is genuine; its body is a prefix of the requested slice; it is complete if and only if the answer is whole or cut where a chunk begins, and a complete body is the whole slice if and only if the answer is as long as was asked for; with a genuine backend it is complete if and only if no part strictly inside the range is empty. |
| `MpuRangeReader.CutIsShort` | internal/api/object_stream.go:573-575 | An answer cut where a chunk of the range begins is shorter than what was asked for, and a whole one is not. |
| `MpuRangeReader.GenuineAnswer` | internal/api/object_stream.go:568-578 | The requested ciphertext is never cut, and is whole if and only if no part strictly inside the range is empty. |
| `MpuRangeReader.OpenRange` | internal/api/handlers.go:3364-3400 | The preflight limit is exactly the first chunk's share of the range, and it is positive. |
| `MpuRangeReader.OpensOnlyOwn` | internal/api/object_stream.go:575-582 | Under a part number and chunk index only the object's own sealed chunk opens, and in an empty part nothing does. |
| `MpuEmptyPart.EmptyPartStopsRead` | internal/api/object_stream.go:568-578 | A valid object of three parts, the middle one empty, whose whole range cannot be read though every chunk is genuine. |
| `MpuCutAnswer.FirstChunkOnly` | internal/api/object_stream.go:573-575 | Of any object and any range of several chunks, an answer that holds the first chunk only is good up to the second and ends there. |
| `MpuCutAnswer.CutAnswerIsComplete` | internal/api/object_stream.go:744-756 | A valid object of two chunks over a backend that sends the first one only: the response is complete and holds one byte of two. |
| `AuthorizationTheorems.AdmittedMayRun` | internal/api/authorization.go:61-145 | For every request whose query the router and the classifier read alike, every credential, key order and reading of the query templates, an admitted request is dispatched only to a handler whose own permission the credential has, on the bucket that was checked. |
| `AuthorizationQueries.AdmissionSafeIff` | internal/api/authorization.go:61-145 | When the router sees any other query: every admitted request still reaches only handlers its credential may run, if and only if no classified bucket mutation selects a subresource for one of the two and none for the other, and no classified select request shows the router a mutation key. |
| `AuthorizationQueries.SelectorSeen` | internal/api/handlers.go:340-495 | A bucket mutation reaches a subresource handler if and only if the router sees one of its selectors, and otherwise the generic one. |
| `AuthorizationQueries.MutationSeen` | internal/api/handlers.go:340-495 | A POST to an object reaches a write handler if and only if the router sees a mutation key, which goes before select. |
| `AuthorizationQueries.SameQueryAgrees` | internal/api/authorization.go:61-145 | With the same query for both, no request is of that kind. |
| `AuthorizationQueries.MisreadInstance` | internal/api/authorization.go:276-290 | `DELETE` of a bucket in whose query only the router sees `policy` is of that kind. |
| `AuthorizationExact.ClassifiedExactly` | internal/api/authorization.go:245-475 | Every request under every order of its keys is classified by method, path and the keys it carries alone, with the exact condition for each operation; only for mixed select requests is it open whether they are writes. |
| `AuthorizationExact.AdmittedExactly` | internal/api/authorization.go:92-130 | Such a request is admitted if and only if its bucket is in scope and the credential has what the operation needs, or it lists buckets and the credential may read. |
| `AuthorizationExact.PlainObjectRequestReaches` | internal/api/handlers.go:480-484 | A plain GET, HEAD, PUT or DELETE of any object is admitted exactly when the bucket is in scope and the credential may write where it must, and reaches the object handler of its method; only a key with a line break has no route, and a probe path is a probe. |
| `AuthorizationExact.OperationArrives` | internal/api/handlers.go:340-495 | A request that shows the router exactly one operation on an object or bucket arrives at that operation's route. |
| `AuthorizationExact.PartArrives` | internal/api/handlers.go:340-495 | A PUT that shows a part number and an upload arrives at the part upload. |
| `AuthorizationExact.SelectRequestArrives` | internal/api/authorization.go:425-452 | A select request that is classified as a read arrives at a route that reads. |
| `AuthorizationExact.GenericArrives` | internal/api/handlers.go:470-495 | A request that shows no operation arrives at the generic handler of its method. |
| `AuthorizationTheorems.OnlyBareBucketRequests` | internal/api/handlers.go:470-478 | Only a request without operation keys, classified as creating or deleting a bucket, reaches those handlers. |
| `AuthorizationTheorems.BareBucketRequestReaches` | internal/api/authorization.go:276-290 | Such a request, with or without a trailing slash, is admitted exactly when the bucket is in scope and the credential may create or delete it, and it reaches that handler under every reading. |
| `AuthorizationTheorems.BucketParity` | internal/api/authorization.go:245-318 | A classified bucket request reaches a handler with exactly the classified permission. |
| `AuthorizationTheorems.ObjectParity` | internal/api/authorization.go:337-475 | A classified object request does too, except that a write may reach the select handler, which only reads. |
| `AuthorizationTheorems.SelectorReached` | internal/api/authorization.go:213-237 | A bucket mutation admitted for a subresource reaches that subresource's own handler. |
| `AuthorizationTheorems.GenericReached` | internal/api/handlers.go:340-495 | Signing parameters never select a route: without operation keys a bucket mutation reaches the generic handler. |
| `AuthorizationTheorems.SamePath` | internal/middleware/trailing_slash.go:50-97 | After the trailing slash is stripped the router sees the classifier's bucket and agrees on whether there is a key. |
| `AuthorizationTheorems.DecisionOrderFree` | internal/api/authorization.go:245-475 | Unless a select request carries both a mutation key and a foreign key, the decision does not depend on map order. |
| `AuthorizationTheorems.MixedDependsOnOrder` | internal/api/authorization.go:432-446 | For each such request one order refuses it and another admits it as a write. |
| `AuthorizationTheorems.MixedInstance` | internal/api/authorization.go:432-446 | `POST /b/k?select&uploads&acl` is such a request. |
| `PostScannerAccepts.FramedIff` | internal/api/post_form.go:341-517 | The scanner is content with a stream if and only if it is a form with a clean body: blank lines of at most 20 KiB, one opening delimiter line, a body in which, byte by byte, no bare delimiter line ends and no closing delimiter is followed by the end of its line, a closing delimiter preceded by CRLF, and only white space after it. |
| `PostScannerAccepts.UnfinishedIff` | internal/api/post_form.go:487-489 | A stream is left unfinished if and only if it is a form that was opened and whose body stays open. |
| `PostScannerAccepts.FoundIs` | internal/api/post_form.go:385-405 | What the scanner finds at a position, said of the bytes before it: a delimiter line without a carriage return, or a closing delimiter. |
| `PostScannerAccepts.CleanIff` | internal/api/post_form.go:385-405 | A body is clean byte by byte if and only if the scanner finds nothing harmful in it. |
| `PostScannerAccepts.FramedIsClean` | internal/api/post_form.go:341-517 | The parts of an accepted stream. |
| `PostScannerAccepts.FormIsFramed` | internal/api/post_form.go:341-517 | Every form with a clean body is accepted, however it is padded. |
| `PostScannerWindow.WindowSuffices` | internal/api/post_form.go:341-462 | On every stream the scanner, whose window never exceeds the boundary's length plus eight, decides as one that keeps and searches the whole body. |
| `PostScannerWindow.FoundExact` | internal/api/post_form.go:385-405 | The window ends with a delimiter if and only if the body does, also after a closing delimiter that did not end its line. |
| `PostScannerTheorems.CutsDoNotMatter` | internal/api/post_form.go:341-408 | However the stream is cut into reads, the scanner's state is the same. |
| `PostScannerTheorems.WindowBounded` | internal/api/post_form.go:456-462 | The window never exceeds the boundary's length plus eight. |
| `PostWireReader.WireReader.Read` | internal/api/post_form.go:288-331 | What is returned is what the body yielded, all of it is scanned in order, at most one byte beyond the limit is ever read, an overrun is final, and the status is the body's own unless the limit or an empty read overrides it. |
| `PostWireReader.WireReader.Scan` | internal/api/post_form.go:341-408 | The byte loop computes the scanner's state. |
| `PostWireReader.WireReader.RecognizeFile` | internal/api/post_form.go:275-286 | Sets the wire limit once, and refuses a file limit whose sum would overflow. |
| `PostWireReader.WireReader.AddFileBytes` | internal/api/post_form.go:333-339 | Counts file bytes, never beyond the file limit. |
| `PostWireReader.WireReader.Finish` | internal/api/post_form.go:464-517 | When the body has ended: success if and only if its bytes are a form with a clean body and at most 20 KiB of them were not file bytes; a form with more is too large, a form that was not closed is incomplete, and anything else is malformed. |
| `PostPolicy.MatchConditions` | internal/api/post_policy.go:345-415 | Accepts if and only if every condition holds, the length ranges have a common length and every field is covered or exempt; the window is exactly the lengths that all ranges admit. A policy is called malformed only for an unknown operator on a field that is there, and a form unsupported only for a field it may not use. |
| `PostPolicy.CheckCondition` | internal/api/post_policy.go:366-390 | One condition's check succeeds if and only if the condition holds: the field, or the request's bucket, is there and equals or begins with the value, each part of a content type included. |
| `PostPolicy.OrderDoesNotMatter` | internal/api/post_policy.go:351-391 | Permuting the conditions changes neither the decision nor the window. |
| `PostSpool.SpoolFile` | internal/api/post_spool.go:13-161 | A stored file is the content of the file part, byte by byte, inside its window and every limit, and equals in length the bytes reserved for it; no check on the way saw the request cancelled or late. A refused one leaves nothing reserved and has a true reason. When nothing interferes the file is stored if and only if its length is allowed and the budget has room. |
| `PostSpool.AcceptUpload` | internal/api/post_policy.go:536-543 | A stored file is the content of the file part of a form that the policy allows, its length is admitted by every length range and inside the wire, configured and request limits, and exactly that length stays reserved; when nothing interferes it is stored if and only if all of this and the budget allow it. |
| `PostSpool.CopyFile` | internal/api/post_spool.go:68-133 | The copy loop ends, charges every byte before it is written and writes what it read in order; it succeeds on the whole content whenever nothing interferes and the content fits. |
| `PostSpool.MaximumIsLimit` | internal/api/post_spool.go:20-30 | The computed maximum is the least of the limits that apply. |
| `SpoolManager.Manager.Acquire` | internal/api/spool_manager.go:121-138 | Grants exactly when the request fits its limit and the capacity; the total stays the sum of the unreleased reservations, within the capacity, without overflow. |
| `SpoolManager.Manager.ReconfigureCapacity` | internal/api/spool_manager.go:87-99 | Changes the capacity exactly when it is positive and covers what is in use. |
| `SpoolManager.Reservation.Grow` | internal/api/spool_manager.go:139-170 | Grows exactly when limit and capacity allow, keeps the total equal to the sum, and no expression overflows. |
| `SpoolManager.Reservation.Release` | internal/api/spool_manager.go:171-179 | Gives back what was used the first time and nothing after that. |
| `SpoolManager.ReservingWriter.Write` | internal/api/spool_manager.go:265-291 | The reservation is charged exactly the larger of the declared and the offered length, before the write beneath; what was written, after short and failed writes too, never exceeds the charge. |
| `RateLimiterTheorems.AddressBound` | internal/admin/ratelimit.go:54-105 | In any stretch of d seconds of any run one address is admitted at most rpm + rpm * d / 60 times. |
| `RateLimiterTheorems.GlobalBound` | internal/admin/ratelimit.go:65-97 | In any sixty seconds of any run at most twice the global cap is admitted. |
| `RateLimiterTheorems.EvictionInvisible` | internal/admin/ratelimit.go:107-114 | Evicting buckets idle for five minutes never changes the tokens any address has from then on. |
| `RateLimiterTheorems.CallTakesOne` | internal/admin/ratelimit.go:74-105 | A call takes one token from its own address if admitted and nothing from anyone else, at every later time. |
| `RateLimiterTheorems.CallKeepsValid` | internal/admin/ratelimit.go:54-105 | Counts, bucket numbers and token levels stay in their bounds. |
| `RateLimiterTheorems.AdmittedIff` | internal/admin/ratelimit.go:54-105 | A call is admitted if and only if its address has a token, there is room among 10,000 clients, and fewer than 120 calls were admitted in a window that has not ended. |
| `RateLimiterTheorems.WaitingRestores` | internal/admin/ratelimit.go:84-90 | After 60 / rpm seconds every address has a token again. |
| `RateLimiterTheorems.CleanedUp` | internal/admin/ratelimit.go:99-114 | Every hundredth admitted call of a window leaves no bucket that was idle for five minutes. |
| `RateLimiter.Limiter.Allow` | internal/admin/ratelimit.go:54-105 | The locked method computes the specified state and decision. |
| `RateLimiter.Limiter.Cleanup` | internal/admin/ratelimit.go:107-114 | Deletes exactly the stale buckets. |
| `RangeHeader.ReadingsAgree` | internal/api/object_response.go:228-242 | For every header and non-empty plaintext the two parsers, at the same size, give the same slice or both refuse. |
| `RangeHeader.ParsedInside` | internal/crypto/range_optimization.go:312-327 | A range the shared parser accepts is in order and inside a known size. |
| `RangeHeader.ParseIntIff` | internal/crypto/range_optimization.go:264-310 | A text is read as a number if and only if it is digits after at most one sign and its value fits 64 bits. |
| `RangeHeader.HeadersDescribeBody` | internal/api/object_stream.go:388-451 | For every header, planned size and plaintext: a range is answered exactly when it can be cut from the plaintext, the total is the actual length, and Content-Range is the range of the bytes sent if and only if nothing was planned, the planned size is the actual one, or the header names a last byte below both. |
| `RangeHeader.StalePlanInstance` | internal/api/object_stream.go:388-398 | `bytes=1-` planned at four bytes, of a plaintext of two: headers 1-3 and length 3 over a body of one byte. |
| `RangeHeader.ExplicitRange` | internal/api/handlers.go:1859-1919 | `a-b` yields the bytes from a to b or the last one (section 14.1.2 of RFC 9110). |
| `RangeHeader.OpenRange` | internal/api/handlers.go:1859-1919 | `a-` yields the bytes from a on. |
| `RangeHeader.SuffixRange` | internal/api/handlers.go:1867-1879 | `-n` yields the last n bytes, or all of them. |
| `RangeHeader.FaultsOnlyOnBareUnit` | internal/api/handlers.go:1865-1869 | The cut indexes past its text if and only if the header is `bytes=`. |
| `RangeHeader.EmptyPlaintext` | internal/crypto/range_optimization.go:264-330 | Of an empty plaintext nothing is cut; the other reading accepts exactly the explicit ranges that are in order. |
| `RangeHeader.EmptyPlaintextInstance` | internal/crypto/range_optimization.go:264-330 | On an empty plaintext `bytes=0-0` is refused by the cut and accepted by the other reading. |
| `CopySource.RoundTrip` | internal/api/handlers.go:4517-4537 | Parsing inverts every percent-encoding (section 2.1 of RFC 3986) that escapes the question mark, with or without a leading slash, for every bucket without a slash, every key and every optional version. |
| `CopySource.ParsedIsEncoding` | internal/api/handlers.go:4517-4537 | Whatever is parsed is an encoding of the result. |
| `CorsLifecycle.PoliciesStayCurrent` | internal/api/handlers.go:1828-1854 | In every run of create, delete and CORS requests, where each call may fail or take effect and report failure, an existing bucket's policy was written in its current incarnation. |
| `CorsLifecycle.PolicyIsLastWritten` | internal/api/cors_handlers.go:252-331 | After any run, with calls that fail or only seem to, a bucket has a policy if and only if some request wrote one that nothing since wrote over or dropped, and it is that request's. |
| `CorsLifecycle.PolicyStays` | internal/api/cors_handlers.go:252-331 | Requests that neither write nor drop a bucket's policy leave it as it is. |
| `CorsLifecycle.HandledBucket` | internal/api/handlers.go:1828-1854 | Buckets come into being with a new incarnation and go only by their own requests. |
| `CorsWriter.Writer.WriteHeader` | internal/api/cors_middleware.go:195-234 | Every header block on the wire, informational or final and after any changes to the header map, carries the decision header by header: the preflight's answer, or the allowed origin, the exposed headers and credentials exactly when the decision has them, and no other Access-Control-* header; it varies by what the decision asks for, the final block of an allowed request always by origin; all other headers are the handler's. |
| `CorsWriter.Writer.Reconcile` | internal/api/cors_middleware.go:156-187 | Replaces whatever Access-Control-* headers there are by the decision's, extends Vary and leaves the other headers alone. |
| `CorsWriter.Writer.AddVary` | internal/api/cors_middleware.go:279-299 | Vary keeps what it lists and gains exactly the given names that it lacked. |
| `CorsWriter.Writer.Strip` | internal/api/cors_response_headers.go:148-154 | Removes exactly the Access-Control-* headers. |
| `CorsWriter.Writer.Replace` | internal/api/cors_response_headers.go:112-146 | Copies exactly the decision's preflight headers. |
| `CorsWriter.Writer.Body` | internal/api/cors_middleware.go:236-258 | Write, Flush and ReadFrom send a reconciled header first. |
| `CorsWriter.Writer.Finish` | internal/api/cors_middleware.go:189-193 | A response that sent nothing sends a reconciled header, unless the connection was hijacked. |
| `CorsWriter.Writer.Hijack` | internal/api/cors_middleware.go:259-269 | Marks the connection as taken over exactly when the writer beneath supports it. |
| `PlaintextCache.CacheServesSeenVersion` | internal/api/handlers.go:825-873 | In all interleavings of writes, deletes, fills, failures and hits every body served from the cache is the plaintext of the version that the request's own probe saw, if and only if no version's metadata declares less than its plaintext or no stream ends early without an error. |
| `PlaintextCache.RunServesSeen` | internal/api/object_stream.go:1030-1072 | Because only captures of the declared length are stored, every run keeps captures prefixes of their version and cached bodies whole. |
| `PlaintextCache.FillIsServed` | internal/api/object_stream.go:1030-1072 | A fill of the declared length is cached, up to and including the limit, and the next hit serves exactly what was sent. |
| `PlaintextCache.ShortRunServesShort` | internal/api/object_stream.go:1057-1068 | Otherwise a run of six steps stores and serves a short body. |
| `PlaintextCache.Stream` | internal/api/object_stream.go:1030-1072 | Whatever size was declared and however the stream is cut or fails, a capture is stored if and only if that size is eligible, the stream did not fail and exactly that many bytes were sent; it is what was sent. |
| `PlaintextCache.Capture.Write` | internal/api/object_stream.go:491-510 | Keeps all of what is offered, or overflows for good without changing what it holds. |

## Left out

- AuthorizationExact.AdmittedExactly: does not include the scope check on the source bucket of a copy, which the middleware and the copy handlers make besides.
- MpuRecords.SelectionIff: compares ETags without the quotes around them, which the script removes.
- ChunkedDecoder.VerifyChunked: takes a signing context that stays open and a body whose reads end only at its end.
- Trailers after the final chunk, the seed signature and the string to sign: cryptographic or library behaviour.
- Legacy state versions, the sixteen-attempt retry loop and the size limits of the multipart state store; a retry is a further step of the same worker.
- The expiry of an upload's record is the `Remove` step; a record that is created again under the same id is not modelled.
- MpuTheorems.NonceSafetyIff: idealises claims as collision-free and tokens as distinct.
- AuthorizationTheorems.AdmittedMayRun: takes one parsed query for both sides; how the router's library reads the raw query text is not part of this model, and `AuthorizationQueries.AdmissionSafeIff` says for which pairs of readings admission stays safe.
- Query keys are one constructor for each name the code uses; header, path and media type parsing are inputs.
- The classifier's shortcut for an already matched route, which is not taken when the middleware wraps the router, and the paths that bypass it (probe endpoints and browser preflights without credentials).
- MIME header parsing and the assembly of form fields; the policy's JSON, its dates and its signature; upper-case field names, which are folded before matching.
- RateLimiterTheorems.AddressBound: takes a non-negative rate and exact arithmetic; a negative configured rate admits nothing, and rounding of floating-point tokens is not modelled.
- CorsLifecycle.PoliciesStayCurrent: runs each handler to its end; overlapping handlers for one bucket are not modelled.
- CorsWriter.Writer.AddVary: compares the names in Vary as they are written; letter case and surrounding blanks are not modelled.
- ListObjects paging, size caches, the other read plans for single-part objects (plain, pass-through and optimized ranges), key management, TLS, metrics, audit and the admin HTTP server.
