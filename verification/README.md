# A verified model of the rust-reapi cache server

The server keeps one key-value blob store behind three gRPC services of the Remote Execution
API v2: ContentAddressableStorage, ByteStream and ActionCache. This project models the store, the
blob codec, the resource-name parser and the request handlers, and proves what clients rely on:
uploads are checked, stored content never changes, an action result is only ever recorded when
everything it refers to is there, and reads give back what was written — under every interleaving
of calls and every pattern of storage faults.

`dafny verify dfyconfig.toml` checks everything.

## How the model is built

* **The machine.** `Calls.dfy` turns each handler into a program of atomic store operations: a
  program point (`Pc`), the operation it performs next (`NextOp`) and how it goes on with the answer
  (`Resume`). `Server.dfy` runs any number of such calls over one store; a run is any sequence of
  events (a call arrives, a call makes one step, the step's store operation may fail), so a
  statement about all event sequences is a statement about every interleaving. The messages of a
  write stream touch no shared state until the final put, so a write's arrival carries its whole
  stream.
* **The handlers.** `CasService`, `ByteStreamService` and `ActionCacheService` are classes over the
  mutable `InMemoryStore`, with the loops and early returns of the source. Each method is proved
  equal to the machine's call run without interruption (`RunAlone`), reply and final store, over a
  working store and over one whose lock is poisoned; iteration by iteration the loops follow the
  machine's steps, so the theorems about runs are theorems about the same code.
* **The invariant.** `Invariant.dfy` says what the store always satisfies and what a call in
  progress has established at each program point (for instance: the first `next` digests an update
  has checked are present, and the digests gathered include those of every tree read so far).
  `Runs`, `Sessions`, `Guarantees`, `Refinement` and `Isolation` draw the consequences over whole
  runs; `BatchUploads` and `ActionResults` say what single uncontended calls do, and
  `ConcurrentUpdates` when an update succeeds while other calls run.

## What is assumed

* `Primitives.Lawful`: the hash of the empty string is the constant the source names, decoding
  a compressed string gives it back, and decoding an encoded ActionResult gives it back. Nothing is
  assumed of decoders on other input: they may deliver any bytes and then end or fail.
* Freedom from hash collisions is a hypothesis only where the property needs it, and only for the
  contents the CAS held during the run in question (`Runs.NoCollisions`); the rows below that need
  it say "No collisions". CAS integrity does not. `Runs.ContentIsReplacedExactlyOnCollision` and its
  companion show that stability cannot do without it.
* `ToyPrimitives` gives an instance that meets all of this at once, and in which an update of the
  action cache succeeds.

Sizes are natural numbers; the places where the source's 64-bit integers matter (write offsets cast
with `as i64`, the saturating increment of the bounded decoder, the committed size, the parsed size)
are written out. Keys ignore `size_bytes`, a batch read does not check the requested size, and a
validation may store the empty blob uncompressed, even during a get: the model keeps all three.

## Model

| member | source | states |
|---|---|---|
| InMemory.InMemoryStore.constructor | rust-reapi/src/storage/in_memory.rs:24-28 | A new store is empty and usable. |
| InMemory.InMemoryStore.Get | rust-reapi/src/storage/in_memory.rs:33-44 | Answers the entry under the key or none; fails exactly when the lock is poisoned. |
| InMemory.InMemoryStore.Put | rust-reapi/src/storage/in_memory.rs:46-65 | Replaces exactly the entry under the key, or changes nothing when the lock is poisoned. |
| InMemory.InMemoryStore.Contains | rust-reapi/src/storage/in_memory.rs:67-73 | Answers whether the key has an entry; fails exactly when the lock is poisoned. |
| Calls.StepsComeNearer | rust-reapi/src/services/action_cache.rs:58-106 | Every step of every call, whatever others did to the store and whether or not it fails, brings the call nearer its end in a well-founded order: no call goes on for ever. |
| Calls.ServedExactlyWhen | rust-reapi/src/services/cas.rs:96-97 | The five calls that name a digest function are served, under SHA-256 and for the instance they name, exactly when it is 0 or 1 and the messages they need are there, and refused with InvalidArgument otherwise. |
| Calls.StreamsServedExactlyWhen | rust-reapi/src/services/bytestream.rs:85-98 | A stream read goes on exactly with the read that is planned, a stream write with the commit that is accepted; else each is refused with that code. |
| Steps.FaultsAnswerInternal | rust-reapi/src/services/cas.rs:107-111 | A failed store operation changes nothing; a batch answers Internal for the item at hand and goes on, and every other call is refused with Internal. |
| BlobStore.EncodingFromProto | rust-reapi/src/storage/blob_store.rs:40-53 | Wire value 0 is identity and 1 is zstd, inverse to the encodings' own wire values; any other value, known to the protocol or not, is refused. |
| Digests.ResolveProtoValue | rust-reapi/src/digest/mod.rs:40-47 | SHA-256 serves exactly the digest functions 0 (unknown, the default) and 1 (SHA-256). |
| Digests.Validate | rust-reapi/src/digest/mod.rs:55-80 | Succeeds exactly when both the size and the hash are those of the data; a negative size is always its own error. |
| BlobCodec.ReadToEndLimited | rust-reapi/src/storage/blob_codec.rs:124-129 | Through any pattern of short reads the result is the same prefix or error, and the largest size the buffer ever has is min(available, limit), whether the read succeeds or fails in the end. |
| BlobCodec.ReadToEnd | rust-reapi/src/storage/blob_codec.rs:66-68 | Through any pattern of short reads the whole body is collected, or the reader's error reported. |
| BlobCodec.Decompress | rust-reapi/src/storage/blob_codec.rs:121-139 | The decoder loop computes the bounded decode of the next two rows. |
| BlobCodec.BoundedDecodeIsFullDecode | rust-reapi/src/storage/blob_codec.rs:121-139 | Below the u64 maximum, the bounded decode returns `out` if and only if the whole stream decodes to `out` and has the expected length; otherwise it reports min(true length, n + 1), or a read error, and says exactly when which. |
| BlobCodec.BoundedDecodeAgreesExactlyWhen | rust-reapi/src/storage/blob_codec.rs:127-136 | At the u64 maximum the increment saturates; agreement with the full decode then holds if and only if the stream is shorter than the maximum, or of that length and free of errors. |
| BlobCodec.TranscodeBlob | rust-reapi/src/storage/blob_codec.rs:50-94 | The reading and recoding steps compute the transcoding the following rows are about. |
| BlobCodec.IntoIdentity | rust-reapi/src/storage/blob_codec.rs:34-41 | Computes the decoded data that the round-trip rows are about. |
| BlobCodec.TranscodePreservesMeaning | rust-reapi/src/storage/blob_codec.rs:34-94 | A well-formed blob can always be transcoded; the result has the target encoding, is well formed and means the same. |
| BlobCodec.ChangingEncodingChecksTheBlob | rust-reapi/src/storage/blob_codec.rs:54-94 | For an arbitrary blob, even one with lying metadata: a change of encoding succeeds if and only if the blob decodes to its declared size within the limit, and the result is then well formed. |
| BlobCodec.TranscodingsPreserveMeaning | rust-reapi/src/storage/blob_codec.rs:50-94 | Any sequence of transcodings of a well-formed blob succeeds, ends in the last target and keeps the content. |
| BlobCodec.TranscodeCanonical | rust-reapi/src/storage/blob_codec.rs:43-94 | The stored encoding never shows: recoding a server-made blob gives the server-made blob of the target encoding, or the limit error exactly above 100 MiB. |
| BlobCodec.SelectBatchReadResponseEncoding | rust-reapi/src/storage/blob_codec.rs:96-111 | The reply is Zstd if and only if the client accepts Zstd, whatever is stored. |
| Uploads.AdmittedExactlyWhenGenuine | rust-reapi/src/services/cas.rs:40-63 | An upload passes if and only if the declared digest is the digest of what the data decodes to, within 100 MiB; the stored blob depends on that content alone; every refusal is the client's error. |
| CasServices.CasService.PutVerifiedBlob | rust-reapi/src/services/cas.rs:32-68 | The status and the store are those of the admission above followed by one put, faults included. |
| CasServices.CasService.FindMissingBlobs | rust-reapi/src/services/cas.rs:89-121 | A digest function other than 0 or 1 is InvalidArgument; with no other writer the reply is exactly the digests absent from the store, in request order; and the loop is the machine's call run alone. |
| CasServices.AbsentAmongMembers | rust-reapi/src/services/cas.rs:99-116 | The digests reported are exactly those requested whose key is not in the store. |
| CasServices.AbsentAmongParts | rust-reapi/src/services/cas.rs:99-116 | And they keep the order of the request: what is absent of two lists in a row is what is absent of the first, then of the second. |
| CasServices.CasService.BatchReadBlobs | rust-reapi/src/services/cas.rs:123-224 | A digest function other than 0 or 1 is InvalidArgument; otherwise one response per digest, in order: NotFound, without data, exactly when its blob is absent, Internal when the lock is poisoned, and Ok whenever the blob is there and sound; the loop is the machine's call run alone and leaves the store unchanged. |
| Sessions.ReadItemAnswers | rust-reapi/src/services/cas.rs:148-218 | One batch-read response in every case and over any store: Internal on a fault or for a blob that cannot be recoded, NotFound for an absent one, else the blob as zstd if the client accepts it and plain if not. |
| CasServices.CasService.BatchUpdateBlobs | rust-reapi/src/services/cas.rs:226-278 | One response per item, in order; the loop is the machine's call run alone, so BatchUploads applies to it. |
| BatchUploads.AcceptedExactlyWhen | rust-reapi/src/services/cas.rs:236-269 | An item is accepted if and only if it has a digest, a supported compressor and a genuine upload; its blob is one its key allows; every refusal is InvalidArgument. |
| BatchUploads.BatchUpdateOutcome | rust-reapi/src/services/cas.rs:226-278 | Each response of a fault-free batch is a function of its own item, and the store is the old one with the accepted items put in order. |
| BatchUploads.BatchOrderDoesNotMatter | rust-reapi/src/services/cas.rs:236-277 | Permuting a batch permutes the responses and leaves the final store equal. (No collisions.) |
| BatchUploads.BatchAddsExactlyTheAccepted | rust-reapi/src/services/cas.rs:236-277 | The set of stored byte strings after a batch is the old set plus exactly the accepted contents; the action cache is untouched and the store stays sound. (No collisions.) |
| ResourceNames.SplitJoin | rust-reapi/src/services/bytestream.rs:249-249 | Splitting joined segments at slashes gives the segments back. |
| ResourceNames.DecimalRoundTrip | rust-reapi/src/services/bytestream.rs:307-310 | Parsing the decimal form of a non-negative i64 gives the number back. |
| ResourceNames.ParsedExactlyWhenSpelled | rust-reapi/src/services/bytestream.rs:307-307 | A size is read as a number if and only if it is an optional sign and digits with that value, in range. |
| ResourceNames.DigitsValueShifts | rust-reapi/src/services/bytestream.rs:307-307 | The value of digits is positional in base ten. |
| ResourceNames.AcceptedExactlyWhenSpelled | rust-reapi/src/services/bytestream.rs:246-320 | The parser accepts a name as a resource if and only if the name is one of the spellings the grammar has for it: any prefix without markers, the compressor, the algorithm or none, hash, size in any spelling, any metadata. |
| ResourceNames.PlainNameInUse | rust-reapi/src/services/bytestream.rs:342-356 | A concrete read name parses to its instance, algorithm, hash and size. |
| ResourceNames.UploadNameInUse | rust-reapi/src/services/bytestream.rs:367-378 | A concrete upload name without an algorithm parses, with its upload id. |
| ResourceNames.CompressedNameInUse | rust-reapi/src/services/bytestream.rs:273-310 | A concrete compressed name with a signed, padded size and trailing metadata parses. |
| ResourceNames.RoundTrip | rust-reapi/src/services/bytestream.rs:246-320 | For every well-formed resource and any trailing metadata, parsing the printed name gives the resource back if and only if the metadata is empty, the algorithm is given, or the hash is not spelled `sha256`. |
| ResourceNames.ParsedIsWellFormed | rust-reapi/src/services/bytestream.rs:246-320 | Whatever string is accepted, the resource it yields is well formed. |
| ResourceNames.NamedExactlyWhenWellFormed | rust-reapi/src/services/bytestream.rs:246-320 | A resource is the parse of some name if and only if it is well formed, and then of its printed name. |
| ResourceNames.NormalizationIsIdempotent | rust-reapi/src/services/bytestream.rs:246-320 | Every accepted spelling has a normal form that is accepted, names the same resource and is its own normal form. |
| ResourceNames.ReadAndUploadNamesAgree | rust-reapi/src/services/bytestream.rs:322-335 | For instance names legal in the Remote Execution API, every upload name and every read name of a blob parse as meant and resolve to the same key. |
| ByteStreams.ReceiveFrom | rust-reapi/src/services/bytestream.rs:166-231 | The receiver, from any point of a stream that has kept the rules so far, gets to the end if and only if the rules of offsets and names hold up to the first `finish_write`; it then holds exactly the concatenated data and the first name's resource. |
| ByteStreams.WriteAcceptedExactlyWhenAcceptable | rust-reapi/src/services/bytestream.rs:160-236 | A stream is accepted if and only if, up to its first `finish_write`, each offset is the sum of the lengths before it, the first name parses with an upload id, later names are empty or equal, and the concatenated data itself under a `blobs` name, or what it decompresses to under `compressed-blobs/zstd`, has the named size and hash within 100 MiB; the commit is then the named key, that content, and the concatenated length. The code of every refusal is given: Unimplemented for another compressor, the stream's own error if it broke off. |
| ByteStreams.PayloadAt | rust-reapi/src/services/bytestream.rs:197-197 | The accumulated data is that of the messages, byte by byte, in order. |
| ByteStreams.CommitOutcome | rust-reapi/src/services/bytestream.rs:203-229 | A received upload is refused as Unimplemented for a compressor other than zstd, and else committed if and only if what its data stands for has the named size and hash. |
| ByteStreams.LaterMessagesAreIgnored | rust-reapi/src/services/bytestream.rs:199-230 | Messages after the first `finish_write`, and how the stream ends, have no influence. |
| ByteStreams.ChunkingDoesNotMatter | rust-reapi/src/services/bytestream.rs:170-230 | Two ways of cutting the same data into messages under the same name give the same commit or the same error. |
| ByteStreamServices.ByteStreamService.Write | rust-reapi/src/services/bytestream.rs:160-236 | Success if and only if the stream is acceptable and the store works; success changes exactly one key, failure changes nothing; and the loop is the machine's call run alone. |
| ByteStreamServices.ByteStreamService.Finalize | rust-reapi/src/services/bytestream.rs:199-229 | The reply and the store are those of the commit of the received data, faults included. |
| ByteStreams.ChunksTile | rust-reapi/src/services/bytestream.rs:146-153 | The chunks concatenate to the data, none is empty, and all but the last have the full size. |
| ByteStreams.ReadDeliversTheSlice | rust-reapi/src/services/bytestream.rs:119-153 | A read fails if and only if offset or limit is bad, with the right code; otherwise its chunks are 64 KiB except the last and concatenate to exactly the slice asked for (limit 0: the rest), and a compressed reply decodes to exactly the suffix. |
| ByteStreams.ResumedReadsTile | rust-reapi/src/services/bytestream.rs:119-145 | Reads that each start where the last ended, with any positive limits and a final limit 0, concatenate to the whole rest of the blob. |
| ByteStreams.PlannedExactlyWhen | rust-reapi/src/services/bytestream.rs:85-98 | A read is served if and only if its name parses, has no upload id, and is plain, or is zstd with limit 0; it then asks for the named blob in the named form; the code of every refusal is given. |
| ByteStreams.UnfitBlobsAreRefused | rust-reapi/src/services/bytestream.rs:105-117 | Over any stored blob: absent or of another size is NotFound; undecodable or not of the named hash is Internal; everything else is delivered. |
| ByteStreamServices.ByteStreamService.Read | rust-reapi/src/services/bytestream.rs:79-158 | Unreadable names and upload names are InvalidArgument, other compressors Unimplemented, a zstd name with a limit InvalidArgument; any other read is answered from the named blob alone, NotFound if it is absent; the handler is the machine's call run alone and the store is unchanged. |
| ByteStreamServices.ByteStreamService.DeliverFound | rust-reapi/src/services/bytestream.rs:105-157 | The checking and slicing of a fetched blob is the reply the slice rows are about. |
| ActionCacheServices.PushFiles | rust-reapi/src/services/action_cache.rs:255-261 | Appends every file digest in order, or finds that one is missing. |
| ActionCacheServices.PushChildren | rust-reapi/src/services/action_cache.rs:262-269 | Appends the digests of every child directory in order, or finds that one is missing. |
| ActionCacheServices.CollectTreeFileDigests | rust-reapi/src/services/action_cache.rs:246-272 | Fails, with the given code, exactly when the root or the digest of a file of the root or of any child is missing; otherwise keeps the list and appends the digests of all these files and no others. |
| Invariant.TreeDigestsAreAll | rust-reapi/src/services/action_cache.rs:246-272 | In the fields of the message: the digests of a tree are those of every file of the root and of every child, all of them and nothing else, and exist exactly when the root and all these digests do. |
| Invariant.TreeDigestsInOrder | rust-reapi/src/services/action_cache.rs:255-269 | And they stand in order: the root's files, then each child's, place by place. |
| ActionCacheServices.CollectResultDigests | rust-reapi/src/services/action_cache.rs:42-56 | The digests of output files, stdout and stderr in that order; none exactly when an output file lacks its digest. |
| ActionCacheServices.ActionCacheService.AppendTree | rust-reapi/src/services/action_cache.rs:58-76 | Fetching, decoding and collecting one output tree is one step of the machine. |
| ActionCacheServices.ActionCacheService.ValidateActionResultArtifacts | rust-reapi/src/services/action_cache.rs:35-109 | On success every digest the result itself names is present; the only possible write is the empty blob; and the loops are the machine's validation run alone. |
| ActionCacheServices.ActionCacheService.GetActionResult | rust-reapi/src/services/action_cache.rs:114-156 | The handler is the machine's call run alone, and changes the store by the empty blob at most. |
| ActionCacheServices.ActionCacheService.UpdateActionResult | rust-reapi/src/services/action_cache.rs:158-243 | On success the reply is the given result and the store gains that record, and the empty blob at most; on failure the empty blob at most; the handler is the machine's call run alone. |
| ActionCacheServices.ActionCacheService.RecordOnceChecked | rust-reapi/src/services/action_cache.rs:196-242 | The same for the part of the handler from the command check on. |
| ActionResults.ValidationOutcome | rust-reapi/src/services/action_cache.rs:35-109 | A fault-free validation over a sound store succeeds if and only if every tree is there and decodes and every digest passes; otherwise it is refused with the code of the first thing that is not (Internal for a tree that does not decode, else the missing code), having written the empty blob only if that was met before. |
| ActionResults.UpdateAcceptedExactlyWhenRecordable | rust-reapi/src/services/action_cache.rs:158-243 | An uncontended update is answered with its result if and only if the action and its command are in the CAS, everything the result refers to is there (or is the empty blob), and the encoded result is within the limit; the exact final store is given. |
| ActionResults.GatheredIsReferred | rust-reapi/src/services/action_cache.rs:42-76 | The digests gathered for a result are those its output files, streams and readable trees name in the messages' own fields, all and no others, and can be gathered exactly when all trees are readable and no digest is missing. |
| ActionResults.UpdateDecidedByItsReferences | rust-reapi/src/services/action_cache.rs:158-243 | An uncontended update by what its messages refer to: FailedPrecondition if action, command or any artifact is missing; success if all are there, a digest of size 0 and the empty hash needing no upload and being stored; Internal when all are there but the encoded result is above the size limit. |
| ActionResults.UpdateOfUnfitAction | rust-reapi/src/services/action_cache.rs:175-194 | Over any store, an update whose action is absent, undecodable or without a command is FailedPrecondition and changes nothing. |
| ActionResults.TreeOutcome | rust-reapi/src/services/action_cache.rs:58-76 | Over any store, an output tree that is missing, or lacks its root or a digest, is FailedPrecondition in an update and NotFound in a get; one that does not decode is Internal; any other is gathered. |
| ActionResults.GetAnsweredExactlyWhenRecorded | rust-reapi/src/services/action_cache.rs:114-156 | An uncontended get over a sound store is answered if and only if there is an entry, with exactly what the entry records, and is NotFound otherwise; the exact final store is given. |
| ActionResults.GetOfDanglingEntry | rust-reapi/src/services/action_cache.rs:92-106 | Over any store, a get whose entry names a missing file or stream is NotFound. |
| ActionResults.GetOfCorruptEntry | rust-reapi/src/services/action_cache.rs:140-145 | Over any store, a get whose entry does not decode is Internal. |
| ConcurrentUpdates.UpdatesFollowTheStore | rust-reapi/src/services/action_cache.rs:158-243 | Under every interleaving a finished, fault-free update succeeded if its result was recordable at any instant before the call arrived; if it succeeded its result is recordable ever after; so a refusal means something was missing or too large at every instant up to its arrival. (No collisions.) |
| Invariant.CasPutsAreSound | rust-reapi/src/services/cas.rs:64-67 | Whichever of the three writers puts under a CAS key, and whatever the store holds, the blob is one the key allows; only a recording update puts under an action cache key. |
| Invariant.RecordsAreSound | rust-reapi/src/services/action_cache.rs:217-240 | An update that has come to its put records its own result under its own key, over a CAS that closes it. |
| Invariant.GatheredCloses | rust-reapi/src/services/action_cache.rs:42-108 | Once all gathered digests are present, everything the result refers to is present: output files, stdout, stderr, and in each output tree every file of the root and of every child. |
| Invariant.StepEstablishes | rust-reapi/src/services/action_cache.rs:35-243 | Every step of every call, fault or not, leaves the call with exactly the knowledge its next program point claims. |
| Runs.CasIntegrity | rust-reapi/src/services/cas.rs:40-67 | In every reachable state each CAS entry decodes, under its recorded encoding, to data whose hash is the key's, whose length is the recorded size and at most 100 MiB, and whose stored size is recorded truly; only the empty blob is ever uncompressed. No assumption on collisions. |
| Runs.ApplyKeepsInv | rust-reapi/src/services/action_cache.rs:35-243 | Every event keeps the whole invariant — store, history, and the knowledge of all other calls in progress — and loses nothing. (No collisions.) |
| Runs.InvAt | rust-reapi/src/bin/cache.rs:20-26 | The invariant holds at every instant of every run of the services over their shared store. (No collisions.) |
| Runs.KeysStay | rust-reapi/src/storage/in_memory.rs:46-65 | A key once present stays present in every run, with no assumption at all. |
| Runs.ContentIsStable | rust-reapi/src/storage/in_memory.rs:46-65 | Over any run, what a CAS key means never changes, though its bytes and encoding may. (No collisions.) |
| Runs.ContentsOfOneKeyShareAHash | rust-reapi/src/services/cas.rs:52-67 | With no assumption on collisions: whatever a CAS key means at two instants of a run has the same hash, so any change is a collision. |
| Runs.ContentIsReplacedExactlyOnCollision | rust-reapi/src/services/cas.rs:52-67 | In any run, collisions or not, an event changes what a CAS key means if and only if it puts a different content under it, and the two contents then have the same hash. |
| Runs.SecondUploadReplacesExactlyOnCollision | rust-reapi/src/services/cas.rs:52-67 | And that happens: of two contents within the limit, uploaded by two calls, the second replaces the first if and only if they differ and their hashes collide. |
| Runs.ActionCacheIsClosed | rust-reapi/src/services/action_cache.rs:35-243 | Under every interleaving, each action cache entry decodes to a result whose files, stdout and stderr are in the CAS of its instance, whose trees are there and decode, and whose trees' files, in the root and in every child directory, are there; and its action is there, decodes, and names a command that is there. (No collisions.) |
| Sessions.StepStaysFaithful | rust-reapi/src/services/cas.rs:226-278 | Each step keeps a call true to its request, and what it has told its client so far true of the store. |
| Sessions.FaithfulAt | rust-reapi/src/bin/cache.rs:20-26 | So for all calls at every instant of every run: an upload answered Ok is held, a blob answered is the one stored, a result a get has returned has every file, stream, tree and tree file in the CAS, and so has an acknowledged update, whose entry, action and command are there too. (No collisions.) |
| Guarantees.MissingBlobsAreExplained | rust-reapi/src/services/cas.rs:94-120 | Under any interleaving the reply is an in-order selection of the request; each digest reported was absent at some instant of the call; each omitted one is present then and at every later instant. |
| Guarantees.EntriesComeFromUpdates | rust-reapi/src/services/action_cache.rs:224-240 | Whatever an entry records was put there by an update, and is the result of the latest put under its key. |
| Guarantees.GetReturnsTheLatestRecord | rust-reapi/src/services/action_cache.rs:134-155 | Whatever else goes on and whatever faults occur, a get that answers with a result answers with that of the update whose put is the latest under the key at the very step at which the get reads the entry. (No collisions.) |
| Guarantees.GetAfterUpdate | rust-reapi/src/services/action_cache.rs:134-155 | A get that starts after an update of the same action has answered, and meets no fault, ends with a result, whatever other calls do: that of the update whose put is the latest when the get reads the entry, a step of its own after the first update answered. (No collisions.) |
| Guarantees.GetFailsOnlyWhenAbsent | rust-reapi/src/services/action_cache.rs:114-156 | A well-formed get that meets no fault ends with the result of the update whose put is the latest when the get reads the entry, or with NotFound, and then there was no entry at some instant of the call. (No collisions.) |
| Guarantees.StoredBlobsNeverFail | rust-reapi/src/services/bytestream.rs:100-144 | In every reachable state, whether or not hashes collide, a planned stream read is NotFound exactly when its blob is absent or of another size, and else delivers its content: the branches for undecodable and invalid stored blobs cannot be taken. |
| Guarantees.StoredItemsNeverFail | rust-reapi/src/services/cas.rs:171-216 | In every reachable state a batch read answers Ok for every entry that is there, whatever the client accepts. |
| Guarantees.ReadItemsAreExplained | rust-reapi/src/services/cas.rs:123-224 | Under any interleaving a batch read is refused only for its digest function, and answers every digest in order: Ok for a blob that is there, NotFound only for one absent at some instant of the call, Internal only after a fault. |
| Guarantees.UploadThenRead | rust-reapi/src/services/bytestream.rs:100-153 | Content uploaded through either service in either encoding reads back, under any name that parses for the blob, plain or zstd without a limit, as exactly the slice asked for or as a stream that decompresses to the suffix, after any steps of any calls in between; only an offset or limit out of range fails. (No collisions.) |
| Guarantees.UploadThenReadByName | rust-reapi/src/services/bytestream.rs:85-153 | In particular under every printed name of the blob, with or without algorithm and with any trailing metadata. (No collisions.) |
| Guarantees.UploadThenBatchRead | rust-reapi/src/services/cas.rs:171-193 | The same through BatchReadBlobs: the response is Ok, names its encoding, decodes to the content, and is compressed if and only if the client accepts Zstd. (No collisions.) |
| Refinement.AnswersAgree | rust-reapi/src/storage/in_memory.rs:33-73 | Whatever call asks, the answer computed from a set of byte strings and a map of results takes it to the same point as the answer of the encoded store. |
| Refinement.EffectsAgree | rust-reapi/src/storage/in_memory.rs:46-65 | Each store operation adds one byte string, sets one result, or is a stutter. (No collisions.) |
| Refinement.ServerRefinesSpec | rust-reapi/src/bin/cache.rs:20-26 | Under every interleaving and pattern of faults, the server and the abstract server of one byte-string set and one result map per instance stay in step: same calls, same points, same replies, corresponding stores. (No collisions.) |
| Isolation.StepInside | rust-reapi/src/storage/blob_store.rs:25-31 | A call's step depends on, and changes, its own instance's part of the store only. |
| Isolation.InstancesAreIsolated | rust-reapi/src/storage/blob_store.rs:25-31 | Deleting every call on other instances from any interleaved run leaves this instance's calls, replies and part of the store as they were. |
| ToyPrimitives.AssumptionsAreConsistent | rust-reapi/src/services/action_cache.rs:15-15 | There are primitives that meet every assumed law, the named hash of the empty string included, and never collide. |
| ToyPrimitives.UpdatesCanSucceed | rust-reapi/src/services/action_cache.rs:158-243 | Under those primitives and over a sound store, an update whose result has an output directory succeeds. |

## Left out

- Transport: tonic, gRPC framing, async plumbing, tracing and the server's main function. Message
  texts of errors are not modelled, their codes are.
- The internals of SHA-256 (section 6.2 of FIPS 180-4), Zstandard (section 3 of RFC 8878) and the
  protobuf codec. Compression is total in the model: the encoder's own I/O errors do not occur. The
  hex form of a hash is not distinguished from the hash.
- `get_tree`, `split_blob`, `splice_blob` and `query_write_status` are unimplemented stubs, and
  CapabilitiesService answers a constant.
- Lock poisoning is a flag of the store for a call run alone and a fault of any single step in
  runs; a put's read of its own in-memory body does not fail.
- The catch-all `Unsupported` branch of `transcode` cannot be reached with two encodings and has no
  counterpart.
- Fields of ActionResult, Action and directories that the code never reads travel as one opaque
  payload.
- The list of digests that the source appends to in place is passed to and returned from the
  collecting methods; there is no aliasing to capture.
- Reads of a decoder that are interrupted and retried: the reader of the model delivers data, ends
  or fails. The error of a decoder that cannot be created counts as a decoder that fails at once.
- Memory exhaustion: buffers and the map grow without bound.
- BlobCodec.BoundedDecodeIsFullDecode: stated below the u64 maximum, as the exact condition at the
  maximum is the next row's.
- Refinement.ServerRefinesSpec: the abstract server shares the calls' programs and hands content to
  them as a compressed blob; what it abstracts is the store and every answer the store gives.
