/** The ByteStream handlers over the shared in-memory store. */
module ByteStreamServices {
  import opened Wrappers
  import opened Messages
  import opened Primitives
  import opened BlobStore
  import opened BlobCodec
  import opened ByteStreams
  import opened Calls
  import opened ResourceNames
  import opened Steps
  import InMemory
  import Digests
  import Uploads

  function ReadResult(r: Result<seq<Bytes>, Code>): Reply {
    match r
    case Failure(code) => Refused(code)
    case Success(chunks) => Contents(chunks)
  }

  function WriteResult(r: Result<nat, Code>): Reply {
    match r
    case Failure(code) => Refused(code)
    case Success(size) => Calls.Committed(size)
  }

  /** The reply and the store after a commit: one key changes, or nothing does. */
  function PutCommitted(outcome: Result<Commit, Code>, store: Store, poisoned: bool): (Result<nat, Code>, Store) {
    match outcome
    case Failure(code) => (Failure(code), store)
    case Success(commit) =>
      if poisoned then (Failure(Internal), store) else (Success(commit.committedSize), store[commit.key := commit.blob])
  }

  function NameAndResource(name: Option<string>, resource: Option<Resource>): Option<Begun> {
    if name.Some? && resource.Some? then Some(Begun(name.value, resource.value)) else None
  }

  lemma WritesAlone(p: Primitives, stream: WriteStream, store: Store, fault: bool)
    ensures var outcome := WriteOutcome(p, stream);
            RunAlone(p, Calls.Write(stream), store, fault) ==
            if outcome.Failure? then (Refused(outcome.error), store)
            else Finish(p, Committing(outcome.value), store, fault)
  {
    hide WriteOutcome, Step;
  }

  class ByteStreamService {
    const p: Primitives
    const store: InMemory.InMemoryStore

    constructor (p: Primitives, store: InMemory.InMemoryStore)
      ensures this.p == p && this.store == store
    {
      this.p := p;
      this.store := store;
    }

    /** Upload names and unreadable names are refused; a plain name, or a zstd name with no limit, is
        answered from the named blob, NotFound if there is none. */
    method Read(name: string, readOffset: Int64, readLimit: Int64) returns (r: Result<seq<Bytes>, Code>)
      ensures Parse(name).Failure? || Parse(name).value.uploadId.Some? ==> r == Failure(InvalidArgument)
      ensures Parse(name).Success? && Parse(name).value.uploadId.None? ==>
                var resource := Parse(name).value;
                var key := BlobKey(resource.instance, Sha256, resource.hash, ContentAddressableStorage);
                if resource.compression == Plain || (resource.compression == Named("zstd") && readLimit == 0) then
                  if store.poisoned then r == Failure(Internal)
                  else if key !in store.blobs then r == Failure(NotFound)
                  else
                    var encoding := if resource.compression == Plain then Identity else Zstd;
                    var plan := ReadPlan(name, key, resource, encoding, readOffset, readLimit);
                    r == ReadReply(p, plan, Some(store.blobs[key]))
                else r == Failure(if resource.compression == Named("zstd") then InvalidArgument else Unimplemented)
      ensures RunAlone(p, Calls.Read(name, readOffset, readLimit), store.blobs, store.poisoned) ==
              (ReadResult(r), store.blobs)
    {
      hide Step, Parse, Deliver, ReadReply;
      var parsed := Parse(name);
      if parsed.Failure? {
        return Failure(InvalidArgument);
      }
      ParsedIsWellFormed(name);
      var resource := parsed.value;
      if resource.uploadId.Some? {
        return Failure(InvalidArgument);
      }
      var encoding :- EncodingOf(resource.compression);
      if encoding != Identity && readLimit != 0 {
        return Failure(InvalidArgument);
      }
      var key := ResolveBlobKey(resource);
      if key.None? {
        return Failure(InvalidArgument);
      }
      var plan := ReadPlan(name, key.value, resource, encoding, readOffset, readLimit);
      FetchingStep(p, plan, store.blobs, store.poisoned);
      LastStep(p, Fetching(plan), store.blobs, store.poisoned);
      var found := store.Get(key.value);
      if found.Failure? {
        return Failure(Internal);
      }
      UnfitBlobsAreRefused(p, plan, found.value);
      r := DeliverFound(plan, found.value);
    }

    /** The checks and the slicing of a blob that was fetched. */
    method DeliverFound(plan: ReadPlan, found: Option<Blob>) returns (r: Result<seq<Bytes>, Code>)
      ensures r == ReadReply(p, plan, found)
    {
      if found.None? {
        return Failure(NotFound);
      }
      var size := plan.resource.expectedSize;
      if size < 0 {
        return Failure(InvalidArgument);
      }
      if found.value.metadata.uncompressedSize != size {
        return Failure(NotFound);
      }
      var decoded := IntoIdentity(p, found.value);
      if decoded.Failure? {
        return Failure(Internal);
      }
      var identity := decoded.value;
      var valid := Digests.Validate(p, plan.key.algorithm, plan.resource.hash, size, identity);
      if valid.Failure? {
        return Failure(Internal);
      }
      if plan.offset < 0 || plan.offset > |identity| {
        return Failure(OutOfRange);
      }
      var available := identity[plan.offset..];
      var data: Bytes;
      if plan.encoding == Identity {
        var limit: nat := |available|;
        if plan.limit != 0 {
          if plan.limit < 0 {
            return Failure(InvalidArgument);
          }
          limit := Min(plan.limit, |available|);
        }
        data := available[..limit];
      } else {
        var compressed := TranscodeBlob(p, IdentityBlob(available), plan.encoding);
        if compressed.Failure? {
          return Failure(Internal);
        }
        data := compressed.value.data;
      }
      return Success(Chunks(data, READ_CHUNK_SIZE));
    }

    /** A write succeeds exactly on the acceptable streams when the store works; it then changes
        exactly one key, and otherwise nothing. */
    method Write(stream: WriteStream) returns (r: Result<nat, Code>)
      modifies store`blobs
      ensures (r, store.blobs) == PutCommitted(WriteOutcome(p, stream), old(store.blobs), store.poisoned)
      ensures Lawful(p) ==> (r.Success? <==> Acceptable(p, stream) && !store.poisoned)
      ensures RunAlone(p, Calls.Write(stream), old(store.blobs), store.poisoned) == (WriteResult(r), store.blobs)
    {
      hide Step, Parse, Acceptable, Uploads.Admit;
      if Lawful(p) {
        WriteAcceptedExactlyWhenAcceptable(p, stream);
      }
      WritesAlone(p, stream, store.blobs, store.poisoned);
      if WriteOutcome(p, stream).Success? {
        CommittingStep(p, WriteOutcome(p, stream).value, store.blobs, store.poisoned);
        LastStep(p, Committing(WriteOutcome(p, stream).value), store.blobs, store.poisoned);
      }
      var accumulator: Bytes := [];
      var resourceName: Option<string> := None;
      var parsedResource: Option<Resource> := None;
      for i := 0 to |stream.chunks|
        invariant resourceName.Some? <==> parsedResource.Some?
        invariant store.blobs == old(store.blobs)
        invariant Receive(stream, i, accumulator, NameAndResource(resourceName, parsedResource)) ==
                  Receive(stream, 0, [], None)
      {
        var chunk := stream.chunks[i];
        if chunk.writeOffset != AsInt64(|accumulator|) {
          return Failure(InvalidArgument);
        }
        if resourceName.Some? {
          if chunk.resourceName != "" && chunk.resourceName != resourceName.value {
            return Failure(InvalidArgument);
          }
        } else {
          if chunk.resourceName == "" {
            return Failure(InvalidArgument);
          }
          var parsed := Parse(chunk.resourceName);
          if parsed.Failure? || parsed.value.uploadId.None? {
            return Failure(InvalidArgument);
          }
          resourceName, parsedResource := Some(chunk.resourceName), Some(parsed.value);
        }
        accumulator := accumulator + chunk.data;
        if chunk.finishWrite {
          r := Finalize(Received(parsedResource.value, accumulator));
          assert WriteOutcome(p, stream) == CommitReceived(p, Received(parsedResource.value, accumulator));
          return;
        }
      }
      return Failure(if stream.broken.Some? then Transport(stream.broken.value) else InvalidArgument);
    }

    /** The commit of a finished stream. */
    method Finalize(received: Received) returns (r: Result<nat, Code>)
      modifies store`blobs
      ensures (r, store.blobs) == PutCommitted(CommitReceived(p, received), old(store.blobs), store.poisoned)
    {
      var resource := received.resource;
      var key := ResolveBlobKey(resource);
      if key.None? {
        return Failure(InvalidArgument);
      }
      var encoding :- EncodingOf(resource.compression);
      var size := resource.expectedSize;
      if size < 0 {
        return Failure(InvalidArgument);
      }
      var incoming := EncodedBlob(received.data, encoding, size);
      var committedSize := incoming.metadata.storedSize;
      if committedSize > I64_MAX {
        return Failure(Internal);
      }
      var identity := IntoIdentity(p, incoming);
      if identity.Failure? {
        return Failure(InvalidArgument);
      }
      var valid := Digests.Validate(p, key.value.algorithm, resource.hash, size, identity.value);
      if valid.Failure? {
        return Failure(InvalidArgument);
      }
      var stored := TranscodeBlob(p, IdentityBlob(identity.value), Zstd);
      if stored.Failure? {
        return Failure(Internal);
      }
      var put := store.Put(key.value, stored.value.metadata, stored.value.data);
      return if put.Failure? then Failure(Internal) else Success(committedSize);
    }
  }
}
