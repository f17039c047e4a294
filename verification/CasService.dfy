/** The ContentAddressableStorage handlers, as they run over the shared in-memory store. Each
    is proved to be the call of the interleaving model run without interruption. */
module CasServices {
  import opened Wrappers
  import opened Messages
  import opened Primitives
  import opened BlobStore
  import opened BlobCodec
  import opened Calls
  import opened Steps
  import opened Invariant
  import opened Sessions
  import InMemory
  import Uploads
  import Digests

  /** The digests that are not in the store, in order. */
  function AbsentAmong(scope: Scope, digests: seq<Digest>, store: Store): seq<Digest> {
    if digests == [] then []
    else
      var last := |digests| - 1;
      AbsentAmong(scope, digests[..last], store) +
      (if scope.CasKey(digests[last].hash) in store then [] else [digests[last]])
  }

  lemma AbsentNext(scope: Scope, digests: seq<Digest>, d: Digest, store: Store)
    ensures AbsentAmong(scope, digests + [d], store) ==
            AbsentAmong(scope, digests, store) + (if scope.CasKey(d.hash) in store then [] else [d])
  {
    assert (digests + [d])[..|digests|] == digests;
  }

  /** The order of the request is kept: what is absent of two lists in a row is what is absent of
      the one, and then of the other. */
  lemma {:induction false} AbsentAmongParts(scope: Scope, a: seq<Digest>, b: seq<Digest>, store: Store)
    ensures AbsentAmong(scope, a + b, store) == AbsentAmong(scope, a, store) + AbsentAmong(scope, b, store)
    decreases |b|
  {
    if b == [] {
      assert a + b == a;
    } else {
      var init, last := b[..|b| - 1], b[|b| - 1];
      AbsentAmongParts(scope, a, init, store);
      AbsentNext(scope, init, last, store);
      AbsentNext(scope, a + init, last, store);
      assert b == init + [last] && a + b == a + init + [last];
      hide AbsentAmong;
    }
  }

  /** Exactly the absent digests are reported. */
  lemma {:induction false} AbsentAmongMembers(scope: Scope, digests: seq<Digest>, store: Store)
    ensures forall d :: d in AbsentAmong(scope, digests, store) <==> d in digests && scope.CasKey(d.hash) !in store
    decreases |digests|
  {
    if digests == [] {
    } else {
      var init, last := digests[..|digests| - 1], digests[|digests| - 1];
      AbsentAmongMembers(scope, init, store);
      AbsentNext(scope, init, last, store);
      assert digests == init + [last];
      hide AbsentAmong;
    }
  }

  lemma FindingGoesOn(p: Primitives, scope: Scope, digests: seq<Digest>, i: nat, missing: seq<Digest>, store: Store,
          fault: bool)
    ensures Finish(p, Finding(scope, digests, i, missing), store, fault) ==
            if i >= |digests| then (Missing(missing), store)
            else if fault then (Refused(Internal), store)
            else if scope.CasKey(digests[i].hash) in store
            then Finish(p, Finding(scope, digests, i + 1, missing), store, fault)
            else Finish(p, Finding(scope, digests, i + 1, missing + [digests[i]]), store, fault)
  {
    hide Step;
    FindingStep(p, scope, digests, i, missing, store, fault);
  }

  lemma TakeNext(s: seq<Digest>, i: nat)
    requires i < |s|
    ensures s[..i + 1] == s[..i] + [s[i]]
  {
  }

  lemma FindAlone(p: Primitives, instance: string, digestFunction: Int32, digests: seq<Digest>, store: Store,
          fault: bool)
    ensures RunAlone(p, FindMissing(instance, digestFunction, digests), store, fault) ==
            if digestFunction !in {0, 1} then (Refused(InvalidArgument), store)
            else Finish(p, Finding(Scope(instance, Sha256), digests, 0, []), store, fault)
  {
    hide Step;
  }

  function FindReply(r: Result<seq<Digest>, Code>): Reply {
    match r
    case Failure(code) => Refused(code)
    case Success(digests) => Missing(digests)
  }

  function BatchReadReply(r: Result<seq<ReadResponse>, Code>): Reply {
    match r
    case Failure(code) => Refused(code)
    case Success(blobs) => Blobs(blobs)
  }

  function BatchUpdateReply(r: Result<seq<UploadResponse>, Code>): Reply {
    match r
    case Failure(code) => Refused(code)
    case Success(responses) => Updated(responses)
  }

  class CasService {
    const p: Primitives
    const store: InMemory.InMemoryStore

    constructor (p: Primitives, store: InMemory.InMemoryStore)
      ensures this.p == p && this.store == store
    {
      this.p := p;
      this.store := store;
    }

    method PutVerifiedBlob(key: BlobKey, algorithm: DigestAlgorithm, digest: Digest, data: Bytes,
            encoding: StorageEncoding)
      returns (status: Code)
      modifies store`blobs
      ensures (status, store.blobs) ==
              PutAdmitted(Uploads.Admit(p, algorithm, digest.hash, digest.sizeBytes, data, encoding), key,
                  old(store.blobs), store.poisoned)
    {
      if digest.sizeBytes < 0 {
        return InvalidArgument;
      }
      var identity := IntoIdentity(p, EncodedBlob(data, encoding, digest.sizeBytes));
      if identity.Failure? {
        return InvalidArgument;
      }
      var valid := Digests.Validate(p, algorithm, digest.hash, digest.sizeBytes, identity.value);
      if valid.Failure? {
        return InvalidArgument;
      }
      var stored := TranscodeBlob(p, IdentityBlob(identity.value), Zstd);
      if stored.Failure? {
        return Internal;
      }
      var put := store.Put(key, stored.value.metadata, stored.value.data);
      return if put.Failure? then Internal else Ok;
    }

    /** With no other writer the reply is exactly the filter by absence. */
    method FindMissingBlobs(instance: string, digestFunction: Int32,
            digests: seq<Digest>) returns (r: Result<seq<Digest>, Code>)
      ensures r == if digestFunction !in {0, 1} then Failure(InvalidArgument)
                   else if store.poisoned && digests != [] then Failure(Internal)
                   else Success(AbsentAmong(Scope(instance, Sha256), digests, store.blobs))
      ensures RunAlone(p, FindMissing(instance, digestFunction, digests), store.blobs, store.poisoned) ==
          (FindReply(r), store.blobs)
    {
      var missing: seq<Digest> := [];
      FindAlone(p, instance, digestFunction, digests, store.blobs, store.poisoned);
      assert AbsentAmong(Scope(instance, Sha256), digests[..0], store.blobs) == [];
      hide RunAlone, Finish, AbsentAmong;
      var algorithm := Digests.ResolveProtoValue(digestFunction);
      if algorithm.None? {
        return Failure(InvalidArgument);
      }
      var scope := Scope(instance, algorithm.value);
      ghost var outcome := Finish(p, Finding(scope, digests, 0, []), store.blobs, store.poisoned);
      for i := 0 to |digests|
        invariant i > 0 ==> !store.poisoned
        invariant missing == AbsentAmong(scope, digests[..i], store.blobs)
        invariant Finish(p, Finding(scope, digests, i, missing), store.blobs, store.poisoned) == outcome
      {
        FindingGoesOn(p, scope, digests, i, missing, store.blobs, store.poisoned);
        AbsentNext(scope, digests[..i], digests[i], store.blobs);
        assert digests[..i + 1] == digests[..i] + [digests[i]] by { TakeNext(digests, i); }
        var contained := store.Contains(scope.CasKey(digests[i].hash));
        if contained.Failure? {
          return Failure(Internal);
        }
        if !contained.value {
          missing := missing + [digests[i]];
        }
      }
      assert digests[..|digests|] == digests;
      FindingGoesOn(p, scope, digests, |digests|, missing, store.blobs, store.poisoned);
      return Success(missing);
    }

    /** Each digest is answered by itself: Internal when the lock is poisoned, NotFound exactly
        when its blob is absent, and over a store whose entries are sound Ok whenever it is there. */
    method BatchReadBlobs(instance: string, digestFunction: Int32, digests: seq<Digest>,
            acceptableCompressors: seq<Int32>)
      returns (r: Result<seq<ReadResponse>, Code>)
      ensures digestFunction !in {0, 1} ==> r == Failure(InvalidArgument)
      ensures digestFunction in {0, 1} ==> r.Success? && |r.value| == |digests|
      ensures r.Success? ==> forall i | 0 <= i < |digests| ::
                r.value[i] == ReadItem(p, AcceptableEncodings(acceptableCompressors), digests[i],
                                       ReadAnswer(store.blobs, Scope(instance, Sha256).CasKey(digests[i].hash),
                                                  store.poisoned))
      ensures r.Success? ==> forall i | 0 <= i < |digests| ::
                var key := Scope(instance, Sha256).CasKey(digests[i].hash);
                if store.poisoned then r.value[i] == ReadResponse(digests[i], [], 0, Internal)
                else if key !in store.blobs then r.value[i] == ReadResponse(digests[i], [], 0, NotFound)
                else && r.value[i].digest == digests[i] && r.value[i].status in {Ok, Internal}
                     && (Lawful(p) && CasEntry(p, key, store.blobs[key]) ==> r.value[i].status == Ok)
      ensures RunAlone(p, BatchRead(instance, digestFunction, digests, acceptableCompressors),
                       store.blobs, store.poisoned)
              == (BatchReadReply(r), store.blobs)
    {
      hide Step;
      var responses: seq<ReadResponse> := [];
      var algorithm := Digests.ResolveProtoValue(digestFunction);
      if algorithm.None? {
        return Failure(InvalidArgument);
      }
      var acceptable := AcceptableEncodings(acceptableCompressors);
      var scope := Scope(instance, algorithm.value);
      ghost var request := BatchRead(instance, digestFunction, digests, acceptableCompressors);
      ghost var outcome := RunAlone(p, request, store.blobs, store.poisoned);
      for i := 0 to |digests|
        invariant |responses| == i
        invariant forall n | 0 <= n < i ::
                    responses[n] == ReadItem(p, acceptable, digests[n],
                                             ReadAnswer(store.blobs, scope.CasKey(digests[n].hash), store.poisoned))
        invariant Finish(p, Reading(scope, acceptable, digests, i, responses), store.blobs, store.poisoned) == outcome
      {
        ReadingStep(p, scope, acceptable, digests, i, responses, store.blobs, store.poisoned);
        var digest := digests[i];
        var found := store.Get(scope.CasKey(digest.hash));
        var response: ReadResponse;
        if found.Failure? {
          response := ReadResponse(digest, [], 0, Internal);
        } else if found.value.None? {
          response := ReadResponse(digest, [], 0, NotFound);
        } else {
          var blob := found.value.value;
          var transcoded := TranscodeBlob(p, blob, SelectBatchReadResponseEncoding(blob.metadata.encoding, acceptable));
          match transcoded {
            case Failure(_) => response := ReadResponse(digest, [], Identity.AsProtoValue(), Internal);
            case Success(reply) =>
              response := ReadResponse(digest, reply.data, reply.metadata.encoding.AsProtoValue(), Ok);
          }
        }
        responses := responses + [response];
      }
      ReadingStep(p, scope, acceptable, digests, |digests|, responses, store.blobs, store.poisoned);
      forall i | 0 <= i < |digests| {
        ReadItemAnswers(p, acceptable, digests[i], store.blobs, scope.CasKey(digests[i].hash), store.poisoned);
      }
      hide ReadItem, ReadAnswer, CasEntry;
      return Success(responses);
    }

    method BatchUpdateBlobs(instance: string, digestFunction: Int32, items: seq<UploadItem>)
      returns (r: Result<seq<UploadResponse>, Code>)
      modifies store`blobs
      ensures digestFunction !in {0, 1} ==> r == Failure(InvalidArgument)
      ensures digestFunction in {0, 1} ==> r.Success?
      ensures r.Success? ==> |r.value| == |items| && forall i | 0 <= i < |items| :: r.value[i].digest == items[i].digest
      ensures RunAlone(p, BatchUpdate(instance, digestFunction, items), old(store.blobs), store.poisoned) ==
          (BatchUpdateReply(r), store.blobs)
    {
      hide Step;
      var responses: seq<UploadResponse> := [];
      var algorithm := Digests.ResolveProtoValue(digestFunction);
      if algorithm.None? {
        return Failure(InvalidArgument);
      }
      var scope := Scope(instance, algorithm.value);
      ghost var outcome := RunAlone(p, BatchUpdate(instance, digestFunction, items), store.blobs, store.poisoned);
      for i := 0 to |items|
        invariant |responses| == i
        invariant forall n | 0 <= n < i :: responses[n].digest == items[n].digest
        invariant Finish(p, Uploading(scope, items, i, responses), store.blobs, store.poisoned) == outcome
      {
        UploadingStep(p, scope, items, i, responses, store.blobs, store.poisoned);
        var item := items[i];
        if item.digest.None? {
          responses := responses + [UploadResponse(None, InvalidArgument)];
          continue;
        }
        var encoding := EncodingFromProto(item.compressor);
        if encoding.None? {
          responses := responses + [UploadResponse(item.digest, InvalidArgument)];
          continue;
        }
        var digest := item.digest.value;
        var status := PutVerifiedBlob(scope.CasKey(digest.hash), scope.algorithm, digest, item.data, encoding.value);
        responses := responses + [UploadResponse(item.digest, status)];
      }
      UploadingStep(p, scope, items, |items|, responses, store.blobs, store.poisoned);
      return Success(responses);
    }
  }
}
