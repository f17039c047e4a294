/** A call keeps to its request, and what it has told its client is true of the store. */
module Sessions {
  import opened Wrappers
  import opened Messages
  import opened Primitives
  import opened BlobStore
  import opened BlobCodec
  import opened ByteStreams
  import opened Calls
  import opened Server
  import opened Invariant
  import opened Runs
  import opened Steps
  import Digests
  import Uploads
  import ResourceNames

  predicate Asked(scope: Scope, instance: string, digestFunction: Int32) {
    scope == Scope(instance, Sha256) && digestFunction in {0, 1}
  }

  predicate Holds(p: Primitives, store: Store, key: BlobKey, content: Bytes) {
    key in store && ContentOf(p, store[key]) == content
  }

  // ----- Uploads -----------------------------------------------------------

  /** Every item answered Ok was admitted, and its content is in the store. */
  predicate Kept(p: Primitives, store: Store, scope: Scope, items: seq<UploadItem>, responses: seq<UploadResponse>) {
    && |responses| <= |items|
    && (forall i | 0 <= i < |responses| ::
          && responses[i].digest == items[i].digest
          && (responses[i].status == Ok ==>
                var admitted := AdmitItem(p, scope, items[i]);
                admitted.Success? && Holds(p, store, ItemKey(scope, items[i]), ContentOf(p, admitted.value))))
  }

  // ----- Batch reads -------------------------------------------------------

  /** The reply for a blob with this content: compressed exactly when the client takes Zstd. */
  function OkItem(p: Primitives, acceptable: seq<StorageEncoding>, digest: Digest, content: Bytes): ReadResponse {
    var encoding := if Zstd in acceptable then Zstd else Identity;
    ReadResponse(digest, Canonical(p, content, encoding).data, encoding.AsProtoValue(), Ok)
  }

  /** Every blob answered Ok is the one in the store. */
  predicate Mirrored(p: Primitives, store: Store, scope: Scope, acceptable: seq<StorageEncoding>,
          digests: seq<Digest>, blobs: seq<ReadResponse>) {
    && |blobs| <= |digests|
    && (forall i | 0 <= i < |blobs| ::
          && blobs[i].digest == digests[i]
          && (if blobs[i].status == Ok
              then var key := scope.CasKey(digests[i].hash);
                   key in store && blobs[i] == OkItem(p, acceptable, digests[i], ContentOf(p, store[key]))
              else blobs[i].data == []))
  }

  /** Where a call on this request can stand, given the store. */
  predicate Faithful(p: Primitives, store: Store, request: Request, pc: Pc) {
    (pc.Done? && pc.reply.Refused?) ||
    match request
    case FindMissing(instance, fn, digests) =>
      (match pc
       case Done(reply) => reply.Missing? && fn in {0, 1}
       case Finding(scope, ds, next, _) => Asked(scope, instance, fn) && ds == digests && next <= |ds|
       case _ => false)
    case BatchRead(instance, fn, digests, acceptable) =>
      (match pc
       case Done(Blobs(blobs)) =>
         && fn in {0, 1} && |blobs| == |digests|
         && Mirrored(p, store, Scope(instance, Sha256),
             AcceptableEncodings(acceptable), digests, blobs)
       case Reading(scope, encodings, ds, next, blobs) =>
         && Asked(scope, instance, fn) && ds == digests && encodings == AcceptableEncodings(acceptable)
         && |blobs| == next <= |ds| && Mirrored(p, store, scope, encodings, digests, blobs)
       case _ => false)
    case BatchUpdate(instance, fn, items) =>
      (match pc
       case Done(Updated(responses)) =>
         && fn in {0, 1} && |responses| == |items|
         && Kept(p, store, Scope(instance, Sha256), items, responses)
       case Uploading(scope, its, next, responses) =>
         && Asked(scope, instance, fn) && its == items
         && |responses| == next <= |items| && Kept(p, store, scope, items, responses)
       case _ => false)
    case Read(name, offset, limit) =>
      (match pc
       case Done(Contents(chunks)) =>
         var plan := PlanRead(name, offset, limit);
         && plan.Success? && plan.value.key in store
         && var content := ContentOf(p, store[plan.value.key]);
            && |content| == plan.value.resource.expectedSize
            && Deliver(p, content, plan.value.encoding, offset, limit) == Success(chunks)
       case Fetching(plan) => PlanRead(name, offset, limit) == Success(plan)
       case _ => false)
    case Write(stream) =>
      (match pc
       case Done(Committed(size)) =>
         var outcome := WriteOutcome(p, stream);
         && outcome.Success? && outcome.value.committedSize == size
         && Holds(p, store, outcome.value.key, ContentOf(p, outcome.value.blob))
       case Committing(commit) => WriteOutcome(p, stream) == Success(commit)
       case _ => false)
    case GetResult(instance, fn, digest) =>
      && digest.Some?
      && (match pc
          case Done(reply) =>
            && reply.Cached? && fn in {0, 1}
            && Closed(p, store, Scope(instance, Sha256), reply.result)
          case LoadingResult(scope, hash) => Asked(scope, instance, fn) && hash == digest.value.hash
          case CollectingTrees(job, _, _) =>
            Asked(job.scope, instance, fn) && job.actionHash == digest.value.hash && !job.update
          case CheckingArtifacts(job, _, _) =>
            Asked(job.scope, instance, fn) && job.actionHash == digest.value.hash && !job.update
          case _ => false)
    case UpdateResult(instance, fn, digest, result) =>
      && digest.Some? && result.Some?
      && (match pc
          case Done(reply) =>
            && reply == Cached(result.value) && fn in {0, 1}
            && var scope := Scope(instance, Sha256);
               && scope.AcKey(digest.value.hash) in store
               && Closed(p, store, scope, result.value) && ActionReady(p, store, scope, digest.value.hash)
               && RecordedBlob(p, result.value).Success?
          case LoadingAction(scope, hash, r) =>
            Asked(scope, instance, fn) && hash == digest.value.hash && r == result.value
          case CheckingCommand(scope, hash, r, _) =>
            Asked(scope, instance, fn) && hash == digest.value.hash && r == result.value
          case CollectingTrees(job, _, _) =>
            Asked(job.scope, instance, fn) && job == Job(job.scope, digest.value.hash, result.value, true)
          case CheckingArtifacts(job, _, _) =>
            Asked(job.scope, instance, fn) && job == Job(job.scope, digest.value.hash, result.value, true)
          case Recording(scope, hash, r) => Asked(scope, instance, fn) && hash == digest.value.hash && r == result.value
          case _ => false)
  }

  lemma StartIsFaithful(p: Primitives, store: Store, request: Request)
    ensures Faithful(p, store, request, Start(p, request))
  {
    hide PlanRead, WriteOutcome, ContentOf;
  }

  lemma MirroredGrows(p: Primitives, store: Store, after: Store, scope: Scope, acceptable: seq<StorageEncoding>,
          digests: seq<Digest>, blobs: seq<ReadResponse>)
    requires Extends(p, store, after) && Mirrored(p, store, scope, acceptable, digests, blobs)
    ensures Mirrored(p, after, scope, acceptable, digests, blobs)
  {
    hide OkItem, ContentOf;
  }

  lemma KeptGrows(p: Primitives, store: Store, after: Store, scope: Scope, items: seq<UploadItem>,
          responses: seq<UploadResponse>)
    requires Extends(p, store, after) && Kept(p, store, scope, items, responses)
    ensures Kept(p, after, scope, items, responses)
  {
    hide AdmitItem, ContentOf;
  }

  lemma FaithfulGrows(p: Primitives, store: Store, after: Store, request: Request, pc: Pc)
    requires Extends(p, store, after) && Faithful(p, store, request, pc)
    requires request.Write? && WriteOutcome(p, request.stream).Success? ==>
               WriteOutcome(p, request.stream).value.key.kind == ContentAddressableStorage
    ensures Faithful(p, after, request, pc)
  {
    hide Mirrored, Kept, WriteOutcome, Deliver, ContentOf, ResourceNames.Parse, Closed, ActionReady;
    match request
    case BatchRead(_, _, digests, _) =>
      match pc {
        case Done(Blobs(blobs)) =>
          MirroredGrows(p, store, after,
                        Scope(request.instance, Sha256),
                        AcceptableEncodings(request.acceptable), digests, blobs);
        case Reading(scope, encodings, _, _, blobs) => MirroredGrows(p, store, after, scope, encodings, digests, blobs);
        case _ =>
      }
    case BatchUpdate(_, _, items) =>
      match pc {
        case Done(Updated(responses)) =>
          KeptGrows(p, store, after, Scope(request.instance, Sha256), items, responses);
        case Uploading(scope, _, _, responses) => KeptGrows(p, store, after, scope, items, responses);
        case _ =>
      }
    case GetResult(_, _, _) =>
      match pc {
        case Done(Cached(result)) => ClosedGrows(p, store, after, Scope(request.instance, Sha256), result);
        case _ =>
      }
    case UpdateResult(_, _, digest, _) =>
      match pc {
        case Done(Cached(result)) =>
          ClosedGrows(p, store, after, Scope(request.instance, Sha256), result);
          ActionReadyGrows(p, store, after, Scope(request.instance, Sha256), digest.value.hash);
        case _ =>
      }
    case _ =>
  }

  /** The reply for a CAS entry, from its content alone. */
  lemma ReadItemOfEntry(p: Primitives, acceptable: seq<StorageEncoding>, digest: Digest, key: BlobKey, b: Blob)
    requires Lawful(p) && CasEntry(p, key, b)
    ensures ReadItem(p, acceptable, digest, Found(Some(b))) == OkItem(p, acceptable, digest, ContentOf(p, b))
  {
    TranscodeCanonical(p, ContentOf(p, b), b.metadata.encoding,
                       SelectBatchReadResponseEncoding(b.metadata.encoding, acceptable));
  }

  /** A batch-read entry in every case: a fault is Internal, an absent blob NotFound, and a blob that
      is there is delivered, without fail if the entry is one the server could have put. */
  lemma ReadItemAnswers(p: Primitives, acceptable: seq<StorageEncoding>, digest: Digest, store: Store, key: BlobKey,
          fault: bool)
    ensures var item := ReadItem(p, acceptable, digest, ReadAnswer(store, key, fault));
            if fault then item == ReadResponse(digest, [], 0, Internal)
            else if key !in store then item == ReadResponse(digest, [], 0, NotFound)
            else
              var blob := store[key];
              var reply := Transcode(p, blob, if Zstd in acceptable then Zstd else Identity);
              && item == (if reply.Failure? then ReadResponse(digest, [], 0, Internal)
                          else ReadResponse(digest, reply.value.data, if Zstd in acceptable then 1 else 0, Ok))
              && (Lawful(p) && CasEntry(p, key, blob) ==> item.status == Ok)
  {
    if !fault && key in store && Lawful(p) && CasEntry(p, key, store[key]) {
      ReadItemOfEntry(p, acceptable, digest, key, store[key]);
    }
  }

  /** A stream read of a CAS entry of the named size passes every check. */
  lemma ReadReplyOfEntry(p: Primitives, plan: ReadPlan, b: Blob)
    requires Lawful(p) && CasEntry(p, plan.key, b)
    requires plan.key.hash == plan.resource.hash && plan.resource.expectedSize >= 0
    ensures var content := ContentOf(p, b);
            ReadReply(p, plan, Some(b)) ==
            if |content| == plan.resource.expectedSize then Deliver(p, content, plan.encoding, plan.offset, plan.limit)
            else Failure(NotFound)
  {
    CasEntryDecodes(p, plan.key, b);
    hide Deliver, CasEntry, ContentOf, IntoIdentityData;
  }

  lemma PlanKeys(name: string, offset: Int64, limit: Int64)
    requires PlanRead(name, offset, limit).Success?
    ensures var plan := PlanRead(name, offset, limit).value;
            && plan.key == BlobKey(plan.resource.instance, Sha256, plan.resource.hash, ContentAddressableStorage)
            && plan.resource.expectedSize >= 0 && plan.name == name && plan.offset == offset && plan.limit == limit
            && ResourceNames.Parse(name) == Success(plan.resource)
  {
    ResourceNames.ParsedIsWellFormed(name);
  }

  lemma WriteKeys(p: Primitives, stream: WriteStream)
    requires WriteOutcome(p, stream).Success?
    ensures WriteOutcome(p, stream).value.key.kind == ContentAddressableStorage
  {
    hide Receive, Uploads.Admit;
  }

  lemma OkItemIsOk(p: Primitives, acceptable: seq<StorageEncoding>, digest: Digest, content: Bytes)
    ensures OkItem(p, acceptable, digest, content).status == Ok &&
            OkItem(p, acceptable, digest, content).digest == digest
  {
  }

  lemma UploadingStaysKept(p: Primitives, store: Store, scope: Scope, items: seq<UploadItem>, next: nat,
          responses: seq<UploadResponse>, fault: bool)
    requires next == |responses| < |items| && Kept(p, store, scope, items, responses)
    requires Extends(p, store, Step(p, Uploading(scope, items, next, responses), store, fault).1)
    ensures var (pc, after) := Step(p, Uploading(scope, items, next, responses), store, fault);
            && pc.Uploading? && |pc.responses| == next + 1
            && pc == Uploading(scope, items, next + 1, pc.responses) && Kept(p, after, scope, items, pc.responses)
  {
    assert AdmitItem(p, scope, items[next]).Failure? ==> AdmitItem(p, scope, items[next]).error != Ok;
    hide Step, ContentOf, AdmitItem;
    UploadingStep(p, scope, items, next, responses, store, fault);
    KeptGrows(p, store, Step(p, Uploading(scope, items, next, responses), store, fault).1, scope, items, responses);
  }

  lemma FetchingStaysFaithful(p: Primitives, store: Store, request: Request, plan: ReadPlan, fault: bool)
    requires Lawful(p) && StoreOk(p, store)
    requires request.Read? && PlanRead(request.name, request.offset, request.limit) == Success(plan)
    ensures var (pc, after) := Step(p, Fetching(plan), store, fault);
            && after == store && pc.Done? && Faithful(p, store, request, pc)
            && (!fault && plan.key in store && |ContentOf(p, store[plan.key])| == plan.resource.expectedSize ==>
                  pc.reply == match Deliver(p, ContentOf(p, store[plan.key]), plan.encoding, plan.offset, plan.limit)
                              case Failure(code) => Refused(code)
                              case Success(chunks) => Contents(chunks))
  {
    assert ReadReply(p, plan, None) == Failure(NotFound);
    hide Step, ReadReply, PlanRead, Deliver, ContentOf, StoreOk;
    FetchingStep(p, plan, store, fault);
    PlanKeys(request.name, request.offset, request.limit);
    if plan.key in store {
      CasEntryAt(p, store, plan.key);
      ReadReplyOfEntry(p, plan, store[plan.key]);
    }
  }

  lemma ActionStep(p: Primitives, store: Store, request: Request, pc: Pc, fault: bool)
    requires request.GetResult? || request.UpdateResult?
    requires Faithful(p, store, request, pc) && Established(p, store, pc) && !pc.Done?
    requires Extends(p, store, Step(p, pc, store, fault).1)
    ensures Faithful(p, Step(p, pc, store, fault).1, request, Step(p, pc, store, fault).0)
  {
    var after := Step(p, pc, store, fault).1;
    if pc.Recording? {
      ClosedGrows(p, store, after, pc.scope, pc.result);
      ActionReadyGrows(p, store, after, pc.scope, pc.actionHash);
    } else if pc.CheckingArtifacts? && !pc.job.update {
      ClosedGrows(p, store, after, pc.job.scope, pc.job.result);
    }
    hide ContentOf, IntoIdentityData, ResultDigests, TreeDigests, RecordedBlob, Mirrored, Kept, WriteOutcome, PlanRead,
         Closed, ActionReady, Extends, Gathered, CommandOf;
  }

  lemma StepStaysFaithful(p: Primitives, store: Store, request: Request, pc: Pc, fault: bool)
    requires Lawful(p) && StoreOk(p, store) && Faithful(p, store, request, pc) && Established(p, store, pc)
    requires Extends(p, store, Step(p, pc, store, fault).1)
    ensures Faithful(p, Step(p, pc, store, fault).1, request, Step(p, pc, store, fault).0)
  {
    if pc.Done? {
    } else if request.BatchRead? {
      if pc.next < |pc.digests| {
        ReadingStaysMirrored(p, store, pc.scope, pc.acceptable, pc.digests, pc.next, pc.blobs, fault);
      }
      hide Mirrored;
    } else if request.BatchUpdate? {
      if pc.next < |pc.items| {
        UploadingStaysKept(p, store, pc.scope, pc.items, pc.next, pc.responses, fault);
      }
      hide Kept, AdmitItem;
    } else if request.Read? {
      FetchingStaysFaithful(p, store, request, pc.plan, fault);
    } else if request.Write? {
      hide WriteOutcome, ContentOf, StoreOk;
    } else if request.FindMissing? {
      hide StoreOk;
    } else {
      ActionStep(p, store, request, pc, fault);
    }
  }

  lemma ReadingStaysMirrored(p: Primitives, store: Store, scope: Scope, acceptable: seq<StorageEncoding>,
          digests: seq<Digest>, next: nat, blobs: seq<ReadResponse>, fault: bool)
    requires Lawful(p) && StoreOk(p, store)
    requires next == |blobs| < |digests| && Mirrored(p, store, scope, acceptable, digests, blobs)
    ensures var (pc, after) := Step(p, Reading(scope, acceptable, digests, next, blobs), store, fault);
            && after == store && pc.Reading?
            && pc == Reading(scope, acceptable, digests, next + 1, pc.blobs)
            && Mirrored(p, store, scope, acceptable, digests, pc.blobs)
            && var key := scope.CasKey(digests[next].hash);
               (!fault && key in store ==>
                  pc.blobs == blobs + [OkItem(p, acceptable, digests[next], ContentOf(p, store[key]))])
  {
    hide Step, ContentOf, StoreOk, OkItem;
    ReadingStep(p, scope, acceptable, digests, next, blobs, store, fault);
    var key := scope.CasKey(digests[next].hash);
    if key in store {
      CasEntryAt(p, store, key);
      ReadItemOfEntry(p, acceptable, digests[next], key, store[key]);
      assert OkItem(p, acceptable, digests[next], ContentOf(p, store[key])).status == Ok by {
        OkItemIsOk(p, acceptable, digests[next], ContentOf(p, store[key]));
      }
    }
  }

  predicate AllFaithful(p: Primitives, s: System) {
    forall id | id in s.sessions :: Faithful(p, s.store, s.sessions[id].request, s.sessions[id].pc)
  }

  lemma ApplyKeepsFaithful(p: Primitives, s: System, e: Event)
    requires Lawful(p) && Inv(p, s) && AllFaithful(p, s) && CollisionFree(p, Apply(p, s, e).seen)
    ensures AllFaithful(p, Apply(p, s, e))
  {
    ApplyKeepsInv(p, s, e);
    hide Established, Faithful, Step, StoreOk, WriteOutcome, Extends;
    match e
    case Begin(id, request) => StartIsFaithful(p, s.store, request);
    case Advance(id, fault) =>
      if id in s.sessions {
        StepStaysFaithful(p, s.store, s.sessions[id].request, s.sessions[id].pc, fault);
        forall other | other in s.sessions && other != id
          ensures Faithful(p, Apply(p, s, e).store, s.sessions[other].request, s.sessions[other].pc)
        {
          var request := s.sessions[other].request;
          if request.Write? && WriteOutcome(p, request.stream).Success? {
            WriteKeys(p, request.stream);
          }
          FaithfulGrows(p, s.store, Apply(p, s, e).store, request, s.sessions[other].pc);
        }
      }
  }

  lemma {:induction false} FaithfulAt(p: Primitives, events: seq<Event>, i: nat)
    requires Lawful(p) && i <= |events| && NoCollisions(p, events)
    ensures AllFaithful(p, At(p, events, i))
    decreases i
  {
    if i == 0 {
      assert Run(p, []) == EMPTY_SYSTEM;
    } else {
      FaithfulAt(p, events, i - 1);
      InvAt(p, events, i - 1);
      InvAt(p, events, i);
      AtNext(p, events, i - 1);
      ApplyKeepsFaithful(p, At(p, events, i - 1), events[i - 1]);
    }
  }

  /** A call keeps its request for life. */
  lemma {:induction false} RequestsStay(p: Primitives, events: seq<Event>, i: nat, j: nat, id: nat)
    requires i <= j <= |events| && id in At(p, events, i).sessions
    ensures id in At(p, events, j).sessions
    ensures At(p, events, j).sessions[id].request == At(p, events, i).sessions[id].request
    decreases j
  {
    if i == j {
    } else {
      RequestsStay(p, events, i, j - 1, id);
      AtNext(p, events, j - 1);
    }
  }
}
