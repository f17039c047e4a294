/** Each kind of step spelled out: the call's next point and the store after it. */
module Steps {
  import opened Wrappers
  import opened Messages
  import opened Primitives
  import opened BlobStore
  import opened ByteStreams
  import opened Calls

  lemma DoneStep(p: Primitives, pc: Pc, store: Store, fault: bool)
    requires pc.Done?
    ensures Step(p, pc, store, fault) == (pc, store)
  {
    hide AdmitItem, RecordedBlob, ReadReply, ReadItem, AfterTree, AfterResult, AfterAction;
  }

  /** A call whose next step is its last. */
  lemma LastStep(p: Primitives, pc: Pc, store: Store, fault: bool)
    requires !pc.Done? && Step(p, pc, store, fault).0.Done?
    ensures Finish(p, pc, store, fault) == (Step(p, pc, store, fault).0.reply, Step(p, pc, store, fault).1)
  {
    hide Step;
  }

  lemma FindingStep(p: Primitives, scope: Scope, digests: seq<Digest>, next: nat, missing: seq<Digest>, store: Store,
          fault: bool)
    ensures Step(p, Finding(scope, digests, next, missing), store, fault) ==
            (if next >= |digests| then Done(Missing(missing))
             else if fault then Done(Refused(Internal))
             else Finding(scope, digests, next + 1,
                          if scope.CasKey(digests[next].hash) in store then missing else missing + [digests[next]]),
             store)
  {
    hide AdmitItem, RecordedBlob, ReadReply, ReadItem, AfterTree, AfterResult, AfterAction;
  }

  function ReadAnswer(store: Store, key: BlobKey, fault: bool): Answer {
    if fault then Failed else Found(Lookup(store, key))
  }

  lemma ReadingStep(p: Primitives, scope: Scope, acceptable: seq<StorageEncoding>, digests: seq<Digest>, next: nat,
          blobs: seq<ReadResponse>, store: Store, fault: bool)
    ensures Step(p, Reading(scope, acceptable, digests, next, blobs), store, fault) ==
            (if next >= |digests| then Done(Blobs(blobs))
             else Reading(scope, acceptable, digests, next + 1,
                          blobs + [ReadItem(p, acceptable, digests[next],
                                            ReadAnswer(store, scope.CasKey(digests[next].hash), fault))]),
             store)
  {
    hide AdmitItem, RecordedBlob, ReadReply, ReadItem, AfterTree, AfterResult, AfterAction;
  }

  /** The status of an upload and the store after it. */
  function PutAdmitted(admitted: Result<Blob, Code>, key: BlobKey, store: Store, fault: bool): (Code, Store) {
    match admitted
    case Failure(code) => (code, store)
    case Success(blob) => if fault then (Internal, store) else (Ok, store[key := blob])
  }

  /** The key an item with a digest goes to; an item without one is never admitted. */
  function ItemKey(scope: Scope, item: UploadItem): BlobKey {
    scope.CasKey(if item.digest.Some? then item.digest.value.hash else "")
  }

  lemma UploadingStep(p: Primitives, scope: Scope, items: seq<UploadItem>, next: nat, responses: seq<UploadResponse>,
          store: Store, fault: bool)
    ensures Step(p, Uploading(scope, items, next, responses), store, fault) ==
            if next >= |items| then (Done(Updated(responses)), store)
            else
              var (status, after) := PutAdmitted(AdmitItem(p, scope, items[next]),
                                                 ItemKey(scope, items[next]), store, fault);
              (Uploading(scope, items, next + 1, responses + [UploadResponse(items[next].digest, status)]), after)
  {
    assert next < |items| && AdmitItem(p, scope, items[next]).Success? ==> items[next].digest.Some?;
    hide AdmitItem, RecordedBlob, ReadReply, ReadItem, AfterTree, AfterResult, AfterAction;
  }

  lemma FetchingStep(p: Primitives, plan: ReadPlan, store: Store, fault: bool)
    ensures Step(p, Fetching(plan), store, fault) ==
            (if fault then Done(Refused(Internal))
             else
               var r := ReadReply(p, plan, Lookup(store, plan.key));
               Done(if r.Failure? then Refused(r.error) else Contents(r.value)),
             store)
  {
    hide AdmitItem, RecordedBlob, ReadReply, ReadItem, AfterTree, AfterResult, AfterAction;
  }

  lemma CommittingStep(p: Primitives, commit: Commit, store: Store, fault: bool)
    ensures Step(p, Committing(commit), store, fault) ==
            if fault then (Done(Refused(Internal)), store)
            else (Done(Committed(commit.committedSize)), store[commit.key := commit.blob])
  {
    hide AdmitItem, RecordedBlob, ReadReply, ReadItem, AfterTree, AfterResult, AfterAction;
  }

  lemma LoadingResultStep(p: Primitives, scope: Scope, hash: string, store: Store, fault: bool)
    ensures Step(p, LoadingResult(scope, hash), store, fault) ==
            (if fault then Done(Refused(Internal))
             else AfterResult(p, scope, hash, Lookup(store, scope.AcKey(hash))), store)
  {
    hide AdmitItem, RecordedBlob, ReadReply, ReadItem, AfterTree, AfterResult, AfterAction;
  }

  lemma LoadingActionStep(p: Primitives, scope: Scope, hash: string, result: ActionResult, store: Store, fault: bool)
    ensures Step(p, LoadingAction(scope, hash, result), store, fault) ==
            (if fault then Done(Refused(Internal))
             else AfterAction(p, scope, hash, result, Lookup(store, scope.CasKey(hash))), store)
  {
    hide AdmitItem, RecordedBlob, ReadReply, ReadItem, AfterTree, AfterResult, AfterAction;
  }

  lemma CheckingCommandStep(p: Primitives, scope: Scope, hash: string, result: ActionResult, command: Digest,
          store: Store, fault: bool)
    ensures Step(p, CheckingCommand(scope, hash, result, command), store, fault) ==
            (if fault then Done(Refused(Internal))
             else if scope.CasKey(command.hash) !in store then Done(Refused(FailedPrecondition))
             else BeginValidation(Job(scope, hash, result, true)),
             store)
  {
    hide AdmitItem, RecordedBlob, ReadReply, ReadItem, AfterTree, AfterResult, AfterAction, BeginValidation;
  }

  lemma CollectingStep(p: Primitives, job: Job, next: nat, digests: seq<Digest>, store: Store, fault: bool)
    ensures var directories := job.result.outputDirectories;
            Step(p, CollectingTrees(job, next, digests), store, fault) ==
            (if next >= |directories| then CheckingArtifacts(job, 0, digests)
             else if directories[next].treeDigest.None? then Done(Refused(job.MissingCode()))
             else if fault then Done(Refused(Internal))
             else AfterTree(p, job, next, digests,
                            Lookup(store, job.scope.CasKey(directories[next].treeDigest.value.hash))),
             store)
  {
    hide AdmitItem, RecordedBlob, ReadReply, ReadItem, AfterTree, AfterResult, AfterAction;
  }

  lemma CheckingStep(p: Primitives, job: Job, next: nat, digests: seq<Digest>, store: Store, fault: bool)
    ensures Step(p, CheckingArtifacts(job, next, digests), store, fault) ==
            if next >= |digests| then (Validated(job), store)
            else if fault then (Done(Refused(Internal)), store)
            else
              var key := job.scope.CasKey(digests[next].hash);
              if IsEmptyBlob(digests[next])
              then (CheckingArtifacts(job, next + 1, digests), store[key := IdentityBlob([])])
              else (if key in store then CheckingArtifacts(job, next + 1, digests)
                    else Done(Refused(job.MissingCode())), store)
  {
    hide AdmitItem, RecordedBlob, ReadReply, ReadItem, AfterTree, AfterResult, AfterAction, Validated;
  }

  lemma RecordingStep(p: Primitives, scope: Scope, hash: string, result: ActionResult, store: Store, fault: bool)
    ensures Step(p, Recording(scope, hash, result), store, fault) ==
            if RecordedBlob(p, result).Failure? || fault then (Done(Refused(Internal)), store)
            else (Done(Cached(result)), store[scope.AcKey(hash) := RecordedBlob(p, result).value])
  {
    hide AdmitItem, RecordedBlob, ReadReply, ReadItem, AfterTree, AfterResult, AfterAction;
  }

  /** A failed store operation changes nothing. A batch goes on and answers Internal for the item
      at hand; any other call is refused with Internal. */
  lemma FaultsAnswerInternal(p: Primitives, pc: Pc, store: Store)
    requires !NextOp(p, pc).Local?
    ensures var (next, after) := Step(p, pc, store, true);
            && after == store
            && (pc.Reading? ==>
                  next == pc.(next := pc.next + 1,
                              blobs := pc.blobs + [ReadResponse(pc.digests[pc.next], [], 0, Internal)]))
            && (pc.Uploading? ==>
                  next == pc.(next := pc.next + 1,
                              responses := pc.responses + [UploadResponse(pc.items[pc.next].digest, Internal)]))
            && (!pc.Reading? && !pc.Uploading? ==> next == Done(Refused(Internal)))
  {
    hide AdmitItem, RecordedBlob, ReadReply, AfterTree, AfterResult, AfterAction, BeginValidation;
  }
}
