/** A call in progress: which store operation it performs next, and how it goes on with the
    answer. Between two store operations a call only computes, so one step here is one atomic
    access to the shared store. */
module Calls {
  import opened Wrappers
  import opened Messages
  import opened Primitives
  import opened BlobStore
  import opened BlobCodec
  import opened ByteStreams
  import Digests
  import Uploads

  type Store = map<BlobKey, Blob>

  datatype Request =
    | FindMissing(instance: string, digestFunction: Int32, digests: seq<Digest>)
    | BatchRead(instance: string, digestFunction: Int32, digests: seq<Digest>, acceptable: seq<Int32>)
    | BatchUpdate(instance: string, digestFunction: Int32, items: seq<UploadItem>)
    | Read(name: string, offset: Int64, limit: Int64)
    | Write(stream: WriteStream)
    | GetResult(instance: string, digestFunction: Int32, actionDigest: Option<Digest>)
    | UpdateResult(instance: string, digestFunction: Int32, actionDigest: Option<Digest>, result: Option<ActionResult>)

  datatype Reply =
    | Refused(code: Code)
    | Missing(digests: seq<Digest>)
    | Blobs(blobs: seq<ReadResponse>)
    | Updated(responses: seq<UploadResponse>)
    | Contents(chunks: seq<Bytes>)
    | Committed(size: nat)
    | Cached(result: ActionResult)

  datatype Scope = Scope(instance: string, algorithm: DigestAlgorithm) {
    function CasKey(hash: string): BlobKey {
      BlobKey(instance, algorithm, hash, ContentAddressableStorage)
    }

    function AcKey(hash: string): BlobKey {
      BlobKey(instance, algorithm, hash, ActionCache)
    }
  }

  /** The validation of a result's artifacts, before it is recorded (update) or returned (get). */
  datatype Job = Job(scope: Scope, actionHash: string, result: ActionResult, update: bool) {
    function MissingCode(): Code {
      if update then FailedPrecondition else NotFound
    }
  }

  datatype Pc =
    | Done(reply: Reply)
    | Finding(scope: Scope, digests: seq<Digest>, next: nat, missing: seq<Digest>)
    | Reading(scope: Scope, acceptable: seq<StorageEncoding>, digests: seq<Digest>, next: nat, blobs: seq<ReadResponse>)
    | Uploading(scope: Scope, items: seq<UploadItem>, next: nat, responses: seq<UploadResponse>)
    | Fetching(plan: ReadPlan)
    | Committing(commit: Commit)
    | LoadingResult(scope: Scope, actionHash: string)
    | LoadingAction(scope: Scope, actionHash: string, result: ActionResult)
    | CheckingCommand(scope: Scope, actionHash: string, result: ActionResult, command: Digest)
    | CollectingTrees(job: Job, next: nat, digests: seq<Digest>)
    | CheckingArtifacts(job: Job, next: nat, digests: seq<Digest>)
    | Recording(scope: Scope, actionHash: string, result: ActionResult)

  datatype Op = Local | Get(key: BlobKey) | Put(key: BlobKey, blob: Blob) | Contains(key: BlobKey)
  datatype Answer = Proceed | Found(blob: Option<Blob>) | Stored | Has(present: bool) | Failed

  predicate Answers(op: Op, answer: Answer) {
    match op
    case Local => answer.Proceed?
    case Get(_) => answer.Found? || answer.Failed?
    case Put(_, _) => answer.Stored? || answer.Failed?
    case Contains(_) => answer.Has? || answer.Failed?
  }

  // ----- The pieces of the handlers ----------------------------------------

  function AcceptableEncodings(values: seq<Int32>): seq<StorageEncoding> {
    if values == [] then []
    else
      var first := EncodingFromProto(values[0]);
      (if first.Some? then [first.value] else []) + AcceptableEncodings(values[1..])
  }

  /** One entry of a batch-read reply. */
  function ReadItem(p: Primitives, acceptable: seq<StorageEncoding>, digest: Digest, answer: Answer): ReadResponse
    requires answer.Found? || answer.Failed?
  {
    match answer
    case Failed => ReadResponse(digest, [], 0, Internal)
    case Found(None) => ReadResponse(digest, [], 0, NotFound)
    case Found(Some(blob)) =>
      match Transcode(p, blob, SelectBatchReadResponseEncoding(blob.metadata.encoding, acceptable))
      case Failure(_) => ReadResponse(digest, [], Identity.AsProtoValue(), Internal)
      case Success(reply) => ReadResponse(digest, reply.data, reply.metadata.encoding.AsProtoValue(), Ok)
  }

  /** What one entry of a batch update stores, or the status it is refused with. */
  function AdmitItem(p: Primitives, scope: Scope, item: UploadItem): Result<Blob, Code> {
    if item.digest.None? || EncodingFromProto(item.compressor).None? then Failure(InvalidArgument)
    else
      var digest := item.digest.value;
      Uploads.Admit(p, scope.algorithm, digest.hash, digest.sizeBytes, item.data,
                    EncodingFromProto(item.compressor).value)
  }

  /** The digests of these output files, or None if one lacks its digest. */
  function FileDigests(files: seq<OutputFile>): Option<seq<Digest>> {
    if files == [] then Some([])
    else if files[0].digest.None? then None
    else match FileDigests(files[1..])
      case None => None
      case Some(rest) => Some([files[0].digest.value] + rest)
  }

  function OptionalDigest(d: Option<Digest>): seq<Digest> {
    if d.Some? then [d.value] else []
  }

  /** Output files, then stdout, then stderr. */
  function ResultDigests(r: ActionResult): Option<seq<Digest>> {
    match FileDigests(r.outputFiles)
    case None => None
    case Some(files) => Some(files + OptionalDigest(r.stdoutDigest) + OptionalDigest(r.stderrDigest))
  }

  function NodeDigests(files: seq<FileNode>): Option<seq<Digest>> {
    if files == [] then Some([])
    else if files[0].digest.None? then None
    else match NodeDigests(files[1..])
      case None => None
      case Some(rest) => Some([files[0].digest.value] + rest)
  }

  function DirectoriesDigests(directories: seq<Directory>): Option<seq<Digest>> {
    if directories == [] then Some([])
    else match (NodeDigests(directories[0].files), DirectoriesDigests(directories[1..]))
      case (Some(first), Some(rest)) => Some(first + rest)
      case _ => None
  }

  /** The root's files, then the children's; None without a root or with a digest missing. */
  function TreeDigests(tree: Tree): Option<seq<Digest>> {
    if tree.root.None? then None else DirectoriesDigests([tree.root.value] + tree.children)
  }

  predicate IsEmptyBlob(d: Digest) {
    d.sizeBytes == 0 && d.hash == EMPTY_SHA256
  }

  function RecordedBlob(p: Primitives, r: ActionResult): Result<Blob, CodecError> {
    FromIdentityData(p, p.encodeResult(r), Zstd)
  }

  function BeginValidation(job: Job): Pc {
    match ResultDigests(job.result)
    case None => Done(Refused(job.MissingCode()))
    case Some(digests) => CollectingTrees(job, 0, digests)
  }

  /** A get goes on with the action cache entry it found. */
  function AfterResult(p: Primitives, scope: Scope, hash: string, found: Option<Blob>): Pc {
    if found.None? then Done(Refused(NotFound))
    else match IntoIdentityData(p, found.value)
      case Failure(_) => Done(Refused(Internal))
      case Success(bytes) =>
        match p.decodeResult(bytes)
        case None => Done(Refused(Internal))
        case Some(result) => BeginValidation(Job(scope, hash, result, false))
  }

  /** An update goes on with the Action blob it found. */
  function AfterAction(p: Primitives, scope: Scope, hash: string, result: ActionResult, found: Option<Blob>): Pc {
    if found.None? then Done(Refused(FailedPrecondition))
    else match IntoIdentityData(p, found.value)
      case Failure(_) => Done(Refused(FailedPrecondition))
      case Success(bytes) =>
        match p.decodeAction(bytes)
        case None => Done(Refused(FailedPrecondition))
        case Some(action) =>
          if action.commandDigest.None? then Done(Refused(FailedPrecondition))
          else CheckingCommand(scope, hash, result, action.commandDigest.value)
  }

  /** A validation goes on with the output tree it found. */
  function AfterTree(p: Primitives, job: Job, next: nat, digests: seq<Digest>, found: Option<Blob>): Pc {
    if found.None? then Done(Refused(job.MissingCode()))
    else match IntoIdentityData(p, found.value)
      case Failure(_) => Done(Refused(Internal))
      case Success(bytes) =>
        match p.decodeTree(bytes)
        case None => Done(Refused(Internal))
        case Some(tree) =>
          match TreeDigests(tree)
          case None => Done(Refused(job.MissingCode()))
          case Some(files) => CollectingTrees(job, next + 1, digests + files)
  }

  /** Where a validation leads when every artifact is there. */
  function Validated(job: Job): Pc {
    if job.update then Recording(job.scope, job.actionHash, job.result) else Done(Cached(job.result))
  }

  // ----- The machine -------------------------------------------------------

  /** A request's checks before its first store operation. */
  function Start(p: Primitives, request: Request): Pc {
    match request
    case FindMissing(instance, fn, digests) =>
      (match Digests.ResolveProtoValue(fn)
       case None => Done(Refused(InvalidArgument))
       case Some(a) => Finding(Scope(instance, a), digests, 0, []))
    case BatchRead(instance, fn, digests, acceptable) =>
      (match Digests.ResolveProtoValue(fn)
       case None => Done(Refused(InvalidArgument))
       case Some(a) => Reading(Scope(instance, a), AcceptableEncodings(acceptable), digests, 0, []))
    case BatchUpdate(instance, fn, items) =>
      (match Digests.ResolveProtoValue(fn)
       case None => Done(Refused(InvalidArgument))
       case Some(a) => Uploading(Scope(instance, a), items, 0, []))
    case Read(name, offset, limit) =>
      (match PlanRead(name, offset, limit)
       case Failure(code) => Done(Refused(code))
       case Success(plan) => Fetching(plan))
    case Write(stream) =>
      (match WriteOutcome(p, stream)
       case Failure(code) => Done(Refused(code))
       case Success(commit) => Committing(commit))
    case GetResult(instance, fn, digest) =>
      if digest.None? || Digests.ResolveProtoValue(fn).None? then Done(Refused(InvalidArgument))
      else LoadingResult(Scope(instance, Digests.ResolveProtoValue(fn).value), digest.value.hash)
    case UpdateResult(instance, fn, digest, result) =>
      if digest.None? || result.None? || Digests.ResolveProtoValue(fn).None? then Done(Refused(InvalidArgument))
      else LoadingAction(Scope(instance, Digests.ResolveProtoValue(fn).value), digest.value.hash, result.value)
  }

  /** The calls that name a digest function are served under SHA-256 exactly when it is 0 (unknown,
      the default) or 1 (SHA-256) and the messages they need are there, and else are refused. */
  lemma ServedExactlyWhen(p: Primitives, request: Request)
    requires !request.Read? && !request.Write?
    ensures var scope := Scope(request.instance, Sha256);
            var start := Start(p, request);
            if || request.digestFunction !in {0, 1}
               || ((request.GetResult? || request.UpdateResult?) && request.actionDigest.None?)
               || (request.UpdateResult? && request.result.None?)
            then start == Done(Refused(InvalidArgument))
            else && (request.FindMissing? ==> start == Finding(scope, request.digests, 0, []))
                 && (request.BatchRead? ==>
                       start == Reading(scope, AcceptableEncodings(request.acceptable), request.digests, 0, []))
                 && (request.BatchUpdate? ==> start == Uploading(scope, request.items, 0, []))
                 && (request.GetResult? ==> start == LoadingResult(scope, request.actionDigest.value.hash))
                 && (request.UpdateResult? ==>
                       start == LoadingAction(scope, request.actionDigest.value.hash, request.result.value))
  {
  }

  /** The stream calls go on exactly with the read that is planned, or the write that is accepted. */
  lemma StreamsServedExactlyWhen(p: Primitives, name: string, offset: Int64, limit: Int64, stream: WriteStream)
    ensures var plan, outcome := PlanRead(name, offset, limit), WriteOutcome(p, stream);
            && Start(p, Read(name, offset, limit)) ==
               (if plan.Success? then Fetching(plan.value) else Done(Refused(plan.error)))
            && Start(p, Write(stream)) ==
               (if outcome.Success? then Committing(outcome.value) else Done(Refused(outcome.error)))
  {
    hide PlanRead, WriteOutcome;
  }

  function NextOp(p: Primitives, pc: Pc): Op {
    match pc
    case Done(_) => Local
    case Finding(scope, digests, next, _) =>
      if next < |digests| then Contains(scope.CasKey(digests[next].hash)) else Local
    case Reading(scope, _, digests, next, _) =>
      if next < |digests| then Get(scope.CasKey(digests[next].hash)) else Local
    case Uploading(scope, items, next, _) =>
      if next < |items| && AdmitItem(p, scope, items[next]).Success?
      then Put(scope.CasKey(items[next].digest.value.hash), AdmitItem(p, scope, items[next]).value)
      else Local
    case Fetching(plan) => Get(plan.key)
    case Committing(commit) => Put(commit.key, commit.blob)
    case LoadingResult(scope, hash) => Get(scope.AcKey(hash))
    case LoadingAction(scope, hash, _) => Get(scope.CasKey(hash))
    case CheckingCommand(scope, _, _, command) => Contains(scope.CasKey(command.hash))
    case CollectingTrees(job, next, _) =>
      var directories := job.result.outputDirectories;
      if next < |directories| && directories[next].treeDigest.Some?
      then Get(job.scope.CasKey(directories[next].treeDigest.value.hash))
      else Local
    case CheckingArtifacts(job, next, digests) =>
      if next >= |digests| then Local
      else if IsEmptyBlob(digests[next]) then Put(job.scope.CasKey(digests[next].hash), IdentityBlob([]))
      else Contains(job.scope.CasKey(digests[next].hash))
    case Recording(scope, hash, result) =>
      if RecordedBlob(p, result).Success? then Put(scope.AcKey(hash), RecordedBlob(p, result).value) else Local
  }

  function Resume(p: Primitives, pc: Pc, answer: Answer): Pc
    requires Answers(NextOp(p, pc), answer)
  {
    match pc
    case Done(_) => pc
    case Finding(scope, digests, next, missing) =>
      if next >= |digests| then Done(Missing(missing))
      else if answer.Failed? then Done(Refused(Internal))
      else Finding(scope, digests, next + 1, if answer.present then missing else missing + [digests[next]])
    case Reading(scope, acceptable, digests, next, blobs) =>
      if next >= |digests| then Done(Blobs(blobs))
      else Reading(scope, acceptable, digests, next + 1, blobs + [ReadItem(p, acceptable, digests[next], answer)])
    case Uploading(scope, items, next, responses) =>
      if next >= |items| then Done(Updated(responses))
      else
        var admitted := AdmitItem(p, scope, items[next]);
        var status := if admitted.Failure? then admitted.error else if answer.Failed? then Internal else Ok;
        Uploading(scope, items, next + 1, responses + [UploadResponse(items[next].digest, status)])
    case Fetching(plan) =>
      if answer.Failed? then Done(Refused(Internal))
      else
        (match ReadReply(p, plan, answer.blob)
         case Failure(code) => Done(Refused(code))
         case Success(chunks) => Done(Contents(chunks)))
    case Committing(commit) =>
      if answer.Failed? then Done(Refused(Internal)) else Done(Committed(commit.committedSize))
    case LoadingResult(scope, hash) =>
      if answer.Failed? then Done(Refused(Internal)) else AfterResult(p, scope, hash, answer.blob)
    case LoadingAction(scope, hash, result) =>
      if answer.Failed? then Done(Refused(Internal)) else AfterAction(p, scope, hash, result, answer.blob)
    case CheckingCommand(scope, hash, result, _) =>
      if answer.Failed? then Done(Refused(Internal))
      else if !answer.present then Done(Refused(FailedPrecondition))
      else BeginValidation(Job(scope, hash, result, true))
    case CollectingTrees(job, next, digests) =>
      if next >= |job.result.outputDirectories| then CheckingArtifacts(job, 0, digests)
      else if answer.Proceed? then Done(Refused(job.MissingCode()))
      else if answer.Failed? then Done(Refused(Internal))
      else AfterTree(p, job, next, digests, answer.blob)
    case CheckingArtifacts(job, next, digests) =>
      if next >= |digests| then Validated(job)
      else if answer.Failed? then Done(Refused(Internal))
      else if answer.Has? && !answer.present then Done(Refused(job.MissingCode()))
      else CheckingArtifacts(job, next + 1, digests)
    case Recording(_, _, result) =>
      if answer.Stored? then Done(Cached(result)) else Done(Refused(Internal))
  }

  function Lookup(store: Store, key: BlobKey): Option<Blob> {
    if key in store then Some(store[key]) else None
  }

  /** One atomic access to the store; a fault leaves it alone. */
  function Perform(op: Op, store: Store, fault: bool): (r: (Answer, Store))
    ensures Answers(op, r.0)
  {
    match op
    case Local => (Proceed, store)
    case Get(key) => if fault then (Failed, store) else (Found(Lookup(store, key)), store)
    case Put(key, blob) => if fault then (Failed, store) else (Stored, store[key := blob])
    case Contains(key) => if fault then (Failed, store) else (Has(key in store), store)
  }

  function Step(p: Primitives, pc: Pc, store: Store, fault: bool): (Pc, Store) {
    var (answer, after) := Perform(NextOp(p, pc), store, fault);
    (Resume(p, pc, answer), after)
  }

  // ----- A call on its own -------------------------------------------------

  function Phase(pc: Pc): nat {
    match pc
    case Done(_) => 0
    case CheckingArtifacts(_, _, _) => 2
    case CollectingTrees(_, _, _) => 3
    case CheckingCommand(_, _, _, _) => 4
    case LoadingResult(_, _) => 5
    case LoadingAction(_, _, _) => 5
    case _ => 1
  }

  function Left(total: nat, next: nat): nat {
    if next < total then total - next else 0
  }

  function Remaining(pc: Pc): nat {
    match pc
    case Finding(_, digests, next, _) => Left(|digests|, next)
    case Reading(_, _, digests, next, _) => Left(|digests|, next)
    case Uploading(_, items, next, _) => Left(|items|, next)
    case CollectingTrees(job, next, _) => Left(|job.result.outputDirectories|, next)
    case CheckingArtifacts(_, next, digests) => Left(|digests|, next)
    case _ => 0
  }

  /** Every step brings a call nearer its end, whatever other calls have done to the store in
      between and whether or not the step fails: no call goes on for ever. */
  lemma StepsComeNearer(p: Primitives, pc: Pc, store: Store, fault: bool)
    requires !pc.Done?
    ensures var next := Step(p, pc, store, fault).0;
            Phase(next) < Phase(pc) || (Phase(next) == Phase(pc) && Remaining(next) < Remaining(pc))
  {
    hide AdmitItem, RecordedBlob, ReadReply, ReadItem, TreeDigests, IntoIdentityData, ResultDigests;
  }

  /** Runs a call to its end with no other call in between. Each step brings the end nearer. */
  function Finish(p: Primitives, pc: Pc, store: Store, fault: bool): (Reply, Store)
    decreases Phase(pc), Remaining(pc)
  {
    if pc.Done? then (pc.reply, store)
    else
      var (next, after) := Step(p, pc, store, fault);
      Finish(p, next, after, fault)
  }

  function RunAlone(p: Primitives, request: Request, store: Store, fault: bool): (Reply, Store) {
    Finish(p, Start(p, request), store, fault)
  }
}
