/** The ActionCache handlers over the shared in-memory store. */
module ActionCacheServices {
  import opened Wrappers
  import opened Messages
  import opened Primitives
  import opened BlobStore
  import opened BlobCodec
  import opened Calls
  import opened Steps
  import opened Invariant
  import InMemory
  import Digests

  function ResultReply(r: Result<ActionResult, Code>): Reply {
    match r
    case Failure(code) => Refused(code)
    case Success(result) => Cached(result)
  }

  /** What a validation may do to the store: write the empty blob, uncompressed, or nothing. */
  predicate OnlyEmptyWritten(scope: Scope, before: Store, after: Store) {
    after == before || after == before[scope.CasKey(EMPTY_SHA256) := IdentityBlob([])]
  }

  /** The result was recorded, after a validation that wrote the empty blob at most. */
  ghost predicate RecordedOver(p: Primitives, scope: Scope, hash: string, result: ActionResult, before: Store,
          after: Store) {
    && RecordedBlob(p, result).Success?
    && exists checked: Store ::
         OnlyEmptyWritten(scope, before, checked)
         && after == checked[scope.AcKey(hash) := RecordedBlob(p, result).value]
  }

  lemma {:induction false} DirectoriesDigestsSplit(first: Directory, rest: seq<Directory>)
    ensures var all := DirectoriesDigests([first] + rest);
            all == match (NodeDigests(first.files), DirectoriesDigests(rest))
                   case (Some(a), Some(b)) => Some(a + b)
                   case _ => None
  {
    assert ([first] + rest)[1..] == rest;
  }

  /** Pushes a directory's file digests onto the list, or finds one missing. */
  method PushFiles(files: seq<FileNode>, digests: seq<Digest>) returns (r: Option<seq<Digest>>)
    ensures r == if NodeDigests(files).Some? then Some(digests + NodeDigests(files).value) else None
  {
    var pushed := digests;
    for i := 0 to |files|
      invariant NodeDigests(files[i..]).Some? <==> NodeDigests(files).Some?
      invariant NodeDigests(files).Some? ==>
                  pushed + NodeDigests(files[i..]).value == digests + NodeDigests(files).value
    {
      assert files[i..][1..] == files[i + 1..];
      if files[i].digest.None? {
        return None;
      }
      pushed := pushed + [files[i].digest.value];
    }
    assert files[|files|..] == [] && pushed + [] == pushed;
    return Some(pushed);
  }

  method PushChildren(children: seq<Directory>, digests: seq<Digest>) returns (r: Option<seq<Digest>>)
    ensures r == if DirectoriesDigests(children).Some? then Some(digests + DirectoriesDigests(children).value) else None
  {
    hide NodeDigests;
    var pushed := digests;
    for i := 0 to |children|
      invariant DirectoriesDigests(children[i..]).Some? <==> DirectoriesDigests(children).Some?
      invariant DirectoriesDigests(children).Some? ==>
                  pushed + DirectoriesDigests(children[i..]).value == digests + DirectoriesDigests(children).value
    {
      assert children[i..][1..] == children[i + 1..];
      var more := PushFiles(children[i].files, pushed);
      if more.None? {
        return None;
      }
      if DirectoriesDigests(children).Some? {
        Regroup(pushed, NodeDigests(children[i].files).value, DirectoriesDigests(children[i + 1..]).value);
      }
      pushed := more.value;
    }
    assert children[|children|..] == [] && pushed + [] == pushed;
    return Some(pushed);
  }

  lemma Regroup(a: seq<Digest>, b: seq<Digest>, c: seq<Digest>)
    ensures (a + b) + c == a + (b + c)
  {
  }

  /** The root's files first, then each child's. */
  method CollectTreeFileDigests(tree: Tree, digests: seq<Digest>,
          missingCode: Code) returns (r: Result<seq<Digest>, Code>)
    ensures r == if TreeDigests(tree).Some? then Success(digests + TreeDigests(tree).value) else Failure(missingCode)
    ensures r.Success? <==>
            && tree.root.Some? && FilesComplete(tree.root.value.files)
            && forall c | 0 <= c < |tree.children| :: FilesComplete(tree.children[c].files)
    ensures r.Success? ==> digests <= r.value
    ensures r.Success? ==>
              forall d :: d in r.value[|digests|..] <==>
                          || HasFile(tree.root.value.files, d)
                          || exists c | 0 <= c < |tree.children| :: HasFile(tree.children[c].files, d)
  {
    TreeDigestsAreAll(tree);
    if tree.root.None? {
      return Failure(missingCode);
    }
    DirectoriesDigestsSplit(tree.root.value, tree.children);
    hide NodeDigests, DirectoriesDigests;
    var fromRoot := PushFiles(tree.root.value.files, digests);
    if fromRoot.None? {
      return Failure(missingCode);
    }
    var fromAll := PushChildren(tree.children, fromRoot.value);
    if fromAll.None? {
      return Failure(missingCode);
    }
    Regroup(digests, NodeDigests(tree.root.value.files).value, DirectoriesDigests(tree.children).value);
    return Success(fromAll.value);
  }

  /** The digests the result itself names. */
  method CollectResultDigests(result: ActionResult) returns (r: Option<seq<Digest>>)
    ensures r == ResultDigests(result)
  {
    var files := result.outputFiles;
    var digests: seq<Digest> := [];
    for i := 0 to |files|
      invariant FileDigests(files[i..]).Some? <==> FileDigests(files).Some?
      invariant FileDigests(files).Some? ==> digests + FileDigests(files[i..]).value == FileDigests(files).value
    {
      assert files[i..][1..] == files[i + 1..];
      if files[i].digest.None? {
        return None;
      }
      digests := digests + [files[i].digest.value];
    }
    assert files[|files|..] == [] && digests + [] == digests;
    ghost var own := digests;
    if result.stdoutDigest.Some? {
      digests := digests + [result.stdoutDigest.value];
    }
    if result.stderrDigest.Some? {
      digests := digests + [result.stderrDigest.value];
    }
    assert digests == own + OptionalDigest(result.stdoutDigest) + OptionalDigest(result.stderrDigest);
    return Some(digests);
  }

  class ActionCacheService {
    const p: Primitives
    const store: InMemory.InMemoryStore

    constructor (p: Primitives, store: InMemory.InMemoryStore)
      ensures this.p == p && this.store == store
    {
      this.p := p;
      this.store := store;
    }

    /** The files of the output tree under a digest, appended to the list. */
    method AppendTree(job: Job, next: nat, digests: seq<Digest>) returns (r: Result<seq<Digest>, Code>)
      requires next < |job.result.outputDirectories|
      ensures Step(p, CollectingTrees(job, next, digests), store.blobs, store.poisoned) ==
              (if r.Failure? then Done(Refused(r.error)) else CollectingTrees(job, next + 1, r.value), store.blobs)
    {
      hide Step;
      CollectingStep(p, job, next, digests, store.blobs, store.poisoned);
      var treeDigest := job.result.outputDirectories[next].treeDigest;
      if treeDigest.None? {
        return Failure(job.MissingCode());
      }
      var found := store.Get(job.scope.CasKey(treeDigest.value.hash));
      if found.Failure? {
        return Failure(Internal);
      }
      if found.value.None? {
        return Failure(job.MissingCode());
      }
      var bytes := IntoIdentity(p, found.value.value);
      if bytes.Failure? {
        return Failure(Internal);
      }
      var tree := p.decodeTree(bytes.value);
      if tree.None? {
        return Failure(Internal);
      }
      r := CollectTreeFileDigests(tree.value, digests, job.MissingCode());
    }

    /** Collects every digest the result refers to, then checks each; the only write is the
        empty blob. On success every digest the result itself names is in the store. */
    method ValidateActionResultArtifacts(job: Job) returns (r: Result<(), Code>)
      modifies store`blobs
      ensures Finish(p, BeginValidation(job), old(store.blobs), store.poisoned) ==
              if r.Failure? then (Refused(r.error), store.blobs)
              else Finish(p, Validated(job), store.blobs, store.poisoned)
      ensures OnlyEmptyWritten(job.scope, old(store.blobs), store.blobs)
      ensures r.Success? ==> ResultDigests(job.result).Some? &&
                             forall i | 0 <= i < |ResultDigests(job.result).value| ::
                               job.scope.CasKey(ResultDigests(job.result).value[i].hash) in store.blobs
    {
      hide Step, AfterTree;
      ghost var outcome := Finish(p, BeginValidation(job), store.blobs, store.poisoned);
      var collected := CollectResultDigests(job.result);
      if collected.None? {
        return Failure(job.MissingCode());
      }
      var digests := collected.value;
      for i := 0 to |job.result.outputDirectories|
        invariant collected.value <= digests
        invariant store.blobs == old(store.blobs)
        invariant Finish(p, CollectingTrees(job, i, digests), store.blobs, store.poisoned) == outcome
      {
        var more := AppendTree(job, i, digests);
        if more.Failure? {
          return Failure(more.error);
        }
        CollectedGrow(p, job, i, digests, store.blobs, store.poisoned);
        digests := more.value;
      }
      CollectingStep(p, job, |job.result.outputDirectories|, digests, store.blobs, store.poisoned);
      for i := 0 to |digests|
        invariant OnlyEmptyWritten(job.scope, old(store.blobs), store.blobs)
        invariant forall n | 0 <= n < i :: job.scope.CasKey(digests[n].hash) in store.blobs
        invariant Finish(p, CheckingArtifacts(job, i, digests), store.blobs, store.poisoned) == outcome
      {
        CheckingStep(p, job, i, digests, store.blobs, store.poisoned);
        var digest := digests[i];
        var key := job.scope.CasKey(digest.hash);
        if IsEmptyBlob(digest) {
          var emptyBlob := IdentityBlob([]);
          var put := store.Put(key, emptyBlob.metadata, emptyBlob.data);
          if put.Failure? {
            return Failure(Internal);
          }
          continue;
        }
        var contained := store.Contains(key);
        if contained.Failure? {
          return Failure(Internal);
        }
        if !contained.value {
          return Failure(job.MissingCode());
        }
      }
      CheckingStep(p, job, |digests|, digests, store.blobs, store.poisoned);
      assert forall n | 0 <= n < |collected.value| :: digests[n] == collected.value[n];
      return Success(());
    }

    method GetActionResult(instance: string, digestFunction: Int32,
            actionDigest: Option<Digest>) returns (r: Result<ActionResult, Code>)
      modifies store`blobs
      ensures RunAlone(p, GetResult(instance, digestFunction, actionDigest), old(store.blobs), store.poisoned) ==
          (ResultReply(r), store.blobs)
      ensures OnlyEmptyWritten(Scope(instance, Sha256), old(store.blobs), store.blobs)
      ensures actionDigest.None? || digestFunction !in {0, 1} ==>
                r == Failure(InvalidArgument) && store.blobs == old(store.blobs)
      ensures (&& actionDigest.Some? && digestFunction in {0, 1} && !store.poisoned
               && Scope(instance, Sha256).AcKey(actionDigest.value.hash) !in old(store.blobs)) ==>
                r == Failure(NotFound) && store.blobs == old(store.blobs)
    {
      hide Step, BeginValidation;
      if actionDigest.None? {
        return Failure(InvalidArgument);
      }
      var algorithm := Digests.ResolveProtoValue(digestFunction);
      if algorithm.None? {
        return Failure(InvalidArgument);
      }
      var scope, hash := Scope(instance, algorithm.value), actionDigest.value.hash;
      LoadingResultStep(p, scope, hash, store.blobs, store.poisoned);
      if Step(p, LoadingResult(scope, hash), store.blobs, store.poisoned).0.Done? {
        LastStep(p, LoadingResult(scope, hash), store.blobs, store.poisoned);
      }
      var found := store.Get(scope.AcKey(hash));
      if found.Failure? {
        return Failure(Internal);
      }
      if found.value.None? {
        return Failure(NotFound);
      }
      var bytes := IntoIdentity(p, found.value.value);
      if bytes.Failure? {
        return Failure(Internal);
      }
      var result := p.decodeResult(bytes.value);
      if result.None? {
        return Failure(Internal);
      }
      var validated := ValidateActionResultArtifacts(Job(scope, hash, result.value, false));
      return if validated.Failure? then Failure(validated.error) else Success(result.value);
    }

    /** On success the result, and nothing but the result, is what was given, and it is recorded. */
    method UpdateActionResult(instance: string, digestFunction: Int32, actionDigest: Option<Digest>,
            actionResult: Option<ActionResult>)
      returns (r: Result<ActionResult, Code>)
      modifies store`blobs
      ensures RunAlone(p, UpdateResult(instance, digestFunction, actionDigest, actionResult),
                       old(store.blobs), store.poisoned)
              == (ResultReply(r), store.blobs)
      ensures r.Failure? ==> OnlyEmptyWritten(Scope(instance, Sha256), old(store.blobs), store.blobs)
      ensures actionDigest.None? || actionResult.None? || digestFunction !in {0, 1} ==>
                r == Failure(InvalidArgument) && store.blobs == old(store.blobs)
      ensures (&& actionDigest.Some? && actionResult.Some? && digestFunction in {0, 1} && !store.poisoned
               && Scope(instance, Sha256).CasKey(actionDigest.value.hash) !in old(store.blobs)) ==>
                r == Failure(FailedPrecondition) && store.blobs == old(store.blobs)
      ensures r.Success? ==> actionDigest.Some? && actionResult == Some(r.value)
      ensures r.Success? ==> RecordedOver(p, Scope(instance, Sha256), actionDigest.value.hash, r.value,
          old(store.blobs), store.blobs)
    {
      hide Step, BeginValidation, RecordedBlob;
      if actionDigest.None? || actionResult.None? {
        return Failure(InvalidArgument);
      }
      var algorithm := Digests.ResolveProtoValue(digestFunction);
      if algorithm.None? {
        return Failure(InvalidArgument);
      }
      var scope, hash, result := Scope(instance, algorithm.value), actionDigest.value.hash, actionResult.value;
      LoadingActionStep(p, scope, hash, result, store.blobs, store.poisoned);
      if Step(p, LoadingAction(scope, hash, result), store.blobs, store.poisoned).0.Done? {
        LastStep(p, LoadingAction(scope, hash, result), store.blobs, store.poisoned);
      }
      var found := store.Get(scope.CasKey(hash));
      if found.Failure? {
        return Failure(Internal);
      }
      if found.value.None? {
        return Failure(FailedPrecondition);
      }
      var bytes := IntoIdentity(p, found.value.value);
      if bytes.Failure? {
        return Failure(FailedPrecondition);
      }
      var action := p.decodeAction(bytes.value);
      if action.None? || action.value.commandDigest.None? {
        return Failure(FailedPrecondition);
      }
      var command := action.value.commandDigest.value;
      r := RecordOnceChecked(scope, hash, result, command);
    }

    /** From the command check on. */
    method RecordOnceChecked(scope: Scope, hash: string, result: ActionResult,
            command: Digest) returns (r: Result<ActionResult, Code>)
      modifies store`blobs
      ensures Finish(p, CheckingCommand(scope, hash, result, command), old(store.blobs), store.poisoned) ==
          (ResultReply(r), store.blobs)
      ensures r.Failure? ==> OnlyEmptyWritten(scope, old(store.blobs), store.blobs)
      ensures r.Success? ==> r.value == result && RecordedOver(p, scope, hash, result, old(store.blobs), store.blobs)
    {
      hide Step, BeginValidation;
      CheckingCommandStep(p, scope, hash, result, command, store.blobs, store.poisoned);
      var contained := store.Contains(scope.CasKey(command.hash));
      if contained.Failure? {
        return Failure(Internal);
      }
      if !contained.value {
        return Failure(FailedPrecondition);
      }
      var validated := ValidateActionResultArtifacts(Job(scope, hash, result, true));
      if validated.Failure? {
        return Failure(validated.error);
      }
      ghost var checked := store.blobs;
      RecordingStep(p, scope, hash, result, store.blobs, store.poisoned);
      LastStep(p, Recording(scope, hash, result), store.blobs, store.poisoned);
      var stored := TranscodeBlob(p, IdentityBlob(p.encodeResult(result)), Zstd);
      if stored.Failure? {
        return Failure(Internal);
      }
      var put := store.Put(scope.AcKey(hash), stored.value.metadata, stored.value.data);
      if put.Failure? {
        return Failure(Internal);
      }
      assert store.blobs == checked[scope.AcKey(hash) := RecordedBlob(p, result).value];
      return Success(result);
    }
  }

  lemma CollectedGrow(p: Primitives, job: Job, next: nat, digests: seq<Digest>, store: Store, fault: bool)
    requires next < |job.result.outputDirectories|
    ensures var pc := Step(p, CollectingTrees(job, next, digests), store, fault).0;
            pc.CollectingTrees? ==> digests <= pc.digests
  {
    hide Step, IntoIdentityData, TreeDigests;
    CollectingStep(p, job, next, digests, store, fault);
  }
}
