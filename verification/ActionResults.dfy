/** The ActionCache calls on their own: exactly which results an update records, and that a
    get answers exactly when there is an entry. */
module ActionResults {
  import opened Wrappers
  import opened Messages
  import opened Primitives
  import opened BlobStore
  import opened BlobCodec
  import opened Calls
  import opened Server
  import opened Steps
  import opened Invariant
  import Digests

  /** The result's own digests and those of its first n trees, in order; None if a digest, a
      tree or a root is missing or a tree does not decode. */
  function GatherFirst(p: Primitives, store: Store, scope: Scope, r: ActionResult, n: nat): Option<seq<Digest>>
    requires n <= |r.outputDirectories|
  {
    if n == 0 then ResultDigests(r)
    else
      var treeDigest := r.outputDirectories[n - 1].treeDigest;
      match GatherFirst(p, store, scope, r, n - 1)
      case None => None
      case Some(digests) =>
        if treeDigest.None? then None
        else match TreeFiles(p, store, scope, treeDigest.value)
          case None => None
          case Some(files) => Some(digests + files)
  }

  /** Stored, but not the encoding of a tree. */
  predicate Undecodable(p: Primitives, store: Store, scope: Scope, d: Digest) {
    var key := scope.CasKey(d.hash);
    key in store && p.decodeTree(ContentOf(p, store[key])).None?
  }

  /** The code of a validation whose first n trees cannot all be gathered, decided by the first
      of them that cannot: Internal if it is there and does not decode, else the given one. */
  function GatherRefusal(p: Primitives, store: Store, scope: Scope, r: ActionResult, n: nat, missing: Code): Code
    requires n <= |r.outputDirectories| && GatherFirst(p, store, scope, r, n).None?
  {
    if n == 0 then missing
    else if GatherFirst(p, store, scope, r, n - 1).None? then GatherRefusal(p, store, scope, r, n - 1, missing)
    else
      var treeDigest := r.outputDirectories[n - 1].treeDigest;
      if treeDigest.Some? && Undecodable(p, store, scope, treeDigest.value) then Internal else missing
  }

  /** Digest i is in the store, or is for the empty blob and an exact empty digest comes no later. */
  predicate PassesAt(store: Store, scope: Scope, digests: seq<Digest>, i: nat)
    requires i < |digests|
  {
    Present(store, scope, digests[i]) ||
    (digests[i].hash == EMPTY_SHA256 && exists j | 0 <= j <= i :: IsEmptyBlob(digests[j]))
  }

  /** The first digest from n on that does not pass, or the number of digests. */
  function FirstAbsent(store: Store, scope: Scope, digests: seq<Digest>, n: nat): (i: nat)
    requires n <= |digests|
    ensures n <= i <= |digests|
    ensures forall k | n <= k < i :: PassesAt(store, scope, digests, k)
    ensures i < |digests| ==> !PassesAt(store, scope, digests, i)
    decreases |digests| - n
  {
    if n == |digests| || !PassesAt(store, scope, digests, n) then n else FirstAbsent(store, scope, digests, n + 1)
  }

  predicate Passes(store: Store, scope: Scope, digests: seq<Digest>) {
    forall i | 0 <= i < |digests| :: PassesAt(store, scope, digests, i)
  }

  predicate AllThere(p: Primitives, store: Store, scope: Scope, r: ActionResult) {
    var digests := GatherFirst(p, store, scope, r, |r.outputDirectories|);
    digests.Some? && Passes(store, scope, digests.value)
  }

  /** The terms of an update: its action and command are in the CAS, everything the result
      refers to is there or empty, and the encoded result is within the limit. */
  predicate Recordable(p: Primitives, store: Store, scope: Scope, actionHash: string, r: ActionResult) {
    && ActionReady(p, store, scope, actionHash)
    && AllThere(p, store, scope, r)
    && |p.encodeResult(r)| <= MAX_DECOMPRESSED_BLOB_SIZE
  }

  /** The store once the first n digests have been checked. */
  function EmptyIfMet(store: Store, scope: Scope, digests: seq<Digest>, n: nat): Store
    requires n <= |digests|
  {
    if exists j | 0 <= j < n :: IsEmptyBlob(digests[j])
    then store[scope.CasKey(EMPTY_SHA256) := IdentityBlob([])]
    else store
  }

  lemma {:induction false} ChecksPass(p: Primitives, job: Job, digests: seq<Digest>, n: nat, store: Store)
    requires n <= |digests| && forall i | 0 <= i < n :: PassesAt(store, job.scope, digests, i)
    ensures Finish(p, CheckingArtifacts(job, n, digests), EmptyIfMet(store, job.scope, digests, n), false) ==
            if Passes(store, job.scope, digests)
            then Finish(p, Validated(job), EmptyIfMet(store, job.scope, digests, |digests|), false)
            else (Refused(job.MissingCode()),
                  EmptyIfMet(store, job.scope, digests, FirstAbsent(store, job.scope, digests, n)))
    decreases |digests| - n
  {
    hide Step;
    var here := EmptyIfMet(store, job.scope, digests, n);
    CheckingStep(p, job, n, digests, here, false);
    if n == |digests| {
    } else {
      CheckOne(job, digests, n, store);
      if PassesAt(store, job.scope, digests, n) {
        ChecksPass(p, job, digests, n + 1, store);
      } else {
        LastStep(p, CheckingArtifacts(job, n, digests), here, false);
      }
    }
  }

  lemma CheckOne(job: Job, digests: seq<Digest>, n: nat, store: Store)
    requires n < |digests|
    ensures var here, next := EmptyIfMet(store, job.scope, digests, n), EmptyIfMet(store, job.scope, digests, n + 1);
            var key := job.scope.CasKey(digests[n].hash);
            if IsEmptyBlob(digests[n])
            then next == here[key := IdentityBlob([])] && PassesAt(store, job.scope, digests, n)
            else next == here && (key in here <==> PassesAt(store, job.scope, digests, n))
  {
  }

  lemma {:induction false} TreesGather(p: Primitives, job: Job, n: nat, store: Store)
    requires Lawful(p) && StoreOk(p, store) && n <= |job.result.outputDirectories|
    requires GatherFirst(p, store, job.scope, job.result, n).Some?
    ensures var here := Finish(p, CollectingTrees(job, n, GatherFirst(p, store, job.scope, job.result, n).value),
                               store, false);
            var all := GatherFirst(p, store, job.scope, job.result, |job.result.outputDirectories|);
            if all.Some? then here == Finish(p, CheckingArtifacts(job, 0, all.value), store, false)
            else here == (Refused(GatherRefusal(p, store, job.scope, job.result, |job.result.outputDirectories|,
                                                job.MissingCode())), store)
    decreases |job.result.outputDirectories| - n
  {
    hide Step, StoreOk, ContentOf, IntoIdentityData, TreeDigests;
    var directories := job.result.outputDirectories;
    var digests := GatherFirst(p, store, job.scope, job.result, n).value;
    CollectingStep(p, job, n, digests, store, false);
    if n == |directories| {
    } else {
      TreeStep(p, job, n, digests, store);
      if GatherFirst(p, store, job.scope, job.result, n + 1).Some? {
        TreesGather(p, job, n + 1, store);
      } else {
        GatherNeedsAll(p, store, job.scope, job.result, n + 1, |directories|, job.MissingCode());
        LastStep(p, CollectingTrees(job, n, digests), store, false);
      }
    }
  }

  /** One tree that cannot be gathered settles the matter. */
  lemma {:induction false} GatherNeedsAll(p: Primitives, store: Store, scope: Scope, r: ActionResult, i: nat, n: nat,
          missing: Code)
    requires i <= n <= |r.outputDirectories| && GatherFirst(p, store, scope, r, i).None?
    ensures GatherFirst(p, store, scope, r, n).None?
    ensures GatherRefusal(p, store, scope, r, n, missing) == GatherRefusal(p, store, scope, r, i, missing)
    decreases n
  {
    hide TreeFiles, Undecodable;
    if i == n {
    } else {
      GatherNeedsAll(p, store, scope, r, i, n - 1, missing);
    }
  }

  lemma TreeStep(p: Primitives, job: Job, n: nat, digests: seq<Digest>, store: Store)
    requires Lawful(p) && StoreOk(p, store) && n < |job.result.outputDirectories|
    requires GatherFirst(p, store, job.scope, job.result, n) == Some(digests)
    ensures var more := GatherFirst(p, store, job.scope, job.result, n + 1);
            var (pc, after) := Step(p, CollectingTrees(job, n, digests), store, false);
            && after == store
            && pc == if more.Some? then CollectingTrees(job, n + 1, more.value)
                     else Done(Refused(GatherRefusal(p, store, job.scope, job.result, n + 1, job.MissingCode())))
  {
    hide Step, StoreOk, ContentOf, IntoIdentityData, TreeDigests;
    CollectingStep(p, job, n, digests, store, false);
    var treeDigest := job.result.outputDirectories[n].treeDigest;
    if treeDigest.Some? && job.scope.CasKey(treeDigest.value.hash) in store {
      EntryDecodes(p, store, job.scope.CasKey(treeDigest.value.hash));
    }
  }

  /** A validation in full: success exactly when everything is there; a refusal with the code of
      the first thing that is not, having written the empty blob only if it was met before that. */
  lemma ValidationOutcome(p: Primitives, job: Job, store: Store)
    requires Lawful(p) && StoreOk(p, store)
    ensures var outcome := Finish(p, BeginValidation(job), store, false);
            var n := |job.result.outputDirectories|;
            var gathered := GatherFirst(p, store, job.scope, job.result, n);
            if gathered.None?
            then outcome == (Refused(GatherRefusal(p, store, job.scope, job.result, n, job.MissingCode())), store)
            else var digests := gathered.value;
                 if AllThere(p, store, job.scope, job.result)
                 then outcome == Finish(p, Validated(job), EmptyIfMet(store, job.scope, digests, |digests|), false)
                 else outcome == (Refused(job.MissingCode()),
                                  EmptyIfMet(store, job.scope, digests, FirstAbsent(store, job.scope, digests, 0)))
  {
    var directories := job.result.outputDirectories;
    assert GatherFirst(p, store, job.scope, job.result, 0) == ResultDigests(job.result);
    hide Step, StoreOk, TreeFiles, EmptyIfMet, Validated;
    if ResultDigests(job.result).Some? {
      TreesGather(p, job, 0, store);
      var all := GatherFirst(p, store, job.scope, job.result, |directories|);
      if all.Some? {
        assert EmptyIfMet(store, job.scope, all.value, 0) == store by { NothingMet(store, job.scope, all.value); }
        ChecksPass(p, job, all.value, 0, store);
      }
    } else {
      GatherNeedsAll(p, store, job.scope, job.result, 0, |directories|, job.MissingCode());
    }
  }

  lemma NothingMet(store: Store, scope: Scope, digests: seq<Digest>)
    ensures EmptyIfMet(store, scope, digests, 0) == store
  {
  }

  /** An uncontended, fault-free update over a sound store answers with the result exactly when
      it is recordable; the store then gains that entry, and the empty blob if a digest named it. */
  lemma UpdateAcceptedExactlyWhenRecordable(p: Primitives, instance: string, fn: Int32, digest: Digest,
          r: ActionResult, store: Store)
    requires Lawful(p) && StoreOk(p, store) && fn in {0, 1}
    ensures var scope := Scope(instance, Sha256);
            var (reply, after) := RunAlone(p, UpdateResult(instance, fn, Some(digest), Some(r)), store, false);
            && (reply == Cached(r) <==> Recordable(p, store, scope, digest.hash, r))
            && (reply == Cached(r) || reply.Refused?)
            && (!ActionReady(p, store, scope, digest.hash) ==> (reply, after) == (Refused(FailedPrecondition), store))
            && (ActionReady(p, store, scope, digest.hash) ==>
                  var n := |r.outputDirectories|;
                  var gathered := GatherFirst(p, store, scope, r, n);
                  if gathered.None?
                  then (reply, after) == (Refused(GatherRefusal(p, store, scope, r, n, FailedPrecondition)), store)
                  else if !Passes(store, scope, gathered.value) then reply == Refused(FailedPrecondition)
                  else |p.encodeResult(r)| > MAX_DECOMPRESSED_BLOB_SIZE ==> reply == Refused(Internal))
            && (reply == Cached(r) ==>
                  var digests := GatherFirst(p, store, scope, r, |r.outputDirectories|).value;
                  var checked := EmptyIfMet(store, scope, digests, |digests|);
                  after == checked[scope.AcKey(digest.hash) := Canonical(p, p.encodeResult(r), Zstd)])
  {
    var scope := Scope(instance, Sha256);
    var loading := LoadingAction(scope, digest.hash, r);
    hide Step, StoreOk, Passes, ContentOf, BeginValidation, IntoIdentityData, EmptyIfMet,
         GatherFirst, Canonical, Transcode;
    LoadingActionStep(p, scope, digest.hash, r, store, false);
    var key := scope.CasKey(digest.hash);
    if key in store {
      EntryDecodes(p, store, key);
    }
    var command := CommandOf(p, store, scope, digest.hash);
    if command.None? {
      LastStep(p, loading, store, false);
    } else {
      var checking := CheckingCommand(scope, digest.hash, r, command.value);
      assert Step(p, loading, store, false) == (checking, store);
      CheckingCommandStep(p, scope, digest.hash, r, command.value, store, false);
      if !Present(store, scope, command.value) {
        LastStep(p, checking, store, false);
      } else {
        var job := Job(scope, digest.hash, r, true);
        assert RunAlone(p, UpdateResult(instance, fn, Some(digest), Some(r)), store, false) ==
               Finish(p, loading, store, false);
        assert Finish(p, loading, store, false) == Finish(p, checking, store, false);
        assert Finish(p, checking, store, false) == Finish(p, BeginValidation(job), store, false);
        ValidationOutcome(p, job, store);
        if AllThere(p, store, scope, r) {
          var digests := GatherFirst(p, store, scope, r, |r.outputDirectories|).value;
          RecordingAlone(p, scope, digest.hash, r, EmptyIfMet(store, scope, digests, |digests|));
        }
      }
    }
  }

  lemma RecordingAlone(p: Primitives, scope: Scope, hash: string, r: ActionResult, store: Store)
    requires Lawful(p)
    ensures Finish(p, Recording(scope, hash, r), store, false) ==
            if |p.encodeResult(r)| <= MAX_DECOMPRESSED_BLOB_SIZE
            then (Cached(r), store[scope.AcKey(hash) := Canonical(p, p.encodeResult(r), Zstd)])
            else (Refused(Internal), store)
  {
    RecordingStep(p, scope, hash, r, store, false);
    TranscodeCanonical(p, p.encodeResult(r), Identity, Zstd);
    hide Step, Canonical, Transcode;
    LastStep(p, Recording(scope, hash, r), store, false);
  }

  // ----- Updates, by what the messages refer to ----------------------------

  /** One output directory's tree is there, decodes, has a root and lacks no digest. */
  predicate TreeReadable(p: Primitives, store: Store, scope: Scope, directory: OutputDirectory) {
    && directory.treeDigest.Some?
    && var tree := TreeAt(p, store, scope, directory.treeDigest.value);
       && tree.Some? && tree.value.root.Some? && FilesComplete(tree.value.root.value.files)
       && forall c | 0 <= c < |tree.value.children| :: FilesComplete(tree.value.children[c].files)
  }

  /** The files of the root and of every child of one output directory's tree. */
  predicate TreeRefers(p: Primitives, store: Store, scope: Scope, directory: OutputDirectory, d: Digest) {
    && directory.treeDigest.Some?
    && var tree := TreeAt(p, store, scope, directory.treeDigest.value);
       && tree.Some?
       && (|| (tree.value.root.Some? && HasFile(tree.value.root.value.files, d))
           || exists c | 0 <= c < |tree.value.children| :: HasFile(tree.value.children[c].files, d))
  }

  predicate OwnRefers(r: ActionResult, d: Digest) {
    || (exists i | 0 <= i < |r.outputFiles| :: r.outputFiles[i].digest == Some(d))
    || r.stdoutDigest == Some(d)
    || r.stderrDigest == Some(d)
  }

  /** Every output file has its digest, and the first n trees can be read. */
  predicate Readable(p: Primitives, store: Store, scope: Scope, r: ActionResult, n: nat)
    requires n <= |r.outputDirectories|
  {
    && (forall i | 0 <= i < |r.outputFiles| :: r.outputFiles[i].digest.Some?)
    && (forall k | 0 <= k < n :: TreeReadable(p, store, scope, r.outputDirectories[k]))
  }

  /** The result itself, or one of its first n trees, names this digest. */
  predicate Refers(p: Primitives, store: Store, scope: Scope, r: ActionResult, n: nat, d: Digest)
    requires n <= |r.outputDirectories|
  {
    OwnRefers(r, d) || exists k | 0 <= k < n :: TreeRefers(p, store, scope, r.outputDirectories[k], d)
  }

  lemma ResultDigestsAreAll(r: ActionResult)
    ensures ResultDigests(r).Some? <==> forall i | 0 <= i < |r.outputFiles| :: r.outputFiles[i].digest.Some?
    ensures ResultDigests(r).Some? ==> forall d :: d in ResultDigests(r).value <==> OwnRefers(r, d)
  {
    FileDigestsAreAll(r.outputFiles);
    if ResultDigests(r).Some? {
      var files := FileDigests(r.outputFiles).value;
      forall d
        ensures d in files <==> exists i | 0 <= i < |r.outputFiles| :: r.outputFiles[i].digest == Some(d)
      {
        if d in files {
          var i :| 0 <= i < |files| && files[i] == d;
          assert r.outputFiles[i].digest == Some(d);
        }
      }
    }
  }

  lemma TreeFilesAreAll(p: Primitives, store: Store, scope: Scope, directory: OutputDirectory)
    requires directory.treeDigest.Some?
    ensures var files := TreeFiles(p, store, scope, directory.treeDigest.value);
            && (files.Some? <==> TreeReadable(p, store, scope, directory))
            && (files.Some? ==> forall d :: d in files.value <==> TreeRefers(p, store, scope, directory, d))
  {
    hide ContentOf, TreeDigests, FilesComplete, HasFile;
    if TreeAt(p, store, scope, directory.treeDigest.value).Some? {
      TreeDigestsAreAll(TreeAt(p, store, scope, directory.treeDigest.value).value);
    }
  }

  /** What is gathered is what is referred to, all of it and nothing else. */
  lemma {:induction false} GatheredIsReferred(p: Primitives, store: Store, scope: Scope, r: ActionResult, n: nat)
    requires n <= |r.outputDirectories|
    ensures var gathered := GatherFirst(p, store, scope, r, n);
            && (gathered.Some? <==> Readable(p, store, scope, r, n))
            && (gathered.Some? ==> forall d :: d in gathered.value <==> Refers(p, store, scope, r, n, d))
    decreases n
  {
    hide ResultDigests, OwnRefers, TreeFiles, TreeReadable, TreeRefers;
    if n == 0 {
      ResultDigestsAreAll(r);
    } else {
      GatheredIsReferred(p, store, scope, r, n - 1);
      var directory := r.outputDirectories[n - 1];
      if directory.treeDigest.Some? {
        TreeFilesAreAll(p, store, scope, directory);
      } else {
        assert !TreeReadable(p, store, scope, directory) by { TreeNeedsItsDigest(p, store, scope, directory); }
      }
    }
  }

  lemma TreeNeedsItsDigest(p: Primitives, store: Store, scope: Scope, directory: OutputDirectory)
    requires directory.treeDigest.None?
    ensures !TreeReadable(p, store, scope, directory)
  {
  }

  /** An uncontended, fault-free update, decided by what its messages refer to: it is refused with
      FailedPrecondition when its action or command, or anything but the empty blob, is missing; it
      succeeds when all is there, the empty blob needing no upload; and then stores that blob. */
  lemma UpdateDecidedByItsReferences(p: Primitives, instance: string, fn: Int32, digest: Digest, r: ActionResult,
          store: Store)
    requires Lawful(p) && StoreOk(p, store) && fn in {0, 1}
    ensures var scope, n := Scope(instance, Sha256), |r.outputDirectories|;
            var (reply, after) := RunAlone(p, UpdateResult(instance, fn, Some(digest), Some(r)), store, false);
            var ready := ActionReady(p, store, scope, digest.hash);
            var readable := Readable(p, store, scope, r, n);
            var small := |p.encodeResult(r)| <= 104_857_600;
            var found := forall d | Refers(p, store, scope, r, n, d) ::
                           Present(store, scope, d) || d == Digest(EMPTY_SHA256, 0);
            && (ready && readable && found ==> reply == if small then Cached(r) else Refused(Internal))
            && (reply == Cached(r) ==>
                  && ready && readable && small
                  && forall d | Refers(p, store, scope, r, n, d) ::
                       || Present(store, scope, d)
                       || (d.hash == EMPTY_SHA256 && Refers(p, store, scope, r, n, Digest(EMPTY_SHA256, 0))))
            && (!ready ==> reply == Refused(FailedPrecondition))
            && (forall d | && ready && readable && Refers(p, store, scope, r, n, d) && !Present(store, scope, d)
                           && (d.hash != EMPTY_SHA256 || !Refers(p, store, scope, r, n, Digest(EMPTY_SHA256, 0))) ::
                  reply == Refused(FailedPrecondition))
            && (reply == Cached(r) && Refers(p, store, scope, r, n, Digest(EMPTY_SHA256, 0)) ==>
                  var key := scope.CasKey(EMPTY_SHA256);
                  key in after && after[key] == Blob(Metadata(Identity, 0, 0), []))
  {
    var scope, n := Scope(instance, Sha256), |r.outputDirectories|;
    UpdateAcceptedExactlyWhenRecordable(p, instance, fn, digest, r, store);
    GatheredIsReferred(p, store, scope, r, n);
    if Readable(p, store, scope, r, n) {
      PassesMeans(store, scope, GatherFirst(p, store, scope, r, n).value);
    }
    hide StoreOk, ActionReady, Readable, Refers, GatherFirst, RunAlone, Passes, Canonical, Present;
  }

  lemma PassesMeans(store: Store, scope: Scope, digests: seq<Digest>)
    ensures (forall d | d in digests :: Present(store, scope, d) || d == Digest(EMPTY_SHA256, 0)) ==>
              Passes(store, scope, digests)
    ensures Passes(store, scope, digests) ==>
              forall d | d in digests ::
                Present(store, scope, d) || (d.hash == EMPTY_SHA256 && Digest(EMPTY_SHA256, 0) in digests)
    ensures Digest(EMPTY_SHA256, 0) in digests ==>
              EmptyIfMet(store, scope, digests, |digests|) == store[scope.CasKey(EMPTY_SHA256) := IdentityBlob([])]
  {
    hide Present;
    if Passes(store, scope, digests) {
      forall d | d in digests
        ensures Present(store, scope, d) || (d.hash == EMPTY_SHA256 && Digest(EMPTY_SHA256, 0) in digests)
      {
        var i :| 0 <= i < |digests| && digests[i] == d;
        assert PassesAt(store, scope, digests, i);
        if !Present(store, scope, d) {
          var j :| 0 <= j <= i && IsEmptyBlob(digests[j]);
          assert digests[j] == Digest(EMPTY_SHA256, 0);
        }
      }
    }
    if forall d | d in digests :: Present(store, scope, d) || d == Digest(EMPTY_SHA256, 0) {
      forall i | 0 <= i < |digests|
        ensures PassesAt(store, scope, digests, i)
      {
        assert digests[i] in digests;
        assert digests[i] == Digest(EMPTY_SHA256, 0) ==> IsEmptyBlob(digests[i]);
      }
    }
    if Digest(EMPTY_SHA256, 0) in digests {
      var j :| 0 <= j < |digests| && digests[j] == Digest(EMPTY_SHA256, 0);
      assert IsEmptyBlob(digests[j]);
    }
  }

  // ----- Gets --------------------------------------------------------------

  lemma {:induction false} ClosedGathers(p: Primitives, store: Store, scope: Scope, r: ActionResult, n: nat)
    requires Closed(p, store, scope, r) && n <= |r.outputDirectories|
    ensures var digests := GatherFirst(p, store, scope, r, n);
            digests.Some? && AllPresent(store, scope, digests.value)
    decreases n
  {
    hide TreeFiles;
    if n == 0 {
      ClosedResultDigests(p, store, scope, r);
    } else {
      ClosedGathers(p, store, scope, r, n - 1);
      assert TreeClosed(p, store, scope, r.outputDirectories[n - 1]);
      TreeClosedMeans(p, store, scope, r.outputDirectories[n - 1]);
    }
  }

  lemma ClosedIsThere(p: Primitives, store: Store, scope: Scope, r: ActionResult)
    requires Closed(p, store, scope, r)
    ensures AllThere(p, store, scope, r)
  {
    hide Closed;
    ClosedGathers(p, store, scope, r, |r.outputDirectories|);
  }

  /** An uncontended, fault-free get over a sound store answers exactly when there is an entry, with
      what the entry records, and is NotFound otherwise: recorded results never go stale. */
  lemma GetAnsweredExactlyWhenRecorded(p: Primitives, instance: string, fn: Int32, digest: Digest, store: Store)
    requires Lawful(p) && StoreOk(p, store) && fn in {0, 1}
    ensures var scope := Scope(instance, Sha256);
            var key := scope.AcKey(digest.hash);
            var outcome := RunAlone(p, GetResult(instance, fn, Some(digest)), store, false);
            if key in store
            then && ResultOf(p, store[key]).Some?
                 && var r := ResultOf(p, store[key]).value;
                    && GatherFirst(p, store, scope, r, |r.outputDirectories|).Some?
                    && var digests := GatherFirst(p, store, scope, r, |r.outputDirectories|).value;
                       outcome == (Cached(r), EmptyIfMet(store, scope, digests, |digests|))
            else outcome == (Refused(NotFound), store)
  {
    var scope := Scope(instance, Sha256);
    var key, loading := scope.AcKey(digest.hash), LoadingResult(scope, digest.hash);
    hide Step, StoreOk, BeginValidation, IntoIdentityData, EmptyIfMet, GatherFirst, Closed, Passes, ContentOf;
    LoadingResultStep(p, scope, digest.hash, store, false);
    assert RunAlone(p, GetResult(instance, fn, Some(digest)), store, false) == Finish(p, loading, store, false);
    if key in store {
      EntryDecodes(p, store, key);
      StoreOkEntry(p, store, key);
      var job := Job(scope, digest.hash, ResultOf(p, store[key]).value, false);
      assert Finish(p, loading, store, false) == Finish(p, BeginValidation(job), store, false);
      ClosedIsThere(p, store, scope, job.result);
      ValidationOutcome(p, job, store);
    } else {
      LastStep(p, loading, store, false);
    }
  }

  /** Over any store, sound or not: a get whose entry does not decode is Internal. */
  lemma GetOfCorruptEntry(p: Primitives, instance: string, fn: Int32, digest: Digest, store: Store)
    requires fn in {0, 1} && Scope(instance, Sha256).AcKey(digest.hash) in store
    requires var bytes := IntoIdentityData(p, store[Scope(instance, Sha256).AcKey(digest.hash)]);
             bytes.Failure? || p.decodeResult(bytes.value).None?
    ensures RunAlone(p, GetResult(instance, fn, Some(digest)), store, false) == (Refused(Internal), store)
  {
    var loading := LoadingResult(Scope(instance, Sha256), digest.hash);
    LoadingResultStep(p, loading.scope, digest.hash, store, false);
    hide Step, IntoIdentityData;
    LastStep(p, loading, store, false);
  }

  /** Over any store: a get whose entry names a file or stream that is missing is NotFound. */
  lemma GetOfDanglingEntry(p: Primitives, instance: string, fn: Int32, digest: Digest, store: Store, r: ActionResult,
          missing: Digest)
    requires var key := Scope(instance, Sha256).AcKey(digest.hash);
             && fn in {0, 1} && key in store && IntoIdentityData(p, store[key]).Success?
             && p.decodeResult(IntoIdentityData(p, store[key]).value) == Some(r)
    requires r.outputDirectories == [] && OwnRefers(r, missing)
    requires !Present(store, Scope(instance, Sha256), missing) && missing.hash != EMPTY_SHA256
    ensures RunAlone(p, GetResult(instance, fn, Some(digest)), store, false).0 == Refused(NotFound)
  {
    var scope := Scope(instance, Sha256);
    var loading, job := LoadingResult(scope, digest.hash), Job(scope, digest.hash, r, false);
    LoadingResultStep(p, scope, digest.hash, store, false);
    ResultDigestsAreAll(r);
    hide Step, IntoIdentityData, ResultDigests, OwnRefers, Present;
    assert Finish(p, loading, store, false) == Finish(p, BeginValidation(job), store, false) by {
      if ResultDigests(r).None? {
        LastStep(p, loading, store, false);
      }
    }
    if ResultDigests(r).Some? {
      var digests := ResultDigests(r).value;
      CollectingStep(p, job, 0, digests, store, false);
      assert EmptyIfMet(store, scope, digests, 0) == store by { NothingMet(store, scope, digests); }
      PassesMeans(store, scope, digests);
      hide EmptyIfMet, Passes;
      ChecksPass(p, job, digests, 0, store);
    }
  }

  /** Over any store: an update whose action is absent, does not decode or names no command. */
  lemma UpdateOfUnfitAction(p: Primitives, instance: string, fn: Int32, digest: Digest, r: ActionResult, store: Store)
    requires fn in {0, 1}
    requires var key := Scope(instance, Sha256).CasKey(digest.hash);
             key in store ==>
               var bytes := IntoIdentityData(p, store[key]);
               || bytes.Failure? || p.decodeAction(bytes.value).None?
               || p.decodeAction(bytes.value).value.commandDigest.None?
    ensures RunAlone(p, UpdateResult(instance, fn, Some(digest), Some(r)), store, false) ==
            (Refused(FailedPrecondition), store)
  {
    var loading := LoadingAction(Scope(instance, Sha256), digest.hash, r);
    LoadingActionStep(p, loading.scope, digest.hash, r, store, false);
    hide Step, IntoIdentityData;
    LastStep(p, loading, store, false);
  }

  /** Over any store, one output tree: missing, or lacking its root or a digest, is the missing code;
      there but undecodable is Internal; and else its files are gathered, whatever they are. */
  lemma TreeOutcome(p: Primitives, job: Job, n: nat, digests: seq<Digest>, store: Store)
    requires n < |job.result.outputDirectories|
    ensures var missing := Done(Refused(if job.update then FailedPrecondition else NotFound));
            var treeDigest := job.result.outputDirectories[n].treeDigest;
            var next := Step(p, CollectingTrees(job, n, digests), store, false).0;
            if treeDigest.None? || job.scope.CasKey(treeDigest.value.hash) !in store then next == missing
            else
              var bytes := IntoIdentityData(p, store[job.scope.CasKey(treeDigest.value.hash)]);
              if bytes.Failure? || p.decodeTree(bytes.value).None? then next == Done(Refused(Internal))
              else
                var tree := p.decodeTree(bytes.value).value;
                if || tree.root.None? || !FilesComplete(tree.root.value.files)
                   || exists c | 0 <= c < |tree.children| :: !FilesComplete(tree.children[c].files)
                then next == missing
                else next.CollectingTrees? && next.job == job && next.next == n + 1 && digests <= next.digests
  {
    CollectingStep(p, job, n, digests, store, false);
    var treeDigest := job.result.outputDirectories[n].treeDigest;
    if treeDigest.Some? && job.scope.CasKey(treeDigest.value.hash) in store {
      var bytes := IntoIdentityData(p, store[job.scope.CasKey(treeDigest.value.hash)]);
      if bytes.Success? && p.decodeTree(bytes.value).Some? {
        TreeDigestsAreAll(p.decodeTree(bytes.value).value);
      }
    }
    hide Step, IntoIdentityData, TreeDigests, FilesComplete;
  }
}
